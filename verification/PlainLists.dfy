/** Files whose references stand alone, as in most source lists: there plain lists of words do. */
module PlainLists {
  import opened Text
  import opened Expansion
  import opened SourceList
  import Folding
  import opened WordLists

  type WordTable = map<string, seq<string>>

  function Lists(table: Table): WordTable {
    map n | n in table :: Words(table[n])
  }

  // ---------- expansion word by word ----------

  /** A word that is one reference and nothing else. */
  predicate IsRef(w: string) {
    |w| >= 3 && w[..2] == "$(" && w[|w| - 1] == ')' && Excludes(w[2..|w| - 1], ')')
  }

  function RefName(w: string): string
    requires IsRef(w)
  {
    w[2..|w| - 1]
  }

  /** References stand alone, as they do in source lists. */
  predicate Standalone(rhs: string) {
    var words := Words(rhs);
    forall i | 0 <= i < |words| :: DollarFree(words[i]) || IsRef(words[i])
  }

  function ExpandWords(table: WordTable, words: seq<string>): Result<seq<string>> {
    if words == [] then Ok([])
    else if IsRef(words[0]) && RefName(words[0]) !in table then Err(KeyError(RefName(words[0])))
    else
      var first := if IsRef(words[0]) then table[RefName(words[0])] else [words[0]];
      match ExpandWords(table, words[1..])
      case Err(e) => Err(e)
      case Ok(rest) => Ok(first + rest)
  }

  /** The first word of a text that does not begin with a space, and what follows it. */
  lemma {:induction false} FirstWord(s: string) returns (w: string, rest: string)
    requires s != "" && !IsSpace(s[0])
    ensures s == w + rest && IsWord(w) && SpaceOrEnd(rest)
    ensures Words(s) == [w] + Words(rest)
  {
    hide Words;
    var t := s[1..];
    assert s == [s[0]] + t;
    WordsCons(s[0], t);
    if SpaceOrEnd(t) {
      w, rest := [s[0]], t;
    } else {
      var w', rest' := FirstWord(t);
      w, rest := [s[0]] + w', rest';
      assert s == w + rest;
    }
  }

  /** Words do not run together across a space or at the end. */
  lemma WordsBeforeSpace(front: string, rest: string)
    requires SpaceOrEnd(rest)
    ensures Words(front + rest) == Words(front) + Words(rest)
  {
    hide Words;
    WordsEmpty();
    if rest == "" {
      assert front + rest == front;
    } else if front == "" {
      assert front + rest == rest;
    } else {
      WordsApart(front, rest);
    }
  }

  lemma ExpandKeepsSpace(table: Table, rest: string)
    requires SpaceOrEnd(rest)
    ensures Expand(table, rest).Ok? ==> SpaceOrEnd(Expand(table, rest).value)
  {
    if rest != "" {
      assert rest[..1] == [rest[0]];
      PlainPrefix(table, rest, 1);
    }
  }

  /** The same outcome, seen as words. */
  function AsWords(r: Result<string>): Result<seq<string>> {
    match r
    case Ok(v) => Ok(Words(v))
    case Err(e) => Err(e)
  }

  function PrependWords(front: seq<string>, r: Result<seq<string>>): Result<seq<string>> {
    match r
    case Ok(rest) => Ok(front + rest)
    case Err(e) => Err(e)
  }

  lemma PrependAsWords(front: string, r: Result<string>)
    requires r.Ok? ==> SpaceOrEnd(r.value)
    ensures AsWords(Prepend(front, r)) == PrependWords(Words(front), AsWords(r))
  {
    hide Words;
    if r.Ok? {
      WordsBeforeSpace(front, r.value);
    }
  }

  lemma ExpandFirst(table: Table, w: string, rest: string)
    requires IsWord(w) && SpaceOrEnd(rest) && (DollarFree(w) || IsRef(w))
    ensures AsWords(Expand(table, w + rest)) ==
            if IsRef(w) && RefName(w) !in table then Err(KeyError(RefName(w)))
            else PrependWords(if IsRef(w) then Words(table[RefName(w)]) else [w], AsWords(Expand(table, rest)))
  {
    hide Words, Expand, SpaceOrEnd;
    ExpandKeepsSpace(table, rest);
    if IsRef(w) {
      assert w + rest == "$(" + RefName(w) + ")" + rest;
      ExpandRef(table, RefName(w), rest);
      if RefName(w) in table {
        PrependAsWords(table[RefName(w)], Expand(table, rest));
      }
    } else {
      assert (w + rest)[..|w|] == w && (w + rest)[|w|..] == rest;
      PlainPrefix(table, w + rest, |w|);
      PrependAsWords(w, Expand(table, rest));
      WordsOfWord(w);
    }
  }

  /** Splitting an expanded value is expanding its words one by one, failures included. */
  lemma {:induction false} StandaloneExpansion(table: Table, rhs: string)
    requires Standalone(rhs)
    ensures AsWords(Expand(table, rhs)) == ExpandWords(Lists(table), Words(rhs))
    decreases |rhs|
  {
    hide Expand, DollarFree, IsRef, RefName;
    if rhs == "" {
      ExpandIdentityEmpty(table);
    } else if IsSpace(rhs[0]) {
      assert Words(rhs) == Words(rhs[1..]);
      StandaloneExpansion(table, rhs[1..]);
      ExpandSpace(table, rhs);
    } else {
      var w, rest := FirstWord(rhs);
      var words := Words(rhs);
      assert words[0] == w && words[1..] == Words(rest);
      assert Standalone(rest) by {
        assert forall i | 0 <= i < |Words(rest)| :: Words(rest)[i] == words[i + 1];
      }
      StandaloneExpansion(table, rest);
      ExpandFirst(table, w, rest);
    }
  }

  lemma ExpandIdentityEmpty(table: Table)
    ensures Expand(table, "") == Ok("")
  {
  }

  lemma ExpandSpace(table: Table, rhs: string)
    requires rhs != "" && IsSpace(rhs[0])
    ensures AsWords(Expand(table, rhs)) == AsWords(Expand(table, rhs[1..]))
  {
    hide Words, Expand;
    assert rhs[..1] == [rhs[0]];
    PlainPrefix(table, rhs, 1);
    var r := Expand(table, rhs[1..]);
    if r.Ok? {
      assert [rhs[0]] + r.value == "" + [rhs[0]] + r.value;
      WordsAcrossSpace("", rhs[0], r.value);
      WordsEmpty();
      assert [] + Words(r.value) == Words(r.value);
    }
  }

  // ---------- the interpreter ----------

  function AssignList(table: WordTable, d: Definition): Result<WordTable> {
    match ExpandWords(table, Words(d.rhs))
    case Err(e) => Err(e)
    case Ok(words) =>
      match d.op
      case Overwrite => Ok(table[d.sym := words])
      case Append => if d.sym in table then Ok(table[d.sym := table[d.sym] + words]) else Err(KeyError(d.sym))
      case Default => Ok(if d.sym in table then table else table[d.sym := words])
  }

  /** Every reference in every definition stands alone. */
  predicate ListLike(lines: seq<string>) {
    forall i | 0 <= i < |lines| :: ListLikeLine(lines[i])
  }

  predicate ListLikeLine(line: string) {
    match ParseLogical(line)
    case Ok(Some(d)) => Standalone(d.rhs)
    case _ => true
  }

  function WordsOf(views: ViewTable): WordTable {
    map n | n in views :: views[n].words
  }

  lemma ListsOfViews(table: Table)
    ensures Lists(table) == WordsOf(Abstract(table))
    ensures Lists(table).Keys == table.Keys == Abstract(table).Keys
  {
    hide Words;
  }

  lemma WordsOfUpdate(views: ViewTable, n: string, value: Spaced)
    ensures WordsOf(views[n := value]) == WordsOf(views)[n := value.words]
    ensures n in views ==> n in WordsOf(views) && WordsOf(views)[n] == views[n].words
  {
  }

  lemma ApartWords(a: Spaced, b: Spaced)
    ensures Join(a, Join(SPACE, b)).words == a.words + b.words
  {
  }

  lemma ApplyListCommutes(table: Table, e: Event)
    requires e.op == Append ==> e.sym in table
    ensures Lists(ApplyEvent(table, e)) ==
            match e.op
            case Overwrite => Lists(table)[e.sym := Words(e.val)]
            case Append => Lists(table)[e.sym := Lists(table)[e.sym] + Words(e.val)]
            case Default => if e.sym in table then Lists(table) else Lists(table)[e.sym := Words(e.val)]
  {
    hide Words, Join, Lists, WordsOf, ApplyEvent, Abstract;
    var views, value := Abstract(table), View(e.val);
    ApplyCommutes(table, e);
    ListsOfViews(table);
    ListsOfViews(ApplyEvent(table, e));
    WordsOfUpdate(views, e.sym, value);
    if e.op == Append {
      WordsOfUpdate(views, e.sym, Join(views[e.sym], Join(SPACE, value)));
      ApartWords(views[e.sym], value);
    }
  }

  lemma AssignListCommutes(table: Table, d: Definition)
    requires Standalone(d.rhs)
    ensures Agrees(Lists, AssignList, table, d)
  {
    hide Words, Expand, ExpandWords, Standalone;
    StandaloneExpansion(table, d.rhs);
    if Evaluate(table, d).Ok? {
      ApplyListCommutes(table, Evaluate(table, d).value);
    }
  }

  /** On a list-like file the parser is an interpreter on plain lists of words. */
  lemma ListLikeFiles(s: State, lines: seq<string>)
    requires s.cont == "" && ListLike(Folding.LogicalLines(lines))
    ensures var run := RunLines(s, lines);
            Interpret(AssignList, Lists(s.table), Folding.LogicalLines(lines)) == (Lists(run.state.table), run.error)
  {
    hide RunLines, Interpret, Folding.LogicalLines, AssignList, Lists, ParseLogical, Evaluate, Standalone;
    var logical := Folding.LogicalLines(lines);
    forall i, table: Table | 0 <= i < |logical| && ParseLogical(logical[i]).Ok? && ParseLogical(logical[i]).value.Some?
      ensures Agrees(Lists, AssignList, table, ParseLogical(logical[i]).value.value)
    {
      assert ListLikeLine(logical[i]);
      AssignListCommutes(table, ParseLogical(logical[i]).value.value);
    }
    PhysicalLinesCommute(Lists, AssignList, s, lines);
  }
}
