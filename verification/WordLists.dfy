/** An interpreter on lists of words that never builds a value as a string, and the parser as its
    refinement, for every file. */
module WordLists {
  import opened Options
  import opened Text
  import opened Expansion
  import opened SourceList
  import Folding

  // ---------- values as words ----------

  /** What matters of a value: its words, and whether it begins and ends in white space. */
  datatype Spaced = Spaced(lead: bool, words: seq<string>, trail: bool)

  const NOTHING := Spaced(false, [], false)
  const SPACE := Spaced(true, [], true)

  function View(s: string): Spaced {
    Spaced(s != "" && IsSpace(s[0]), Words(s), s != "" && IsSpace(s[|s| - 1]))
  }

  function Join(a: Spaced, b: Spaced): Spaced {
    if a == NOTHING then b
    else if b == NOTHING then a
    else
      var words := if a.words != [] && !a.trail && b.words != [] && !b.lead then Glue(a.words, b.words)
                   else a.words + b.words;
      Spaced(a.lead, words, b.trail)
  }

  lemma {:induction false} WordsNonEmpty(s: string)
    requires s != "" && !IsSpace(s[|s| - 1])
    ensures Words(s) != []
  {
    if |s| == 1 {
    } else {
      WordsNonEmpty(s[1..]);
    }
  }

  /** Gluing takes place at the other end. */
  lemma GlueInFront(c: char, t: string, w: seq<string>, b: seq<string>)
    requires w != [] && b != []
    ensures InFront(c, t, w) != [] && Glue(w, b) != []
    ensures Glue(InFront(c, t, w), b) == InFront(c, t, Glue(w, b))
  {
    GlueBehind([c], w, b);
    GlueExtended(c, w, b);
  }

  lemma {:induction false} WordsGlued(a: string, b: string)
    requires a != "" && !IsSpace(a[|a| - 1]) && b != "" && !IsSpace(b[0])
    ensures Words(a) != [] && Words(b) != []
    ensures Words(a + b) == Glue(Words(a), Words(b))
  {
    hide Words, Glue, InFront;
    WordsNonEmpty(a);
    WordsStart(b);
    var t := a[1..];
    assert a == [a[0]] + t && a + b == [a[0]] + (t + b);
    if |a| == 1 {
      assert a == [a[0]] && t + b == b;
      WordsOfGlued(a[0], b);
      GlueOne([a[0]], Words(b));
    } else {
      WordsGlued(t, b);
      GlueInFront(a[0], t, Words(t), Words(b));
      WordsCons(a[0], t);
      WordsCons(a[0], t + b);
      InFrontSame(a[0], t, b, Words(t + b));
    }
  }

  lemma InFrontSame(c: char, t: string, b: string, words: seq<string>)
    requires t != "" && words != []
    ensures InFront(c, t + b, words) == InFront(c, t, words)
  {
    assert (t + b)[0] == t[0];
  }

  /** One character in front of a word. */
  lemma WordsOfGlued(c: char, b: string)
    requires !IsSpace(c) && b != "" && !IsSpace(b[0])
    ensures Words(b) != [] && Words([c]) == [[c]]
    ensures Words([c] + b) == [[c] + Words(b)[0]] + Words(b)[1..]
  {
    hide Words;
    WordsStart(b);
    WordsEmpty();
    WordsCons(c, b);
    WordsCons(c, "");
    assert [c] + "" == [c] && [[c]] + [] == [[c]];
  }

  lemma WordsStart(s: string)
    requires s != "" && !IsSpace(s[0])
    ensures Words(s) != []
  {
  }

  lemma {:induction false} WordsApart(a: string, b: string)
    requires a != "" && b != "" && (IsSpace(a[|a| - 1]) || IsSpace(b[0]))
    ensures Words(a + b) == Words(a) + Words(b)
  {
    hide Words;
    WordsEmpty();
    if IsSpace(b[0]) {
      WordsCons(b[0], b[1..]);
      WordsAcrossSpace(a, b[0], b[1..]);
      assert b == [b[0]] + b[1..];
      assert a + b == a + [b[0]] + b[1..];
    } else {
      var front, last := a[..|a| - 1], a[|a| - 1];
      WordsAcrossSpace(front, last, b);
      WordsAcrossSpace(front, last, "");
      assert a == front + [last] + "";
      assert a + b == front + [last] + b;
    }
  }

  lemma ViewNothing(s: string)
    ensures View(s) == NOTHING <==> s == ""
  {
    if s != "" && !IsSpace(s[0]) {
      assert Words(s) != [];
    }
  }

  /** Words with their outer spaces are all that concatenation needs to know. */
  lemma ViewConcat(a: string, b: string)
    ensures View(a + b) == Join(View(a), View(b))
  {
    hide Words;
    ViewNothing(a);
    ViewNothing(b);
    if a == "" {
      assert a + b == b;
    } else if b == "" {
      assert a + b == a;
    } else {
      assert (a + b)[0] == a[0] && (a + b)[|a + b| - 1] == b[|b| - 1];
      if IsSpace(a[|a| - 1]) || IsSpace(b[0]) {
        WordsApart(a, b);
      } else {
        WordsGlued(a, b);
      }
    }
  }

  // ---------- expansion on words ----------

  type ViewTable = map<string, Spaced>

  /** The view of a symbol table that source lists are made from. */
  function Abstract(table: Table): ViewTable {
    map n | n in table :: View(table[n])
  }

  function Prefixed(front: Spaced, r: Result<Spaced>): Result<Spaced> {
    match r
    case Ok(rest) => Ok(Join(front, rest))
    case Err(e) => Err(e)
  }

  function SubstituteViews(tokens: seq<Token>, table: ViewTable): Result<Spaced> {
    if tokens == [] then Ok(NOTHING)
    else
      match tokens[0]
      case Plain(c) => Prefixed(View([c]), SubstituteViews(tokens[1..], table))
      case Ref(name) =>
        if name in table then Prefixed(table[name], SubstituteViews(tokens[1..], table)) else Err(KeyError(name))
      case Bad(_, e) => Err(e)
  }

  function Seen(r: Result<string>): Result<Spaced> {
    match r
    case Ok(v) => Ok(View(v))
    case Err(e) => Err(e)
  }

  lemma SeenPrepend(front: string, r: Result<string>)
    ensures Seen(Prepend(front, r)) == Prefixed(View(front), Seen(r))
  {
    hide View, Join;
    if r.Ok? {
      ViewConcat(front, r.value);
    }
  }

  lemma {:induction false} SubstitutionCommutes(tokens: seq<Token>, table: Table)
    ensures Seen(Substitute(tokens, table)) == SubstituteViews(tokens, Abstract(table))
  {
    hide View, Join;
    if tokens == [] {
      ViewNothing("");
    } else {
      var rest := Substitute(tokens[1..], table);
      SubstitutionCommutes(tokens[1..], table);
      match tokens[0]
      case Plain(c) => SeenPrepend([c], rest);
      case Ref(name) =>
        if name in table {
          SeenPrepend(table[name], rest);
        }
      case Bad(_, _) =>
    }
  }

  function ExpandViews(table: ViewTable, rhs: string): Result<Spaced> {
    SubstituteViews(Tokenize(rhs), table)
  }

  /** Splitting an expanded value is expanding on words, for every text and table, glued references
      and failures included. */
  lemma ExpansionCommutes(table: Table, rhs: string)
    ensures Seen(Expand(table, rhs)) == ExpandViews(Abstract(table), rhs)
  {
    SubstitutionCommutes(Tokenize(rhs), table);
  }

  // ---------- the interpreter ----------

  /** What a complete line says, before anything is expanded. */
  function ParseLogical(line: string): Result<Option<Definition>> {
    if line == "" then Ok(None)
    else
      var body := Lstrip(line);
      if body == "" then Err(IndexError)
      else if body[0] == '#' then Ok(None)
      else if line[0] == '\t' then Err(RecipeLine)
      else
        match ParseDefinition(body)
        case Err(e) => Err(e)
        case Ok(d) => Ok(Some(d))
  }

  function Assign(table: ViewTable, d: Definition): Result<ViewTable> {
    match ExpandViews(table, d.rhs)
    case Err(e) => Err(e)
    case Ok(value) =>
      match d.op
      case Overwrite => Ok(table[d.sym := value])
      case Append =>
        if d.sym in table then Ok(table[d.sym := Join(table[d.sym], Join(SPACE, value))]) else Err(KeyError(d.sym))
      case Default => Ok(if d.sym in table then table else table[d.sym := value])
  }

  /** Runs complete lines on tables of any kind, given what a definition does to them; the first error
      stops it. */
  function Interpret<V>(assign: (V, Definition) -> Result<V>, table: V, lines: seq<string>): (V, Option<Error>)
    decreases |lines|
  {
    if lines == [] then (table, None)
    else
      match ParseLogical(lines[0])
      case Err(e) => (table, Some(e))
      case Ok(None) => Interpret(assign, table, lines[1..])
      case Ok(Some(d)) =>
        match assign(table, d)
        case Err(e) => (table, Some(e))
        case Ok(table') => Interpret(assign, table', lines[1..])
  }

  lemma ApplyCommutes(table: Table, e: Event)
    requires e.op == Append ==> e.sym in table
    ensures Abstract(ApplyEvent(table, e)) ==
            match e.op
            case Overwrite => Abstract(table)[e.sym := View(e.val)]
            case Append => Abstract(table)[e.sym := Join(Abstract(table)[e.sym], Join(SPACE, View(e.val)))]
            case Default => if e.sym in table then Abstract(table) else Abstract(table)[e.sym := View(e.val)]
  {
    hide View, Join;
    if e.op == Append {
      ViewConcat(" ", e.val);
      ViewConcat(table[e.sym], " " + e.val);
      ViewSpace();
    }
  }

  lemma ViewSpace()
    ensures View(" ") == SPACE
  {
    assert " "[1..] == "";
  }

  lemma AssignCommutes(table: Table, d: Definition)
    ensures match Evaluate(table, d)
            case Err(e) => Assign(Abstract(table), d) == Err(e)
            case Ok(event) => Assign(Abstract(table), d) == Ok(Abstract(ApplyEvent(table, event)))
  {
    hide View, Join, Expand, ExpandViews;
    ExpansionCommutes(table, d.rhs);
    if Evaluate(table, d).Ok? {
      ApplyCommutes(table, Evaluate(table, d).value);
    }
  }

  lemma LogicalFromDefinition(table: Table, line: string)
    ensures LogicalEvents(table, line) ==
            match ParseLogical(line)
            case Err(e) => Err(e)
            case Ok(None) => Ok([])
            case Ok(Some(d)) => match Evaluate(table, d) case Err(e) => Err(e) case Ok(event) => Ok([event])
  {
    hide Evaluate, ParseDefinition, Lstrip;
  }

  /** What one complete line does, in terms of the definition on it. */
  lemma StepFromDefinition(s: State, line: string)
    requires s.cont == "" && !Continues(line)
    ensures var step := StepLine(s, line);
            match ParseLogical(line)
            case Err(e) => step.error == Some(e) && step.state.table == s.table
            case Ok(None) => step.error == None && step.state.table == s.table
            case Ok(Some(d)) =>
              match Evaluate(s.table, d)
              case Err(e) => step.error == Some(e) && step.state.table == s.table
              case Ok(event) => step.error == None && step.state.table == ApplyEvent(s.table, event)
  {
    hide LogicalEvents, ParseLogical, Evaluate;
    LogicalFromDefinition(s.table, line);
    match ParseLogical(line)
    case Ok(Some(d)) =>
      if Evaluate(s.table, d).Ok? {
        ReplayOne(s.table, Evaluate(s.table, d).value);
      }
    case _ =>
  }

  /** What a definition does to a table and what `assign` does to its view agree. */
  predicate Agrees<V(==)>(view: Table -> V, assign: (V, Definition) -> Result<V>, table: Table, d: Definition) {
    match Evaluate(table, d)
    case Err(e) => assign(view(table), d) == Err(e)
    case Ok(event) => assign(view(table), d) == Ok(view(ApplyEvent(table, event)))
  }

  /** They agree on the definition of every line, whatever the table is when it is reached. */
  ghost predicate AgreesOn<V>(view: Table -> V, assign: (V, Definition) -> Result<V>, lines: seq<string>) {
    forall i, table: Table | 0 <= i < |lines| && ParseLogical(lines[i]).Ok? && ParseLogical(lines[i]).value.Some? ::
      Agrees(view, assign, table, ParseLogical(lines[i]).value.value)
  }

  lemma AgreesOnTail<V>(view: Table -> V, assign: (V, Definition) -> Result<V>, lines: seq<string>)
    requires lines != [] && AgreesOn(view, assign, lines)
    ensures AgreesOn(view, assign, lines[1..])
  {
    hide ParseLogical, Agrees;
    assert forall i | 0 <= i < |lines[1..]| :: lines[1..][i] == lines[i + 1];
  }

  /** Where definitions agree, running complete lines agrees. */
  lemma {:induction false} CompleteLinesCommute<V>(view: Table -> V, assign: (V, Definition) -> Result<V>,
                                                   s: State, lines: seq<string>)
    requires s.cont == "" && forall i | 0 <= i < |lines| :: !Continues(lines[i])
    requires AgreesOn(view, assign, lines)
    ensures var run := RunLines(s, lines);
            Interpret(assign, view(s.table), lines) == (view(run.state.table), run.error)
    decreases |lines|
  {
    hide StepLine, ParseLogical, Evaluate, Continues;
    if lines == [] {
    } else {
      StepFromDefinition(s, lines[0]);
      Folding.CompleteClears(s, lines[0]);
      match ParseLogical(lines[0]) {
        case Ok(Some(d)) => assert Agrees(view, assign, s.table, d);
        case _ =>
      }
      if StepLine(s, lines[0]).error.None? {
        AgreesOnTail(view, assign, lines);
        CompleteLinesCommute(view, assign, StepLine(s, lines[0]).state, lines[1..]);
      }
    }
  }

  lemma {:induction false} LogicalComplete(lines: seq<string>)
    ensures forall i | 0 <= i < |Folding.LogicalLines(lines)| :: !Continues(Folding.LogicalLines(lines)[i])
    decreases |lines|
  {
    hide Folding.JoinGroup, Continues;
    var k := Folding.ContinuedPrefix(lines);
    if k == |lines| {
    } else {
      Folding.JoinGroupComplete(lines[..k + 1]);
      LogicalComplete(lines[k + 1..]);
    }
  }

  /** The same on physical lines, for files whose logical lines agree. */
  lemma PhysicalLinesCommute<V>(view: Table -> V, assign: (V, Definition) -> Result<V>,
                                s: State, lines: seq<string>)
    requires s.cont == "" && AgreesOn(view, assign, Folding.LogicalLines(lines))
    ensures var run := RunLines(s, lines);
            Interpret(assign, view(s.table), Folding.LogicalLines(lines)) == (view(run.state.table), run.error)
  {
    hide RunLines, Interpret, AgreesOn, Folding.LogicalLines;
    Folding.FoldingPreservesMeaning(s, lines);
    LogicalComplete(lines);
    CompleteLinesCommute(view, assign, s, Folding.LogicalLines(lines));
  }

  /** The parser on physical lines refines the interpreter on logical lines: for every file the same
      error, and a table whose words and outer spaces are the interpreter's. */
  lemma ParserRefinesWordLists(s: State, lines: seq<string>)
    requires s.cont == ""
    ensures var run := RunLines(s, lines);
            Interpret(Assign, Abstract(s.table), Folding.LogicalLines(lines)) == (Abstract(run.state.table), run.error)
  {
    hide RunLines, Interpret, Folding.LogicalLines, Assign, Abstract, ParseLogical, Evaluate;
    forall table, d ensures Agrees(Abstract, Assign, table, d) {
      AssignCommutes(table, d);
    }
    PhysicalLinesCommute(Abstract, Assign, s, lines);
  }
}
