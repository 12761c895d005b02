/** Variable expansion: the `$(NAME)` cursor loop and the token-level substitution it implements. */
module Expansion {
  import opened Text

  type Table = map<string, string>

  datatype Error =
    | IndexError
    | KeyError(name: string)
    | NonVariableDereference
    | UnterminatedDereference
    | NotADefinition
    | UnsupportedOperator
    | RecipeLine
    | CannotOpen

  datatype Result<+T> = Ok(value: T) | Err(error: Error)

  /** A value is a sequence of plain characters and references; malformed text ends it. */
  datatype Token =
    | Plain(c: char)
    | Ref(name: string)
    | Bad(text: string, error: Error)

  function Tokenize(s: string): (tokens: seq<Token>)
    ensures tokens == [] <==> s == ""
  {
    if s == "" then []
    else if s[0] != '$' then [Plain(s[0])] + Tokenize(s[1..])
    else if |s| == 1 then [Bad(s, IndexError)]
    else if s[1] != '(' then [Bad(s, NonVariableDereference)]
    else
      var close := Find(s, ')', 2);
      if close < 0 then [Bad(s, UnterminatedDereference)]
      else [Ref(s[2..close])] + Tokenize(s[close + 1..])
  }

  function Prepend(front: string, r: Result<string>): Result<string> {
    match r
    case Ok(rest) => Ok(front + rest)
    case Err(e) => Err(e)
  }

  lemma PrependNothing(r: Result<string>)
    ensures Prepend("", r) == r
  {
    assert r.Ok? ==> "" + r.value == r.value;
  }

  lemma PrependTwice(a: string, b: string, r: Result<string>)
    ensures Prepend(a, Prepend(b, r)) == Prepend(a + b, r)
  {
    if r.Ok? {
      assert a + (b + r.value) == (a + b) + r.value;
    }
  }

  /** Left-to-right substitution; the first failing token decides the error. */
  function Substitute(tokens: seq<Token>, table: Table): Result<string> {
    if tokens == [] then Ok("")
    else
      match tokens[0]
      case Plain(c) => Prepend([c], Substitute(tokens[1..], table))
      case Ref(name) =>
        if name in table then Prepend(table[name], Substitute(tokens[1..], table)) else Err(KeyError(name))
      case Bad(_, e) => Err(e)
  }

  function Expand(table: Table, s: string): Result<string> {
    Substitute(Tokenize(s), table)
  }

  /** The next `$(...)` at or after `cur`: its start and end, or (-1, -1), or the error raised. */
  function NextDereference(val: string, cur: nat): (r: Result<(int, int)>)
    requires cur <= |val|
    ensures r.Ok? && r.value.0 >= 0 ==> cur <= r.value.0 && r.value.0 + 3 <= r.value.1 <= |val|
  {
    var pos := Find(val, '$', cur);
    if pos < 0 then Ok((-1, -1))
    else if pos + 1 == |val| then Err(IndexError)
    else if val[pos + 1] != '(' then Err(NonVariableDereference)
    else
      var close := Find(val, ')', pos + 2);
      if close < 0 then Err(UnterminatedDereference) else Ok((pos, close + 1))
  }

  predicate FirstDollar(val: string, cur: nat, pos: nat) {
    cur <= pos < |val| && val[pos] == '$' && forall i | cur <= i < pos :: val[i] != '$'
  }

  /** Which search outcome means what: no `$` at all, the first `$(...)` with its first closing
      parenthesis, or the defect of the first `$`. */
  lemma NextDereferenceMeans(val: string, cur: nat)
    requires cur <= |val|
    ensures match NextDereference(val, cur)
            case Ok((pos, end)) =>
              if pos < 0 then end == -1 && forall i | cur <= i < |val| :: val[i] != '$'
              else
                && FirstDollar(val, cur, pos) && pos + 3 <= end <= |val|
                && val[pos + 1] == '(' && val[end - 1] == ')'
                && forall i | pos + 2 <= i < end - 1 :: val[i] != ')'
            case Err(e) =>
              exists pos: nat :: FirstDollar(val, cur, pos) &&
                if pos + 1 == |val| then e == IndexError
                else if val[pos + 1] != '(' then e == NonVariableDereference
                else e == UnterminatedDereference && forall i | pos + 2 <= i < |val| :: val[i] != ')'
  {
    hide Find;
    var pos := Find(val, '$', cur);
    if pos >= 0 {
      assert FirstDollar(val, cur, pos);
    }
  }

  /** Text in front of the first `$` is copied through. */
  lemma {:induction false} PlainPrefix(table: Table, s: string, k: nat)
    requires k <= |s| && forall i | 0 <= i < k :: s[i] != '$'
    ensures Expand(table, s) == Prepend(s[..k], Expand(table, s[k..]))
  {
    if k == 0 {
      assert s[k..] == s && s[..k] == "";
      PrependNothing(Expand(table, s));
    } else {
      PlainPrefix(table, s[1..], k - 1);
      assert s[1..][k - 1..] == s[k..];
      assert [s[0]] + s[1..][..k - 1] == s[..k];
      PrependTwice([s[0]], s[1..][..k - 1], Expand(table, s[k..]));
    }
  }

  lemma {:induction false} FindShift(s: string, c: char, base: nat, from: nat)
    requires base <= |s|
    ensures Find(s[base..], c, from) == (if Find(s, c, base + from) < 0 then -1 else Find(s, c, base + from) - base)
    decreases |s| - from
  {
    if base + from >= |s| || s[base + from] == c {
    } else {
      FindShift(s, c, base, from + 1);
    }
  }

  /** What the expansion does with the text that starts at a `$`. */
  function AtDollar(table: Table, val: string, pos: nat): Result<string>
    requires pos < |val|
  {
    if pos + 1 == |val| then Err(IndexError)
    else if val[pos + 1] != '(' then Err(NonVariableDereference)
    else
      var close := Find(val, ')', pos + 2);
      if close < 0 then Err(UnterminatedDereference)
      else
        var name := val[pos + 2..close];
        if name in table then Prepend(table[name], Expand(table, val[close + 1..])) else Err(KeyError(name))
  }

  lemma ExpandRef(table: Table, name: string, rest: string)
    requires forall i | 0 <= i < |name| :: name[i] != ')'
    ensures Expand(table, "$(" + name + ")" + rest) ==
            if name in table then Prepend(table[name], Expand(table, rest)) else Err(KeyError(name))
  {
    hide Tokenize;
    TokenizeRef(name, rest);
    assert ([Ref(name)] + Tokenize(rest))[1..] == Tokenize(rest);
  }

  lemma ExpandMalformed(table: Table, tail: string)
    requires tail != "" && tail[0] == '$'
    requires |tail| == 1 || tail[1] != '(' || Find(tail, ')', 2) < 0
    ensures Expand(table, tail) == Err(if |tail| == 1 then IndexError
                                       else if tail[1] != '(' then NonVariableDereference
                                       else UnterminatedDereference)
  {
    hide Find;
  }

  lemma ExpandAtDollar(table: Table, val: string, pos: nat)
    requires pos < |val| && val[pos] == '$'
    ensures Expand(table, val[pos..]) == AtDollar(table, val, pos)
  {
    hide Expand, Find;
    var tail := val[pos..];
    var close := Find(val, ')', pos + 2);
    FindShift(val, ')', pos, 2);
    if |tail| == 1 || tail[1] != '(' || close < 0 {
      ExpandMalformed(table, tail);
    } else {
      var name, rest := val[pos + 2..close], val[close + 1..];
      assert tail == "$(" + name + ")" + rest;
      ExpandRef(table, name, rest);
    }
  }

  /** One turn of the cursor loop: copy up to the next `$`, then deal with what is there. */
  lemma ExpandTurn(table: Table, val: string, cur: nat)
    requires cur <= |val|
    ensures var pos := Find(val, '$', cur);
            Expand(table, val[cur..]) ==
            if pos < 0 then Ok(val[cur..]) else Prepend(val[cur..pos], AtDollar(table, val, pos))
  {
    hide Expand, AtDollar;
    var rest := val[cur..];
    var pos := Find(val, '$', cur);
    if pos < 0 {
      ExpandIdentity(table, rest);
    } else {
      PlainPrefix(table, rest, pos - cur);
      assert rest[..pos - cur] == val[cur..pos] && rest[pos - cur..] == val[pos..];
      ExpandAtDollar(table, val, pos);
    }
  }

  // ---------- what the tokens mean ----------

  function TokenText(t: Token): string {
    match t
    case Plain(c) => [c]
    case Ref(name) => "$(" + name + ")"
    case Bad(text, _) => text
  }

  function Render(tokens: seq<Token>): string {
    if tokens == [] then "" else TokenText(tokens[0]) + Render(tokens[1..])
  }

  /** The tokens a text can consist of; `Bad` swallows the rest of the text. */
  predicate Canonical(tokens: seq<Token>) {
    tokens == [] ||
    match tokens[0]
    case Plain(c) => c != '$' && Canonical(tokens[1..])
    case Ref(name) => ')' !in name && Canonical(tokens[1..])
    case Bad(text, e) =>
      && |tokens| == 1
      && text != "" && text[0] == '$'
      && if |text| == 1 then e == IndexError
         else if text[1] != '(' then e == NonVariableDereference
         else e == UnterminatedDereference && ')' !in text[2..]
  }

  /** A token in front of canonical tokens. */
  lemma TokenInFront(token: Token, rest: seq<Token>)
    requires match token case Plain(c) => c != '$' case Ref(name) => ')' !in name case Bad(_, _) => false
    ensures Render([token] + rest) == TokenText(token) + Render(rest)
    ensures Canonical(rest) ==> Canonical([token] + rest)
  {
    assert ([token] + rest)[1..] == rest;
  }

  predicate StartsReference(s: string) {
    |s| > 1 && s[0] == '$' && s[1] == '(' && Find(s, ')', 2) >= 0
  }

  lemma FirstReference(s: string) returns (name: string, rest: string)
    requires StartsReference(s)
    ensures s == "$(" + name + ")" + rest && ')' !in name && |rest| < |s|
  {
    var close := Find(s, ')', 2);
    name, rest := s[2..close], s[close + 1..];
  }

  /** A `$` that starts no reference is read to the end of the text. */
  lemma UnreadableRest(s: string)
    requires s != "" && s[0] == '$' && !StartsReference(s)
    ensures Render(Tokenize(s)) == s && Canonical(Tokenize(s))
  {
    var bad := Tokenize(s)[0];
    assert Tokenize(s) == [bad] && [bad][1..] == [];
    assert s + "" == s;
  }

  lemma {:induction false} TokenizeLossless(s: string)
    ensures Render(Tokenize(s)) == s && Canonical(Tokenize(s))
    decreases |s|
  {
    if s == "" {
    } else {
      hide Tokenize, Render, Canonical, StartsReference;
      if s[0] != '$' {
        TokenizeLossless(s[1..]);
        assert s == [s[0]] + s[1..];
        TokenizePlain(s[0], s[1..]);
        TokenInFront(Plain(s[0]), Tokenize(s[1..]));
      } else if StartsReference(s) {
        var name, rest := FirstReference(s);
        TokenizeLossless(rest);
        TokenizeRef(name, rest);
        TokenInFront(Ref(name), Tokenize(rest));
      } else {
        UnreadableRest(s);
      }
    }
  }

  lemma {:induction false} TokenizeRender(tokens: seq<Token>)
    requires Canonical(tokens)
    ensures Tokenize(Render(tokens)) == tokens
  {
    if tokens == [] {
    } else {
      hide Tokenize;
      var rest := Render(tokens[1..]);
      match tokens[0]
      case Plain(c) =>
        TokenizeRender(tokens[1..]);
        TokenizePlain(c, rest);
      case Ref(name) =>
        TokenizeRender(tokens[1..]);
        TokenizeRef(name, rest);
      case Bad(text, e) =>
        assert tokens == [Bad(text, e)] && Render(tokens[1..]) == "";
        assert Render(tokens) == text + "" == text;
        TokenizeBad(text, e);
    }
  }

  lemma TokenizePlain(c: char, rest: string)
    requires c != '$'
    ensures Tokenize([c] + rest) == [Plain(c)] + Tokenize(rest)
  {
    assert ([c] + rest)[1..] == rest;
  }

  lemma TokenizeBad(text: string, e: Error)
    requires Canonical([Bad(text, e)])
    ensures Tokenize(text) == [Bad(text, e)]
  {
    assert |text| > 1 && Find(text, ')', 2) >= 0 ==> text[Find(text, ')', 2)] in text[2..];
  }

  lemma TokenizeRef(name: string, rest: string)
    requires forall i | 0 <= i < |name| :: name[i] != ')'
    ensures Tokenize("$(" + name + ")" + rest) == [Ref(name)] + Tokenize(rest)
  {
    var s := "$(" + name + ")" + rest;
    assert forall i | 2 <= i < 2 + |name| :: s[i] == name[i - 2];
    FindUnique(s, ')', 2, 2 + |name|);
    assert s[2..2 + |name|] == name && s[3 + |name|..] == rest;
  }

  predicate WellFormed(s: string) {
    var tokens := Tokenize(s);
    forall i | 0 <= i < |tokens| :: !tokens[i].Bad?
  }

  /** Expansion works piecewise once the first piece is well formed. */
  function Sequence(a: Result<string>, b: Result<string>): Result<string> {
    match a
    case Ok(front) => Prepend(front, b)
    case Err(e) => Err(e)
  }

  lemma SequenceStep(front: string, a: Result<string>, b: Result<string>)
    ensures Prepend(front, Sequence(a, b)) == Sequence(Prepend(front, a), b)
  {
    if a.Ok? {
      PrependTwice(front, a.value, b);
    }
  }

  lemma {:induction false} RenderConcat(a: seq<Token>, b: seq<Token>)
    requires Canonical(a) && Canonical(b)
    requires forall i | 0 <= i < |a| :: !a[i].Bad?
    ensures Canonical(a + b) && Render(a + b) == Render(a) + Render(b)
  {
    if a == [] {
      assert a + b == b;
    } else {
      hide TokenText;
      assert (a + b)[1..] == a[1..] + b && (a + b)[0] == a[0];
      RenderConcat(a[1..], b);
      var head, mid, end := TokenText(a[0]), Render(a[1..]), Render(b);
      assert head + (mid + end) == (head + mid) + end;
    }
  }

  /** Both sides render to the same text and are canonical, so they are the same tokens. */
  lemma TokenizeConcat(a: string, b: string)
    requires WellFormed(a)
    ensures Tokenize(a + b) == Tokenize(a) + Tokenize(b)
  {
    TokenizeLossless(a);
    TokenizeLossless(b);
    RenderConcat(Tokenize(a), Tokenize(b));
    TokenizeRender(Tokenize(a) + Tokenize(b));
  }

  lemma {:induction false} SubstituteConcat(a: seq<Token>, b: seq<Token>, table: Table)
    ensures Substitute(a + b, table) == Sequence(Substitute(a, table), Substitute(b, table))
  {
    if a == [] {
      assert a + b == b;
      PrependNothing(Substitute(b, table));
    } else {
      assert (a + b)[1..] == a[1..] + b;
      SubstituteConcat(a[1..], b, table);
      match a[0]
      case Plain(c) => SequenceStep([c], Substitute(a[1..], table), Substitute(b, table));
      case Ref(name) =>
        if name in table {
          SequenceStep(table[name], Substitute(a[1..], table), Substitute(b, table));
        }
      case Bad(_, _) =>
    }
  }

  lemma ExpandConcat(table: Table, a: string, b: string)
    requires WellFormed(a)
    ensures Expand(table, a + b) == Sequence(Expand(table, a), Expand(table, b))
  {
    TokenizeConcat(a, b);
    SubstituteConcat(Tokenize(a), Tokenize(b), table);
  }

  /** The success domain: well formed, and every referenced name defined. */
  lemma {:induction false} SubstituteSucceeds(tokens: seq<Token>, table: Table)
    ensures Substitute(tokens, table).Ok? <==>
            forall t | t in tokens :: t.Plain? || (t.Ref? && t.name in table)
  {
    if tokens == [] {
    } else {
      SubstituteSucceeds(tokens[1..], table);
      assert tokens == [tokens[0]] + tokens[1..];
    }
  }

  // ---------- full expansion ----------

  predicate DollarFree(s: string) {
    Excludes(s, '$')
  }

  predicate FullyExpanded(table: Table) {
    forall name | name in table :: DollarFree(table[name])
  }

  /** A character that occurs neither in the plain text nor in any value is not in the result. */
  lemma {:induction false} SubstituteExcludes(tokens: seq<Token>, table: Table, c: char)
    requires forall name | name in table :: Excludes(table[name], c)
    requires forall t | t in tokens && t.Plain? :: t.c != c
    ensures Substitute(tokens, table).Ok? ==> Excludes(Substitute(tokens, table).value, c)
  {
    if tokens == [] {
    } else {
      assert forall t | t in tokens[1..] :: t in tokens;
      SubstituteExcludes(tokens[1..], table, c);
    }
  }

  lemma {:induction false} TokensExclude(s: string, c: char)
    requires Excludes(s, c)
    ensures forall t | t in Tokenize(s) && t.Plain? :: t.c != c
  {
    if s == "" {
    } else if s[0] != '$' {
      TokensExclude(s[1..], c);
    } else if |s| > 1 && s[1] == '(' && Find(s, ')', 2) >= 0 {
      TokensExclude(s[Find(s, ')', 2) + 1..], c);
    }
  }

  lemma ExpandExcludes(table: Table, s: string, c: char)
    requires Excludes(s, c) && forall name | name in table :: Excludes(table[name], c)
    ensures Expand(table, s).Ok? ==> Excludes(Expand(table, s).value, c)
  {
    TokensExclude(s, c);
    SubstituteExcludes(Tokenize(s), table, c);
  }

  lemma {:induction false} TokensPlain(s: string)
    ensures forall t | t in Tokenize(s) && t.Plain? :: t.c != '$'
  {
    if s == "" {
    } else {
      if s[0] != '$' {
        TokensPlain(s[1..]);
      } else if |s| > 1 && s[1] == '(' && Find(s, ')', 2) >= 0 {
        TokensPlain(s[Find(s, ')', 2) + 1..]);
      }
    }
  }

  lemma ExpandDollarFree(table: Table, s: string)
    requires FullyExpanded(table)
    ensures Expand(table, s).Ok? ==> DollarFree(Expand(table, s).value)
  {
    TokensPlain(s);
    SubstituteExcludes(Tokenize(s), table, '$');
  }

  lemma ExpandIdentity(table: Table, s: string)
    requires DollarFree(s)
    ensures Expand(table, s) == Ok(s)
  {
    PlainPrefix(table, s, |s|);
    assert s[|s|..] == "" && s[..|s|] == s && s + "" == s;
  }
}
