/** The string operations of Python 2 that the build scripts rely on. */
module Text {

  /** The characters that `str.strip` and `str.split` treat as white space. */
  predicate IsSpace(c: char) {
    c == ' ' || '\t' <= c <= '\r'
  }

  function Lstrip(s: string): string {
    if s != "" && IsSpace(s[0]) then Lstrip(s[1..]) else s
  }

  /** The longest suffix that does not begin with white space; only white space is cut off. */
  lemma {:induction false} LstripMeans(s: string)
    ensures var r := Lstrip(s);
            && (r == "" || !IsSpace(r[0]))
            && |r| <= |s| && r == s[|s| - |r|..]
            && forall i | 0 <= i < |s| - |r| :: IsSpace(s[i])
  {
    if s == "" || !IsSpace(s[0]) {
    } else {
      LstripMeans(s[1..]);
    }
  }

  function Rstrip(s: string): string {
    if s != "" && IsSpace(s[|s| - 1]) then Rstrip(s[..|s| - 1]) else s
  }

  lemma {:induction false} RstripMeans(s: string)
    ensures var r := Rstrip(s);
            && (r == "" || !IsSpace(r[|r| - 1]))
            && |r| <= |s| && r == s[..|r|]
            && forall i | |r| <= i < |s| :: IsSpace(s[i])
  {
    if s == "" || !IsSpace(s[|s| - 1]) {
    } else {
      RstripMeans(s[..|s| - 1]);
    }
  }

  function Strip(s: string): string {
    Lstrip(Rstrip(s))
  }

  predicate Excludes(s: string, c: char) {
    forall i | 0 <= i < |s| :: s[i] != c
  }

  lemma {:induction false} LstripExcludes(s: string, c: char)
    requires Excludes(s, c)
    ensures Excludes(Lstrip(s), c)
  {
    if s == "" || !IsSpace(s[0]) {
    } else {
      LstripExcludes(s[1..], c);
    }
  }

  lemma {:induction false} RstripExcludes(s: string, c: char)
    requires Excludes(s, c)
    ensures Excludes(Rstrip(s), c)
  {
    if s == "" || !IsSpace(s[|s| - 1]) {
    } else {
      RstripExcludes(s[..|s| - 1], c);
    }
  }

  lemma StripExcludes(s: string, c: char)
    requires Excludes(s, c)
    ensures Excludes(Strip(s), c)
  {
    hide Lstrip, Rstrip, Excludes;
    RstripExcludes(s, c);
    LstripExcludes(Rstrip(s), c);
  }

  /** `s.find(c, from)`: the first occurrence at or after `from`, or -1. */
  function Find(s: string, c: char, from: nat): (r: int)
    ensures r == -1 || from <= r < |s|
    ensures r == -1 ==> forall i | from <= i < |s| :: s[i] != c
    ensures r >= 0 ==> s[r] == c && forall i | from <= i < r :: s[i] != c
    decreases |s| - from
  {
    if from >= |s| then -1
    else if s[from] == c then from
    else Find(s, c, from + 1)
  }

  lemma FindUnique(s: string, c: char, from: nat, at: nat)
    requires from <= at < |s| && s[at] == c
    requires forall i | from <= i < at :: s[i] != c
    ensures Find(s, c, from) == at
  {
  }

  predicate StartsWith(s: string, prefix: string) {
    prefix <= s
  }

  predicate EndsWith(s: string, suffix: string) {
    |suffix| <= |s| && s[|s| - |suffix|..] == suffix
  }

  predicate IsWord(w: string) {
    w != "" && forall i | 0 <= i < |w| :: !IsSpace(w[i])
  }

  /** `s.split()`: the maximal runs of non-space characters, in order. */
  function Words(s: string): (r: seq<string>)
    ensures s != "" && !IsSpace(s[0]) ==> r != []
    ensures forall i | 0 <= i < |r| :: IsWord(r[i])
  {
    if s == "" then []
    else
      var rest := Words(s[1..]);
      if IsSpace(s[0]) then rest
      else if |s| == 1 || IsSpace(s[1]) then [[s[0]]] + rest
      else
        assert IsWord([s[0]] + rest[0]);
        [[s[0]] + rest[0]] + rest[1..]
  }

  predicate SpaceOrEnd(s: string) {
    s == "" || IsSpace(s[0])
  }

  /** A character in front of a text, in terms of the words of the text. */
  function InFront(c: char, t: string, words: seq<string>): seq<string>
    requires !IsSpace(c) && !SpaceOrEnd(t) ==> words != []
  {
    if IsSpace(c) then words
    else if SpaceOrEnd(t) then [[c]] + words
    else [[c] + words[0]] + words[1..]
  }

  lemma WordsCons(c: char, t: string)
    ensures Words([c] + t) == InFront(c, t, Words(t))
  {
    var s := [c] + t;
    assert s[1..] == t;
  }

  lemma InFrontOfMore(c: char, t: string, more: string, x: seq<string>, y: seq<string>)
    requires (SpaceOrEnd(t) <==> SpaceOrEnd(more)) && (!SpaceOrEnd(t) ==> x != [])
    ensures InFront(c, more, x + y) == InFront(c, t, x) + y
  {
  }

  /** A white-space character separates words and contributes nothing itself. */
  lemma {:induction false} WordsAcrossSpace(a: string, sp: char, b: string)
    requires IsSpace(sp)
    ensures Words(a + [sp] + b) == Words(a) + Words(b)
  {
    hide Words, InFront;
    if a == "" {
      assert a + [sp] + b == [sp] + b;
      WordsCons(sp, b);
      WordsEmpty();
      InFrontOfSpace(sp, b, Words(b));
    } else {
      var t, rest := a[1..], a[1..] + [sp] + b;
      assert a == [a[0]] + t && a + [sp] + b == [a[0]] + rest;
      WordsAcrossSpace(t, sp, b);
      WordsCons(a[0], t);
      WordsCons(a[0], rest);
      assert rest[0] == if t == "" then sp else t[0];
      InFrontOfMore(a[0], t, rest, Words(t), Words(b));
    }
  }

  lemma InFrontOfSpace(sp: char, b: string, words: seq<string>)
    requires IsSpace(sp)
    ensures InFront(sp, b, words) == [] + words
  {
  }

  lemma WordsEmpty()
    ensures Words("") == []
  {
  }

  function Unwords(words: seq<string>): string {
    if words == [] then "" else words[0] + " " + Unwords(words[1..])
  }

  lemma {:induction false} WordsOfWord(w: string)
    requires IsWord(w)
    ensures Words(w) == [w]
  {
    if |w| > 1 {
      assert IsWord(w[1..]);
      WordsOfWord(w[1..]);
      assert [w[0]] + w[1..] == w;
    } else {
      assert w == [w[0]] && Words(w[1..]) == [];
    }
  }

  /** Splitting recovers any list of words from its spaced form. */
  lemma {:induction false} WordsUnwords(words: seq<string>)
    requires forall i | 0 <= i < |words| :: IsWord(words[i])
    ensures Words(Unwords(words)) == words
  {
    if words == [] {
    } else {
      assert Unwords(words) == words[0] + [' '] + Unwords(words[1..]);
      WordsAcrossSpace(words[0], ' ', Unwords(words[1..]));
      WordsOfWord(words[0]);
      WordsUnwords(words[1..]);
    }
  }

  function Flatten<T>(parts: seq<seq<T>>): seq<T> {
    if parts == [] then [] else parts[0] + Flatten(parts[1..])
  }

  lemma {:induction false} FlattenSnoc<T>(parts: seq<seq<T>>, last: seq<T>)
    ensures Flatten(parts + [last]) == Flatten(parts) + last
  {
    if parts == [] {
      assert parts + [last] == [last];
      assert Flatten([last]) == last + Flatten<T>([]);
    } else {
      assert (parts + [last])[1..] == parts[1..] + [last];
      FlattenSnoc(parts[1..], last);
    }
  }

  /** Characters at which `str.splitlines` breaks a text. */
  predicate IsBreak(c: char) {
    c == '\n' || c == '\r'
  }

  predicate OneLine(s: string) {
    Excludes(s, '\n') && Excludes(s, '\r')
  }

  function FirstBreak(s: string, from: nat): (r: nat)
    requires from <= |s|
    ensures from <= r <= |s|
    ensures forall i | from <= i < r :: !IsBreak(s[i])
    ensures r < |s| ==> IsBreak(s[r])
    decreases |s| - from
  {
    if from == |s| || IsBreak(s[from]) then from else FirstBreak(s, from + 1)
  }

  lemma BreakUnique(s: string, from: nat, at: nat)
    requires from <= at < |s| && IsBreak(s[at])
    requires forall i | from <= i < at :: !IsBreak(s[i])
    ensures FirstBreak(s, from) == at
  {
  }

  /** `text.splitlines()`, breaking at \n, \r and \r\n. */
  function SplitLines(text: string): (r: seq<string>)
    ensures forall line | line in r :: OneLine(line)
  {
    if text == "" then []
    else
      var k := FirstBreak(text, 0);
      if k == |text| then [text]
      else
        var next := if text[k] == '\r' && k + 1 < |text| && text[k + 1] == '\n' then k + 2 else k + 1;
        [text[..k]] + SplitLines(text[next..])
  }

  function Unlines(lines: seq<string>): string {
    if lines == [] then "" else lines[0] + "\n" + Unlines(lines[1..])
  }

  /** A line break of any of the three kinds ends exactly one line; \r\n is one break. */
  lemma BreakEndsLine(line: string, rest: string)
    requires OneLine(line)
    ensures SplitLines(line + "\n" + rest) == [line] + SplitLines(rest)
    ensures SplitLines(line + "\r\n" + rest) == [line] + SplitLines(rest)
    ensures !("\n" <= rest) ==> SplitLines(line + "\r" + rest) == [line] + SplitLines(rest)
  {
    hide SplitLines;
    SplitFirst(line, '\n', rest);
    SplitFirst(line, '\r', "\n" + rest);
    SplitFirst(line, '\r', rest);
    assert line + "\n" + rest == line + ['\n'] + rest;
    assert line + "\r" + rest == line + ['\r'] + rest;
    assert line + "\r\n" + rest == line + ['\r'] + ("\n" + rest) && ("\n" + rest)[1..] == rest;
  }

  lemma SplitFirst(line: string, c: char, rest: string)
    requires OneLine(line) && IsBreak(c)
    ensures SplitLines(line + [c] + rest) ==
            [line] + SplitLines(if c == '\r' && rest != "" && rest[0] == '\n' then rest[1..] else rest)
  {
    var text, k := line + [c] + rest, |line|;
    assert text[k] == c && text[..k] == line && text[k + 1..] == rest;
    assert forall i | 0 <= i < k :: text[i] == line[i];
    BreakUnique(text, 0, k);
    if rest != "" {
      assert text[k + 1] == rest[0] && text[k + 2..] == rest[1..];
    }
  }

  lemma UnlinesFirst(lines: seq<string>, rest: string)
    requires lines != []
    ensures Unlines(lines) + rest == lines[0] + "\n" + (Unlines(lines[1..]) + rest)
  {
  }

  lemma SplitNone(last: string)
    requires OneLine(last)
    ensures SplitLines(last) == if last == "" then [] else [last]
  {
    assert FirstBreak(last, 0) == |last|;
  }

  /** Splitting undoes joining, and a last line without a line end is a line all the same. */
  lemma {:induction false} SplitUnterminated(lines: seq<string>, last: string)
    requires (forall line | line in lines :: OneLine(line)) && OneLine(last)
    ensures SplitLines(Unlines(lines) + last) == lines + if last == "" then [] else [last]
  {
    hide SplitLines, OneLine;
    if lines == [] {
      assert Unlines(lines) + last == last;
      SplitNone(last);
    } else {
      hide Unlines;
      var tail, rest := lines[1..], Unlines(lines[1..]) + last;
      UnlinesFirst(lines, last);
      assert lines[0] in lines;
      forall line | line in tail ensures OneLine(line) {
        assert line in lines;
      }
      BreakEndsLine(lines[0], rest);
      SplitUnterminated(tail, last);
      assert lines == [lines[0]] + tail;
    }
  }

  lemma SplitUnlines(lines: seq<string>)
    requires forall line | line in lines :: OneLine(line)
    ensures SplitLines(Unlines(lines)) == lines
  {
    hide SplitLines, Unlines;
    assert Unlines(lines) + "" == Unlines(lines) && lines + [] == lines;
    SplitUnterminated(lines, "");
  }

  /** The white-space characters one by one: blank, tab, line feed, vertical tab, form feed, return. */
  lemma SpaceCharacters(c: char)
    ensures IsSpace(c) <==> c in {' ', '\t', '\n', '\U{0B}', '\U{0C}', '\r'}
  {
  }

  // ---------- lists that run together ----------

  /** The last piece of the first list and the first piece of the second run together. */
  function Glue(a: seq<string>, b: seq<string>): seq<string>
    requires a != [] && b != []
  {
    a[..|a| - 1] + [a[|a| - 1] + b[0]] + b[1..]
  }

  lemma GlueBehind(x: string, w: seq<string>, b: seq<string>)
    requires w != [] && b != []
    ensures Glue([x] + w, b) == [x] + Glue(w, b)
  {
  }

  lemma GlueExtended(c: char, w: seq<string>, b: seq<string>)
    requires w != [] && b != []
    ensures Glue([[c] + w[0]] + w[1..], b) == [[c] + Glue(w, b)[0]] + Glue(w, b)[1..]
  {
    if |w| == 1 {
      assert ([c] + w[0]) + b[0] == [c] + (w[0] + b[0]);
    }
  }

  lemma GlueOne(x: string, b: seq<string>)
    requires b != []
    ensures Glue([x], b) == [x + b[0]] + b[1..]
  {
  }
}
