/** Printing a symbol table as `name := value` lines and parsing it back. */
module RoundTrip {
  import opened Options
  import opened Text
  import opened Expansion
  import opened SourceList
  import opened SourceRuns

  function PrintDefinition(name: string, value: string): string {
    name + " := " + value
  }

  predicate Trimmed(s: string) {
    s == "" || (!IsSpace(s[0]) && !IsSpace(s[|s| - 1]))
  }

  predicate CleanName(name: string) {
    && Trimmed(name)
    && Excludes(name, '=')
    && (name == "" || name[0] != '#')
  }

  predicate CleanValue(value: string) {
    && DollarFree(value)
    && (value == "" || !IsSpace(value[0]))
    && !Continues(value)
  }

  /** What can be printed and parsed back: clean, and on one line. */
  predicate Printable(name: string, value: string) {
    CleanName(name) && CleanValue(value) && OneLine(name) && OneLine(value)
  }

  // ---------- one line that begins with a name and `:=` ----------

  lemma StripTrims(s: string)
    ensures Trimmed(Strip(s))
  {
    var r := Rstrip(s);
    var l := Lstrip(r);
    RstripMeans(s);
    LstripMeans(r);
    if l != "" {
      assert l[|l| - 1] == r[|r| - 1];
    }
  }

  lemma StripTrailingSpace(name: string)
    requires Trimmed(name)
    ensures Strip(name + " ") == name
  {
    assert (name + " ")[..|name|] == name;
    assert Rstrip(name + " ") == Rstrip(name) == name;
  }

  lemma StripEmpty()
    ensures Strip("") == ""
  {
  }

  lemma LstripSolid(s: string)
    requires s != "" && !IsSpace(s[0])
    ensures Lstrip(s) == s
  {
  }

  lemma ParseOverwrite(front: string, name: string, tail: string)
    requires Excludes(front, '=') && Strip(front) == name
    ensures ParseDefinition(front + ":=" + tail) == Ok(Definition(Overwrite, name, Lstrip(tail)))
  {
    hide Strip, Find, Lstrip;
    var body := front + ":=" + tail;
    FindUnique(body, '=', 0, |front| + 1);
    assert body[..|front|] == front && body[|front|] == ':';
    assert body[|front| + 2..] == tail;
  }

  /** The name as it stands in front of `:=` once the line is stripped. */
  function Front(name: string): string {
    if name == "" then "" else name + " "
  }

  lemma NamedBody(name: string, tail: string)
    requires CleanName(name)
    ensures var line := name + " :=" + tail;
            line != "" && line[0] != '\t' && Lstrip(line) == Front(name) + ":=" + tail
  {
    var line := name + " :=" + tail;
    if name == "" {
      assert line[1..] == "" + ":=" + tail;
      LstripSolid(line[1..]);
    } else {
      assert line == name + " " + ":=" + tail;
      LstripSolid(line);
    }
  }

  lemma FrontOfName(name: string)
    requires CleanName(name)
    ensures Excludes(Front(name), '=') && Strip(Front(name)) == name
    ensures Front(name) != "" ==> Front(name)[0] != '#'
  {
    if name == "" {
      StripEmpty();
    } else {
      StripTrailingSpace(name);
    }
  }

  /** Whatever follows a clean name and ` :=` on a line, the line assigns to that name. */
  lemma ParseNamed(name: string, tail: string)
    requires CleanName(name)
    ensures var line := name + " :=" + tail;
            && line != "" && line[0] != '\t'
            && Lstrip(line) != "" && Lstrip(line)[0] != '#'
            && ParseDefinition(Lstrip(line)) == Ok(Definition(Overwrite, name, Lstrip(tail)))
  {
    hide Strip, Lstrip, ParseDefinition, CleanName, Excludes, Front;
    NamedBody(name, tail);
    FrontOfName(name);
    ParseOverwrite(Front(name), name, tail);
  }

  /** So a completed line that begins so defines that name or nothing. */
  lemma NamedEvents(table: Table, name: string, line: string)
    requires CleanName(name) && name + " :=" <= line
    ensures var r := LogicalEvents(table, line);
            r.Ok? ==> |r.value| == 1 && r.value[0].op == Overwrite && r.value[0].sym == name
  {
    hide Lstrip, ParseDefinition, Expand, CleanName;
    var tail := line[|name| + 3..];
    assert line == name + " :=" + tail;
    ParseNamed(name, tail);
  }

  lemma PrintedComplete(name: string, value: string)
    ensures Continues(PrintDefinition(name, value)) <==> Continues(value)
  {
    var line := PrintDefinition(name, value);
    assert line[|line| - 1] == if value == "" then ' ' else value[|value| - 1];
  }

  lemma LstripBehindSpace(value: string)
    ensures Lstrip(" " + value) == Lstrip(value)
  {
    assert (" " + value)[1..] == value;
  }

  lemma PrintedEvents(table: Table, name: string, value: string)
    requires CleanName(name) && DollarFree(value)
    ensures LogicalEvents(table, PrintDefinition(name, value)) == Ok([Event(Overwrite, name, Lstrip(value))])
  {
    hide Lstrip, Expand, ParseDefinition, CleanName, Excludes;
    var tail := " " + value;
    assert PrintDefinition(name, value) == name + " :=" + tail;
    ParseNamed(name, tail);
    LstripBehindSpace(value);
    LstripExcludes(value, '$');
    ExpandIdentity(table, Lstrip(value));
  }

  /** A printed definition whose value has no `$` and no final backslash executes as an assignment of
      the value without its leading space, in any table. */
  lemma PrintedStep(s: State, name: string, value: string)
    requires s.cont == "" && CleanName(name) && DollarFree(value) && !Continues(value)
    ensures StepLine(s, PrintDefinition(name, value)) ==
            Step(s.(table := s.table[name := Lstrip(value)], lineNo := s.lineNo + 1),
                 [Event(Overwrite, name, Lstrip(value))], None)
  {
    hide Lstrip, PrintDefinition, LogicalEvents, Continues, Replay, CleanName, Excludes;
    PrintedEvents(s.table, name, value);
    PrintedComplete(name, value);
    ReplayOne(s.table, Event(Overwrite, name, Lstrip(value)));
  }

  // ---------- printable tables come back ----------

  function PrintTable(table: Table, names: seq<string>): (lines: seq<string>)
    requires forall i | 0 <= i < |names| :: names[i] in table
    ensures |lines| == |names|
    ensures forall i | 0 <= i < |names| :: lines[i] == PrintDefinition(names[i], table[names[i]])
  {
    if names == [] then []
    else [PrintDefinition(names[0], table[names[0]])] + PrintTable(table, names[1..])
  }

  lemma PrintFirst(table: Table, names: seq<string>)
    requires names != [] && forall i | 0 <= i < |names| :: names[i] in table
    ensures PrintTable(table, names)[0] == PrintDefinition(names[0], table[names[0]])
    ensures PrintTable(table, names)[1..] == PrintTable(table, names[1..])
  {
    hide PrintDefinition;
  }

  /** A line that does not raise hands its state to the rest of the run. */
  lemma RunFirst(s: State, lines: seq<string>)
    requires lines != [] && StepLine(s, lines[0]).error == None
    ensures var rest := RunLines(StepLine(s, lines[0]).state, lines[1..]);
            RunLines(s, lines).state == rest.state && RunLines(s, lines).error == rest.error
  {
    hide StepLine;
  }

  function Overlay(base: Table, table: Table, names: seq<string>): Table
    requires forall i | 0 <= i < |names| :: names[i] in table
    decreases |names|
  {
    if names == [] then base else Overlay(base[names[0] := table[names[0]]], table, names[1..])
  }

  lemma {:induction false} OverlayAt(base: Table, table: Table, names: seq<string>, n: string)
    requires forall i | 0 <= i < |names| :: names[i] in table
    ensures n in Overlay(base, table, names) <==> n in base || n in names
    ensures n in Overlay(base, table, names) ==>
              Overlay(base, table, names)[n] == if n in names then table[n] else base[n]
    decreases |names|
  {
    if names == [] {
    } else {
      OverlayAt(base[names[0] := table[names[0]]], table, names[1..], n);
      assert n in names <==> n == names[0] || n in names[1..];
    }
  }

  lemma OverlayAll(table: Table, names: seq<string>)
    requires Enumerates(names, table)
    ensures Overlay(map[], table, names) == table
  {
    hide Overlay;
    var r := Overlay(map[], table, names);
    forall n ensures n in r <==> n in table
             ensures n in table ==> r[n] == table[n] {
      OverlayAt(map[], table, names, n);
    }
  }

  lemma LstripClean(value: string)
    requires CleanValue(value)
    ensures Lstrip(value) == value
  {
  }

  lemma CleanStep(s: State, name: string, value: string)
    requires s.cont == "" && CleanName(name) && CleanValue(value)
    ensures var step := StepLine(s, PrintDefinition(name, value));
            step.error == None && step.state == s.(table := s.table[name := value], lineNo := s.lineNo + 1)
  {
    hide StepLine, PrintDefinition, CleanName, Lstrip;
    PrintedStep(s, name, value);
    LstripClean(value);
  }

  lemma {:induction false} RunPrinted(s: State, table: Table, names: seq<string>)
    requires s.cont == ""
    requires forall i | 0 <= i < |names| ::
               names[i] in table && CleanName(names[i]) && CleanValue(table[names[i]])
    ensures var run := RunLines(s, PrintTable(table, names));
            && run.error == None
            && run.state == s.(table := Overlay(s.table, table, names), lineNo := s.lineNo + |names|)
    decreases |names|
  {
    hide StepLine, PrintDefinition, CleanName, CleanValue;
    if names == [] {
    } else {
      hide RunLines, PrintTable;
      var lines := PrintTable(table, names);
      PrintFirst(table, names);
      CleanStep(s, names[0], table[names[0]]);
      RunFirst(s, lines);
      RunPrinted(StepLine(s, lines[0]).state, table, names[1..]);
    }
  }

  lemma PrintedOneLine(name: string, value: string)
    requires OneLine(name) && OneLine(value)
    ensures OneLine(PrintDefinition(name, value))
  {
  }

  predicate Enumerates(names: seq<string>, table: Table) {
    && (forall i | 0 <= i < |names| :: names[i] in table)
    && (forall n | n in table :: n in names)
    && Distinct(names)
  }

  /** The file as it is split into lines again. */
  lemma PrintedLines(table: Table, names: seq<string>)
    requires forall i | 0 <= i < |names| :: names[i] in table && OneLine(names[i]) && OneLine(table[names[i]])
    ensures SplitLines(Unlines(PrintTable(table, names))) == PrintTable(table, names)
  {
    hide PrintDefinition, OneLine, SplitLines, Unlines;
    var lines := PrintTable(table, names);
    forall i | 0 <= i < |lines| ensures OneLine(lines[i]) {
      PrintedOneLine(names[i], table[names[i]]);
    }
    SplitUnlines(lines);
  }

  lemma EnumeratedPrintable(table: Table, names: seq<string>)
    requires Enumerates(names, table) && forall n | n in table :: Printable(n, table[n])
    ensures forall i | 0 <= i < |names| :: names[i] in table && Printable(names[i], table[names[i]])
  {
    hide Printable;
  }

  /** Printing a printable table in any order and parsing the file into a new parser gives it back. */
  lemma TableRoundTrip(table: Table, names: seq<string>, file: string)
    requires Enumerates(names, table) && forall n | n in table :: Printable(n, table[n])
    ensures ParseFile(Fresh(map[], None), file, Some(Unlines(PrintTable(table, names)))) ==
            (State(table, Some(file), |names| + 1, ""), Finished)
  {
    hide RunLines, SplitLines, Unlines, CleanName, CleanValue, OneLine, Overlay, PrintTable, Enumerates;
    EnumeratedPrintable(table, names);
    PrintedLines(table, names);
    RunPrinted(Fresh(map[], Some(file)), table, names);
    OverlayAll(table, names);
  }

  // ---------- no other table comes back: what a parsed table cannot contain ----------

  /** True of every table a parser can build from nothing. */
  predicate Tidy(table: Table) {
    forall n | n in table :: TidyEntry(n, table[n])
  }

  predicate TidyEntry(name: string, value: string) {
    CleanName(name) && OneLine(name) && DollarFree(value) && OneLine(value)
  }

  lemma FirstCharStays(s: string)
    requires s != "" && !IsSpace(s[0])
    ensures Strip(s) != "" && Strip(s)[0] == s[0]
  {
    var r := Rstrip(s);
    RstripMeans(s);
    assert r != "" && r[0] == s[0];
  }

  lemma FrontShape(front: string)
    requires OneLine(front) && Excludes(front, '=') && (front != "" ==> !IsSpace(front[0]) && front[0] != '#')
    ensures CleanName(Strip(front)) && OneLine(Strip(front))
  {
    hide Strip, Excludes;
    StripTrims(front);
    StripExcludes(front, '=');
    StripExcludes(front, '\n');
    StripExcludes(front, '\r');
    if front == "" {
      StripEmpty();
    } else {
      FirstCharStays(front);
    }
  }

  lemma PartOneLine(s: string, lo: nat, hi: nat)
    requires OneLine(s) && lo <= hi <= |s|
    ensures OneLine(s[lo..hi])
  {
  }

  lemma DefinitionParts(body: string) returns (cut: nat, end: nat)
    requires ParseDefinition(body).Ok?
    ensures cut <= end <= |body| && Excludes(body[..cut], '=')
    ensures ParseDefinition(body).value.sym == NameIn(body, cut)
    ensures ParseDefinition(body).value.rhs == ValueIn(body, end)
  {
    hide Find, NameIn, ValueIn, ParseDefinition;
    ParsedAt(body);
    var eq := Find(body, '=', 0);
    cut, end := if body[eq - 1] in [':', '+', '?'] then eq - 1 else eq, eq + 1;
  }

  lemma DefinitionShape(body: string)
    requires body != "" && !IsSpace(body[0]) && body[0] != '#' && OneLine(body)
    requires ParseDefinition(body).Ok?
    ensures var d := ParseDefinition(body).value;
            CleanName(d.sym) && OneLine(d.sym) && OneLine(d.rhs)
  {
    hide ParseDefinition, Strip, Lstrip, CleanName, OneLine, Excludes;
    var cut, end := DefinitionParts(body);
    PartOneLine(body, 0, cut);
    PartOneLine(body, end, |body|);
    assert body[0..cut] == body[..cut] && body[end..|body|] == body[end..];
    FrontShape(body[..cut]);
    LstripOneLine(body[end..]);
  }

  lemma LstripOneLine(s: string)
    requires OneLine(s)
    ensures OneLine(Lstrip(s))
  {
    hide Lstrip, Excludes;
    LstripExcludes(s, '\n');
    LstripExcludes(s, '\r');
  }

  lemma RunDefinitionTidy(table: Table, body: string)
    requires Tidy(table) && body != "" && !IsSpace(body[0]) && body[0] != '#' && OneLine(body)
    ensures var r := RunDefinition(table, body);
            r.Ok? ==> TidyEntry(r.value.sym, r.value.val)
  {
    hide Expand, ParseDefinition, CleanName, Excludes;
    if ParseDefinition(body).Ok? {
      DefinitionShape(body);
      var rhs := ParseDefinition(body).value.rhs;
      forall n | n in table ensures DollarFree(table[n]) && OneLine(table[n]) {
        assert TidyEntry(n, table[n]);
      }
      ExpandDollarFree(table, rhs);
      ExpandExcludes(table, rhs, '\n');
      ExpandExcludes(table, rhs, '\r');
    }
  }

  lemma LogicalTidy(table: Table, line: string)
    requires Tidy(table) && OneLine(line)
    ensures var r := LogicalEvents(table, line);
            r.Ok? && r.value != [] ==> TidyEntry(r.value[0].sym, r.value[0].val)
  {
    hide Lstrip, RunDefinition, Excludes, TidyEntry, Tidy;
    var body := Lstrip(line);
    LstripMeans(line);
    LstripExcludes(line, '\n');
    LstripExcludes(line, '\r');
    if body != "" && body[0] != '#' {
      RunDefinitionTidy(table, body);
    }
  }

  lemma ApplyTidy(table: Table, e: Event)
    requires Tidy(table) && TidyEntry(e.sym, e.val)
    ensures Tidy(ApplyEvent(table, e))
  {
    hide CleanName;
    forall n | n in ApplyEvent(table, e) ensures TidyEntry(n, ApplyEvent(table, e)[n]) {
      if n in table {
        assert TidyEntry(n, table[n]);
      }
    }
  }

  lemma OneLineConcat(a: string, b: string)
    requires OneLine(a) && OneLine(b)
    ensures OneLine(a + b) && OneLine(a + " ")
  {
  }

  lemma ContinuedOneLine(s: State, line: string)
    requires OneLine(line) && OneLine(s.cont) && Continues(line)
    ensures OneLine(StepLine(s, line).state.cont)
  {
    hide Strip, Rstrip, LogicalEvents;
    var body := Chop(line);
    RstripExcludes(body, '\n');
    RstripExcludes(body, '\r');
    StripExcludes(body, '\n');
    StripExcludes(body, '\r');
  }

  /** The completed line is one line. */
  lemma FullOneLine(s: State, line: string)
    requires OneLine(line) && OneLine(s.cont)
    ensures OneLine(if s.cont == "" then line else s.cont + Lstrip(line))
  {
    hide Lstrip, OneLine;
    LstripOneLine(line);
    OneLineConcat(s.cont, Lstrip(line));
  }

  lemma EventsTidy(table: Table, events: seq<Event>)
    requires Tidy(table) && |events| <= 1 && (events != [] ==> TidyEntry(events[0].sym, events[0].val))
    ensures Tidy(Replay(table, events))
  {
    hide Tidy, TidyEntry, Replay;
    if events == [] {
      ReplayNone(table);
    } else {
      assert events == [events[0]];
      ReplayOne(table, events[0]);
      ApplyTidy(table, events[0]);
    }
  }

  lemma CompleteTidy(s: State, line: string)
    requires Tidy(s.table) && OneLine(line) && OneLine(s.cont) && !Continues(line)
    ensures Tidy(StepLine(s, line).state.table) && OneLine(StepLine(s, line).state.cont)
  {
    hide Lstrip, LogicalEvents, Replay, Tidy, TidyEntry, OneLine;
    FullOneLine(s, line);
    NothingOneLine();
    var full := if s.cont == "" then line else s.cont + Lstrip(line);
    LogicalTidy(s.table, full);
    if LogicalEvents(s.table, full).Ok? {
      EventsTidy(s.table, LogicalEvents(s.table, full).value);
    }
  }

  lemma StepTidy(s: State, line: string)
    requires Tidy(s.table) && OneLine(line) && OneLine(s.cont)
    ensures Tidy(StepLine(s, line).state.table) && OneLine(StepLine(s, line).state.cont)
  {
    hide Tidy, OneLine, Strip, Rstrip, Lstrip, LogicalEvents;
    if Continues(line) {
      ContinuedOneLine(s, line);
    } else {
      CompleteTidy(s, line);
    }
  }

  lemma NothingOneLine()
    ensures OneLine("")
  {
  }

  lemma {:induction false} RunTidy(s: State, lines: seq<string>)
    requires Tidy(s.table) && OneLine(s.cont) && forall i | 0 <= i < |lines| :: OneLine(lines[i])
    ensures Tidy(RunLines(s, lines).state.table)
    decreases |lines|
  {
    hide StepLine, Tidy, OneLine;
    if lines == [] {
    } else {
      StepTidy(s, lines[0]);
      RunTidy(StepLine(s, lines[0]).state, lines[1..]);
    }
  }

  // ---------- no other table comes back: swallowed lines and stripped values ----------

  /** The names a run over printed lines may define: all of them, or, when the first line is swallowed
      by a definition that is still being continued, the pending name and all but the first. */
  function Definable(cont: string, pending: string, names: seq<string>): set<string> {
    if cont == "" then (set n | n in names)
    else if names == [] then {}
    else {pending} + (set n | n in names[1..])
  }

  predicate Unchanged(before: Table, after: Table, name: string) {
    (name in after <==> name in before) && (name in before ==> after[name] == before[name])
  }

  lemma StepNamed(s: State, name: string, line: string)
    requires !Continues(line) && CleanName(name)
    requires name + " :=" <= (if s.cont == "" then line else s.cont + Lstrip(line))
    ensures var s' := StepLine(s, line).state;
            s'.cont == "" && forall n | n != name :: Unchanged(s.table, s'.table, n)
  {
    hide Lstrip, LogicalEvents, Replay, CleanName;
    var full := if s.cont == "" then line else s.cont + Lstrip(line);
    NamedEvents(s.table, name, full);
    var events := StepLine(s, line).events;
    if events == [] {
      ReplayNone(s.table);
    } else {
      assert events == [events[0]];
      ReplayOne(s.table, events[0]);
    }
  }

  lemma PrintedHead(name: string, value: string)
    ensures name + " :=" <= PrintDefinition(name, value)
    ensures Continues(PrintDefinition(name, value)) ==> name + " :=" <= Rstrip(Chop(PrintDefinition(name, value)))
  {
    var line := PrintDefinition(name, value);
    var head := name + " :=";
    assert line[..|head|] == head;
    if Continues(line) {
      var body, r := Chop(line), Rstrip(Chop(line));
      PrintedComplete(name, value);
      RstripMeans(body);
      assert body[..|head|] == head && body[|head| - 1] == '=';
      assert |r| >= |head| && r[..|head|] == head;
    }
  }

  /** A continued line keeps the pending definition, or makes its own name pending. */
  lemma StepPending(s: State, pending: string, name: string, value: string)
    requires Continues(value) && (s.cont != "" ==> pending + " :=" <= s.cont)
    ensures var s' := StepLine(s, PrintDefinition(name, value)).state;
            && s'.table == s.table && s'.cont != ""
            && (if s.cont == "" then name else pending) + " :=" <= s'.cont
  {
    hide Strip, Rstrip, LogicalEvents, PrintDefinition;
    PrintedComplete(name, value);
    PrintedHead(name, value);
  }

  lemma {:induction false} PrintedRunDefines(s: State, pending: string, table: Table, names: seq<string>)
    requires forall i | 0 <= i < |names| :: names[i] in table && CleanName(names[i])
    requires s.cont != "" ==> CleanName(pending) && pending + " :=" <= s.cont
    ensures var end := RunLines(s, PrintTable(table, names)).state.table;
            forall n | n !in Definable(s.cont, pending, names) :: Unchanged(s.table, end, n)
    decreases |names|
  {
    hide StepLine, PrintDefinition, CleanName, Lstrip, Rstrip;
    if names == [] {
    } else {
      var lines, name, value := PrintTable(table, names), names[0], table[names[0]];
      assert lines[1..] == PrintTable(table, names[1..]);
      PrintedComplete(name, value);
      PrintedHead(name, value);
      var owner := if s.cont == "" then name else pending;
      if Continues(value) {
        StepPending(s, pending, name, value);
      } else {
        PendingPrefix(s.cont, pending, lines[0]);
        StepNamed(s, owner, lines[0]);
      }
      var s' := StepLine(s, lines[0]).state;
      PrintedRunDefines(s', owner, table, names[1..]);
      DefinableShrinks(s.cont, pending, names, s'.cont);
      var end := RunLines(s, lines).state.table;
      forall n | n !in Definable(s.cont, pending, names) ensures Unchanged(s.table, end, n) {
        assert n != owner || Continues(value);
        assert Unchanged(s.table, s'.table, n);
        assert n !in Definable(s'.cont, owner, names[1..]);
      }
    }
  }

  lemma PendingPrefix(cont: string, pending: string, line: string)
    requires cont != "" ==> pending + " :=" <= cont
    ensures cont != "" ==> pending + " :=" <= cont + Lstrip(line)
  {
  }

  /** What the rest of the run may define was definable before, and so was this line's owner unless
      the definition goes on. */
  lemma DefinableShrinks(cont: string, pending: string, names: seq<string>, cont': string)
    requires names != []
    ensures var owner := if cont == "" then names[0] else pending;
            && Definable(cont', owner, names[1..]) <= Definable(cont, pending, names)
            && owner in Definable(cont, pending, names)
  {
  }

  predicate Distinct(names: seq<string>) {
    forall i, j | 0 <= i < j < |names| :: names[i] != names[j]
  }

  predicate New(names: seq<string>, table: Table) {
    forall i | 0 <= i < |names| :: names[i] !in table
  }

  predicate ComeBack(names: seq<string>, table: Table, end: Table) {
    forall i | 0 <= i < |names| :: Entry(end, names[i]) == Entry(table, names[i])
  }

  function Entry(table: Table, name: string): Option<string> {
    if name in table then Some(table[name]) else None
  }

  lemma NewTail(names: seq<string>, table: Table, value: string)
    requires names != [] && Distinct(names) && New(names, table)
    ensures Distinct(names[1..]) && New(names[1..], table[names[0] := value])
  {
  }

  lemma ComeBackTail(names: seq<string>, table: Table, end: Table)
    requires names != [] && ComeBack(names, table, end)
    ensures ComeBack(names[1..], table, end)
  {
  }

  /** All the printed names were new and came back with their values. */
  predicate Returned(s: State, table: Table, names: seq<string>)
    requires forall i | 0 <= i < |names| :: names[i] in table
  {
    && Distinct(names) && New(names, s.table)
    && ComeBack(names, table, RunLines(s, PrintTable(table, names)).state.table)
  }

  /** The first line is executed, and what it assigns stays. */
  lemma FirstValueStays(s: State, table: Table, names: seq<string>)
    requires s.cont == "" && names != []
    requires forall i | 0 <= i < |names| :: names[i] in table && CleanName(names[i])
    requires Distinct(names)
    requires DollarFree(table[names[0]]) && !Continues(table[names[0]])
    ensures var s' := StepLine(s, PrintDefinition(names[0], table[names[0]])).state;
            var end := RunLines(s, PrintTable(table, names)).state.table;
            && s'.cont == "" && s'.table == s.table[names[0] := Lstrip(table[names[0]])]
            && end == RunLines(s', PrintTable(table, names[1..])).state.table
            && Unchanged(s'.table, end, names[0])
  {
    hide StepLine, PrintDefinition, CleanName, Lstrip, DollarFree, Continues, RunLines, PrintTable, Unchanged;
    var lines, rest, name := PrintTable(table, names), names[1..], names[0];
    PrintFirst(table, names);
    PrintedStep(s, name, table[name]);
    RunFirst(s, lines);
    var s' := StepLine(s, lines[0]).state;
    PrintedRunDefines(s', "", table, rest);
    assert name !in Definable(s'.cont, "", rest);
  }

  lemma FirstValueClean(s: State, table: Table, names: seq<string>) returns (s': State)
    requires s.cont == "" && names != []
    requires forall i | 0 <= i < |names| :: names[i] in table && CleanName(names[i])
    requires DollarFree(table[names[0]]) && Returned(s, table, names)
    ensures CleanValue(table[names[0]])
    ensures s'.cont == "" && Returned(s', table, names[1..])
  {
    hide StepLine, PrintDefinition, CleanName, Lstrip, DollarFree, Continues, CleanValue, RunLines, PrintTable;
    hide Distinct, New, ComeBack;
    var value, end := table[names[0]], RunLines(s, PrintTable(table, names)).state.table;
    FirstValueReturned(s, table, names);
    FirstValueStays(s, table, names);
    s' := StepLine(s, PrintDefinition(names[0], value)).state;
    assert Entry(end, names[0]) == Entry(table, names[0]) by {
      ComeBackFirst(names, table, end);
    }
    LstripFixed(value);
    NewTail(names, s.table, Lstrip(value));
    ComeBackTail(names, table, end);
  }

  lemma ComeBackFirst(names: seq<string>, table: Table, end: Table)
    requires names != [] && ComeBack(names, table, end)
    ensures Entry(end, names[0]) == Entry(table, names[0])
  {
  }

  /** Then no value was continued or had its leading space stripped. */
  lemma {:induction false} ReturnedValuesClean(s: State, table: Table, names: seq<string>)
    requires s.cont == ""
    requires forall i | 0 <= i < |names| :: names[i] in table && CleanName(names[i]) && DollarFree(table[names[i]])
    requires Returned(s, table, names)
    ensures forall i | 0 <= i < |names| :: CleanValue(table[names[i]])
    decreases |names|
  {
    hide Returned, CleanName, DollarFree, CleanValue;
    if names == [] {
    } else {
      var s' := FirstValueClean(s, table, names);
      ReturnedValuesClean(s', table, names[1..]);
      assert forall i | 1 <= i < |names| :: names[i] == names[1..][i - 1];
    }
  }

  lemma LstripFixed(value: string)
    requires DollarFree(value) && !Continues(value)
    ensures Lstrip(value) == value ==> CleanValue(value)
  {
    LstripMeans(value);
  }

  /** A continued value swallows its own definition or the next one. */
  lemma SwallowedName(s: State, table: Table, names: seq<string>) returns (lost: string)
    requires s.cont == "" && names != [] && names[0] in table && Continues(table[names[0]])
    requires forall i | 0 <= i < |names| :: names[i] in table && CleanName(names[i])
    requires Distinct(names) && New(names, s.table)
    ensures lost == names[0] || (|names| > 1 && lost == names[1])
    ensures lost !in RunLines(s, PrintTable(table, names)).state.table
  {
    hide StepLine, PrintDefinition, CleanName;
    var lines, rest := PrintTable(table, names), names[1..];
    assert lines[1..] == PrintTable(table, rest);
    PrintedComplete(names[0], table[names[0]]);
    ContinuedNoError(s, lines[0]);
    StepPending(s, "", names[0], table[names[0]]);
    var s' := StepLine(s, lines[0]).state;
    PrintedRunDefines(s', names[0], table, rest);
    lost := if rest == [] then names[0] else rest[0];
    assert lost !in Definable(s'.cont, names[0], rest);
    assert Unchanged(s'.table, RunLines(s', PrintTable(table, rest)).state.table, lost);
  }

  lemma FirstValueReturned(s: State, table: Table, names: seq<string>)
    requires s.cont == "" && names != []
    requires forall i | 0 <= i < |names| :: names[i] in table && CleanName(names[i])
    requires Distinct(names) && New(names, s.table)
    requires ComeBack(names, table, RunLines(s, PrintTable(table, names)).state.table)
    ensures !Continues(table[names[0]])
  {
    hide RunLines, PrintDefinition, CleanName, PrintTable;
    if Continues(table[names[0]]) {
      var lost := SwallowedName(s, table, names);
    }
  }

  lemma ContinuedNoError(s: State, line: string)
    requires Continues(line)
    ensures StepLine(s, line).error == None
  {
    hide Strip, Rstrip;
  }

  /** The exact condition: for any table, printed in any order, the file parses back to the table if
      and only if every entry is printable. */
  lemma TableRoundTripIff(table: Table, names: seq<string>, file: string)
    requires Enumerates(names, table)
    ensures ParseFile(Fresh(map[], None), file, Some(Unlines(PrintTable(table, names)))).0.table == table <==>
            forall n | n in table :: Printable(n, table[n])
  {
    if forall n | n in table :: Printable(n, table[n]) {
      TableRoundTrip(table, names, file);
    } else if ParseFile(Fresh(map[], None), file, Some(Unlines(PrintTable(table, names)))).0.table == table {
      ReturnedTablePrintable(table, names, file);
    }
  }

  lemma ReturnedTidy(table: Table, file: string, text: string)
    requires ParseFile(Fresh(map[], None), file, Some(text)).0.table == table
    ensures Tidy(table)
  {
    hide RunLines, SplitLines, OneLine;
    var lines := SplitLines(text);
    assert forall i | 0 <= i < |lines| :: lines[i] in lines;
    NothingOneLine();
    RunTidy(Fresh(map[], Some(file)), lines);
  }

  lemma ReturnedRun(table: Table, names: seq<string>, file: string)
    requires Enumerates(names, table) && Tidy(table)
    requires ParseFile(Fresh(map[], None), file, Some(Unlines(PrintTable(table, names)))).0.table == table
    ensures Returned(Fresh(map[], Some(file)), table, names)
  {
    hide RunLines, SplitLines, Unlines, CleanName, OneLine, DollarFree, PrintDefinition;
    forall i | 0 <= i < |names| ensures OneLine(names[i]) && OneLine(table[names[i]]) {
      assert TidyEntry(names[i], table[names[i]]);
    }
    PrintedLines(table, names);
  }

  lemma ReturnedTablePrintable(table: Table, names: seq<string>, file: string)
    requires Enumerates(names, table)
    requires ParseFile(Fresh(map[], None), file, Some(Unlines(PrintTable(table, names)))).0.table == table
    ensures forall n | n in table :: Printable(n, table[n])
  {
    hide ParseFile, CleanName, CleanValue, OneLine, DollarFree, Returned;
    ReturnedTidy(table, file, Unlines(PrintTable(table, names)));
    ReturnedRun(table, names, file);
    forall i | 0 <= i < |names| ensures TidyEntry(names[i], table[names[i]]) {
    }
    ReturnedValuesClean(Fresh(map[], Some(file)), table, names);
    forall n | n in table ensures Printable(n, table[n]) {
      var i :| 0 <= i < |names| && names[i] == n;
      assert CleanValue(table[names[i]]) && TidyEntry(names[i], table[names[i]]);
    }
  }

  /** The same for a single definition. */
  lemma RoundTripIff(name: string, value: string, file: string)
    ensures ParseFile(Fresh(map[], None), file, Some(Unlines([PrintDefinition(name, value)]))).0.table ==
            map[name := value]
            <==> Printable(name, value)
  {
    var table := map[name := value];
    assert Enumerates([name], table);
    assert PrintTable(table, [name]) == [PrintDefinition(name, value)];
    TableRoundTripIff(table, [name], file);
  }

  /** The line break is the reason in this case: everything else about the value is clean. */
  lemma BreakDoesNotComeBack(file: string)
    ensures CleanName("n") && OneLine("n") && CleanValue("a\nb")
    ensures ParseFile(Fresh(map[], None), file, Some(Unlines([PrintDefinition("n", "a\nb")]))).0.table !=
            map["n" := "a\nb"]
  {
    hide ParseFile;
    assert "a\nb"[1] == '\n';
    RoundTripIff("n", "a\nb", file);
  }
}
