/** What holds over whole runs of the source-list parser. */
module SourceRuns {
  import opened Options
  import opened Text
  import opened Expansion
  import opened SourceList
  import Folding

  // ---------- a run is the replay of the definitions it executed ----------

  /** Every append finds its variable already defined, by the table or by an earlier event. */
  predicate Grounded(defined: set<string>, events: seq<Event>)
    decreases |events|
  {
    events == [] ||
    (&& (events[0].op == Append ==> events[0].sym in defined)
     && Grounded(defined + {events[0].sym}, events[1..]))
  }

  lemma ApplyKeys(table: Table, e: Event)
    requires e.op == Append ==> e.sym in table
    ensures ApplyEvent(table, e).Keys == table.Keys + {e.sym}
  {
  }

  lemma StepReplays(s: State, line: string)
    ensures var step := StepLine(s, line);
            && step.state.table == Replay(s.table, step.events)
            && Grounded(s.table.Keys, step.events)
            && step.state.table.Keys == s.table.Keys + (set e | e in step.events :: e.sym)
  {
    hide LogicalEvents, Strip, Lstrip, Rstrip;
    var events := StepLine(s, line).events;
    if events != [] {
      assert events == [events[0]];
      ReplayOne(s.table, events[0]);
      ApplyKeys(s.table, events[0]);
    }
  }

  lemma {:induction false} ReplayConcat(table: Table, a: seq<Event>, b: seq<Event>)
    ensures Replay(table, a + b) == Replay(Replay(table, a), b)
    decreases |a|
  {
    if a == [] {
      assert a + b == b;
    } else {
      assert (a + b)[1..] == a[1..] + b;
      ReplayConcat(ApplyEvent(table, a[0]), a[1..], b);
    }
  }

  lemma {:induction false} GroundedConcat(defined: set<string>, a: seq<Event>, b: seq<Event>)
    requires Grounded(defined, a)
    requires Grounded(defined + (set e | e in a :: e.sym), b)
    ensures Grounded(defined, a + b)
    decreases |a|
  {
    if a == [] {
      assert a + b == b;
      assert defined + (set e | e in a :: e.sym) == defined;
    } else {
      assert (a + b)[1..] == a[1..] + b;
      assert defined + (set e | e in a :: e.sym)
          == defined + {a[0].sym} + (set e | e in a[1..] :: e.sym);
      GroundedConcat(defined + {a[0].sym}, a[1..], b);
    }
  }

  lemma {:induction false} RunReplays(s: State, lines: seq<string>)
    ensures var run := RunLines(s, lines);
            && run.state.table == Replay(s.table, run.events)
            && Grounded(s.table.Keys, run.events)
    decreases |lines|
  {
    hide StepLine;
    if lines == [] {
    } else {
      var first := StepLine(s, lines[0]);
      StepReplays(s, lines[0]);
      if first.error.None? {
        RunReplays(first.state, lines[1..]);
        var rest := RunLines(first.state, lines[1..]);
        ReplayConcat(s.table, first.events, rest.events);
        GroundedConcat(s.table.Keys, first.events, rest.events);
      }
    }
  }

  // ---------- a value is the list of its contributions ----------

  ghost predicate DefinedBy(init: Table, events: seq<Event>, sym: string) {
    sym in init || exists i :: 0 <= i < |events| && events[i].sym == sym
  }

  /** Reading backwards: the values appended to `sym` since it was last overwritten, and the
      value that overwrote it (or its initial value). */
  ghost function Contributions(init: Table, events: seq<Event>, sym: string): seq<string> {
    if events == [] then (if sym in init then [init[sym]] else [])
    else
      var before, e := events[..|events| - 1], events[|events| - 1];
      if e.sym != sym then Contributions(init, before, sym)
      else if e.op == Append then Contributions(init, before, sym) + [e.val]
      else if e.op == Overwrite || !DefinedBy(init, before, sym) then [e.val]
      else Contributions(init, before, sym)
  }

  function WordsOfAll(values: seq<string>): seq<seq<string>> {
    seq(|values|, i requires 0 <= i < |values| => Words(values[i]))
  }

  lemma {:induction false} GroundedPrefix(defined: set<string>, events: seq<Event>)
    requires events != [] && Grounded(defined, events)
    ensures var before, e := events[..|events| - 1], events[|events| - 1];
            && Grounded(defined, before)
            && (e.op == Append ==> e.sym in defined || exists i :: 0 <= i < |before| && before[i].sym == e.sym)
    decreases |events|
  {
    if |events| == 1 {
    } else {
      var tail := events[1..];
      GroundedPrefix(defined + {events[0].sym}, tail);
      assert events[..|events| - 1][1..] == tail[..|tail| - 1];
      var before, e := events[..|events| - 1], events[|events| - 1];
      if e.op == Append && e.sym !in defined && e.sym != events[0].sym {
        var i :| 0 <= i < |tail| - 1 && tail[..|tail| - 1][i].sym == e.sym;
        assert before[i + 1].sym == e.sym;
      }
      assert before[0] == events[0];
    }
  }

  lemma ReplaySnoc(table: Table, events: seq<Event>)
    requires events != []
    ensures Replay(table, events) ==
            ApplyEvent(Replay(table, events[..|events| - 1]), events[|events| - 1])
  {
    var before, e := events[..|events| - 1], events[|events| - 1];
    assert events == before + [e];
    ReplayConcat(table, before, [e]);
    ReplayOne(Replay(table, before), e);
  }

  /** The words of a variable are, in order, the words of its contributions. */
  lemma {:induction false} ReplayWords(init: Table, events: seq<Event>, sym: string)
    requires Grounded(init.Keys, events)
    ensures var table, parts := Replay(init, events), Contributions(init, events, sym);
            && (sym in table <==> DefinedBy(init, events, sym))
            && (sym in table <==> parts != [])
            && (sym in table ==> Words(table[sym]) == Flatten(WordsOfAll(parts)))
    decreases |events|
  {
    hide Words, Flatten, WordsOfAll, Grounded;
    if events == [] {
      if sym in init {
        SingleWords(init[sym]);
      }
    } else {
      var before, e := events[..|events| - 1], events[|events| - 1];
      GroundedPrefix(init.Keys, events);
      ReplayWords(init, before, sym);
      ReplaySnoc(init, events);
      DefinedSnoc(init, events, sym);
      SingleWords(e.val);
      if e.sym == sym && e.op == Append {
        AppendWords(Replay(init, before)[sym], Contributions(init, before, sym), e.val);
      }
    }
  }

  lemma DefinedSnoc(init: Table, events: seq<Event>, sym: string)
    requires events != []
    ensures DefinedBy(init, events, sym) <==>
            DefinedBy(init, events[..|events| - 1], sym) || events[|events| - 1].sym == sym
  {
    var before := events[..|events| - 1];
    if sym !in init && DefinedBy(init, before, sym) {
      var i :| 0 <= i < |before| && before[i].sym == sym;
      assert events[i].sym == sym;
    }
    if sym !in init && DefinedBy(init, events, sym) {
      var i :| 0 <= i < |events| && events[i].sym == sym;
      assert i < |before| ==> before[i].sym == sym;
    }
  }

  lemma SingleWords(val: string)
    ensures Flatten(WordsOfAll([val])) == Words(val)
  {
    var parts := WordsOfAll([val]);
    assert parts[1..] == [] && parts[0] == Words(val);
    assert Words(val) + [] == Words(val);
  }

  lemma AppendWords(current: string, parts: seq<string>, val: string)
    requires Words(current) == Flatten(WordsOfAll(parts))
    ensures Words(current + (" " + val)) == Flatten(WordsOfAll(parts + [val]))
  {
    assert current + (" " + val) == current + [' '] + val;
    WordsAcrossSpace(current, ' ', val);
    assert WordsOfAll(parts + [val]) == WordsOfAll(parts) + [Words(val)];
    FlattenSnoc(WordsOfAll(parts), Words(val));
  }

  /** The same for a run over physical lines, whether or not it stops at an error. */
  lemma RunWords(s: State, lines: seq<string>, sym: string)
    ensures var run := RunLines(s, lines);
            var parts := Contributions(s.table, run.events, sym);
            && (sym in run.state.table <==> parts != [])
            && (sym in run.state.table ==> Words(run.state.table[sym]) == Flatten(WordsOfAll(parts)))
  {
    RunReplays(s, lines);
    ReplayWords(s.table, RunLines(s, lines).events, sym);
  }

  // ---------- full expansion ----------

  datatype Call = AddSymbol(name: string, value: string) | Parse(file: string, text: Option<string>)

  function RunCall(s: State, call: Call): State {
    match call
    case AddSymbol(name, value) => s.(table := s.table[name := value])
    case Parse(file, text) => ParseFile(s, file, text).0
  }

  function RunCalls(s: State, calls: seq<Call>): State
    decreases |calls|
  {
    if calls == [] then s else RunCalls(RunCall(s, calls[0]), calls[1..])
  }

  lemma RunDefinitionDollarFree(table: Table, line: string)
    requires FullyExpanded(table)
    ensures var r := RunDefinition(table, line);
            r.Ok? ==> DollarFree(r.value.val)
  {
    hide Expand, DollarFree, FullyExpanded, Strip, Lstrip;
    if ParseDefinition(line).Ok? {
      ExpandDollarFree(table, ParseDefinition(line).value.rhs);
    }
  }

  lemma LogicalDollarFree(table: Table, line: string)
    requires FullyExpanded(table)
    ensures var r := LogicalEvents(table, line);
            r.Ok? && r.value != [] ==> DollarFree(r.value[0].val)
  {
    hide Lstrip, RunDefinition, DollarFree, FullyExpanded;
    RunDefinitionDollarFree(table, Lstrip(line));
  }

  lemma ApplyFullyExpanded(table: Table, e: Event)
    requires FullyExpanded(table) && DollarFree(e.val)
    ensures FullyExpanded(ApplyEvent(table, e))
  {
  }

  lemma StepFullyExpanded(s: State, line: string)
    requires FullyExpanded(s.table)
    ensures FullyExpanded(StepLine(s, line).state.table)
  {
    hide Strip, Lstrip, Rstrip, LogicalEvents, Replay, DollarFree, FullyExpanded, Continues, Chop;
    var full := if s.cont == "" then line else s.cont + Lstrip(line);
    LogicalDollarFree(s.table, full);
    var events := StepLine(s, line).events;
    if events == [] {
      ReplayNone(s.table);
    } else {
      assert events == [events[0]];
      ReplayOne(s.table, events[0]);
      ApplyFullyExpanded(s.table, events[0]);
    }
  }

  lemma {:induction false} RunFullyExpanded(s: State, lines: seq<string>)
    requires FullyExpanded(s.table)
    ensures FullyExpanded(RunLines(s, lines).state.table)
    decreases |lines|
  {
    hide StepLine, FullyExpanded;
    if lines == [] {
    } else {
      StepFullyExpanded(s, lines[0]);
      RunFullyExpanded(StepLine(s, lines[0]).state, lines[1..]);
    }
  }

  /** Whatever files are parsed, in whatever order and with whatever errors, no `$` ever enters the
      table unless `add_symbol` put it there; so expanding a stored value again changes nothing. */
  lemma {:induction false} CallsFullyExpanded(s: State, calls: seq<Call>)
    requires FullyExpanded(s.table)
    requires forall i | 0 <= i < |calls| && calls[i].AddSymbol? :: DollarFree(calls[i].value)
    ensures FullyExpanded(RunCalls(s, calls).table)
    ensures forall name | name in RunCalls(s, calls).table ::
              Expand(RunCalls(s, calls).table, RunCalls(s, calls).table[name]) == Ok(RunCalls(s, calls).table[name])
    decreases |calls|
  {
    hide RunLines, Expand;
    if calls != [] {
      if calls[0].Parse? && calls[0].text.Some? {
        RunFullyExpanded(Fresh(s.table, Some(calls[0].file)), SplitLines(calls[0].text.value));
      }
      CallsFullyExpanded(RunCall(s, calls[0]), calls[1..]);
    } else {
      forall name | name in s.table ensures Expand(s.table, s.table[name]) == Ok(s.table[name]) {
        ExpandIdentity(s.table, s.table[name]);
      }
    }
  }

  // ---------- failure and caching ----------

  /** A failing run is a clean run up to some line, which then raises and changes nothing. */
  lemma {:induction false} FailureIsAtomic(s: State, lines: seq<string>) returns (k: nat)
    requires RunLines(s, lines).error.Some?
    ensures k < |lines|
    ensures var run, clean := RunLines(s, lines), RunLines(s, lines[..k]);
            && clean.error == None
            && StepLine(clean.state, lines[k]).error == run.error
            && run.state == clean.state.(cont := "")
            && run.events == clean.events
    decreases |lines|
  {
    hide StepLine;
    var first := StepLine(s, lines[0]);
    Folding.StepError(s, lines[0]);
    if first.error.Some? {
      k := 0;
    } else {
      var k' := FailureIsAtomic(first.state, lines[1..]);
      k := k' + 1;
      assert lines[..k][1..] == lines[1..][..k'];
    }
  }

  /** A failed parse leaves the effect of the lines before the failing one, and nothing else:
      no file counts as parsed and no continuation is pending. */
  lemma FailedParse(s: State, name: string, text: string) returns (k: nat)
    requires ParseFile(s, name, Some(text)).1.Raised?
    ensures k < |SplitLines(text)|
    ensures var (s', outcome) := ParseFile(s, name, Some(text));
            var clean := RunLines(Fresh(s.table, Some(name)), SplitLines(text)[..k]);
            && clean.error == None
            && StepLine(clean.state, SplitLines(text)[k]).error == Some(outcome.error)
            && outcome.lineNo == clean.state.lineNo
            && s' == Fresh(clean.state.table, None)
  {
    hide StepLine, RunLines, SplitLines;
    k := FailureIsAtomic(Fresh(s.table, Some(name)), SplitLines(text));
  }

  lemma {:induction false} RunKeepsFilename(s: State, lines: seq<string>)
    ensures RunLines(s, lines).state.filename == s.filename
    decreases |lines|
  {
    hide LogicalEvents, Strip, Lstrip, Rstrip;
    if lines == [] {
    } else {
      RunKeepsFilename(StepLine(s, lines[0]).state, lines[1..]);
    }
  }

  /** After a success the same file is a no-op, whatever it now contains; after a failure it is
      parsed afresh. */
  lemma SecondParse(s: State, name: string, text: Option<string>, again: Option<string>)
    ensures var (s', outcome) := ParseFile(s, name, text);
            && (outcome.Finished? ==> ParseFile(s', name, again) == (s', Finished))
            && (outcome.Raised? && again.Some? ==>
                ParseFile(s', name, again) == ParseFile(Fresh(s'.table, None), name, again))
  {
    hide RunLines, SplitLines;
    if text.Some? {
      RunKeepsFilename(Fresh(s.table, Some(name)), SplitLines(text.value));
    }
  }

  // ---------- continuations over a whole session ----------

  /** The session with every file rewritten without line continuations. */
  function FoldCalls(calls: seq<Call>): (r: seq<Call>)
    ensures |r| == |calls|
  {
    if calls == [] then []
    else
      var call := match calls[0]
                  case Parse(file, Some(text)) => Parse(file, Some(Unlines(Folding.LogicalLines(SplitLines(text)))))
                  case _ => calls[0];
      [call] + FoldCalls(calls[1..])
  }

  /** Nothing but the table passes from one file to the next: an unfinished continuation at the end
      of a file is dropped, so joining the lines of every file leaves the whole session unchanged. */
  lemma {:induction false} SessionFolding(s: State, calls: seq<Call>)
    ensures RunCalls(s.(cont := ""), FoldCalls(calls)).(cont := "") == RunCalls(s, calls).(cont := "")
    decreases |calls|
  {
    hide RunLines, SplitLines, Unlines, Folding.LogicalLines;
    if calls == [] {
    } else {
      if calls[0].Parse? && calls[0].text.Some? {
        Folding.FoldedFileMeansTheSame(s, calls[0].file, calls[0].text.value);
      }
      var next := RunCall(s, calls[0]);
      var folded := FoldCalls(calls);
      assert folded[1..] == FoldCalls(calls[1..]);
      assert RunCall(s.(cont := ""), folded[0]) == next.(cont := "");
      SessionFolding(next, calls[1..]);
    }
  }
}
