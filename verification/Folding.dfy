/** Line continuation: the physical-line state machine means the same as the pre-joined file. */
module Folding {
  import opened Options
  import opened Text
  import opened SourceList

  /** The number of leading lines that end in a backslash. */
  function ContinuedPrefix(lines: seq<string>): (k: nat)
    ensures k <= |lines|
    ensures forall i | 0 <= i < k :: Continues(lines[i])
    ensures k < |lines| ==> !Continues(lines[k])
  {
    if lines != [] && Continues(lines[0]) then 1 + ContinuedPrefix(lines[1..]) else 0
  }

  /** strip(middle) + ' ' + ... + lstrip(last): what follows the first line of a group. */
  function JoinTail(lines: seq<string>): string
    requires lines != []
    requires forall i | 0 <= i < |lines| - 1 :: Continues(lines[i])
  {
    if |lines| == 1 then Lstrip(lines[0])
    else Strip(Chop(lines[0])) + " " + JoinTail(lines[1..])
  }

  /** A continued group as one line. */
  function JoinGroup(lines: seq<string>): string
    requires lines != []
    requires forall i | 0 <= i < |lines| - 1 :: Continues(lines[i])
  {
    if |lines| == 1 then lines[0]
    else Rstrip(Chop(lines[0])) + " " + JoinTail(lines[1..])
  }

  /** The file with every continued group joined; an unfinished last group is dropped. */
  function LogicalLines(lines: seq<string>): seq<string> {
    var k := ContinuedPrefix(lines);
    if k == |lines| then [] else [JoinGroup(lines[..k + 1])] + LogicalLines(lines[k + 1..])
  }

  predicate EmptyOrSpaced(cont: string) {
    cont == "" || cont[|cont| - 1] == ' '
  }

  lemma {:induction false} LstripLast(line: string)
    requires !Continues(line)
    ensures !Continues(Lstrip(line))
  {
    if line == "" || !IsSpace(line[0]) {
    } else {
      LstripLast(line[1..]);
    }
  }

  lemma LastOfStripped(cont: string, line: string)
    requires cont != "" && EmptyOrSpaced(cont) && !Continues(line)
    ensures !Continues(cont + Lstrip(line))
  {
    hide Lstrip;
    LstripLast(line);
    LastOfJoined(cont, Lstrip(line));
  }

  lemma LastOfJoined(cont: string, r: string)
    requires cont != "" && EmptyOrSpaced(cont) && !Continues(r)
    ensures !Continues(cont + r)
  {
    if r == "" {
      assert cont + r == cont;
    }
  }

  lemma {:induction false} JoinTailComplete(lines: seq<string>, cont: string)
    requires lines != [] && !Continues(lines[|lines| - 1])
    requires forall i | 0 <= i < |lines| - 1 :: Continues(lines[i])
    requires cont != "" && EmptyOrSpaced(cont)
    ensures !Continues(cont + JoinTail(lines))
  {
    hide Strip;
    if |lines| <= 1 {
      LastOfStripped(cont, lines[0]);
    } else {
      var middle := Strip(Chop(lines[0]));
      JoinTailComplete(lines[1..], cont + middle + " ");
      Regroup(cont, middle, JoinTail(lines[1..]));
    }
  }

  lemma JoinGroupComplete(lines: seq<string>)
    requires lines != [] && !Continues(lines[|lines| - 1])
    requires forall i | 0 <= i < |lines| - 1 :: Continues(lines[i])
    ensures !Continues(JoinGroup(lines))
  {
    if |lines| > 1 {
      JoinTailComplete(lines[1..], Rstrip(Chop(lines[0])) + " ");
    }
  }

  /** A continued line only extends the buffer. */
  lemma RunContinued(s: State, lines: seq<string>)
    requires lines != [] && Continues(lines[0])
    ensures var text := if s.cont == "" then Rstrip(Chop(lines[0])) else s.cont + Strip(Chop(lines[0]));
            RunLines(s, lines) == RunLines(s.(cont := text + " "), lines[1..])
  {
    hide Strip, Rstrip, Lstrip, LogicalEvents, Replay;
    var rest := RunLines(StepLine(s, lines[0]).state, lines[1..]);
    assert [] + rest.events == rest.events;
  }

  lemma Regroup(cont: string, middle: string, tail: string)
    ensures (cont + middle + " ") + tail == cont + (middle + " " + tail)
  {
  }

  lemma StepCompletes(s: State, line: string)
    requires s.cont != "" && !Continues(line) && !Continues(s.cont + Lstrip(line))
    ensures StepLine(s, line) == StepLine(s.(cont := ""), s.cont + Lstrip(line))
  {
    hide Strip, Rstrip, Lstrip, LogicalEvents, Replay, Continues;
  }

  /** Inside a group the machine carries the joined prefix, and completes it with the rest. */
  lemma {:induction false} RunTail(s: State, group: seq<string>)
    requires group != [] && !Continues(group[|group| - 1])
    requires forall i | 0 <= i < |group| - 1 :: Continues(group[i])
    requires s.cont != "" && EmptyOrSpaced(s.cont)
    ensures RunLines(s, group) == StepLine(s.(cont := ""), s.cont + JoinTail(group))
    decreases |group|
  {
    hide Strip, Lstrip, RunLines, StepLine;
    if |group| == 1 {
      assert group == [group[0]];
      RunOne(s, group[0]);
      JoinTailComplete(group, s.cont);
      StepCompletes(s, group[0]);
    } else {
      var middle, tail := Strip(Chop(group[0])), JoinTail(group[1..]);
      RunContinued(s, group);
      RunTail(s.(cont := s.cont + middle + " "), group[1..]);
      Regroup(s.cont, middle, tail);
    }
  }

  lemma RunOne(s: State, line: string)
    ensures RunLines(s, [line]) == StepLine(s, line)
  {
    hide StepLine;
    var first := StepLine(s, line);
    if first.error.None? {
      assert RunLines(first.state, []) == Step(first.state, [], None);
      assert first.events + [] == first.events;
    } else {
      StepError(s, line);
    }
  }

  /** A raising line executes nothing and leaves the table and the line number as they were. */
  lemma StepError(s: State, line: string)
    ensures var step := StepLine(s, line);
            step.error.Some? ==> step.state == s.(cont := "") && step.events == []
  {
    hide LogicalEvents, Strip, Lstrip, Rstrip;
  }

  lemma RunGroup(s: State, group: seq<string>)
    requires group != [] && !Continues(group[|group| - 1])
    requires forall i | 0 <= i < |group| - 1 :: Continues(group[i])
    requires s.cont == ""
    ensures RunLines(s, group) == StepLine(s, JoinGroup(group))
  {
    hide Strip, Rstrip, JoinTail, RunLines, StepLine;
    if |group| == 1 {
      assert group == [group[0]];
      RunOne(s, group[0]);
    } else {
      var s' := s.(cont := Rstrip(Chop(group[0])) + " ");
      RunContinued(s, group);
      RunTail(s', group[1..]);
      assert s'.cont + JoinTail(group[1..]) == JoinGroup(group);
    }
  }

  /** Two and three lines written out: white space around a backslash becomes one blank. */
  lemma ContinuedLines(s: State, a: string, b: string, c: string)
    requires s.cont == "" && !Continues(c)
    ensures RunLines(s, [a + "\\", c]) == StepLine(s, Rstrip(a) + " " + Lstrip(c))
    ensures RunLines(s, [a + "\\", b + "\\", c]) == StepLine(s, Rstrip(a) + " " + (Strip(b) + " " + Lstrip(c)))
  {
    hide Strip, Rstrip, Lstrip, RunLines, StepLine, Continues, Chop, JoinGroup, JoinTail;
    var x, y := a + "\\", b + "\\";
    Backslash(a);
    Backslash(b);
    RunGroup(s, [x, c]);
    RunGroup(s, [x, y, c]);
    JoinFew(x, y, c);
  }

  lemma Backslash(a: string)
    ensures Continues(a + "\\") && Chop(a + "\\") == a
  {
  }

  lemma JoinFew(x: string, y: string, c: string)
    requires Continues(x) && Continues(y)
    ensures JoinGroup([x, c]) == Rstrip(Chop(x)) + " " + Lstrip(c)
    ensures JoinGroup([x, y, c]) == Rstrip(Chop(x)) + " " + (Strip(Chop(y)) + " " + Lstrip(c))
  {
    hide Strip, Rstrip, Lstrip, Continues, Chop;
    assert [x, c][1..] == [c] && [x, y, c][1..] == [y, c] && [y, c][1..] == [c];
    assert JoinTail([c]) == Lstrip(c) && JoinTail([y, c]) == Strip(Chop(y)) + " " + Lstrip(c);
  }

  function Then(first: Step, lines: seq<string>): Step {
    if first.error.Some? then first
    else
      var rest := RunLines(first.state, lines);
      Step(rest.state, first.events + rest.events, rest.error)
  }

  lemma {:induction false} RunConcat(s: State, a: seq<string>, b: seq<string>)
    ensures RunLines(s, a + b) == Then(RunLines(s, a), b)
    decreases |a|
  {
    hide StepLine;
    if a == [] {
      assert a + b == b;
      var rest := RunLines(s, b);
      assert [] + rest.events == rest.events;
    } else {
      assert (a + b)[1..] == a[1..] + b;
      var first := StepLine(s, a[0]);
      if first.error.None? {
        RunConcat(first.state, a[1..], b);
        var mid := RunLines(first.state, a[1..]);
        var end := RunLines(mid.state, b);
        assert first.events + (mid.events + end.events) == (first.events + mid.events) + end.events;
      }
    }
  }

  /** An unfinished group only fills the continuation buffer. */
  lemma {:induction false} RunUnfinished(s: State, lines: seq<string>)
    requires forall i | 0 <= i < |lines| :: Continues(lines[i])
    requires EmptyOrSpaced(s.cont)
    ensures var run := RunLines(s, lines);
            && run.error == None && run.events == []
            && run.state.(cont := "") == s.(cont := "")
            && EmptyOrSpaced(run.state.cont)
    decreases |lines|
  {
    hide Strip, Lstrip, Rstrip, LogicalEvents;
    if lines == [] {
    } else {
      RunUnfinished(StepLine(s, lines[0]).state, lines[1..]);
    }
  }

  /** Feeding physical lines and feeding the pre-joined file give the same definitions, table,
      line number and error; what is left in the buffer is empty or ends in a space. */
  lemma {:induction false} FoldingPreservesMeaning(s: State, lines: seq<string>)
    requires s.cont == ""
    ensures var run, folded := RunLines(s, lines), RunLines(s, LogicalLines(lines));
            && folded == run.(state := run.state.(cont := ""))
            && EmptyOrSpaced(run.state.cont)
            && (run.error.Some? ==> run.state.cont == "")
    decreases |lines|
  {
    hide StepLine;
    var k := ContinuedPrefix(lines);
    if k == |lines| {
      RunUnfinished(s, lines);
    } else {
      var group, rest := lines[..k + 1], lines[k + 1..];
      assert lines == group + rest;
      RunConcat(s, group, rest);
      RunGroup(s, group);
      JoinGroupComplete(group);
      var first := StepLine(s, JoinGroup(group));
      CompleteClears(s, JoinGroup(group));
      assert LogicalLines(lines) == [JoinGroup(group)] + LogicalLines(rest);
      RunConcat(s, [JoinGroup(group)], LogicalLines(rest));
      RunOne(s, JoinGroup(group));
      if first.error.None? {
        FoldingPreservesMeaning(first.state, rest);
      }
    }
  }

  lemma CompleteClears(s: State, line: string)
    requires !Continues(line)
    ensures StepLine(s, line).state.cont == ""
  {
    hide LogicalEvents, Lstrip;
  }

  lemma OneLineJoin(a: string, b: string)
    requires OneLine(a) && OneLine(b)
    ensures OneLine(a + " " + b)
  {
  }

  lemma {:induction false} JoinTailOneLine(lines: seq<string>)
    requires lines != []
    requires forall i | 0 <= i < |lines| - 1 :: Continues(lines[i])
    requires forall i | 0 <= i < |lines| :: OneLine(lines[i])
    ensures OneLine(JoinTail(lines))
  {
    hide Lstrip, Strip;
    if |lines| == 1 {
      LstripExcludes(lines[0], '\n');
      LstripExcludes(lines[0], '\r');
    } else {
      var body := Chop(lines[0]);
      StripExcludes(body, '\n');
      StripExcludes(body, '\r');
      JoinTailOneLine(lines[1..]);
      OneLineJoin(Strip(body), JoinTail(lines[1..]));
    }
  }

  lemma JoinGroupOneLine(lines: seq<string>)
    requires lines != []
    requires forall i | 0 <= i < |lines| - 1 :: Continues(lines[i])
    requires forall i | 0 <= i < |lines| :: OneLine(lines[i])
    ensures OneLine(JoinGroup(lines))
  {
    hide Rstrip, JoinTail;
    if |lines| > 1 {
      var body := Chop(lines[0]);
      RstripExcludes(body, '\n');
      RstripExcludes(body, '\r');
      JoinTailOneLine(lines[1..]);
      OneLineJoin(Rstrip(body), JoinTail(lines[1..]));
    }
  }

  /** Joined lines contain no line break, so the pre-joined file is itself a file. */
  lemma {:induction false} LogicalOneLine(lines: seq<string>)
    requires forall i | 0 <= i < |lines| :: OneLine(lines[i])
    ensures forall i | 0 <= i < |LogicalLines(lines)| :: OneLine(LogicalLines(lines)[i])
    decreases |lines|
  {
    hide OneLine, JoinGroup;
    var k := ContinuedPrefix(lines);
    if k == |lines| {
    } else {
      JoinGroupOneLine(lines[..k + 1]);
      LogicalOneLine(lines[k + 1..]);
    }
  }

  /** Whole-file form: rewriting a file without continuations changes neither the outcome nor the
      state, except that no unfinished group is left in the buffer. */
  lemma FoldedFileMeansTheSame(s: State, name: string, text: string)
    ensures var folded := Unlines(LogicalLines(SplitLines(text)));
            var (s1, o1) := ParseFile(s, name, Some(text));
            var (s2, o2) := ParseFile(s, name, Some(folded));
            && o1 == o2
            && s2 == if s.filename == Some(name) then s else s1.(cont := "")
  {
    hide RunLines, LogicalLines, SplitLines, Unlines;
    var lines := SplitLines(text);
    FoldingPreservesMeaning(Fresh(s.table, Some(name)), lines);
    assert forall i | 0 <= i < |lines| :: lines[i] in lines;
    LogicalOneLine(lines);
    SplitUnlines(LogicalLines(lines));
  }
}
