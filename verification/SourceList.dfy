/** The source-list parser: its value-level meaning, and the object that updates its fields in place. */
module SourceList {
  import opened Options
  import opened Text
  import opened Expansion

  // ---------- one definition ----------

  datatype Op = Overwrite | Append | Default

  /** `rhs` is the text after the operator, not yet expanded. */
  datatype Definition = Definition(op: Op, sym: string, rhs: string)

  function NameIn(line: string, end: nat): string
    requires end <= |line|
  {
    Strip(line[..end])
  }

  function ValueIn(line: string, start: nat): string
    requires start <= |line|
  {
    Lstrip(line[start..])
  }

  function ParseDefinition(line: string): Result<Definition> {
    var eq := Find(line, '=', 0);
    if eq < 0 then Err(NotADefinition)
    else if eq == 0 then Err(UnsupportedOperator)
    else
      var mark := line[eq - 1];
      var rhs := ValueIn(line, eq + 1);
      if mark == ':' then Ok(Definition(Overwrite, NameIn(line, eq - 1), rhs))
      else if mark == '+' then Ok(Definition(Append, NameIn(line, eq - 1), rhs))
      else if mark == '?' then Ok(Definition(Default, NameIn(line, eq - 1), rhs))
      else Ok(Definition(Overwrite, NameIn(line, eq), rhs))
  }

  /** An executed definition: its right-hand side is expanded. */
  datatype Event = Event(op: Op, sym: string, val: string)

  function Evaluate(table: Table, d: Definition): Result<Event> {
    match Expand(table, d.rhs)
    case Err(e) => Err(e)
    case Ok(val) => if d.op == Append && d.sym !in table then Err(KeyError(d.sym)) else Ok(Event(d.op, d.sym, val))
  }

  function ApplyEvent(table: Table, e: Event): Table {
    match e.op
    case Overwrite => table[e.sym := e.val]
    case Append => if e.sym in table then table[e.sym := table[e.sym] + (" " + e.val)] else table
    case Default => if e.sym in table then table else table[e.sym := e.val]
  }

  // ---------- one line ----------

  /** The definition on a line, executed against the table. */
  function RunDefinition(table: Table, line: string): (r: Result<Event>)
    ensures r.Ok? && r.value.op == Append ==> r.value.sym in table
  {
    match ParseDefinition(line)
    case Err(e) => Err(e)
    case Ok(d) => Evaluate(table, d)
  }

  /** The zero or one definitions that a complete line executes; anything malformed raises. */
  function LogicalEvents(table: Table, line: string): (r: Result<seq<Event>>)
    ensures r.Ok? ==> |r.value| <= 1
    ensures r.Ok? && r.value != [] && r.value[0].op == Append ==> r.value[0].sym in table
  {
    if line == "" then Ok([])
    else
      var body := Lstrip(line);
      if body == "" then Err(IndexError)
      else if body[0] == '#' then Ok([])
      else if line[0] == '\t' then Err(RecipeLine)
      else
        match RunDefinition(table, body)
        case Err(e) => Err(e)
        case Ok(event) => Ok([event])
  }

  function Replay(table: Table, events: seq<Event>): Table
    decreases |events|
  {
    if events == [] then table else Replay(ApplyEvent(table, events[0]), events[1..])
  }

  // ---------- physical lines ----------

  /** A continued line extends the buffer. */
  lemma StepContinues(s: State, line: string)
    requires Continues(line)
    ensures var text := Chop(line);
            && StepLine(s, line).error == None
            && StepLine(s, line).state ==
               s.(cont := if s.cont == "" then Rstrip(text) + " " else s.cont + (Strip(text) + " "))
  {
    hide Strip, Rstrip, Continues, Chop;
  }

  /** Any other line completes the buffer and is executed. */
  lemma StepCompleted(s: State, line: string)
    requires !Continues(line)
    ensures var full := if s.cont == "" then line else s.cont + Lstrip(line);
            match LogicalEvents(s.table, full)
            case Ok(events) =>
              && StepLine(s, line).error == None
              && StepLine(s, line).state == State(Replay(s.table, events), s.filename, s.lineNo + 1, "")
            case Err(e) =>
              && StepLine(s, line).error == Some(e)
              && StepLine(s, line).state == State(s.table, s.filename, s.lineNo, "")
  {
    hide Lstrip, LogicalEvents, Replay, Continues;
  }

  lemma ReplayNone(table: Table)
    ensures Replay(table, []) == table
  {
  }

  lemma ReplayOne(table: Table, e: Event)
    ensures Replay(table, [e]) == ApplyEvent(table, e)
  {
    assert Replay(ApplyEvent(table, e), []) == ApplyEvent(table, e);
  }

  datatype State = State(table: Table, filename: Option<string>, lineNo: nat, cont: string)

  function Fresh(table: Table, filename: Option<string>): State {
    State(table, filename, 1, "")
  }

  predicate Continues(line: string) {
    line != "" && line[|line| - 1] == '\\'
  }

  /** The line without its final backslash. */
  function Chop(line: string): string
    requires Continues(line)
  {
    line[..|line| - 1]
  }

  datatype Step = Step(state: State, events: seq<Event>, error: Option<Error>)

  function StepLine(s: State, line: string): Step {
    if Continues(line) then
      var cont := if s.cont == "" then Rstrip(Chop(line)) + " " else s.cont + Strip(Chop(line)) + " ";
      Step(s.(cont := cont), [], None)
    else
      var full := if s.cont == "" then line else s.cont + Lstrip(line);
      match LogicalEvents(s.table, full)
      case Ok(events) =>
        Step(s.(table := Replay(s.table, events), lineNo := s.lineNo + 1, cont := ""), events, None)
      case Err(e) => Step(s.(cont := ""), [], Some(e))
  }

  function RunLines(s: State, lines: seq<string>): Step
    decreases |lines|
  {
    if lines == [] then Step(s, [], None)
    else
      var first := StepLine(s, lines[0]);
      if first.error.Some? then first
      else
        var rest := RunLines(first.state, lines[1..]);
        Step(rest.state, first.events + rest.events, rest.error)
  }

  // ---------- whole files ----------

  datatype Outcome = Finished | Raised(error: Error, lineNo: nat)

  /** `text` is the content found at `name`, or None when the file cannot be opened. */
  function ParseFile(s: State, name: string, text: Option<string>): (State, Outcome) {
    if s.filename == Some(name) then (s, Finished)
    else if text.None? then (s, Raised(CannotOpen, s.lineNo))
    else
      var run := RunLines(Fresh(s.table, Some(name)), SplitLines(text.value));
      match run.error
      case None => (run.state, Finished)
      case Some(e) => (Fresh(run.state.table, None), Raised(e, run.state.lineNo))
  }

  // ---------- the object ----------

  function Operator(op: string): Op {
    if op == "+=" then Append else if op == "?=" then Default else Overwrite
  }

  /** A definition by the position of its first `=`, as the operator's text says. */
  lemma ParsedAt(line: string)
    ensures var eq := Find(line, '=', 0);
            if eq < 0 then ParseDefinition(line) == Err(NotADefinition)
            else if eq == 0 then ParseDefinition(line) == Err(UnsupportedOperator)
            else
              var cut := if line[eq - 1] in [':', '+', '?'] then eq - 1 else eq;
              && line[cut..eq + 1] in ["=", ":=", "+=", "?="]
              && ParseDefinition(line) ==
                 Ok(Definition(Operator(line[cut..eq + 1]), NameIn(line, cut), ValueIn(line, eq + 1)))
  {
    hide NameIn, ValueIn;
    var eq := Find(line, '=', 0);
    if eq > 0 {
      assert line[eq..eq + 1] == "=" && line[eq - 1..eq + 1] == [line[eq - 1], '='];
    }
  }

  class SourceListParser {
    var symbolTable: Table
    var filename: Option<string>
    var lineNo: nat
    var lineCont: string

    ghost function Value(): State
      reads this
    {
      State(symbolTable, filename, lineNo, lineCont)
    }

    constructor ()
      ensures Value() == Fresh(map[], None)
    {
      symbolTable, filename, lineNo, lineCont := map[], None, 1, "";
    }

    method Reset(name: Option<string>)
      modifies `filename, `lineNo, `lineCont
      ensures Value() == Fresh(old(symbolTable), name)
    {
      filename := name;
      lineNo := 1;
      lineCont := "";
    }

    /** The cursor loop computes the token-level substitution. */
    method ExpandValue(val: string) returns (r: Result<string>)
      ensures r == Expand(symbolTable, val)
    {
      hide Expand;
      var expanded, cur := "", 0;
      PrependNothing(Expand(symbolTable, val));
      assert val[cur..] == val;
      while true
        invariant 0 <= cur <= |val|
        invariant Expand(symbolTable, val) == Prepend(expanded, Expand(symbolTable, val[cur..]))
        decreases |val| - cur
      {
        ExpandTurn(symbolTable, val, cur);
        var next := NextDereference(val, cur);
        if next.Err? {
          return Err(next.error);
        }
        var (pos, end) := next.value;
        if pos < 0 {
          return Ok(expanded + val[cur..]);
        }
        var sym := val[pos + 2..end - 1];
        if sym !in symbolTable {
          return Err(KeyError(sym));
        }
        ghost var rest := Expand(symbolTable, val[end..]);
        PrependTwice(val[cur..pos], symbolTable[sym], rest);
        PrependTwice(expanded, val[cur..pos] + symbolTable[sym], rest);
        expanded := expanded + (val[cur..pos] + symbolTable[sym]);
        cur := end;
      }
    }

    /** Executes a definition line; a raising line leaves the table alone. */
    method Define(line: string) returns (error: Option<Error>)
      modifies `symbolTable
      ensures match RunDefinition(old(symbolTable), line)
              case Ok(event) => error == None && symbolTable == ApplyEvent(old(symbolTable), event)
              case Err(e) => error == Some(e) && symbolTable == old(symbolTable)
    {
      hide Expand, NameIn, ValueIn, Find, ParseDefinition;
      ParsedAt(line);
      var opPos := Find(line, '=', 0);
      var opEnd := opPos + 1;
      if opPos < 0 {
        return Some(NotADefinition);
      }
      if opPos > 0 {
        if line[opPos - 1] in [':', '+', '?'] {
          opPos := opPos - 1;
        }
      } else {
        return Some(UnsupportedOperator);
      }
      var op := line[opPos..opEnd];
      var sym := NameIn(line, opPos);
      var r := ExpandValue(ValueIn(line, opEnd));
      if r.Err? {
        return Some(r.error);
      }
      var val := r.value;
      if op == "=" || op == ":=" {
        symbolTable := symbolTable[sym := val];
      } else if op == "+=" {
        if sym !in symbolTable {
          return Some(KeyError(sym));
        }
        symbolTable := symbolTable[sym := symbolTable[sym] + (" " + val)];
      } else if op == "?=" {
        if sym !in symbolTable {
          symbolTable := symbolTable[sym := val];
        }
      }
      return None;
    }

    /** Executes a completed line. */
    method Execute(line: string) returns (error: Option<Error>)
      modifies `symbolTable
      ensures match LogicalEvents(old(symbolTable), line)
              case Ok(events) => error == None && symbolTable == Replay(old(symbolTable), events)
              case Err(e) => error == Some(e) && symbolTable == old(symbolTable)
    {
      hide RunDefinition, Lstrip, Replay, ApplyEvent;
      ReplayNone(symbolTable);
      if line == "" {
        return None;
      }
      var beginsWithTab := line[0] == '\t';
      var body := Lstrip(line);
      if body == "" {
        return Some(IndexError);
      }
      if body[0] == '#' {
        return None;
      }
      if beginsWithTab {
        return Some(RecipeLine);
      }
      ghost var table := symbolTable;
      error := Define(body);
      if error == None {
        ReplayOne(table, RunDefinition(table, body).value);
      }
    }

    method ParseLine(physical: string) returns (consumed: nat, error: Option<Error>)
      modifies `symbolTable, `lineCont
      ensures var step := StepLine(old(Value()), physical);
              && error == step.error
              && Value() == step.state.(lineNo := old(lineNo))
              && step.state.lineNo == if error == None then lineNo + consumed else lineNo
    {
      hide Strip, Lstrip, Rstrip, Replay, StepLine, LogicalEvents, Continues, Chop;
      ghost var before := Value();
      var line := physical;
      if Continues(line) {
        StepContinues(before, line);
        if lineCont != "" {
          lineCont := lineCont + (Strip(Chop(line)) + " ");
        } else {
          lineCont := Rstrip(Chop(line)) + " ";
        }
        return 0, None;
      }
      if lineCont != "" {
        line := lineCont + Lstrip(line);
        lineCont := "";
      }
      StepCompleted(before, physical);
      error := Execute(line);
      consumed := if error == None then 1 else 0;
    }

    method Parse(name: string, text: Option<string>) returns (outcome: Outcome)
      modifies this
      ensures (Value(), outcome) == ParseFile(old(Value()), name, text)
    {
      hide StepLine, SplitLines;
      if filename == Some(name) {
        return Finished;
      }
      if text == None {
        return Raised(CannotOpen, lineNo);
      }
      var lines := SplitLines(text.value);
      Reset(Some(name));
      ghost var start := Value();
      for i := 0 to |lines|
        invariant RunLines(start, lines).state == RunLines(Value(), lines[i..]).state
        invariant RunLines(start, lines).error == RunLines(Value(), lines[i..]).error
      {
        assert lines[i..][1..] == lines[i + 1..];
        ghost var before := Value();
        var consumed, error := ParseLine(lines[i]);
        if error != None {
          outcome := Raised(error.value, lineNo);
          Reset(None);
          return;
        }
        lineNo := lineNo + consumed;
        assert Value() == StepLine(before, lines[i]).state;
      }
      return Finished;
    }

    method AddSymbol(name: string, value: string)
      modifies `symbolTable
      ensures Value() == old(Value()).(table := old(symbolTable)[name := value])
    {
      symbolTable := symbolTable[name := value];
    }
  }
}
