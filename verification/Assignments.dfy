/** What a line does, by what is written on it: the four operators, comments, recipes and the rest. */
module Assignments {
  import opened Options
  import opened Text
  import opened Expansion
  import opened SourceList
  import opened RoundTrip

  /** White space that is no recipe: spaces of any kind, the first one not a tab. */
  predicate Indent(s: string) {
    (forall i | 0 <= i < |s| :: IsSpace(s[i])) && (s == "" || s[0] != '\t')
  }

  /** The text in front of an operator, for the given name. */
  predicate FrontOf(front: string, name: string) {
    Strip(front) == name && Excludes(front, '=') && (front == "" || (!IsSpace(front[0]) && front[0] != '#'))
  }

  /** A completed line leaves the given table, or raises and changes nothing. */
  predicate Executes(s: State, line: string, r: Result<Table>) {
    match r
    case Ok(table) =>
      StepLine(s, line).error == None && StepLine(s, line).state == s.(table := table, lineNo := s.lineNo + 1)
    case Err(e) => StepLine(s, line).error == Some(e) && StepLine(s, line).state == s
  }

  // ---------- the body of a line ----------

  lemma {:induction false} LstripIndent(indent: string, body: string)
    requires (forall i | 0 <= i < |indent| :: IsSpace(indent[i])) && (body == "" || !IsSpace(body[0]))
    ensures Lstrip(indent + body) == body
  {
    if indent == "" {
      assert indent + body == body;
    } else {
      assert (indent + body)[1..] == indent[1..] + body;
      LstripIndent(indent[1..], body);
    }
  }

  /** An indented line that is no comment runs the definition on it. */
  lemma BodyRuns(table: Table, indent: string, body: string)
    requires Indent(indent) && body != "" && !IsSpace(body[0]) && body[0] != '#'
    ensures LogicalEvents(table, indent + body) ==
            match RunDefinition(table, body) case Err(e) => Err(e) case Ok(event) => Ok([event])
  {
    hide Lstrip, RunDefinition;
    LstripIndent(indent, body);
    TabCharacter();
    assert (indent + body)[0] != '\t';
  }

  lemma TabCharacter()
    ensures IsSpace('\t')
  {
  }

  lemma StepOfEvents(s: State, line: string)
    requires s.cont == "" && !Continues(line)
    ensures match LogicalEvents(s.table, line)
            case Ok(events) =>
              |events| <= 1 && Executes(s, line, Ok(if events == [] then s.table else ApplyEvent(s.table, events[0])))
            case Err(e) => Executes(s, line, Err(e))
  {
    hide Lstrip, Strip, Rstrip, LogicalEvents, Replay, ApplyEvent, Continues;
    StepCompleted(s, line);
    ReplayNone(s.table);
    match LogicalEvents(s.table, line)
    case Ok(events) =>
      if events != [] {
        assert events == [events[0]];
        ReplayOne(s.table, events[0]);
      }
    case Err(_) =>
  }

  lemma StepOfDefinition(s: State, indent: string, body: string)
    requires s.cont == "" && Indent(indent) && body != "" && !IsSpace(body[0]) && body[0] != '#'
    requires !Continues(indent + body)
    ensures match RunDefinition(s.table, body)
            case Ok(event) => Executes(s, indent + body, Ok(ApplyEvent(s.table, event)))
            case Err(e) => Executes(s, indent + body, Err(e))
  {
    hide Indent, Executes, LogicalEvents, RunDefinition, ApplyEvent, Continues;
    BodyRuns(s.table, indent, body);
    StepOfEvents(s, indent + body);
  }

  // ---------- the operators ----------

  lemma MarkedDefinition(front: string, mark: char, tail: string, name: string)
    requires FrontOf(front, name) && mark in {':', '+', '?'}
    ensures var op := if mark == ':' then Overwrite else if mark == '+' then Append else Default;
            ParseDefinition(front + [mark, '='] + tail) == Ok(Definition(op, name, Lstrip(tail)))
  {
    hide Strip, Find, Lstrip;
    var body := front + [mark, '='] + tail;
    FindUnique(body, '=', 0, |front| + 1);
    assert body[..|front|] == front && body[|front|] == mark && body[|front| + 2..] == tail;
  }

  lemma PlainDefinition(front: string, tail: string, name: string)
    requires FrontOf(front, name) && front != "" && front[|front| - 1] !in {':', '+', '?'}
    ensures ParseDefinition(front + "=" + tail) == Ok(Definition(Overwrite, name, Lstrip(tail)))
  {
    hide Strip, Find, Lstrip;
    var body := front + "=" + tail;
    FindUnique(body, '=', 0, |front|);
    assert body[..|front|] == front && body[|front| - 1] == front[|front| - 1] && body[|front| + 1..] == tail;
  }

  lemma TailContinues(front: string, tail: string)
    requires front != "" && front[|front| - 1] == '='
    ensures Continues(front + tail) ==> Continues(tail)
  {
    if tail == "" {
      assert front + tail == front;
    }
  }

  /** The text up to the operator, and the tail, as a line with an indented body. */
  lemma LineParts(indent: string, front: string, op: string, tail: string)
    requires op in {"=", ":=", "+=", "?="} && !Continues(tail)
    requires if front == "" then op != "=" else !IsSpace(front[0]) && front[0] != '#'
    ensures var body := front + op + tail;
            && indent + front + op + tail == indent + body && body != ""
            && !IsSpace(body[0]) && body[0] != '#' && !Continues(indent + body)
  {
    var body := front + op + tail;
    assert body[0] == (front + op)[0];
    assert indent + body == (indent + front + op) + tail;
    TailContinues(indent + front + op, tail);
  }

  /** `:=` and `=` assign the expanded value. */
  lemma AssignLine(s: State, indent: string, front: string, name: string, tail: string, v: string)
    requires s.cont == "" && Indent(indent) && FrontOf(front, name) && !Continues(tail)
    requires Expand(s.table, Lstrip(tail)) == Ok(v)
    ensures Executes(s, indent + front + ":=" + tail, Ok(s.table[name := v]))
    ensures front != "" && front[|front| - 1] !in {':', '+', '?'} ==>
              Executes(s, indent + front + "=" + tail, Ok(s.table[name := v]))
  {
    hide Executes, Expand, Lstrip, Strip, Continues, Indent, ParseDefinition;
    LineParts(indent, front, ":=", tail);
    MarkedDefinition(front, ':', tail, name);
    StepOfDefinition(s, indent, front + ":=" + tail);
    if front != "" && front[|front| - 1] !in {':', '+', '?'} {
      LineParts(indent, front, "=", tail);
      PlainDefinition(front, tail, name);
      StepOfDefinition(s, indent, front + "=" + tail);
    }
  }

  /** `+=` appends the expanded value behind one space, to a name that must exist. */
  lemma AppendLine(s: State, indent: string, front: string, name: string, tail: string, v: string)
    requires s.cont == "" && Indent(indent) && FrontOf(front, name) && !Continues(tail)
    requires Expand(s.table, Lstrip(tail)) == Ok(v)
    ensures Executes(s, indent + front + "+=" + tail,
                     if name in s.table then Ok(s.table[name := s.table[name] + " " + v]) else Err(KeyError(name)))
  {
    hide Executes, Expand, Lstrip, Strip, Continues, Indent, ParseDefinition;
    LineParts(indent, front, "+=", tail);
    MarkedDefinition(front, '+', tail, name);
    StepOfDefinition(s, indent, front + "+=" + tail);
    if name in s.table {
      assert s.table[name] + (" " + v) == s.table[name] + " " + v;
    }
  }

  /** `?=` assigns the expanded value to a name that does not exist, and leaves any other alone. */
  lemma DefaultLine(s: State, indent: string, front: string, name: string, tail: string, v: string)
    requires s.cont == "" && Indent(indent) && FrontOf(front, name) && !Continues(tail)
    requires Expand(s.table, Lstrip(tail)) == Ok(v)
    ensures Executes(s, indent + front + "?=" + tail, Ok(if name in s.table then s.table else s.table[name := v]))
  {
    hide Executes, Expand, Lstrip, Strip, Continues, Indent, ParseDefinition;
    LineParts(indent, front, "?=", tail);
    MarkedDefinition(front, '?', tail, name);
    StepOfDefinition(s, indent, front + "?=" + tail);
  }

  /** A value that does not expand raises whatever the operator is, before the name matters. */
  lemma UnexpandableLine(s: State, indent: string, front: string, name: string, tail: string, op: string, e: Error)
    requires s.cont == "" && Indent(indent) && FrontOf(front, name) && !Continues(tail)
    requires Expand(s.table, Lstrip(tail)) == Err(e)
    requires op in {"=", ":=", "+=", "?="}
    requires op == "=" ==> front != "" && front[|front| - 1] !in {':', '+', '?'}
    ensures Executes(s, indent + front + op + tail, Err(e))
  {
    hide Executes, Expand, Lstrip, Strip, Continues, Indent, ParseDefinition;
    LineParts(indent, front, op, tail);
    if op == "=" {
      PlainDefinition(front, tail, name);
    } else {
      MarkedDefinition(front, op[0], tail, name);
      assert op == [op[0], '='];
    }
    StepOfDefinition(s, indent, front + op + tail);
  }

  // ---------- the other lines ----------

  /** A line without `=`, or with nothing in front of a bare `=`, is no definition. */
  lemma NoDefinition(s: State, indent: string, body: string)
    requires s.cont == "" && Indent(indent) && body != "" && !IsSpace(body[0]) && body[0] != '#'
    requires !Continues(indent + body)
    ensures Excludes(body, '=') ==> Executes(s, indent + body, Err(NotADefinition))
    ensures body[0] == '=' ==> Executes(s, indent + body, Err(UnsupportedOperator))
  {
    hide Executes, Continues, Indent;
    StepOfDefinition(s, indent, body);
    if body[0] == '=' {
      FindUnique(body, '=', 0, 0);
    }
  }

  /** Nothing, a comment however indented, a recipe, and a line of white space only. */
  lemma OtherLines(s: State, indent: string, rest: string)
    requires s.cont == "" && (forall i | 0 <= i < |indent| :: IsSpace(indent[i])) && !Continues(indent + rest)
    requires rest == "" || !IsSpace(rest[0])
    ensures indent == "" && rest == "" ==> Executes(s, indent + rest, Ok(s.table))
    ensures indent != "" && rest == "" ==> Executes(s, indent + rest, Err(IndexError))
    ensures rest != "" && rest[0] == '#' ==> Executes(s, indent + rest, Ok(s.table))
    ensures rest != "" && rest[0] != '#' && indent != "" && indent[0] == '\t' ==>
              Executes(s, indent + rest, Err(RecipeLine))
  {
    hide Executes, Continues, Lstrip, RunDefinition, ApplyEvent;
    LstripIndent(indent, rest);
    StepOfEvents(s, indent + rest);
    assert indent != "" ==> (indent + rest)[0] == indent[0];
  }

  // ---------- files of one line ----------

  /** Parsing a file that holds just this line, with or without a line end. */
  lemma OneLineFile(table: Table, file: string, line: string, r: Result<Table>)
    requires OneLine(line) && line != "" && Executes(Fresh(table, Some(file)), line, r)
    ensures forall end | end in {"", "\n", "\r", "\r\n"} ::
              ParseFile(Fresh(table, None), file, Some(line + end)) ==
              match r
              case Ok(table') => (State(table', Some(file), 2, ""), Finished)
              case Err(e) => (State(table, None, 1, ""), Raised(e, 1))
  {
    hide StepLine, SplitLines, OneLine;
    var s := Fresh(table, Some(file));
    RunSingle(s, line);
    forall end | end in {"", "\n", "\r", "\r\n"} ensures SplitLines(line + end) == [line] {
      SplitSingle(line, end);
    }
  }

  lemma RunSingle(s: State, line: string)
    ensures RunLines(s, [line]).state == StepLine(s, line).state && RunLines(s, [line]).error == StepLine(s, line).error
  {
    hide StepLine;
    assert [line][1..] == [];
  }

  lemma SplitSingle(line: string, end: string)
    requires OneLine(line) && line != "" && end in {"", "\n", "\r", "\r\n"}
    ensures SplitLines(line + end) == [line]
  {
    hide SplitLines;
    SplitNone(line);
    SplitNone("");
    BreakEndsLine(line, "");
    assert line + end + "" == line + end && line + "" == line;
  }

  /** A name and a blank in front of an operator, and a blank and a value behind it. */
  lemma SpacedParts(table: Table, name: string, v: string)
    requires name != "" && Printable(name, v)
    ensures FrontOf(name + " ", name) && (name + " ")[|name|] == ' '
    ensures !Continues(" " + v) && Expand(table, Lstrip(" " + v)) == Ok(v)
  {
    hide Expand, Strip, Lstrip;
    FrontOfName(name);
    assert Front(name) == name + " ";
    LstripBehindSpace(v);
    LstripClean(v);
    ExpandIdentity(table, v);
    assert v != "" ==> (" " + v)[|v|] == v[|v| - 1];
  }

  lemma SpacedLine(name: string, op: string, v: string)
    requires Printable(name, v) && op in {"=", ":=", "+=", "?="}
    ensures var line := "" + (name + " ") + op + (" " + v);
            OneLine(line) && line != "" && line == name + " " + op + " " + v
  {
    var line := "" + (name + " ") + op + (" " + v);
    assert forall i | 0 <= i < |line| ::
        line[i] in name || line[i] in v || line[i] in {' ', '=', ':', '+', '?'};
  }

  /** A file of one definition, for each operator and every table. */
  lemma OperatorFiles(table: Table, file: string, name: string, v: string)
    requires name != "" && Printable(name, v)
    ensures ParseFile(Fresh(table, None), file, Some(name + " = " + v)) ==
            (State(table[name := v], Some(file), 2, ""), Finished)
    ensures ParseFile(Fresh(table, None), file, Some(name + " := " + v)) ==
            (State(table[name := v], Some(file), 2, ""), Finished)
    ensures ParseFile(Fresh(table, None), file, Some(name + " += " + v)) ==
            if name in table then (State(table[name := table[name] + " " + v], Some(file), 2, ""), Finished)
            else (State(table, None, 1, ""), Raised(KeyError(name), 1))
    ensures ParseFile(Fresh(table, None), file, Some(name + " ?= " + v)) ==
            (State(if name in table then table else table[name := v], Some(file), 2, ""), Finished)
  {
    hide Executes, Expand, Lstrip, Strip, Continues, FrontOf, ParseFile, Printable, OneLine;
    var s, front, tail := Fresh(table, Some(file)), name + " ", " " + v;
    assert " " + "=" + " " == " = " && " " + ":=" + " " == " := ";
    assert " " + "+=" + " " == " += " && " " + "?=" + " " == " ?= ";
    SpacedParts(table, name, v);
    AssignLine(s, "", front, name, tail, v);
    AppendLine(s, "", front, name, tail, v);
    DefaultLine(s, "", front, name, tail, v);
    SpacedFile(table, file, name, "=", v, Ok(table[name := v]));
    SpacedFile(table, file, name, ":=", v, Ok(table[name := v]));
    SpacedFile(table, file, name, "+=", v,
               if name in table then Ok(table[name := table[name] + " " + v]) else Err(KeyError(name)));
    SpacedFile(table, file, name, "?=", v, Ok(if name in table then table else table[name := v]));
  }

  lemma SpacedFile(table: Table, file: string, name: string, op: string, v: string, r: Result<Table>)
    requires Printable(name, v) && op in {"=", ":=", "+=", "?="}
    requires Executes(Fresh(table, Some(file)), "" + (name + " ") + op + (" " + v), r)
    ensures ParseFile(Fresh(table, None), file, Some(name + (" " + op + " ") + v)) ==
            match r
            case Ok(table') => (State(table', Some(file), 2, ""), Finished)
            case Err(e) => (State(table, None, 1, ""), Raised(e, 1))
  {
    hide Executes, ParseFile, Printable, OneLine;
    var line := "" + (name + " ") + op + (" " + v);
    SpacedLine(name, op, v);
    OneLineFile(table, file, line, r);
    assert line == line + "" == name + (" " + op + " ") + v;
  }
}
