/** The parser object with its lookahead line, and the annotated listing it prints. */
module PerfParser {
  import opened Options
  import opened PerfScript

  /** A dictionary of positive counts that says how often each offset was recorded. */
  ghost predicate Counts(samples: map<int, nat>, recorded: multiset<int>) {
    && (forall a | a in samples :: samples[a] > 0)
    && (forall a :: recorded[a] == if a in samples then samples[a] else 0)
  }

  class Parser {
    const cfg: Config
    const input: seq<string>
    var pos: nat
    var line: string
    var eof: bool
    var samples: map<int, nat>
    var mapFile: Option<string>
    ghost var recorded: seq<Sample>

    ghost predicate Reading()
      reads `pos, `line, `eof
    {
      && pos <= |input|
      && (eof ==> pos == |input| && line == "")
      && (!eof ==> !IsComment(line))
    }

    ghost predicate Valid()
      reads this
    {
      && Reading()
      && Counts(samples, multiset(Offsets(recorded)))
    }

    /** The map file is that of the last recorded sample, until a lookup fails. */
    ghost predicate Mapped()
      reads `recorded, `mapFile
    {
      mapFile == LastCode(recorded)
    }

    /** The lines still to be parsed, the lookahead first. */
    ghost function Rest(): (r: seq<string>)
      reads `pos, `line, `eof
      requires Reading()
      ensures AtBlank(r) <==> line == ""
      ensures r == [] <==> eof
      ensures r != [] ==> r[0] == line
    {
      if eof then [] else [line] + Visible(input[pos..])
    }

    /** Reads the first lookahead line, as `parse` does before its loop. */
    constructor (config: Config, lines: seq<string>)
      ensures Valid() && cfg == config && input == lines
      ensures Rest() == Visible(lines) && recorded == [] && mapFile == None
    {
      cfg, input := config, lines;
      pos, line, eof := 0, "", false;
      samples, mapFile, recorded := map[], None, [];
      new;
      assert input[0..] == input;
      ReadLine();
    }

    method ReadLine()
      requires pos <= |input|
      modifies `pos, `line, `eof
      ensures Reading()
      ensures Rest() == Visible(old(input[pos..]))
    {
      while true
        invariant pos <= |input|
        invariant Visible(input[pos..]) == Visible(old(input[pos..]))
        decreases |input| - pos
      {
        if pos == |input| {
          line, eof := "", true;
          return;
        }
        line, eof := input[pos], false;
        assert input[pos..][1..] == input[pos + 1..];
        pos := pos + 1;
        if !IsComment(line) {
          return;
        }
      }
    }

    method Consume() returns (consumed: string)
      requires Reading()
      modifies `pos, `line, `eof
      ensures Reading()
      ensures consumed == (if old(Rest()) == [] then "" else old(Rest())[0])
      ensures Rest() == Tail(old(Rest()))
    {
      consumed := line;
      ReadLine();
    }

    /** Returns whether the call was recorded as the leaf of its event. */
    method ParseCall(first: bool) returns (hit: bool, error: Option<Error>)
      requires Valid() && !AtBlank(Rest())
      modifies this
      ensures Valid() && Rest() == old(Rest())[1..]
      ensures old(Mapped()) && error == None ==> Mapped()
      ensures match Classify(cfg, old(Rest())[0])
              case Malformed => error == Some(AssertionError)
              case Unmapped => if first then error == Some(TypeError) else error == None && !hit
              case Other => error == None && !hit
              case Hit(_) => error == None && hit == first
      ensures recorded == old(recorded) + (if error == None && hit then [Classify(cfg, old(Rest())[0]).sample] else [])
    {
      hide Rest, Counts, Visible, Offsets, Reading;
      var text := Consume();
      hit, error := false, None;
      var call := cfg.pattern(text);
      if call == None {
        return false, Some(AssertionError);
      }
      if !first {
        return false, None;
      }
      var c := call.value;
      var name := if c.symbol == "" then c.digits else c.symbol;
      if name != cfg.symbol {
        return false, None;
      }
      mapFile := Some(c.code);
      var start := cfg.start(c.code, name);
      if start == None {
        return false, Some(TypeError);
      }
      var address := c.address - start.value;
      Record(Sample(address, c.code));
      return true, None;
    }

    method Record(sample: Sample)
      requires Counts(samples, multiset(Offsets(recorded)))
      modifies `samples, `recorded
      ensures Counts(samples, multiset(Offsets(recorded))) && recorded == old(recorded) + [sample]
    {
      hide Counts;
      var address := sample.offset;
      CountsOneMore(samples, Offsets(recorded), address);
      assert Offsets(recorded + [sample]) == Offsets(recorded) + [address];
      samples := samples[address := (if address in samples then samples[address] else 0) + 1];
      recorded := recorded + [sample];
    }

    method ParseCallChain() returns (error: Option<Error>)
      requires Valid()
      modifies this
      ensures Valid()
      ensures old(Mapped()) && error == None ==> Mapped()
      ensures match CallChain(cfg, old(Rest()))
              case Failed(e) => error == Some(e)
              case Parsed(rest, more) => error == None && Rest() == rest && recorded == old(recorded) + more
    {
      hide Classify, Rest, Counts, CallChain, Visible, Offsets, LastCode, Reading;
      ghost var start, before := Rest(), recorded;
      ChainCases(cfg, start);
      var depth := 0;
      while line != ""
        invariant Valid() && 0 <= depth <= 1 && (old(Mapped()) ==> Mapped())
        invariant depth == 0 ==> Rest() == start && recorded == before
        invariant depth == 1 ==>
          && !AtBlank(start) && Classify(cfg, start[0]).Hit?
          && Rest() == start[1..]
          && recorded == before + [Classify(cfg, start[0]).sample]
        decreases |Rest()|
      {
        var hit, e := ParseCall(depth == 0);
        if e != None {
          return e;
        }
        if !hit {
          break;
        }
        depth := depth + 1;
      }
      if line == "" {
        var _ := Consume();
      }
      return None;
    }

    method ParseEvent() returns (error: Option<Error>)
      requires Valid()
      modifies this
      ensures Valid()
      ensures old(Mapped()) && error == None ==> Mapped()
      ensures match Event(cfg, old(Rest()))
              case Failed(e) => error == Some(e)
              case Parsed(rest, more) => error == None && Rest() == rest && recorded == old(recorded) + more
    {
      hide Rest, Counts, CallChain;
      if eof {
        return None;
      }
      var header := Consume();
      if header == "" {
        return Some(AssertionError);
      }
      error := ParseCallChain();
    }

    /** The main loop, on any file: it ends, and records what the event grammar says. */
    method ParseAll() returns (error: Option<Error>)
      requires Valid() && Mapped() && recorded == []
      modifies this
      ensures Valid() && (error == None ==> Mapped())
      ensures match Events(cfg, old(Rest()))
              case Failed(e) => error == Some(e)
              case Parsed(_, all) => error == None && recorded == all && Rest() == []
    {
      hide CallChain, Rest, Counts;
      PrependNone(Events(cfg, Rest()));
      while !eof
        invariant Valid() && Mapped()
        invariant Events(cfg, old(Rest())) == Prepend(recorded, Events(cfg, Rest()))
        decreases |Rest()|
      {
        ghost var rest, before := Rest(), recorded;
        error := ParseEvent();
        if error != None {
          return;
        }
        ThenPrepended(before, CallChain(cfg, rest[1..]), Events(cfg, Rest()));
      }
      return None;
    }

    /** One row per instruction: the samples at its address, the first time the address is listed.
        The final check passes exactly when every recorded offset is listed, and then the printed
        total is the number of recorded samples. */
    method Report(asm: seq<(int, string)>) returns (rows: seq<Option<nat>>, total: nat, clean: bool)
      requires Valid()
      modifies `samples
      ensures |rows| == |asm|
      ensures forall i | 0 <= i < |asm| :: rows[i] == Row(Offsets(recorded), Addresses(asm[..i]), asm[i].0)
      ensures total == CountIn(Offsets(recorded), Addresses(asm))
      ensures clean <==> forall i | 0 <= i < |recorded| :: recorded[i].offset in Addresses(asm)
      ensures clean ==> total == |recorded|
    {
      hide Remaining, Row, Addresses, CountIn;
      rows, total := [], 0;
      ghost var offsets := Offsets(recorded);
      NothingReported(samples, offsets);
      for i := 0 to |asm|
        invariant |rows| == i
        invariant total == CountIn(offsets, Addresses(asm[..i]))
        invariant Remaining(samples, offsets, Addresses(asm[..i]))
        invariant forall j | 0 <= j < i :: rows[j] == Row(offsets, Addresses(asm[..j]), asm[j].0)
      {
        var address := asm[i].0;
        ghost var seen := Addresses(asm[..i]);
        assert asm[..i + 1] == asm[..i] + [asm[i]];
        AddressesSnoc(asm[..i], asm[i]);
        PopOne(samples, offsets, seen, address);
        CountInOneMore(offsets, seen, address);
        if address in samples {
          var sample := samples[address];
          samples := samples - {address};
          rows := rows + [Some(sample)];
          total := total + sample;
        } else {
          rows := rows + [None];
        }
      }
      assert asm[..|asm|] == asm;
      clean := |samples| == 0;
      NothingRemains(samples, offsets, Addresses(asm));
      if clean {
        CountInAll(offsets, Addresses(asm));
      }
    }
  }

  function LastCode(recorded: seq<Sample>): Option<string> {
    if recorded == [] then None else Some(recorded[|recorded| - 1].code)
  }

  /** The recorded samples that really come from a module. */
  function From(samples: seq<Sample>, code: string): nat {
    if samples == [] then 0 else (if samples[0].code == code then 1 else 0) + From(samples[1..], code)
  }

  lemma {:induction false} AllFromOneIff(samples: seq<Sample>, code: string)
    ensures From(samples, code) <= |samples|
    ensures From(samples, code) == |samples| <==> forall i | 0 <= i < |samples| :: samples[i].code == code
  {
    if samples == [] {
    } else {
      AllFromOneIff(samples[1..], code);
      assert forall i | 1 <= i < |samples| :: samples[i] == samples[1..][i - 1];
    }
  }

  /** When the script gets to the end of its listing with everything accounted for. */
  predicate Succeeds(parsed: Parsed, listing: string -> seq<(int, string)>) {
    && parsed.Parsed? && parsed.samples != []
    && var addresses := Addresses(listing(LastCode(parsed.samples).value));
       forall i | 0 <= i < |parsed.samples| :: parsed.samples[i].offset in addresses
  }

  /** The whole script: parse the trace, take the listing of the module of the last recorded sample,
      print. The printed total is the number of recorded samples; it is the number of samples of the
      listed module exactly when all samples come from that one module. */
  method Annotate(cfg: Config, lines: seq<string>, listing: string -> seq<(int, string)>)
      returns (rows: seq<Option<nat>>, total: nat, file: Option<string>, error: Option<Error>)
    ensures error == None <==> Succeeds(Events(cfg, Visible(lines)), listing)
    ensures match Events(cfg, Visible(lines))
            case Failed(e) => error == Some(e)
            case Parsed(_, samples) =>
              && file == LastCode(samples)
              && (samples == [] ==> error == Some(TypeError))
              && (error != None && samples != [] ==> error == Some(AssertionError))
    ensures error == None ==>
              var samples := Events(cfg, Visible(lines)).samples;
              var asm := listing(file.value);
              && total == |samples| && |rows| == |asm|
              && (forall i | 0 <= i < |asm| :: rows[i] == Row(Offsets(samples), Addresses(asm[..i]), asm[i].0))
              && (total == From(samples, file.value) <==>
                  forall i | 0 <= i < |samples| :: samples[i].code == file.value)
  {
    hide Events, Visible, Addresses, From, Row;
    rows, total := [], 0;
    var parser := new Parser(cfg, lines);
    error := parser.ParseAll();
    file := parser.mapFile;
    if error != None {
      return;
    }
    if file == None {
      error := Some(TypeError);
      return;
    }
    var clean;
    rows, total, clean := parser.Report(listing(file.value));
    AllFromOneIff(parser.recorded, file.value);
    if !clean {
      error := Some(AssertionError);
    }
  }

  /** On a file of events with comments anywhere, a successful run prints as its total the number of
      events whose leaf is the symbol, if and only if no event has a deeper frame mistaken for a leaf.
      Then each address shows, where it is listed first, the number of events whose leaf is a call of
      the symbol at that distance from the symbol's start. */
  method AnnotateBlocks(cfg: Config, lines: seq<string>, listing: string -> seq<(int, string)>,
                        ghost blocks: seq<Block>, ghost closed: bool)
      returns (rows: seq<Option<nat>>, total: nat, file: Option<string>, error: Option<Error>)
    requires forall i | 0 <= i < |blocks| :: SolidBlock(blocks[i])
    requires WithComments(lines, Render(blocks, closed))
    ensures error == None <==> Succeeds(ScanAll(cfg, blocks), listing)
    ensures error == None ==> file.Some? && |rows| == |listing(file.value)|
    ensures error == None ==>
              (total == |LeafSamples(cfg, blocks)| <==> forall i | 0 <= i < |blocks| :: LeafOnly(cfg, blocks[i].frames))
    ensures error == None && (forall i | 0 <= i < |blocks| :: LeafOnly(cfg, blocks[i].frames)) ==>
              var asm := listing(file.value);
              forall i | 0 <= i < |asm| ::
                var count := LeavesAt(cfg, blocks, asm[i].0);
                rows[i] == if count == 0 || (exists j :: 0 <= j < i && asm[j].0 == asm[i].0) then None else Some(count)
  {
    hide Events, SolidBlock, LeafOnly, Render, ScanAll, Addresses, Row, LeafSamples, LeavesAt;
    FileParses(cfg, blocks, closed, lines);
    rows, total, file, error := Annotate(cfg, lines, listing);
    if error == None {
      FileCountsLeavesIff(cfg, blocks);
      ghost var asm := listing(file.value);
      forall i | 0 <= i < |asm| && ScanAll(cfg, blocks).samples == LeafSamples(cfg, blocks)
        ensures rows[i] ==
                if LeavesAt(cfg, blocks, asm[i].0) == 0 || (exists j :: 0 <= j < i && asm[j].0 == asm[i].0) then None
                else Some(LeavesAt(cfg, blocks, asm[i].0))
      {
        LeafHistogram(cfg, blocks, asm[i].0);
        RowMeans(Offsets(LeafSamples(cfg, blocks)), asm, i);
      }
    }
  }

  lemma RowMeans(recorded: seq<int>, asm: seq<(int, string)>, i: nat)
    requires i < |asm|
    ensures var count := multiset(recorded)[asm[i].0];
            Row(recorded, Addresses(asm[..i]), asm[i].0) ==
            if count == 0 || (exists j :: 0 <= j < i && asm[j].0 == asm[i].0) then None else Some(count)
  {
    var a := asm[i].0;
    if a in Addresses(asm[..i]) {
      var j :| 0 <= j < |asm[..i]| && asm[..i][j].0 == a;
      assert asm[j].0 == a;
    }
    if j :| 0 <= j < i && asm[j].0 == a {
      assert asm[..i][j].0 == a;
    }
  }

  /** What is printed in front of an instruction, given the addresses listed before it. */
  function Row(recorded: seq<int>, seen: set<int>, address: int): Option<nat> {
    if address in seen || multiset(recorded)[address] == 0 then None else Some(multiset(recorded)[address])
  }

  function Entry(samples: map<int, nat>, address: int): Option<nat> {
    if address in samples then Some(samples[address]) else None
  }

  /** The dictionary while it is being printed: the counts of the addresses not yet listed. */
  ghost predicate Remaining(samples: map<int, nat>, recorded: seq<int>, seen: set<int>) {
    forall a :: Entry(samples, a) == Row(recorded, seen, a)
  }

  lemma NothingReported(samples: map<int, nat>, recorded: seq<int>)
    requires Counts(samples, multiset(recorded))
    ensures Remaining(samples, recorded, Addresses([])) && CountIn(recorded, Addresses([])) == 0
  {
    CountInNothing(recorded);
  }

  lemma PopOne(samples: map<int, nat>, recorded: seq<int>, seen: set<int>, a: int)
    requires Remaining(samples, recorded, seen)
    ensures Entry(samples, a) == Row(recorded, seen, a)
    ensures (if a in samples then samples[a] else 0) == if a in seen then 0 else multiset(recorded)[a]
    ensures Remaining(samples - {a}, recorded, seen + {a})
    ensures a !in samples ==> Remaining(samples, recorded, seen + {a})
  {
    assert Entry(samples, a) == Row(recorded, seen, a);
    forall b ensures Entry(samples - {a}, b) == Row(recorded, seen + {a}, b) {
      assert Entry(samples, b) == Row(recorded, seen, b);
    }
  }

  lemma NothingRemains(samples: map<int, nat>, recorded: seq<int>, seen: set<int>)
    requires Remaining(samples, recorded, seen)
    ensures |samples| == 0 <==> forall i | 0 <= i < |recorded| :: recorded[i] in seen
  {
    if |samples| == 0 {
      forall i | 0 <= i < |recorded| ensures recorded[i] in seen {
        var a := recorded[i];
        assert a in multiset(recorded);
        assert Entry(samples, a) == Row(recorded, seen, a);
      }
    }
    if forall i | 0 <= i < |recorded| :: recorded[i] in seen {
      forall a ensures a !in samples {
        assert Entry(samples, a) == Row(recorded, seen, a);
        if multiset(recorded)[a] > 0 {
          assert a in recorded;
        }
      }
      assert samples == map[];
    }
  }

  /** The outcomes of a call chain, by what its first one or two lines are. */
  lemma ChainCases(cfg: Config, rest: seq<string>)
    ensures AtBlank(rest) ==> CallChain(cfg, rest) == Parsed(Tail(rest), [])
    ensures !AtBlank(rest) ==>
              var next := rest[1..];
              match Classify(cfg, rest[0])
              case Malformed => CallChain(cfg, rest) == Failed(AssertionError)
              case Unmapped => CallChain(cfg, rest) == Failed(TypeError)
              case Other => CallChain(cfg, rest) == Parsed(SkipBlank(next), [])
              case Hit(sample) =>
                if AtBlank(next) then CallChain(cfg, rest) == Parsed(Tail(next), [sample])
                else if Classify(cfg, next[0]).Malformed? then CallChain(cfg, rest) == Failed(AssertionError)
                else CallChain(cfg, rest) == Parsed(SkipBlank(next[1..]), [sample])
  {
  }

  lemma CountsOneMore(samples: map<int, nat>, recorded: seq<int>, a: int)
    requires Counts(samples, multiset(recorded))
    ensures Counts(samples[a := (if a in samples then samples[a] else 0) + 1], multiset(recorded + [a]))
  {
    assert multiset(recorded + [a]) == multiset(recorded) + multiset{a};
  }

  function Addresses(asm: seq<(int, string)>): (r: set<int>) {
    set i | 0 <= i < |asm| :: asm[i].0
  }

  lemma AddressesSnoc(asm: seq<(int, string)>, last: (int, string))
    ensures Addresses(asm + [last]) == Addresses(asm) + {last.0}
  {
    var all := asm + [last];
    forall a | a in Addresses(asm) + {last.0} ensures a in Addresses(all) {
      if a == last.0 {
        assert all[|asm|].0 == a;
      } else {
        var i :| 0 <= i < |asm| && asm[i].0 == a;
        assert all[i].0 == a;
      }
    }
  }

  /** How many of the recorded samples fall on the given addresses. */
  function CountIn(recorded: seq<int>, addresses: set<int>): nat {
    if recorded == [] then 0
    else (if recorded[0] in addresses then 1 else 0) + CountIn(recorded[1..], addresses)
  }

  lemma {:induction false} CountInNothing(recorded: seq<int>)
    ensures CountIn(recorded, Addresses([])) == 0
  {
    if recorded == [] {
    } else {
      CountInNothing(recorded[1..]);
    }
  }

  lemma {:induction false} CountInOneMore(recorded: seq<int>, seen: set<int>, a: int)
    ensures CountIn(recorded, seen + {a}) == CountIn(recorded, seen) + if a in seen then 0 else multiset(recorded)[a]
  {
    if a in seen {
      assert seen + {a} == seen;
    } else if recorded != [] {
      CountInOneMore(recorded[1..], seen, a);
      assert recorded == [recorded[0]] + recorded[1..];
    }
  }

  lemma {:induction false} CountInAll(recorded: seq<int>, addresses: set<int>)
    requires forall i | 0 <= i < |recorded| :: recorded[i] in addresses
    ensures CountIn(recorded, addresses) == |recorded|
  {
    if recorded == [] {
    } else {
      CountInAll(recorded[1..], addresses);
    }
  }
}
