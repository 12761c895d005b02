/** The `perf script` parser: one line of lookahead, events separated by blank lines, and a histogram
    of the samples whose leaf is the requested symbol. */
module PerfScript {
  import opened Options
  import opened Text

  /** A call line taken apart: `symbol` may be empty, and then the address stands for the name. */
  datatype Call = Call(symbol: string, digits: string, address: int, code: string)

  function CallName(c: Call): string {
    if c.symbol != "" then c.symbol else c.digits
  }

  /** The requested symbol, the call-line pattern, and the start address of a symbol in a map file. */
  datatype Config = Config(symbol: string, pattern: string -> Option<Call>, start: (string, string) -> Option<int>)

  datatype Error = AssertionError | TypeError

  /** A recorded sample: its offset from the start of the symbol, and the module it was found in. */
  datatype Sample = Sample(offset: int, code: string)

  datatype Frame = Malformed | Other | Unmapped | Hit(sample: Sample)

  /** What a line means as the innermost call of an event. */
  function Classify(cfg: Config, line: string): Frame {
    match cfg.pattern(line)
    case None => Malformed
    case Some(c) =>
      if CallName(c) != cfg.symbol then Other
      else
        match cfg.start(c.code, CallName(c))
        case None => Unmapped
        case Some(base) => Hit(Sample(c.address - base, c.code))
  }

  /** A call is a hit exactly when it names the requested symbol, by its digits if it has no name, and
      the symbol starts somewhere in the map file of the call's module; the sample is that module and
      the distance from the start. */
  lemma CallMeans(cfg: Config, line: string, c: Call)
    requires cfg.pattern(line) == Some(c)
    ensures var name, frame := if c.symbol == "" then c.digits else c.symbol, Classify(cfg, line);
            && (frame.Hit? <==> name == cfg.symbol && cfg.start(c.code, name).Some?)
            && (frame.Hit? ==>
                  frame.sample.offset + cfg.start(c.code, name).value == c.address && frame.sample.code == c.code)
            && (frame.Unmapped? <==> name == cfg.symbol && cfg.start(c.code, name) == None)
            && (frame.Other? <==> name != cfg.symbol)
  {
  }

  /** The line is a call of the requested symbol at distance `offset` from the symbol's start. */
  predicate CallAt(cfg: Config, line: string, offset: int) {
    match cfg.pattern(line)
    case None => false
    case Some(c) =>
      var name := if c.symbol == "" then c.digits else c.symbol;
      name == cfg.symbol && cfg.start(c.code, name).Some? && c.address == cfg.start(c.code, name).value + offset
  }

  lemma HitMeans(cfg: Config, line: string, offset: int)
    ensures CallAt(cfg, line, offset) <==> Classify(cfg, line).Hit? && Classify(cfg, line).sample.offset == offset
  {
    if cfg.pattern(line).Some? {
      CallMeans(cfg, line, cfg.pattern(line).value);
    }
  }

  // ---------- the parser on the lines it sees ----------

  predicate IsComment(line: string) {
    StartsWith(line, "#")
  }

  function Visible(lines: seq<string>): (r: seq<string>)
    ensures |r| <= |lines|
    ensures forall i | 0 <= i < |r| :: !IsComment(r[i])
  {
    if lines == [] then []
    else if IsComment(lines[0]) then Visible(lines[1..])
    else [lines[0]] + Visible(lines[1..])
  }

  /** At the end of the file the lookahead is empty too. */
  predicate AtBlank(rest: seq<string>) {
    rest == [] || rest[0] == ""
  }

  function Tail(rest: seq<string>): seq<string> {
    if rest == [] then [] else rest[1..]
  }

  datatype Parsed = Parsed(rest: seq<string>, samples: seq<Sample>) | Failed(error: Error)

  function SkipBlank(rest: seq<string>): seq<string> {
    if AtBlank(rest) then Tail(rest) else rest
  }

  /** `parse_callchain`: the first call decides; after a hit the next line is consumed unread. */
  function CallChain(cfg: Config, rest: seq<string>): (r: Parsed)
    ensures r.Parsed? ==> |r.rest| <= |rest|
  {
    if AtBlank(rest) then Parsed(Tail(rest), [])
    else
      match Classify(cfg, rest[0])
      case Malformed => Failed(AssertionError)
      case Unmapped => Failed(TypeError)
      case Other => Parsed(SkipBlank(rest[1..]), [])
      case Hit(sample) =>
        var next := rest[1..];
        if AtBlank(next) then Parsed(Tail(next), [sample])
        else if Classify(cfg, next[0]).Malformed? then Failed(AssertionError)
        else Parsed(SkipBlank(next[1..]), [sample])
  }

  /** `parse_event`: a header line and its call chain; nothing at the end of the file. */
  function Event(cfg: Config, rest: seq<string>): (r: Parsed)
    ensures r.Parsed? && rest != [] ==> |r.rest| < |rest|
  {
    if rest == [] then Parsed([], [])
    else if rest[0] == "" then Failed(AssertionError)
    else CallChain(cfg, rest[1..])
  }

  function Events(cfg: Config, rest: seq<string>): Parsed
    decreases |rest|
  {
    if rest == [] then Parsed([], [])
    else
      match Event(cfg, rest)
      case Failed(e) => Failed(e)
      case Parsed(rest', samples) =>
        match Events(cfg, rest')
        case Failed(e) => Failed(e)
        case Parsed(end, more) => Parsed(end, samples + more)
  }

  // ---------- files of events ----------

  datatype Block = Block(header: string, frames: seq<string>)

  /** A line that is neither blank nor a comment. Whether it matches the call pattern, and whether its
      symbol is in a map file, is left open. */
  predicate Solid(line: string) {
    line != "" && !IsComment(line)
  }

  predicate SolidBlock(b: Block) {
    Solid(b.header) && forall i | 0 <= i < |b.frames| :: Solid(b.frames[i])
  }

  /** The lines of a block behind its header; the last block of a file may end without a blank. */
  function Body(frames: seq<string>, closed: bool, tail: seq<string>): seq<string> {
    frames + (if closed then [""] else []) + tail
  }

  function Render(blocks: seq<Block>, closed: bool): seq<string> {
    if blocks == [] then []
    else [blocks[0].header] + Body(blocks[0].frames, closed || |blocks| > 1, Render(blocks[1..], closed))
  }

  /** The frames one call of `parse_event` reads behind its header. */
  function Used(cfg: Config, frames: seq<string>): nat {
    if frames == [] then 0 else if Classify(cfg, frames[0]).Hit? then 2 else 1
  }

  /** What reading them yields: an error, or the sample of a hit. */
  function First(cfg: Config, frames: seq<string>): Parsed {
    if frames == [] then Parsed([], [])
    else
      match Classify(cfg, frames[0])
      case Malformed => Failed(AssertionError)
      case Unmapped => Failed(TypeError)
      case Other => Parsed([], [])
      case Hit(sample) =>
        if |frames| > 1 && Classify(cfg, frames[1]).Malformed? then Failed(AssertionError)
        else Parsed([], [sample])
  }

  /** The outcome of one block. After a hit the scan resumes three frames further on, after a miss two
      frames further on: the frame in between is taken for a header. */
  function Scan(cfg: Config, frames: seq<string>): Parsed
    decreases |frames|
  {
    var first, used := First(cfg, frames), Used(cfg, frames);
    if first.Failed? || |frames| <= used then first
    else Prepend(first.samples, Scan(cfg, frames[used + 1..]))
  }

  /** The outcome of blocks one after the other. */
  function ScanAll(cfg: Config, blocks: seq<Block>): Parsed {
    if blocks == [] then Parsed([], [])
    else Then(Scan(cfg, blocks[0].frames), ScanAll(cfg, blocks[1..]))
  }

  function Prepend(samples: seq<Sample>, p: Parsed): Parsed {
    match p
    case Failed(e) => Failed(e)
    case Parsed(end, more) => Parsed(end, samples + more)
  }

  /** The first failure decides. */
  function Then(p: Parsed, q: Parsed): Parsed {
    if p.Failed? then p else Prepend(p.samples, q)
  }

  lemma BodyShape(frames: seq<string>, closed: bool, tail: seq<string>)
    requires closed || tail == []
    ensures frames == [] ==> AtBlank(Body(frames, closed, tail)) && Tail(Body(frames, closed, tail)) == tail
    ensures frames != [] ==> Body(frames, closed, tail) == [frames[0]] + Body(frames[1..], closed, tail)
  {
    if frames != [] {
      assert frames == [frames[0]] + frames[1..];
    }
  }

  /** One call of `parse_event` on a block fails on what it reads, or uses the block up to its blank
      line, or leaves what looks like a shorter block that begins at one of its frames. */
  lemma OneEvent(cfg: Config, frames: seq<string>, closed: bool, tail: seq<string>)
    requires closed || tail == []
    requires forall i | 0 <= i < |frames| :: Solid(frames[i])
    ensures var first, used := First(cfg, frames), Used(cfg, frames);
            CallChain(cfg, Body(frames, closed, tail)) ==
            if first.Failed? then first
            else Parsed(if |frames| <= used then tail else Body(frames[used..], closed, tail), first.samples)
  {
    hide Classify, Body;
    BodyShape(frames, closed, tail);
    if frames == [] {
    } else {
      var next := Body(frames[1..], closed, tail);
      assert ([frames[0]] + next)[1..] == next;
      BodyShape(frames[1..], closed, tail);
      if |frames| > 1 && Classify(cfg, frames[0]).Hit? {
        var after := Body(frames[2..], closed, tail);
        assert frames[1..][1..] == frames[2..] && next == [frames[1]] + after;
        assert next[1..] == after;
        BodyShape(frames[2..], closed, tail);
      }
    }
  }

  lemma EventsOnce(cfg: Config, header: string, body: seq<string>)
    requires header != ""
    ensures var p := CallChain(cfg, body);
            Events(cfg, [header] + body) == if p.Failed? then p else Prepend(p.samples, Events(cfg, p.rest))
  {
    hide CallChain;
    assert ([header] + body)[1..] == body;
  }

  lemma {:induction false} EventsOnBlock(cfg: Config, header: string, frames: seq<string>,
                                         closed: bool, tail: seq<string>)
    requires header != "" && (closed || tail == [])
    requires forall i | 0 <= i < |frames| :: Solid(frames[i])
    ensures Events(cfg, [header] + Body(frames, closed, tail)) == Then(Scan(cfg, frames), Events(cfg, tail))
    decreases |frames|
  {
    hide Body, CallChain, First, Used, Events;
    EventsOnce(cfg, header, Body(frames, closed, tail));
    OneEvent(cfg, frames, closed, tail);
    var first, used := First(cfg, frames), Used(cfg, frames);
    if first.Failed? || |frames| <= used {
    } else {
      BodyShape(frames[used..], closed, tail);
      assert frames[used..][1..] == frames[used + 1..];
      EventsOnBlock(cfg, frames[used], frames[used + 1..], closed, tail);
      ThenPrepended(first.samples, Scan(cfg, frames[used + 1..]), Events(cfg, tail));
    }
  }

  lemma ThenPrepended(a: seq<Sample>, p: Parsed, q: Parsed)
    ensures Prepend(a, Then(p, q)) == Then(Prepend(a, p), q)
  {
    assert p.Parsed? && q.Parsed? ==> a + (p.samples + q.samples) == (a + p.samples) + q.samples;
  }

  /** Inserting comment lines anywhere. */
  predicate WithComments(lines: seq<string>, plain: seq<string>) {
    if lines == [] then plain == []
    else if lines[0] != "" && lines[0][0] == '#' then WithComments(lines[1..], plain)
    else plain != [] && lines[0] == plain[0] && WithComments(lines[1..], plain[1..])
  }

  lemma {:induction false} VisibleWithComments(lines: seq<string>, plain: seq<string>)
    requires WithComments(lines, plain)
    ensures Visible(lines) == plain
  {
    if lines == [] {
    } else if IsComment(lines[0]) {
      VisibleWithComments(lines[1..], plain);
    } else {
      VisibleWithComments(lines[1..], plain[1..]);
    }
  }

  lemma {:induction false} NoComments(lines: seq<string>)
    requires forall i | 0 <= i < |lines| :: !IsComment(lines[i])
    ensures WithComments(lines, lines)
  {
    if lines == [] {
    } else {
      NoComments(lines[1..]);
    }
  }

  lemma {:induction false} RenderHasNoComments(blocks: seq<Block>, closed: bool)
    requires forall i | 0 <= i < |blocks| :: SolidBlock(blocks[i])
    ensures forall i | 0 <= i < |Render(blocks, closed)| :: !IsComment(Render(blocks, closed)[i])
    decreases |blocks|
  {
    if blocks == [] {
    } else {
      assert SolidBlock(blocks[0]);
      RenderHasNoComments(blocks[1..], closed);
    }
  }

  /** Resynchronisation: every block is consumed exactly to its blank line, whatever its depth, and
      the outcome is that of the blocks, one block after the other. */
  lemma {:induction false} BlocksParse(cfg: Config, blocks: seq<Block>, closed: bool)
    requires forall i | 0 <= i < |blocks| :: SolidBlock(blocks[i])
    ensures Events(cfg, Render(blocks, closed)) == ScanAll(cfg, blocks)
    decreases |blocks|
  {
    hide Body, Scan, Solid;
    if blocks == [] {
    } else {
      hide Events;
      assert SolidBlock(blocks[0]);
      var tail := Render(blocks[1..], closed);
      BlocksParse(cfg, blocks[1..], closed);
      SolidHeader(blocks[0]);
      EventsOnBlock(cfg, blocks[0].header, blocks[0].frames, closed || |blocks| > 1, tail);
    }
  }

  /** Behind blocks that each end in a blank line, parsing goes on with what follows. */
  lemma {:induction false} BlocksThen(cfg: Config, blocks: seq<Block>, tail: seq<string>)
    requires forall i | 0 <= i < |blocks| :: SolidBlock(blocks[i])
    ensures Events(cfg, Render(blocks, true) + tail) == Then(ScanAll(cfg, blocks), Events(cfg, tail))
    decreases |blocks|
  {
    hide Scan, Solid, Events;
    if blocks == [] {
      assert [] + tail == tail;
      PrependNone(Events(cfg, tail));
    } else {
      assert SolidBlock(blocks[0]);
      var b, rest := blocks[0], Render(blocks[1..], true);
      assert Render(blocks, true) + tail == [b.header] + Body(b.frames, true, rest + tail);
      BlocksThen(cfg, blocks[1..], tail);
      SolidHeader(b);
      EventsOnBlock(cfg, b.header, b.frames, true, rest + tail);
      ThenTwice(Scan(cfg, b.frames), ScanAll(cfg, blocks[1..]), Events(cfg, tail));
    }
  }

  lemma ThenTwice(p: Parsed, q: Parsed, r: Parsed)
    ensures Then(p, Then(q, r)) == Then(Then(p, q), r)
  {
    if p.Parsed? {
      ThenPrepended(p.samples, q, r);
    }
  }

  /** A second blank line between two events fails, unless an event before it does. */
  lemma SecondBlankFails(cfg: Config, blocks: seq<Block>, rest: seq<string>)
    requires forall i | 0 <= i < |blocks| :: SolidBlock(blocks[i])
    ensures Events(cfg, Render(blocks, true) + ([""] + rest)) ==
            if ScanAll(cfg, blocks).Failed? then ScanAll(cfg, blocks) else Failed(AssertionError)
  {
    hide Scan, ScanAll, Render, SolidBlock;
    BlocksThen(cfg, blocks, [""] + rest);
  }

  lemma SolidHeader(b: Block)
    requires SolidBlock(b)
    ensures b.header != ""
  {
  }

  /** The same for a file with comment lines anywhere between its lines. */
  lemma FileParses(cfg: Config, blocks: seq<Block>, closed: bool, lines: seq<string>)
    requires forall i | 0 <= i < |blocks| :: SolidBlock(blocks[i])
    requires WithComments(lines, Render(blocks, closed))
    ensures Events(cfg, Visible(lines)) == ScanAll(cfg, blocks)
  {
    hide SolidBlock, Events, Visible, Render;
    VisibleWithComments(lines, Render(blocks, closed));
    BlocksParse(cfg, blocks, closed);
  }

  /** In particular for the plain rendering: no line of it is taken for a comment. */
  lemma RenderedFileParses(cfg: Config, blocks: seq<Block>, closed: bool)
    requires forall i | 0 <= i < |blocks| :: SolidBlock(blocks[i])
    ensures Events(cfg, Visible(Render(blocks, closed))) == ScanAll(cfg, blocks)
  {
    hide SolidBlock, Events, Visible, Render;
    RenderHasNoComments(blocks, closed);
    NoComments(Render(blocks, closed));
    FileParses(cfg, blocks, closed, Render(blocks, closed));
  }

  // ---------- which files parse ----------

  /** The place behind the frames that a leaf at k uses up and the frame taken for a header. */
  function Resume(cfg: Config, frames: seq<string>, k: nat): nat
    requires k < |frames|
  {
    k + if Classify(cfg, frames[k]).Hit? then 3 else 2
  }

  /** The frames that are read as the innermost call of an event, from position k on. */
  function Starts(cfg: Config, frames: seq<string>, k: nat): (r: seq<nat>)
    ensures forall i | 0 <= i < |r| :: r[i] < |frames|
    decreases |frames| - k
  {
    if k >= |frames| then []
    else [k] + Starts(cfg, frames, Resume(cfg, frames, k))
  }

  /** Such a frame must be a call whose symbol, if it is the requested one, is in the map file; behind
      a hit another call must follow, or nothing. */
  predicate Readable(cfg: Config, frames: seq<string>, k: nat)
    requires k < |frames|
  {
    var frame := Classify(cfg, frames[k]);
    && !frame.Malformed? && !frame.Unmapped?
    && (frame.Hit? && k + 1 < |frames| ==> !Classify(cfg, frames[k + 1]).Malformed?)
  }

  predicate AllReadable(cfg: Config, frames: seq<string>, k: nat) {
    forall i | 0 <= i < |Starts(cfg, frames, k)| :: Readable(cfg, frames, Starts(cfg, frames, k)[i])
  }

  lemma StartsOnce(cfg: Config, frames: seq<string>, k: nat)
    requires k < |frames|
    ensures AllReadable(cfg, frames, k) <==>
            Readable(cfg, frames, k) && AllReadable(cfg, frames, Resume(cfg, frames, k))
  {
    hide Classify, Readable;
    var here, there := Starts(cfg, frames, k), Starts(cfg, frames, Resume(cfg, frames, k));
    assert here == [k] + there;
    if AllReadable(cfg, frames, k) {
      assert Readable(cfg, frames, here[0]);
      forall i | 0 <= i < |there| ensures Readable(cfg, frames, there[i]) {
        assert here[i + 1] == there[i];
      }
    }
  }

  lemma StartsNone(cfg: Config, frames: seq<string>, k: nat)
    requires k >= |frames|
    ensures AllReadable(cfg, frames, k)
  {
  }

  lemma ScanOnce(cfg: Config, frames: seq<string>, k: nat)
    requires k < |frames|
    ensures var next := Resume(cfg, frames, k);
            Scan(cfg, frames[k..]).Parsed? <==>
            Readable(cfg, frames, k) && (next <= |frames| ==> Scan(cfg, frames[next..]).Parsed?)
  {
    hide Classify;
    var rest, next := frames[k..], Resume(cfg, frames, k);
    assert First(cfg, rest).Parsed? <==> Readable(cfg, frames, k);
    if next <= |frames| {
      assert rest[Used(cfg, rest) + 1..] == frames[next..];
    }
  }

  lemma {:induction false} ScanFrom(cfg: Config, frames: seq<string>, k: nat)
    requires k <= |frames|
    ensures Scan(cfg, frames[k..]).Parsed? <==> AllReadable(cfg, frames, k)
    decreases |frames| - k
  {
    if k == |frames| {
      StartsNone(cfg, frames, k);
    } else {
      hide Scan, AllReadable, Readable, Classify;
      var next := Resume(cfg, frames, k);
      ScanOnce(cfg, frames, k);
      StartsOnce(cfg, frames, k);
      if next <= |frames| {
        ScanFrom(cfg, frames, next);
      } else {
        StartsNone(cfg, frames, next);
      }
    }
  }

  /** Exactly which blocks parse: those whose frames at the places read are readable. Frames taken for
      headers may be anything, and the frame behind a hit need not be in the map file. */
  lemma BlockParsesIff(cfg: Config, frames: seq<string>)
    ensures Scan(cfg, frames).Parsed? <==> AllReadable(cfg, frames, 0)
  {
    hide Scan, AllReadable;
    ScanFrom(cfg, frames, 0);
    assert frames[0..] == frames;
  }

  lemma {:induction false} BlocksParseIff(cfg: Config, blocks: seq<Block>)
    ensures ScanAll(cfg, blocks).Parsed? <==> forall i | 0 <= i < |blocks| :: AllReadable(cfg, blocks[i].frames, 0)
    decreases |blocks|
  {
    hide Scan, AllReadable;
    if blocks == [] {
    } else {
      var rest := blocks[1..];
      BlocksParseIff(cfg, rest);
      BlockParsesIff(cfg, blocks[0].frames);
      assert forall i | 1 <= i < |blocks| :: blocks[i] == rest[i - 1];
      assert forall i | 0 <= i < |rest| :: rest[i] == blocks[i + 1];
    }
  }

  /** So a file of events, with comments anywhere, parses exactly when all its blocks are readable at
      the places read. */
  lemma FileParsesIff(cfg: Config, blocks: seq<Block>, closed: bool, lines: seq<string>)
    requires forall i | 0 <= i < |blocks| :: SolidBlock(blocks[i])
    requires WithComments(lines, Render(blocks, closed))
    ensures Events(cfg, Visible(lines)).Parsed? <==>
            forall i | 0 <= i < |blocks| :: AllReadable(cfg, blocks[i].frames, 0)
  {
    hide SolidBlock, Events, Visible, Render, ScanAll, AllReadable;
    FileParses(cfg, blocks, closed, lines);
    BlocksParseIff(cfg, blocks);
  }

  // ---------- the histogram ----------

  function Offsets(samples: seq<Sample>): (r: seq<int>)
    ensures |r| == |samples|
    ensures forall i | 0 <= i < |samples| :: r[i] == samples[i].offset
  {
    seq(|samples|, i requires 0 <= i < |samples| => samples[i].offset)
  }

  /** How often each offset was recorded. */
  function Histogram(p: Parsed): multiset<int>
    requires p.Parsed?
  {
    multiset(Offsets(p.samples))
  }

  lemma {:induction false} ScanConcat(cfg: Config, a: seq<Block>, b: seq<Block>)
    ensures ScanAll(cfg, a + b) == Then(ScanAll(cfg, a), ScanAll(cfg, b))
    decreases |a|
  {
    hide Scan;
    if a == [] {
      assert a + b == b;
      PrependNone(ScanAll(cfg, b));
    } else {
      assert (a + b)[1..] == a[1..] + b && (a + b)[0] == a[0];
      ScanConcat(cfg, a[1..], b);
      var first := Scan(cfg, a[0].frames);
      if first.Parsed? {
        ThenPrepended(first.samples, ScanAll(cfg, a[1..]), ScanAll(cfg, b));
      }
    }
  }

  lemma PrependNone(p: Parsed)
    ensures Prepend([], p) == p
  {
    assert p.Parsed? ==> [] + p.samples == p.samples;
  }

  lemma OffsetsConcat(x: seq<Sample>, y: seq<Sample>)
    ensures multiset(Offsets(x + y)) == multiset(Offsets(x)) + multiset(Offsets(y))
  {
    assert Offsets(x + y) == Offsets(x) + Offsets(y);
  }

  /** A file parses when its parts do, and its histogram is then the sum of theirs. */
  lemma HistogramAdds(cfg: Config, a: seq<Block>, b: seq<Block>, closed: bool)
    requires forall i | 0 <= i < |a| :: SolidBlock(a[i])
    requires forall i | 0 <= i < |b| :: SolidBlock(b[i])
    ensures var x, y := Events(cfg, Render(a, closed)), Events(cfg, Render(b, closed));
            var all := Events(cfg, Render(a + b, closed));
            && (all.Parsed? <==> x.Parsed? && y.Parsed?)
            && (all.Parsed? ==> Histogram(all) == Histogram(x) + Histogram(y))
  {
    hide Events, Render, SolidBlock, Offsets, ScanAll;
    BlocksParse(cfg, a, closed);
    BlocksParse(cfg, b, closed);
    BlocksParse(cfg, a + b, closed);
    ScanConcat(cfg, a, b);
    var x, y := ScanAll(cfg, a), ScanAll(cfg, b);
    if x.Parsed? && y.Parsed? {
      OffsetsConcat(x.samples, y.samples);
    }
  }

  // ---------- which samples are counted ----------

  /** What the tool is for: an event counts when its innermost frame is the requested symbol. */
  function LeafSample(cfg: Config, frames: seq<string>): seq<Sample> {
    if frames != [] && Classify(cfg, frames[0]).Hit? then [Classify(cfg, frames[0]).sample] else []
  }

  /** No frame at position k, k+2, k+4, ... is the requested symbol. */
  predicate QuietFrom(cfg: Config, frames: seq<string>, k: nat)
    decreases |frames| - k
  {
    k >= |frames| || (!Classify(cfg, frames[k]).Hit? && QuietFrom(cfg, frames, k + 2))
  }

  /** No deeper frame is mistaken for a leaf: none at every other place from the fourth on after a
      leaf hit, none at every other place from the third on otherwise. */
  predicate LeafOnly(cfg: Config, frames: seq<string>) {
    QuietFrom(cfg, frames, if frames != [] && Classify(cfg, frames[0]).Hit? then 3 else 2)
  }

  lemma {:induction false} ScanEmptyIff(cfg: Config, frames: seq<string>, k: nat)
    requires k <= |frames| && Scan(cfg, frames[k..]).Parsed?
    ensures Scan(cfg, frames[k..]).samples == [] <==> QuietFrom(cfg, frames, k)
    decreases |frames| - k
  {
    hide Classify;
    if k == |frames| || Classify(cfg, frames[k]).Hit? || |frames| < k + 2 {
    } else {
      assert frames[k..][2..] == frames[k + 2..];
      ScanEmptyIff(cfg, frames, k + 2);
    }
  }

  /** The samples of a block are that of its leaf and those of the frames mistaken for leaves. */
  lemma LeafFirst(cfg: Config, frames: seq<string>)
    requires Scan(cfg, frames).Parsed?
    ensures var k := if frames != [] && Classify(cfg, frames[0]).Hit? then 3 else 2;
            && (k <= |frames| ==> Scan(cfg, frames[k..]).Parsed?)
            && Scan(cfg, frames).samples ==
               LeafSample(cfg, frames) + if k <= |frames| then Scan(cfg, frames[k..]).samples else []
  {
    hide Classify;
  }

  /** An event is counted as its leaf says exactly when no deeper frame is mistaken for a leaf.
      Events of at most two frames always qualify. */
  lemma LeafOnlyIff(cfg: Config, frames: seq<string>)
    requires Scan(cfg, frames).Parsed?
    ensures LeafSample(cfg, frames) <= Scan(cfg, frames).samples
    ensures Scan(cfg, frames).samples == LeafSample(cfg, frames) <==> LeafOnly(cfg, frames)
    ensures |frames| <= 2 ==> LeafOnly(cfg, frames)
  {
    hide Classify, Scan, LeafSample;
    LeafFirst(cfg, frames);
    var k := if frames != [] && Classify(cfg, frames[0]).Hit? then 3 else 2;
    if k <= |frames| {
      ScanEmptyIff(cfg, frames, k);
      assert k == |frames| ==> QuietFrom(cfg, frames, k);
    }
  }

  function LeafSamples(cfg: Config, blocks: seq<Block>): seq<Sample> {
    if blocks == [] then [] else LeafSample(cfg, blocks[0].frames) + LeafSamples(cfg, blocks[1..])
  }

  /** Over a whole file the number of samples is the number of events whose leaf is the requested
      symbol if and only if no event has a deeper frame mistaken for a leaf. */
  lemma {:induction false} FileCountsLeavesIff(cfg: Config, blocks: seq<Block>)
    requires ScanAll(cfg, blocks).Parsed?
    ensures var all, leaves := ScanAll(cfg, blocks).samples, LeafSamples(cfg, blocks);
            && |all| >= |leaves|
            && (|all| == |leaves| <==> forall i | 0 <= i < |blocks| :: LeafOnly(cfg, blocks[i].frames))
            && (|all| == |leaves| ==> all == leaves)
    decreases |blocks|
  {
    hide Scan, LeafSample, LeafOnly;
    if blocks == [] {
    } else {
      var frames, rest := blocks[0].frames, blocks[1..];
      FileCountsLeavesIff(cfg, rest);
      LeafOnlyIff(cfg, frames);
      var samples := Scan(cfg, frames).samples;
      assert |samples| == |LeafSample(cfg, frames)| ==> samples == LeafSample(cfg, frames);
      assert (forall i | 0 <= i < |blocks| :: LeafOnly(cfg, blocks[i].frames)) <==>
             LeafOnly(cfg, frames) && forall i | 0 <= i < |rest| :: LeafOnly(cfg, rest[i].frames) by {
        assert forall i | 0 <= i < |rest| :: rest[i] == blocks[i + 1];
        assert forall i | 1 <= i < |blocks| :: blocks[i] == rest[i - 1];
      }
    }
  }

  /** The events whose innermost frame is the symbol at the given distance from its start. */
  function LeavesAt(cfg: Config, blocks: seq<Block>, offset: int): nat {
    if blocks == [] then 0
    else
      var frames := blocks[0].frames;
      (if frames != [] && CallAt(cfg, frames[0], offset) then 1 else 0) + LeavesAt(cfg, blocks[1..], offset)
  }

  lemma {:induction false} LeafHistogram(cfg: Config, blocks: seq<Block>, offset: int)
    ensures multiset(Offsets(LeafSamples(cfg, blocks)))[offset] == LeavesAt(cfg, blocks, offset)
  {
    if blocks == [] {
    } else {
      hide Classify, CallAt, Offsets;
      var leaf, rest := LeafSample(cfg, blocks[0].frames), LeafSamples(cfg, blocks[1..]);
      LeafHistogram(cfg, blocks[1..], offset);
      OffsetsConcat(leaf, rest);
      LeafOffset(cfg, blocks[0].frames, offset);
    }
  }

  lemma LeafOffset(cfg: Config, frames: seq<string>, offset: int)
    ensures multiset(Offsets(LeafSample(cfg, frames)))[offset] ==
            if frames != [] && CallAt(cfg, frames[0], offset) then 1 else 0
  {
    hide Classify, CallAt;
    if frames == [] {
    } else {
      HitMeans(cfg, frames[0], offset);
      if Classify(cfg, frames[0]).Hit? {
        var sample := Classify(cfg, frames[0]).sample;
        assert Offsets([sample]) == [sample.offset];
      }
    }
  }

  /** A three-frame event whose outermost frame is the symbol is counted although its leaf is not, and
      whatever the frame in between is. */
  lemma DeepFrameCounted(cfg: Config, frames: seq<string>)
    requires |frames| == 3 && Classify(cfg, frames[0]).Other? && Classify(cfg, frames[2]).Hit?
    ensures LeafSample(cfg, frames) == [] && Scan(cfg, frames) == Parsed([], [Classify(cfg, frames[2]).sample])
  {
    hide Classify;
    assert frames[2..] == [frames[2]];
  }

  /** A leaf that is no call fails, and so does a frame behind a hit; taken for a header it does not. */
  lemma MalformedFrame(cfg: Config, hit: string, other: string, bad: string)
    requires Classify(cfg, hit).Hit? && Classify(cfg, other).Other? && Classify(cfg, bad).Malformed?
    ensures Scan(cfg, [bad]) == Failed(AssertionError) && Scan(cfg, [hit, bad]) == Failed(AssertionError)
    ensures Scan(cfg, [other, bad]) == Parsed([], [])
  {
    hide Classify;
    assert [other, bad][2..] == [];
  }

  /** A frame of the symbol that no map file has does not matter behind a hit, and fails as a leaf. */
  lemma UnmappedFrame(cfg: Config, hit: string, unmapped: string)
    requires Classify(cfg, hit).Hit? && Classify(cfg, unmapped).Unmapped?
    ensures Scan(cfg, [hit, unmapped]) == Parsed([], [Classify(cfg, hit).sample])
    ensures Scan(cfg, [unmapped, hit]) == Failed(TypeError)
  {
    hide Classify;
  }
}
