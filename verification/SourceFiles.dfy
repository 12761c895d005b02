/** `parse_source_list`: from a source-list file to lists of source paths. */
module SourceFiles {
  import opened Options
  import opened Text
  import opened Expansion
  import opened SourceList
  import opened SourceRuns
  import Folding
  import WordLists

  datatype Dirs = Dirs(current: string, source: string, build: string)

  function ForwardSlashes(path: string): (r: string)
    ensures |r| == |path|
    ensures forall i | 0 <= i < |path| :: r[i] == if path[i] == '\\' then '/' else path[i]
  {
    seq(|path|, i requires 0 <= i < |path| => if path[i] == '\\' then '/' else path[i])
  }

  function Normalize(d: Dirs): Dirs {
    Dirs(ForwardSlashes(d.current), ForwardSlashes(d.source), ForwardSlashes(d.build))
  }

  /** Build outputs lose the `src` directory; paths below the current directory become relative. */
  function Relocate(d: Dirs, f: string): string {
    var g := if StartsWith(f, d.build + "/src") then d.build + f[|d.build| + 4..] else f;
    if StartsWith(g, d.current + "/") then g[|d.current| + 1..] else g
  }

  predicate IsHeader(f: string) {
    EndsWith(f, ".h") || EndsWith(f, ".hpp") || EndsWith(f, ".inl")
  }

  function SourcesOf(d: Dirs, words: seq<string>): (r: seq<string>)
    ensures forall i | 0 <= i < |r| :: !IsHeader(r[i])
    ensures forall f :: f in r <==> !IsHeader(f) && exists w :: w in words && Relocate(d, w) == f
  {
    if words == [] then []
    else
      var f := Relocate(d, words[0]);
      (if IsHeader(f) then [] else [f]) + SourcesOf(d, words[1..])
  }

  datatype Names = NoNames | One(name: string) | Many(names: seq<string>)

  /** Python truthiness: an empty name or an empty list counts as no names. */
  function Selected(names: Names): Option<seq<string>> {
    match names
    case NoNames => None
    case One(name) => if name == "" then None else Some([name])
    case Many(ns) => if ns == [] then None else Some(ns)
  }

  datatype Lists = PerSymbol(lists: map<string, seq<string>>) | Flat(sources: seq<string>)

  function InitialTable(d: Dirs): Table {
    map["top_srcdir" := d.source, "top_builddir" := d.build]
  }

  /** The list of each name, one after the other; the first unknown name raises. */
  function Collect(d: Dirs, table: Table, names: seq<string>): Result<seq<string>> {
    if names == [] then Ok([])
    else if names[0] !in table then Err(KeyError(names[0]))
    else
      match Collect(d, table, names[1..])
      case Err(e) => Err(e)
      case Ok(rest) => Ok(SourcesOf(d, Words(table[names[0]])) + rest)
  }

  function AllLists(d: Dirs, table: Table): map<string, seq<string>> {
    map n | n in table :: SourcesOf(d, Words(table[n]))
  }

  function SourceLists(dirs: Dirs, file: string, text: Option<string>, names: Names): Result<Lists> {
    var d := Normalize(dirs);
    var (s, outcome) := ParseFile(Fresh(InitialTable(d), None), file, text);
    match outcome
    case Raised(e, _) => Err(e)
    case Finished =>
      match Selected(names)
      case None => Ok(PerSymbol(AllLists(d, s.table)))
      case Some(ns) =>
        match Collect(d, s.table, ns)
        case Err(e) => Err(e)
        case Ok(sources) => Ok(Flat(sources))
  }

  // ---------- the loops ----------

  lemma {:induction false} SourcesConcat(d: Dirs, a: seq<string>, b: seq<string>)
    ensures SourcesOf(d, a + b) == SourcesOf(d, a) + SourcesOf(d, b)
  {
    hide Relocate, IsHeader;
    if a == [] {
      assert a + b == b;
    } else {
      assert (a + b)[1..] == a[1..] + b;
      SourcesConcat(d, a[1..], b);
    }
  }

  lemma SourcesSnoc(d: Dirs, words: seq<string>, w: string)
    ensures SourcesOf(d, words + [w]) ==
            SourcesOf(d, words) + if IsHeader(Relocate(d, w)) then [] else [Relocate(d, w)]
  {
    hide Relocate, IsHeader;
    SourcesConcat(d, words, [w]);
    assert [w][1..] == [];
    assert SourcesOf(d, [w]) == if IsHeader(Relocate(d, w)) then [] else [Relocate(d, w)];
  }

  /** The positions of the words that are not headers once relocated, in increasing order. */
  function Positions(d: Dirs, words: seq<string>): seq<nat> {
    if words == [] then []
    else
      var last := |words| - 1;
      Positions(d, words[..last]) + if IsHeader(Relocate(d, words[last])) then [] else [last]
  }

  lemma {:induction false} PositionsIncrease(d: Dirs, words: seq<string>)
    ensures forall i | 0 <= i < |Positions(d, words)| :: Positions(d, words)[i] < |words|
    ensures forall i, j | 0 <= i < j < |Positions(d, words)| :: Positions(d, words)[i] < Positions(d, words)[j]
    ensures forall k | 0 <= k < |words| :: k in Positions(d, words) <==> !IsHeader(Relocate(d, words[k]))
  {
    hide Relocate, IsHeader;
    if words == [] {
    } else {
      PositionsIncrease(d, words[..|words| - 1]);
    }
  }

  /** The sources are the relocated words at those positions, so they keep the order and the
      multiplicity of the words. */
  lemma {:induction false} SourcesInOrder(d: Dirs, words: seq<string>)
    ensures |SourcesOf(d, words)| == |Positions(d, words)|
    ensures forall i | 0 <= i < |Positions(d, words)| ::
              Positions(d, words)[i] < |words| && SourcesOf(d, words)[i] == Relocate(d, words[Positions(d, words)[i]])
  {
    hide Relocate, IsHeader, SourcesOf;
    if words == [] {
      EmptySources(d);
    } else {
      var before, last := words[..|words| - 1], words[|words| - 1];
      assert words == before + [last];
      SourcesSnoc(d, before, last);
      SourcesInOrder(d, before);
    }
  }

  method ConvertValue(d: Dirs, val: string) returns (srcs: seq<string>)
    ensures srcs == SourcesOf(d, Words(val))
  {
    hide Words, IsHeader, SourcesOf;
    srcs := [];
    EmptySources(d);
    var words := Words(val);
    for i := 0 to |words|
      invariant srcs == SourcesOf(d, words[..i])
    {
      var f := words[i];
      assert words[..i + 1] == words[..i] + [f];
      SourcesSnoc(d, words[..i], f);
      if StartsWith(f, d.build + "/src") {
        f := d.build + f[|d.build + "/src"|..];
      }
      if StartsWith(f, d.current + "/") {
        f := f[|d.current + "/"|..];
      }
      assert f == Relocate(d, words[i]);
      if !IsHeader(f) {
        srcs := srcs + [f];
      }
    }
    assert words[..|words|] == words;
  }

  lemma {:induction false} CollectConcat(d: Dirs, table: Table, a: seq<string>, b: seq<string>)
    ensures Collect(d, table, a + b) ==
            match (Collect(d, table, a), Collect(d, table, b))
            case (Err(e), _) => Err(e)
            case (Ok(_), Err(e)) => Err(e)
            case (Ok(x), Ok(y)) => Ok(x + y)
  {
    hide SourcesOf, Words;
    if a == [] {
      assert a + b == b;
      assert Collect(d, table, b).Ok? ==> [] + Collect(d, table, b).value == Collect(d, table, b).value;
    } else {
      assert (a + b)[1..] == a[1..] + b && (a + b)[0] == a[0];
      CollectConcat(d, table, a[1..], b);
      if a[0] in table && Collect(d, table, a[1..]).Ok? && Collect(d, table, b).Ok? {
        var x, y, z := SourcesOf(d, Words(table[a[0]])), Collect(d, table, a[1..]).value, Collect(d, table, b).value;
        assert x + (y + z) == (x + y) + z;
      }
    }
  }

  /** One list per symbol, stopping at the first unknown one. */
  method ConvertSymbols(d: Dirs, table: Table, symbols: seq<string>) returns (r: Result<map<string, seq<string>>>)
    ensures r.Ok? <==> forall i | 0 <= i < |symbols| :: symbols[i] in table
    ensures r.Ok? ==> forall n :: n in r.value <==> n in symbols
    ensures r.Ok? ==> forall n | n in r.value :: n in table && r.value[n] == SourcesOf(d, Words(table[n]))
    ensures r.Err? ==> Collect(d, table, symbols) == Err(r.error)
  {
    hide SourcesOf, Words;
    var lists: map<string, seq<string>> := map[];
    for i := 0 to |symbols|
      invariant forall j | 0 <= j < i :: symbols[j] in table
      invariant forall n :: n in lists <==> n in symbols[..i]
      invariant forall n | n in lists :: n in table && lists[n] == SourcesOf(d, Words(table[n]))
    {
      var sym := symbols[i];
      if sym !in table {
        CollectMissing(d, table, symbols, i);
        return Err(KeyError(sym));
      }
      var srcs := ConvertValue(d, table[sym]);
      lists := lists[sym := srcs];
      assert symbols[..i + 1] == symbols[..i] + [sym];
    }
    assert symbols[..|symbols|] == symbols;
    return Ok(lists);
  }

  lemma {:induction false} CollectMissing(d: Dirs, table: Table, names: seq<string>, k: nat)
    requires k < |names| && names[k] !in table
    requires forall j | 0 <= j < k :: names[j] in table
    ensures Collect(d, table, names) == Err(KeyError(names[k]))
  {
    if k == 0 {
    } else {
      CollectMissing(d, table, names[1..], k - 1);
    }
  }

  lemma CollectOne(d: Dirs, table: Table, name: string)
    requires name in table
    ensures Collect(d, table, [name]) == Ok(SourcesOf(d, Words(table[name])))
  {
    hide SourcesOf, Words;
    assert Collect(d, table, []) == Ok([]);
    assert SourcesOf(d, Words(table[name])) + [] == SourcesOf(d, Words(table[name]));
  }

  lemma ListsAreAll(d: Dirs, table: Table, lists: map<string, seq<string>>)
    requires forall n :: n in lists <==> n in table
    requires forall n | n in lists :: n in table && lists[n] == SourcesOf(d, Words(table[n]))
    ensures lists == AllLists(d, table)
  {
    hide SourcesOf, Words;
  }

  method ParseSourceList(dirs: Dirs, file: string, text: Option<string>, names: Names) returns (r: Result<Lists>)
    ensures r == SourceLists(dirs, file, text, names)
  {
    hide ParseFile, SourcesOf, Words, Collect, Normalize, Selected, AllLists;
    var d := Normalize(dirs);
    var parser := new SourceListParser();
    parser.AddSymbol("top_srcdir", d.source);
    parser.AddSymbol("top_builddir", d.build);
    assert parser.Value() == Fresh(InitialTable(d), None);
    var outcome := parser.Parse(file, text);
    var table := parser.symbolTable;
    if outcome.Raised? {
      return Err(outcome.error);
    }
    var selected := Selected(names);
    if selected == None {
      var keys := Enumerate(table.Keys);
      var lists := ConvertSymbols(d, table, keys);
      ListsAreAll(d, table, lists.value);
      return Ok(PerSymbol(lists.value));
    }
    var lists := ConvertSymbols(d, table, selected.value);
    if lists.Err? {
      return Err(lists.error);
    }
    var srcs := Concatenate(d, table, lists.value, selected.value);
    return Ok(Flat(srcs));
  }

  /** `list(table.keys())`, in an order the caller cannot rely on. */
  method Enumerate(keys: set<string>) returns (names: seq<string>)
    ensures forall n :: n in names <==> n in keys
  {
    names := [];
    var rest := keys;
    while rest != {}
      invariant rest <= keys
      invariant forall n :: n in names <==> n in keys && n !in rest
    {
      var n :| n in rest;
      names, rest := names + [n], rest - {n};
    }
  }

  method Concatenate(d: Dirs, ghost table: Table, lists: map<string, seq<string>>, names: seq<string>)
      returns (srcs: seq<string>)
    requires forall i | 0 <= i < |names| :: names[i] in lists
    requires forall n | n in lists :: n in table && lists[n] == SourcesOf(d, Words(table[n]))
    ensures Collect(d, table, names) == Ok(srcs)
  {
    hide SourcesOf, Words;
    srcs := [];
    for i := 0 to |names|
      invariant Collect(d, table, names[..i]) == Ok(srcs)
    {
      assert names[..i + 1] == names[..i] + [names[i]];
      CollectOne(d, table, names[i]);
      CollectConcat(d, table, names[..i], [names[i]]);
      srcs := srcs + lists[names[i]];
    }
    assert names[..|names|] == names;
  }

  // ---------- what the caller gets ----------

  /** Asking for names is asking for each one's list and concatenating, in the order asked. */
  lemma {:induction false} FlatAgreesWithPerSymbol(d: Dirs, table: Table, names: seq<string>)
    requires forall i | 0 <= i < |names| :: names[i] in table
    ensures Collect(d, table, names) ==
            Ok(Flatten(seq(|names|, i requires 0 <= i < |names| => SourcesOf(d, Words(table[names[i]])))))
  {
    hide SourcesOf, Words;
    if names == [] {
    } else {
      FlatAgreesWithPerSymbol(d, table, names[1..]);
      var all := seq(|names|, i requires 0 <= i < |names| => SourcesOf(d, Words(table[names[i]])));
      var tail := seq(|names| - 1, i requires 0 <= i < |names| - 1 => SourcesOf(d, Words(table[names[1..][i]])));
      assert all[1..] == tail;
    }
  }

  lemma {:induction false} SourcesOfFlatten(d: Dirs, parts: seq<seq<string>>)
    ensures SourcesOf(d, Flatten(parts)) ==
            Flatten(seq(|parts|, i requires 0 <= i < |parts| => SourcesOf(d, parts[i])))
  {
    hide SourcesOf;
    if parts == [] {
      assert SourcesOf(d, Flatten(parts)) == [] by {
        EmptySources(d);
      }
    } else {
      SourcesOfFlatten(d, parts[1..]);
      SourcesConcat(d, parts[0], Flatten(parts[1..]));
      var all := seq(|parts|, i requires 0 <= i < |parts| => SourcesOf(d, parts[i]));
      var tail := seq(|parts| - 1, i requires 0 <= i < |parts| - 1 => SourcesOf(d, parts[1..][i]));
      assert all[1..] == tail;
    }
  }

  lemma EmptySources(d: Dirs)
    ensures SourcesOf(d, []) == []
  {
  }

  /** End to end: the sources returned for a variable are those of the definitions that contributed
      to it since it was last overwritten, in file order. */
  lemma SourcesAreContributions(dirs: Dirs, file: string, text: string, name: string)
    requires name != "" && SourceLists(dirs, file, Some(text), One(name)).Ok?
    ensures var d := Normalize(dirs);
            var run := RunLines(Fresh(InitialTable(d), Some(file)), SplitLines(text));
            var parts := WordsOfAll(Contributions(InitialTable(d), run.events, name));
            && run.error == None && parts != []
            && SourceLists(dirs, file, Some(text), One(name)) ==
               Ok(Flat(Flatten(seq(|parts|, i requires 0 <= i < |parts| => SourcesOf(d, parts[i])))))
  {
    hide SourcesOf, RunLines, SplitLines, Contributions, Words;
    var d := Normalize(dirs);
    var start, lines := Fresh(InitialTable(d), Some(file)), SplitLines(text);
    var run := RunLines(start, lines);
    RunWords(start, lines, name);
    var parts := WordsOfAll(Contributions(InitialTable(d), run.events, name));
    assert name in run.state.table;
    CollectOne(d, run.state.table, name);
    SourcesOfFlatten(d, parts);
  }

  /** The same result computed from word lists alone. */
  function CollectWords(d: Dirs, lists: WordLists.ViewTable, names: seq<string>): Result<seq<string>> {
    if names == [] then Ok([])
    else if names[0] !in lists then Err(KeyError(names[0]))
    else
      match CollectWords(d, lists, names[1..])
      case Err(e) => Err(e)
      case Ok(rest) => Ok(SourcesOf(d, lists[names[0]].words) + rest)
  }

  lemma {:induction false} CollectFromWords(d: Dirs, table: Table, names: seq<string>)
    ensures CollectWords(d, WordLists.Abstract(table), names) == Collect(d, table, names)
  {
    hide SourcesOf, Words;
    if names == [] {
    } else {
      CollectFromWords(d, table, names[1..]);
    }
  }

  /** For every file and every way of asking, the whole function is the word-list interpreter
      followed by the path rules. */
  lemma SourcesFromWordLists(dirs: Dirs, file: string, text: string, names: Names)
    ensures var d := Normalize(dirs);
            var (lists, error) := WordLists.Interpret(WordLists.Assign, WordLists.Abstract(InitialTable(d)),
                                                      Folding.LogicalLines(SplitLines(text)));
            SourceLists(dirs, file, Some(text), names) ==
            match error
            case Some(e) => Err(e)
            case None =>
              match Selected(names)
              case None => Ok(PerSymbol(map n | n in lists :: SourcesOf(d, lists[n].words)))
              case Some(ns) => match CollectWords(d, lists, ns) case Err(e) => Err(e) case Ok(srcs) => Ok(Flat(srcs))
  {
    hide SourcesOf, RunLines, SplitLines, Words, WordLists.Interpret, Folding.LogicalLines, Collect, CollectWords;
    var d := Normalize(dirs);
    var start, lines := Fresh(InitialTable(d), Some(file)), SplitLines(text);
    WordLists.ParserRefinesWordLists(start, lines);
    var table := RunLines(start, lines).state.table;
    var lists := WordLists.Abstract(table);
    assert (map n | n in lists :: SourcesOf(d, lists[n].words)) == AllLists(d, table);
    match Selected(names)
    case None =>
    case Some(ns) => CollectFromWords(d, table, ns);
  }

  // ---------- relocation ----------

  /** What relocation does to any path that begins with the build directory and `/src`. */
  lemma BuildOutputsMove(d: Dirs, tail: string)
    ensures var moved := d.build + tail;
            Relocate(d, d.build + "/src" + tail) ==
            if StartsWith(moved, d.current + "/") then moved[|d.current| + 1..] else moved
  {
    var f := d.build + "/src" + tail;
    assert f[..|d.build| + 4] == d.build + "/src" && f[|d.build| + 4..] == tail;
  }

  /** The sibling case on a concrete path. */
  lemma SiblingIsRenamed()
    ensures Relocate(Dirs("/c", "/s", "/b"), "/b/src_gen/a.c") == "/b_gen/a.c"
  {
    var d := Dirs("/c", "/s", "/b");
    BuildOutputsMove(d, "_gen/a.c");
    assert d.build + "/src" + "_gen/a.c" == "/b/src_gen/a.c" && d.build + "_gen/a.c" == "/b_gen/a.c";
    assert "/b_gen/a.c"[1] == 'b' && "/c/"[1] == 'c';
  }
}
