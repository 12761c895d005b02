/** What `parse_source_list` yields for whole files, in terms of the directories it was given. */
module Presets {
  import opened Options
  import opened Text
  import opened Expansion
  import opened SourceList
  import opened RoundTrip
  import opened Assignments
  import opened SourceFiles

  /** The directories with forward slashes. */
  function Slashed(dirs: Dirs): Dirs {
    Dirs(ForwardSlashes(dirs.current), ForwardSlashes(dirs.source), ForwardSlashes(dirs.build))
  }

  /** A file of one definition, asked for that definition. */
  lemma OneDefinition(dirs: Dirs, file: string, line: string, name: string, table: Table, v: string)
    requires name != "" && OneLine(line) && line != "" && table == InitialTable(Normalize(dirs))
    requires Executes(Fresh(table, Some(file)), line, Ok(table[name := v]))
    ensures SourceLists(dirs, file, Some(line), One(name)) == Ok(Flat(SourcesOf(Slashed(dirs), Words(v))))
  {
    hide Executes, ParseFile, Words, SourcesOf, OneLine, Collect, InitialTable;
    OneLineFile(table, file, line, Ok(table[name := v]));
    assert line + "" == line;
    CollectOne(Normalize(dirs), table[name := v], name);
  }

  /** `$(symbol)` at the start of a value, the symbol being defined. */
  lemma ReferenceFirst(table: Table, symbol: string, tail: string)
    requires Excludes(symbol, ')') && symbol in table && DollarFree(tail) && !Continues(tail)
    ensures var text := " $(" + symbol + ")" + tail;
            Expand(table, Lstrip(text)) == Ok(table[symbol] + tail) && !Continues(text)
  {
    hide Expand, Lstrip, DollarFree, Continues;
    var body := "$(" + symbol + ")" + tail;
    assert " $(" + symbol + ")" + tail == " " + body;
    LstripBehindSpace(body);
    DollarStays(body);
    ExpandRef(table, symbol, tail);
    ExpandIdentity(table, tail);
    LastOfTail(" $(" + symbol, tail);
  }

  lemma DollarStays(body: string)
    requires body != "" && body[0] == '$'
    ensures Lstrip(body) == body
  {
  }

  lemma LastOfTail(front: string, tail: string)
    requires !Continues(tail)
    ensures !Continues(front + ")" + tail)
  {
    var text := front + ")" + tail;
    assert text[|text| - 1] == if tail == "" then ')' else tail[|tail| - 1];
  }

  lemma ReferenceLine(name: string, symbol: string, tail: string)
    requires OneLine(name) && OneLine(symbol) && OneLine(tail)
    ensures var line := "" + (name + " ") + ":=" + (" $(" + symbol + ")" + tail);
            OneLine(line) && line != "" && line == name + (" := $(" + symbol + ")") + tail
  {
    var line := "" + (name + " ") + ":=" + (" $(" + symbol + ")" + tail);
    assert forall i | 0 <= i < |line| ::
        line[i] in name || line[i] in symbol || line[i] in tail || line[i] in {' ', ':', '=', '$', '(', ')'};
  }

  lemma PresetValue(dirs: Dirs, file: string, name: string, tail: string, symbol: string)
    requires name != "" && CleanName(name) && OneLine(name) && OneLine(tail) && DollarFree(tail) && !Continues(tail)
    requires OneLine(symbol) && Excludes(symbol, ')') && symbol in InitialTable(Normalize(dirs))
    ensures SourceLists(dirs, file, Some(name + (" := $(" + symbol + ")") + tail), One(name)) ==
            Ok(Flat(SourcesOf(Slashed(dirs), Words(InitialTable(Normalize(dirs))[symbol] + tail))))
  {
    hide Executes, Expand, Lstrip, Strip, Continues, SourceLists, Words, SourcesOf, OneLine, InitialTable, DollarFree;
    var table := InitialTable(Normalize(dirs));
    var value := table[symbol] + tail;
    FrontNames(name);
    ReferenceFirst(table, symbol, tail);
    AssignLine(Fresh(table, Some(file)), "", name + " ", name, " $(" + symbol + ")" + tail, value);
    ReferenceLine(name, symbol, tail);
    OneDefinition(dirs, file, name + (" := $(" + symbol + ")") + tail, name, table, value);
  }

  lemma FrontNames(name: string)
    requires name != "" && CleanName(name)
    ensures FrontOf(name + " ", name)
  {
    hide Strip;
    FrontOfName(name);
  }

  /** The two preset symbols: the source directory and the build directory, with forward slashes. */
  lemma PresetSymbols(dirs: Dirs, file: string, name: string, tail: string)
    requires name != "" && CleanName(name) && OneLine(name) && OneLine(tail) && DollarFree(tail) && !Continues(tail)
    ensures SourceLists(dirs, file, Some(name + " := $(top_srcdir)" + tail), One(name)) ==
            Ok(Flat(SourcesOf(Slashed(dirs), Words(ForwardSlashes(dirs.source) + tail))))
    ensures SourceLists(dirs, file, Some(name + " := $(top_builddir)" + tail), One(name)) ==
            Ok(Flat(SourcesOf(Slashed(dirs), Words(ForwardSlashes(dirs.build) + tail))))
  {
    hide SourceLists, CleanName, DollarFree, Continues, SourcesOf, Words, ForwardSlashes;
    PresetNames();
    PresetValue(dirs, file, name, tail, "top_srcdir");
    PresetValue(dirs, file, name, tail, "top_builddir");
  }

  lemma PresetNames()
    ensures " := $(" + "top_srcdir" + ")" == " := $(top_srcdir)" && OneLine("top_srcdir") && Excludes("top_srcdir", ')')
    ensures " := $(" + "top_builddir" + ")" == " := $(top_builddir)"
    ensures OneLine("top_builddir") && Excludes("top_builddir", ')')
  {
  }

  // ---------- the ways to name symbols ----------

  function ListsOf(lists: map<string, seq<string>>, ns: seq<string>): seq<seq<string>>
    requires forall i | 0 <= i < |ns| :: ns[i] in lists
  {
    seq(|ns|, i requires 0 <= i < |ns| => lists[ns[i]])
  }

  /** No names, an empty name and an empty list ask for all lists; one name is a list of one. */
  lemma FewNames(dirs: Dirs, file: string, text: Option<string>, n: string)
    ensures SourceLists(dirs, file, text, One("")) == SourceLists(dirs, file, text, NoNames)
    ensures SourceLists(dirs, file, text, Many([])) == SourceLists(dirs, file, text, NoNames)
    ensures n != "" ==> SourceLists(dirs, file, text, One(n)) == SourceLists(dirs, file, text, Many([n]))
  {
  }

  /** Several names give their lists one after the other, or the error of the first, at k, that is not
      there; a file that fails as a whole fails for them too. */
  lemma SeveralNames(dirs: Dirs, file: string, text: Option<string>, ns: seq<string>, k: nat)
    requires ns != []
    ensures match SourceLists(dirs, file, text, NoNames)
            case Err(e) => SourceLists(dirs, file, text, Many(ns)) == Err(e)
            case Ok(all) =>
              && all.PerSymbol?
              && ((forall i | 0 <= i < |ns| :: ns[i] in all.lists) ==>
                    SourceLists(dirs, file, text, Many(ns)) == Ok(Flat(Flatten(ListsOf(all.lists, ns)))))
              && (k < |ns| && ns[k] !in all.lists && (forall j | 0 <= j < k :: ns[j] in all.lists) ==>
                    SourceLists(dirs, file, text, Many(ns)) == Err(KeyError(ns[k])))
  {
    hide ParseFile, InitialTable, Words, SourcesOf, Collect, Flatten;
    var d := Normalize(dirs);
    var (s, outcome) := ParseFile(Fresh(InitialTable(d), None), file, text);
    var lists := AllLists(d, s.table);
    if forall i | 0 <= i < |ns| :: ns[i] in lists {
      FlatAgreesWithPerSymbol(d, s.table, ns);
      assert ListsOf(lists, ns) == seq(|ns|, i requires 0 <= i < |ns| => SourcesOf(d, Words(s.table[ns[i]])));
    }
    if k < |ns| && ns[k] !in lists && forall j | 0 <= j < k :: ns[j] in lists {
      CollectMissing(d, s.table, ns, k);
    }
  }

  // ---------- paths and headers ----------

  /** A path that is not below `src` in the build directory is only made relative to the current one. */
  lemma RelocateElsewhere(d: Dirs, f: string, rest: string)
    requires !StartsWith(f, d.build + "/src")
    ensures !StartsWith(f, d.current + "/") ==> Relocate(d, f) == f
    ensures f == d.current + "/" + rest ==> Relocate(d, f) == rest
  {
    if f == d.current + "/" + rest {
      assert f[..|d.current| + 1] == d.current + "/" && f[|d.current| + 1..] == rest;
    }
  }

  /** Exactly the names that end in `.h`, `.hpp` or `.inl` are headers. */
  lemma HeaderIff(f: string)
    ensures IsHeader(f) <==> exists stem :: f == stem + ".h" || f == stem + ".hpp" || f == stem + ".inl"
  {
    if EndsWith(f, ".h") {
      assert f == f[..|f| - 2] + ".h";
    } else if EndsWith(f, ".hpp") {
      assert f == f[..|f| - 4] + ".hpp";
    } else if EndsWith(f, ".inl") {
      assert f == f[..|f| - 4] + ".inl";
    }
  }

  /** A word that is no build output keeps its path, or gets it relative to the current directory. */
  lemma OneSource(dirs: Dirs, file: string, name: string, path: string)
    requires name != "" && Printable(name, path) && IsWord(path)
    requires !StartsWith(path, ForwardSlashes(dirs.build) + "/src")
    ensures var current := ForwardSlashes(dirs.current) + "/";
            var f := if current <= path then path[|current|..] else path;
            SourceLists(dirs, file, Some(name + " = " + path), One(name)) == Ok(Flat(if IsHeader(f) then [] else [f]))
  {
    hide ParseFile, InitialTable, Words, Collect, Printable, ForwardSlashes, IsHeader, IsWord;
    var d := Normalize(dirs);
    var table := InitialTable(d);
    OperatorFiles(table, file, name, path);
    CollectOne(d, table[name := path], name);
    WordsOfWord(path);
    var current := ForwardSlashes(dirs.current) + "/";
    assert Relocate(d, path) == if current <= path then path[|current|..] else path;
    hide Relocate;
    SourcesSnoc(d, [], path);
    assert [] + [path] == [path] && SourcesOf(d, []) == [];
    assert SourcesOf(d, [path]) == if IsHeader(Relocate(d, path)) then [] else [Relocate(d, path)];
  }
}
