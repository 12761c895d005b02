/** Installing a versioned shared library with its chain of symbolic links. */
module SymlinkChain {
  import opened Options

  /** `'.'.join((source,) + version)`. */
  function TargetName(source: string, version: seq<string>): string {
    if version == [] then source else TargetName(source, version[..|version| - 1]) + "." + version[|version| - 1]
  }

  /** The position behind the last slash. */
  function Cut(path: string): (k: nat)
    ensures k <= |path|
  {
    if path == "" then 0 else if path[|path| - 1] == '/' then |path| else Cut(path[..|path| - 1])
  }

  function Dirname(path: string): string {
    path[..Cut(path)]
  }

  function Basename(path: string): string {
    path[Cut(path)..]
  }

  /** An installed file is a copy of a source, or a link that holds the base name of the file
      installed just before it. */
  datatype Entry = File(name: string, source: string) | Link(name: string, to: string)

  /** What one source installs: the fully versioned copy, then one link per dropped version part. */
  function Chain(source: string, version: seq<string>): seq<Entry> {
    [File(TargetName(source, version), source)] + Links(source, version)
  }

  function Links(source: string, version: seq<string>): (r: seq<Entry>)
    ensures |r| == |version|
  {
    if version == [] then []
    else
      var shorter := version[..|version| - 1];
      [Link(TargetName(source, shorter), Basename(TargetName(source, version)))] + Links(source, shorter)
  }

  /** The version is consumed by the first source. */
  function Installed(sources: seq<string>, version: seq<string>): seq<Entry>
    decreases |sources|
  {
    if sources == [] then [] else Chain(sources[0], version) + Installed(sources[1..], [])
  }

  lemma Regroup(a: seq<Entry>, b: seq<Entry>, c: seq<Entry>)
    ensures (a + b) + c == a + (b + c)
  {
  }

  method InstallSharedLibrary(sources: seq<string>, parts: seq<string>) returns (targets: seq<Entry>)
    ensures targets == Installed(sources, parts)
  {
    hide TargetName, Basename;
    targets := [];
    var version := parts;
    for i := 0 to |sources|
      invariant targets + Installed(sources[i..], version) == Installed(sources, parts)
    {
      var source := sources[i];
      ghost var begun, start := targets, version;
      var name := TargetName(source, version);
      targets := targets + [File(name, source)];
      Regroup(begun, [File(name, source)], Links(source, start));
      var last := name;
      while |version| > 0
        invariant last == TargetName(source, version)
        invariant targets + Links(source, version) == begun + Chain(source, start)
      {
        ghost var emitted, previous := targets, version;
        version := version[..|version| - 1];
        name := TargetName(source, version);
        targets := targets + [Link(name, Basename(last))];
        Regroup(emitted, [Link(name, Basename(last))], Links(source, version));
        last := name;
      }
      assert Links(source, version) == [] && targets == begun + Chain(source, start);
      assert sources[i..][1..] == sources[i + 1..];
      Regroup(begun, Chain(source, start), Installed(sources[i + 1..], []));
    }
  }

  // ---------- what is on disk afterwards ----------

  lemma {:induction false} LongerVersionLongerName(source: string, version: seq<string>, k: nat)
    requires k < |version|
    ensures |TargetName(source, version[..k])| < |TargetName(source, version)|
    decreases |version|
  {
    var shorter := version[..|version| - 1];
    if k == |shorter| {
    } else {
      LongerVersionLongerName(source, shorter, k);
      assert shorter[..k] == version[..k];
    }
  }

  /** Entry k of the chain carries the version without its last k parts. */
  lemma {:induction false} ChainAt(source: string, version: seq<string>, k: nat)
    requires k <= |version|
    ensures |Chain(source, version)| == |version| + 1
    ensures Chain(source, version)[k].name == TargetName(source, version[..|version| - k])
    ensures k > 0 ==> Chain(source, version)[k].Link?
    ensures k > 0 ==> Chain(source, version)[k].to == Basename(Chain(source, version)[k - 1].name)
    decreases |version|
  {
    if k == 0 {
      assert version[..|version|] == version;
    } else {
      var shorter := version[..|version| - 1];
      ChainAt(source, shorter, k - 1);
      assert shorter[..|shorter| - (k - 1)] == version[..|version| - k];
      assert Chain(source, version)[1..] == Links(source, version);
      assert Links(source, version)[1..] == Links(source, shorter) == Chain(source, shorter)[1..];
      if k > 1 {
        assert Chain(source, version)[k] == Chain(source, shorter)[k - 1];
        assert k > 2 ==> Chain(source, version)[k - 1] == Chain(source, shorter)[k - 2];
      }
    }
  }

  lemma ChainShortens(source: string, version: seq<string>, j: nat, k: nat)
    requires j < k <= |version|
    ensures |Chain(source, version)| == |version| + 1
    ensures |Chain(source, version)[k].name| < |Chain(source, version)[j].name|
  {
    ChainAt(source, version, j);
    ChainAt(source, version, k);
    var longer := version[..|version| - j];
    LongerVersionLongerName(source, longer, |version| - k);
    assert longer[..|version| - k] == version[..|version| - k];
  }

  /** The names of a chain are pairwise distinct, whatever the version parts are. */
  lemma ChainDistinct(source: string, version: seq<string>, j: nat, k: nat)
    requires j < k <= |version|
    ensures |Chain(source, version)| == |version| + 1
    ensures Chain(source, version)[j].name != Chain(source, version)[k].name
  {
    ChainShortens(source, version, j, k);
  }

  /** Follows links as a file system does: a link's text is read in the link's own directory. Yields
      the file found. */
  function Resolve(entries: seq<Entry>, name: string, hops: nat): Option<Entry>
    decreases hops
  {
    match Lookup(entries, name)
    case None => None
    case Some(File(n, source)) => Some(File(n, source))
    case Some(Link(n, to)) => if hops == 0 then None else Resolve(entries, Dirname(n) + to, hops - 1)
  }

  /** An entry installed later replaces one of the same name. */
  function Lookup(entries: seq<Entry>, name: string): Option<Entry> {
    if entries == [] then None
    else
      var last := entries[|entries| - 1];
      if last.name == name then Some(last) else Lookup(entries[..|entries| - 1], name)
  }

  lemma {:induction false} LookupUnique(entries: seq<Entry>, k: nat)
    requires k < |entries|
    requires forall j | k < j < |entries| :: entries[j].name != entries[k].name
    ensures Lookup(entries, entries[k].name) == Some(entries[k])
    decreases |entries|
  {
    if k == |entries| - 1 {
    } else {
      LookupUnique(entries[..|entries| - 1], k);
    }
  }

  lemma {:induction false} LookupConcat(a: seq<Entry>, b: seq<Entry>, name: string)
    ensures Lookup(a + b, name) == if Lookup(b, name).Some? then Lookup(b, name) else Lookup(a, name)
    decreases |b|
  {
    if b == [] {
      assert a + b == a;
    } else {
      assert (a + b)[..|a + b| - 1] == a + b[..|b| - 1];
      LookupConcat(a, b[..|b| - 1], name);
    }
  }

  predicate SlashFree(s: string) {
    forall i | 0 <= i < |s| :: s[i] != '/'
  }

  lemma {:induction false} CutAppend(a: string, b: string)
    requires SlashFree(b)
    ensures Cut(a + b) == Cut(a)
    decreases |b|
  {
    if b == "" {
      assert a + b == a;
    } else {
      assert (a + b)[..|a + b| - 1] == a + b[..|b| - 1];
      CutAppend(a, b[..|b| - 1]);
    }
  }

  lemma {:induction false} CutBehindSlash(a: string, b: string)
    requires !SlashFree(b)
    ensures Cut(a + b) > |a|
    decreases |b|
  {
    if b[|b| - 1] == '/' {
    } else {
      assert (a + b)[..|a + b| - 1] == a + b[..|b| - 1];
      CutBehindSlash(a, b[..|b| - 1]);
    }
  }

  /** A link points to the file installed before it exactly when the dropped part has no slash. */
  lemma LinkPointsBackIff(name: string, part: string)
    ensures Dirname(name) + Basename(name + "." + part) == name + "." + part <==> SlashFree(part)
  {
    var full := name + "." + part;
    assert full == name + ("." + part);
    if SlashFree(part) {
      CutAppend(name, "." + part);
    } else {
      assert ("." + part)[1..] == part;
      CutBehindSlash(name + ".", part);
    }
  }

  /** The part that entry j of the chain has dropped and entry j - 1 still has. */
  lemma NameBefore(source: string, version: seq<string>, j: nat)
    requires 0 < j <= |version|
    ensures TargetName(source, version[..|version| - j + 1]) ==
            TargetName(source, version[..|version| - j]) + "." + version[|version| - j]
  {
    var longer := version[..|version| - j + 1];
    assert longer[..|longer| - 1] == version[..|version| - j];
  }

  lemma {:induction false} LookupFinds(entries: seq<Entry>, name: string)
    ensures match Lookup(entries, name)
            case None => forall m | 0 <= m < |entries| :: entries[m].name != name
            case Some(e) => exists m :: 0 <= m < |entries| && entries[m] == e && e.name == name
    decreases |entries|
  {
    if entries == [] {
    } else {
      var n := |entries| - 1;
      LookupFinds(entries[..n], name);
      assert entries[n].name == name ==> entries[n] in entries;
    }
  }

  /** Looking up the name of entry k finds entry k. */
  lemma ChainLookup(source: string, version: seq<string>, k: nat)
    requires k <= |version|
    ensures |Chain(source, version)| == |version| + 1
    ensures Lookup(Chain(source, version), Chain(source, version)[k].name) == Some(Chain(source, version)[k])
  {
    hide TargetName, Links;
    var entries := Chain(source, version);
    ChainAt(source, version, k);
    forall j | k < j < |entries| ensures entries[j].name != entries[k].name {
      ChainDistinct(source, version, k, j);
    }
    LookupUnique(entries, k);
  }

  /** Where link k leads, read in its own directory. */
  function Target(source: string, version: seq<string>, k: nat): string
    requires 0 < k <= |version|
  {
    Dirname(TargetName(source, version[..|version| - k])) + Basename(TargetName(source, version[..|version| - k + 1]))
  }

  /** Over a slash-free part a link leads to the entry before it; over a slashed part it leads to
      something shorter than that entry. */
  lemma TargetOfLink(source: string, version: seq<string>, k: nat)
    requires 0 < k <= |version|
    ensures var before := TargetName(source, version[..|version| - k + 1]);
            if SlashFree(version[|version| - k]) then Target(source, version, k) == before
            else |Target(source, version, k)| < |before|
  {
    hide TargetName;
    var name, part := TargetName(source, version[..|version| - k]), version[|version| - k];
    NameBefore(source, version, k);
    LinkPointsBackIff(name, part);
    if !SlashFree(part) {
      CutBehindSlash(name + ".", part);
    }
  }

  /** If link k leads into the chain at all, then to the entry before it or not before link k. */
  lemma TargetPlace(source: string, version: seq<string>, k: nat, m: nat)
    requires 0 < k <= |version| && m <= |version| && |Chain(source, version)| == |version| + 1
    requires Chain(source, version)[m].name == Target(source, version, k)
    ensures if SlashFree(version[|version| - k]) then m == k - 1 else k <= m
  {
    hide TargetName, Links, Chain, Target;
    TargetOfLink(source, version, k);
    ChainAt(source, version, m);
    ChainAt(source, version, k - 1);
    if m < k - 1 {
      ChainShortens(source, version, m, k - 1);
    } else if k - 1 < m {
      ChainDistinct(source, version, k - 1, m);
    }
  }

  // ---------- all sources together ----------

  lemma {:induction false} LookupCopies(sources: seq<string>, name: string)
    ensures Lookup(Installed(sources, []), name) == if name in sources then Some(File(name, name)) else None
    decreases |sources|
  {
    if sources == [] {
    } else {
      var first := [File(sources[0], sources[0])];
      assert Chain(sources[0], []) == first;
      LookupCopies(sources[1..], name);
      LookupConcat(first, Installed(sources[1..], []), name);
      assert Lookup(first, name) == if name == sources[0] then Some(first[0]) else None by {
        assert first[..0] == [];
      }
    }
  }

  /** What is on disk under a name: the copy of a later source, or else an entry of the chain. */
  lemma LookupInstalled(sources: seq<string>, version: seq<string>, name: string)
    requires sources != []
    ensures Lookup(Installed(sources, version), name) ==
            if name in sources[1..] then Some(File(name, name)) else Lookup(Chain(sources[0], version), name)
  {
    hide Chain, Lookup;
    LookupCopies(sources[1..], name);
    LookupConcat(Chain(sources[0], version), Installed(sources[1..], []), name);
  }

  /** The file the versioned names are for. */
  function Versioned(source: string, version: seq<string>): Entry {
    File(TargetName(source, version), source)
  }

  lemma CopyIsNotVersioned(source: string, version: seq<string>, name: string)
    requires version != []
    ensures File(name, name) != Versioned(source, version)
  {
    LongerVersionLongerName(source, version, 0);
    assert version[..0] == [];
  }

  /** The name of entry k, looked up among all installed files and followed for one hop. */
  lemma ResolveEntry(sources: seq<string>, version: seq<string>, k: nat, hops: nat)
    requires sources != [] && k <= |version|
    ensures |Chain(sources[0], version)| == |version| + 1
    ensures var all, name := Installed(sources, version), Chain(sources[0], version)[k].name;
            Resolve(all, name, hops) ==
            if name in sources[1..] then Some(File(name, name))
            else if k == 0 then Some(Versioned(sources[0], version))
            else if hops == 0 then None
            else Resolve(all, Target(sources[0], version, k), hops - 1)
  {
    hide TargetName, Links, Installed, Lookup, Dirname, Basename;
    ChainAt(sources[0], version, k);
    ChainLookup(sources[0], version, k);
    LookupInstalled(sources, version, Chain(sources[0], version)[k].name);
    if k > 0 {
      hide Chain;
      ChainAt(sources[0], version, k - 1);
    }
  }

  /** Entry k is usable: no part it has dropped contains a slash, and no later source takes its name
      or that of an entry it goes through. */
  predicate Unobstructed(sources: seq<string>, version: seq<string>, k: nat)
    requires sources != [] && k <= |version| && |Chain(sources[0], version)| == |version| + 1
  {
    forall j | 0 <= j <= k :: !Obstructed(sources, version, j)
  }

  predicate Obstructed(sources: seq<string>, version: seq<string>, j: nat)
    requires sources != [] && j <= |version| && |Chain(sources[0], version)| == |version| + 1
  {
    Chain(sources[0], version)[j].name in sources[1..] || (j > 0 && !SlashFree(version[|version| - j]))
  }

  /** Without obstruction entry k resolves to the fully versioned file in exactly k hops. */
  lemma {:induction false} InstalledResolves(sources: seq<string>, version: seq<string>, k: nat)
    requires sources != [] && k <= |version| && |Chain(sources[0], version)| == |version| + 1
    requires Unobstructed(sources, version, k)
    ensures Resolve(Installed(sources, version), Chain(sources[0], version)[k].name, k) ==
            Some(Versioned(sources[0], version))
    decreases k
  {
    hide TargetName, Chain, Target, Installed, Resolve;
    ResolveEntry(sources, version, k, k);
    assert !Obstructed(sources, version, k);
    if k == 0 {
    } else {
      TargetOfLink(sources[0], version, k);
      ChainAt(sources[0], version, k - 1);
      InstalledResolves(sources, version, k - 1);
    }
  }

  /** Behind an obstruction there is no way to the fully versioned file. */
  lemma {:induction false} InstalledStuck(sources: seq<string>, version: seq<string>, j: nat, k: nat, hops: nat)
    requires sources != [] && j <= k <= |version| && |Chain(sources[0], version)| == |version| + 1
    requires version != [] && Obstructed(sources, version, j)
    ensures Resolve(Installed(sources, version), Chain(sources[0], version)[k].name, hops) !=
            Some(Versioned(sources[0], version))
    decreases hops
  {
    hide TargetName, Chain, Target, Installed, Resolve, Versioned, Lookup;
    var entries, name := Chain(sources[0], version), Chain(sources[0], version)[k].name;
    ResolveEntry(sources, version, k, hops);
    CopyIsNotVersioned(sources[0], version, name);
    if name in sources[1..] || hops == 0 {
    } else {
      var to := Target(sources[0], version, k);
      if m :| 0 <= m < |entries| && entries[m].name == to {
        TargetPlace(sources[0], version, k, m);
        InstalledStuck(sources, version, j, m, hops - 1);
      } else {
        OnlyChainNames(sources, version, to, hops - 1);
      }
    }
  }

  lemma OnlyChainNames(sources: seq<string>, version: seq<string>, name: string, hops: nat)
    requires sources != [] && version != []
    requires forall m | 0 <= m < |Chain(sources[0], version)| :: Chain(sources[0], version)[m].name != name
    ensures Resolve(Installed(sources, version), name, hops) != Some(Versioned(sources[0], version))
  {
    hide TargetName, Chain, Installed, Versioned, Lookup;
    LookupInstalled(sources, version, name);
    LookupFinds(Chain(sources[0], version), name);
    CopyIsNotVersioned(sources[0], version, name);
  }

  /** The exact condition, with everything installed: a name of the chain leads to the fully versioned
      file if and only if there is no version at all, or no version part it has dropped contains a
      slash and no later source is installed under its name or a name it goes through. */
  lemma InstalledResolvesIff(sources: seq<string>, version: seq<string>, k: nat)
    requires sources != [] && k <= |version|
    ensures |Chain(sources[0], version)| == |version| + 1
    ensures (exists hops: nat ::
               Resolve(Installed(sources, version), Chain(sources[0], version)[k].name, hops) ==
               Some(Versioned(sources[0], version)))
            <==> version == [] || Unobstructed(sources, version, k)
  {
    hide TargetName, Chain, Installed, Resolve, Obstructed;
    ChainAt(sources[0], version, k);
    if version == [] {
      ResolveEntry(sources, version, 0, 0);
      OneCopy(sources[0]);
    } else if Unobstructed(sources, version, k) {
      InstalledResolves(sources, version, k);
    } else {
      var j :| 0 <= j <= k && Obstructed(sources, version, j);
      forall hops: nat
        ensures Resolve(Installed(sources, version), Chain(sources[0], version)[k].name, hops) !=
                Some(Versioned(sources[0], version))
      {
        InstalledStuck(sources, version, j, k, hops);
      }
    }
  }

  lemma OneCopy(source: string)
    ensures |Chain(source, [])| == 1 && Chain(source, [])[0].name == source
    ensures Versioned(source, []) == File(source, source)
  {
  }

  // ---------- one source alone ----------

  lemma AloneInstalled(source: string, version: seq<string>)
    ensures Installed([source], version) == Chain(source, version)
    ensures [source][1..] == []
  {
    assert Chain(source, version) + [] == Chain(source, version);
  }

  /** Then only the slashes obstruct. */
  lemma AloneUnobstructed(source: string, version: seq<string>, k: nat)
    requires k <= |version| && |Chain(source, version)| == |version| + 1
    ensures Unobstructed([source], version, k) <==>
            forall i | |version| - k <= i < |version| :: SlashFree(version[i])
  {
    hide Chain, SlashFree;
    assert [source][1..] == [];
    if Unobstructed([source], version, k) {
      forall i | |version| - k <= i < |version| ensures SlashFree(version[i]) {
        assert !Obstructed([source], version, |version| - i);
      }
    } else {
      var j :| 0 <= j <= k && Obstructed([source], version, j);
      assert !SlashFree(version[|version| - j]);
    }
  }

  /** Over slash-free parts entry k resolves in exactly k hops. */
  lemma ChainResolves(source: string, version: seq<string>, k: nat)
    requires k <= |version|
    requires forall i | |version| - k <= i < |version| :: SlashFree(version[i])
    ensures |Chain(source, version)| == |version| + 1
    ensures Resolve(Chain(source, version), Chain(source, version)[k].name, k) == Some(Versioned(source, version))
  {
    hide TargetName, Chain, Resolve, SlashFree, Unobstructed;
    ChainAt(source, version, k);
    AloneInstalled(source, version);
    AloneUnobstructed(source, version, k);
    InstalledResolves([source], version, k);
  }

  lemma ChainFirst(source: string, version: seq<string>)
    ensures Chain(source, version)[0] == Versioned(source, version)
    ensures |Chain(source, version)| == |version| + 1
  {
  }

  /** There is only one file to find. */
  lemma {:induction false} ResolveInChain(source: string, version: seq<string>, name: string, hops: nat)
    ensures Resolve(Chain(source, version), name, hops) in {None, Some(Versioned(source, version))}
    decreases hops
  {
    hide TargetName, Chain, Lookup, Dirname;
    var entries := Chain(source, version);
    LookupFinds(entries, name);
    match Lookup(entries, name)
    case None =>
    case Some(e) =>
      var m :| 0 <= m < |entries| && entries[m] == e;
      ChainFirst(source, version);
      ChainAt(source, version, m);
      if e.Link? && hops > 0 {
        ResolveInChain(source, version, Dirname(name) + e.to, hops - 1);
      }
  }

  /** A name that has dropped a slashed part leads nowhere. */
  lemma ChainStuck(source: string, version: seq<string>, j: nat, k: nat, hops: nat)
    requires 0 < j <= k <= |version| && !SlashFree(version[|version| - j])
    ensures |Chain(source, version)| == |version| + 1
    ensures Resolve(Chain(source, version), Chain(source, version)[k].name, hops) == None
  {
    hide TargetName, Chain, Resolve, SlashFree;
    ChainAt(source, version, k);
    AloneInstalled(source, version);
    InstalledStuck([source], version, j, k, hops);
    ResolveInChain(source, version, Chain(source, version)[k].name, hops);
  }

  lemma ChainResolvesIff(source: string, version: seq<string>, k: nat)
    requires k <= |version|
    ensures |Chain(source, version)| == |version| + 1
    ensures (exists hops: nat ::
               Resolve(Chain(source, version), Chain(source, version)[k].name, hops) ==
               Some(Versioned(source, version)))
            <==> forall i | |version| - k <= i < |version| :: SlashFree(version[i])
  {
    hide TargetName, Chain, Resolve, SlashFree, Unobstructed, Installed;
    ChainAt(source, version, k);
    AloneInstalled(source, version);
    AloneUnobstructed(source, version, k);
    InstalledResolvesIff([source], version, k);
  }

  /** With a slash in the version part the link leads nowhere. */
  lemma SlashBreaksChain(hops: nat)
    ensures var entries := Chain("l", ["a/b"]);
            |entries| == 2 && Resolve(entries, entries[1].name, hops) == None
  {
    assert "a/b"[1] == '/';
    ChainStuck("l", ["a/b"], 1, 1, hops);
  }

  /** The library `l.1` is installed over the versioned copy of `l`, so `l` no longer leads to that. */
  lemma LaterSourceTakesName(hops: nat)
    ensures var entries := Chain("l", ["1"]);
            |entries| == 2 &&
            Resolve(Installed(["l", "l.1"], ["1"]), entries[1].name, hops) != Some(Versioned("l", ["1"]))
  {
    hide Resolve, Installed;
    ChainAt("l", ["1"], 0);
    assert TargetName("l", []) + "." + "1" == "l.1" && ["1"][..1] == ["1"] && ["1"][..0] == [];
    assert ["l", "l.1"][1..] == ["l.1"];
    InstalledStuck(["l", "l.1"], ["1"], 0, 1, hops);
  }

  lemma {:induction false} InstalledUnversioned(sources: seq<string>)
    ensures |Installed(sources, [])| == |sources|
    decreases |sources|
  {
    if sources == [] {
    } else {
      InstalledUnversioned(sources[1..]);
    }
  }

  /** Only the first source gets a version and links. */
  lemma InstalledCount(sources: seq<string>, version: seq<string>)
    ensures |Installed(sources, version)| == if sources == [] then 0 else |sources| + |version|
  {
    if sources != [] {
      InstalledUnversioned(sources[1..]);
    }
  }
}
