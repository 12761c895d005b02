/** Compiler flags found by pkg-config, stored in the environment under prefixed keys. */
module PkgFlags {
  import opened Options

  datatype Value = Available(yes: bool) | Flags(text: string)

  type Env = map<string, Value>

  /** Empty flags count as false: a flag may be stored under a key that is also an availability key. */
  predicate Truthy(v: Value) {
    match v
    case Available(yes) => yes
    case Flags(text) => text != ""
  }

  predicate Upper(c: char) {
    'A' <= c <= 'Z'
  }

  predicate HasUpper(s: string) {
    exists i :: 0 <= i < |s| && Upper(s[i])
  }

  function Lower(s: string): (r: string)
    ensures |r| == |s|
    ensures forall i | 0 <= i < |s| :: !Upper(r[i])
    ensures forall i | 0 <= i < |s| :: r[i] as int == s[i] as int + if Upper(s[i]) then 32 else 0
  {
    if s == "" then ""
    else [if Upper(s[0]) then s[0] - 'A' + 'a' else s[0]] + Lower(s[1..])
  }

  predicate Plain(s: string) {
    forall i | 0 <= i < |s| :: s[i] != '_'
  }

  /** One `PkgCheckModules` call: the flags pkg-config reported, or None when the module is not
      there. The code asserts that flag names carry no underscore. */
  datatype Check = Check(name: string, flags: Option<map<string, string>>)

  ghost predicate Proper(c: Check) {
    c.flags.Some? ==> forall f | f in c.flags.value :: Plain(f)
  }

  function FlagKey(name: string, flag: string): string {
    name + "_" + flag
  }

  function HaveKey(name: string): string {
    "HAVE_" + name
  }

  /** The entries stored for the given flags of a module. */
  function Entries(name: string, flags: map<string, string>, some: set<string>): Env
    requires some <= flags.Keys
  {
    KeysInjective(name);
    map f | f in some :: FlagKey(name, f) := Flags(flags[f])
  }

  lemma KeysInjective(name: string)
    ensures forall f, g :: FlagKey(name, f) == FlagKey(name, g) ==> f == g
  {
    assert forall f :: FlagKey(name, f)[|name| + 1..] == f;
  }

  function AfterCheck(env: Env, c: Check): Env {
    var stored := if c.flags.Some? then env + Entries(c.name, c.flags.value, c.flags.value.Keys) else env;
    stored[HaveKey(c.name) := Available(c.flags.Some?)][Lower(c.name) := Available(c.flags.Some?)]
  }

  lemma EntriesGrow(name: string, flags: map<string, string>, some: set<string>, f: string)
    requires some <= flags.Keys && f in flags
    ensures Entries(name, flags, some + {f}) == Entries(name, flags, some)[FlagKey(name, f) := Flags(flags[f])]
  {
    KeysInjective(name);
  }

  /** Writing the availability keys twice is writing them once. */
  lemma OverwriteKeys(start: Env, entries: Env, have: string, low: string, yes: Value)
    requires have != low
    ensures (start[have := Available(false)][low := Available(false)] + entries)[have := yes][low := yes] ==
            (start + entries)[have := yes][low := yes]
    ensures start[have := Available(false)][low := Available(false)][low := Available(false)] ==
            start[have := Available(false)][low := Available(false)]
  {
  }

  lemma EntriesNone(start: Env, name: string, flags: map<string, string>)
    ensures start + Entries(name, flags, {}) == start
  {
  }

  lemma AddLast(base: Env, entries: Env, key: string, value: Value)
    ensures base + entries[key := value] == (base + entries)[key := value]
  {
  }

  /** Stores flags in an order of the dictionary's own until one has an underscore in its name. */
  method StoreFlags(start: Env, name: string, flags: map<string, string>)
      returns (env: Env, raised: bool, ghost some: set<string>)
    ensures some <= flags.Keys && env == start + Entries(name, flags, some)
    ensures forall f | f in some :: Plain(f)
    ensures raised ==> exists f :: f in flags && !Plain(f)
    ensures !raised ==> some == flags.Keys
  {
    hide Entries, FlagKey;
    env, raised := start, false;
    var done := {};
    EntriesNone(start, name, flags);
    while done != flags.Keys
      invariant done <= flags.Keys
      invariant env == start + Entries(name, flags, done)
      invariant forall f | f in done :: Plain(f)
      decreases |flags.Keys - done|
    {
      var f :| f in flags.Keys - done;
      if !Plain(f) {
        return env, true, done;
      }
      EntriesGrow(name, flags, done, f);
      AddLast(start, Entries(name, flags, done), FlagKey(name, f), Flags(flags[f]));
      assert flags.Keys - (done + {f}) == (flags.Keys - done) - {f};
      env := env[FlagKey(name, f) := Flags(flags[f])];
      done := done + {f};
    }
    some := done;
  }

  /** A check whose flags are in order is complete. One with an underscore in a flag name raises: it
      leaves some of the proper flags behind, on top of the availability keys set to false. */
  method CheckModules(start: Env, c: Check) returns (env: Env, raised: bool)
    ensures !raised <==> Proper(c)
    ensures !raised ==> env == AfterCheck(start, c)
    ensures raised ==> c.flags.Some?
    ensures raised ==> exists some :: some <= c.flags.value.Keys && PlainAll(some) && env == Abandoned(start, c, some)
    ensures !raised ==> Leaves(start, c, env)
    ensures "HAVE_" + c.name in env && Lower(c.name) in env
    ensures raised ==> env[Lower(c.name)] == Available(false)
    ensures raised && !HaveLike(c.name) ==> env["HAVE_" + c.name] == Available(false)
  {
    hide Entries, Lower, HaveKey;
    HaveIsNotLower(c.name);
    raised := false;
    env := start[HaveKey(c.name) := Available(false)];
    env := env[Lower(c.name) := Available(false)];
    OverwriteKeys(start, if c.flags.Some? then Entries(c.name, c.flags.value, c.flags.value.Keys) else map[],
                  HaveKey(c.name), Lower(c.name), Available(true));
    if c.flags.Some? {
      ghost var some;
      env, raised, some := StoreFlags(env, c.name, c.flags.value);
      if raised {
        assert PlainAll(some) && env == Abandoned(start, c, some);
        AbandonedMeans(start, c, some);
        return;
      }
      env := env[HaveKey(c.name) := Available(true)];
    }
    env := env[Lower(c.name) := env[HaveKey(c.name)]];
    CheckMeans(start, c);
  }

  predicate HaveLike(name: string) {
    name == "HAVE" || "HAVE_" <= name
  }

  /** What a completed check leaves behind: both availability keys say whether the module was found,
      the flags of a found module are there under the module's name, and nothing else has changed. */
  ghost predicate Leaves(start: Env, c: Check, env: Env) {
    && Entry(env, "HAVE_" + c.name) == Entry(env, Lower(c.name)) == Some(Available(c.flags.Some?))
    && (c.flags.Some? && !HaveLike(c.name) ==>
          forall f | f in c.flags.value :: Entry(env, c.name + "_" + f) == Some(Flags(c.flags.value[f])))
    && (forall key | !Concerns(c, key) :: Entry(env, key) == Entry(start, key))
  }

  ghost predicate Concerns(c: Check, key: string) {
    || key == "HAVE_" + c.name
    || key == Lower(c.name)
    || (c.flags.Some? && exists f :: f in c.flags.value && key == c.name + "_" + f)
  }

  lemma CheckMeans(start: Env, c: Check)
    ensures Leaves(start, c, AfterCheck(start, c))
  {
    hide AfterCheck, Concerns, HaveLike, Lower;
    AvailabilityKeys(start, c);
    forall key | !Concerns(c, key) ensures Entry(AfterCheck(start, c), key) == Entry(start, key) {
      Unconcerned(start, c, key);
    }
    if c.flags.Some? && !HaveLike(c.name) {
      forall f | f in c.flags.value
        ensures Entry(AfterCheck(start, c), c.name + "_" + f) == Some(Flags(c.flags.value[f]))
      {
        StoredUnder(start, c, f);
      }
    }
  }

  lemma AvailabilityKeys(start: Env, c: Check)
    ensures var env := AfterCheck(start, c);
            Entry(env, "HAVE_" + c.name) == Entry(env, Lower(c.name)) == Some(Available(c.flags.Some?))
  {
    hide Entries, Lower;
    HaveIsNotLower(c.name);
  }

  lemma Unconcerned(start: Env, c: Check, key: string)
    requires !Concerns(c, key)
    ensures Entry(AfterCheck(start, c), key) == Entry(start, key)
  {
    hide Lower;
    if c.flags.Some? {
      KeysInjective(c.name);
      assert key !in Entries(c.name, c.flags.value, c.flags.value.Keys);
    }
  }

  lemma StoredUnder(start: Env, c: Check, f: string)
    requires c.flags.Some? && f in c.flags.value && !HaveLike(c.name)
    ensures Entry(AfterCheck(start, c), FlagKey(c.name, f)) == Some(Flags(c.flags.value[f]))
  {
    KeyElsewhere(c.name, f);
    hide Lower, HaveKey;
    KeysInjective(c.name);
    var stored := Entries(c.name, c.flags.value, c.flags.value.Keys);
    assert FlagKey(c.name, f) in stored;
  }

  /** A flag key is no lower-case key of its module, nor its availability key unless the name is odd. */
  lemma KeyElsewhere(name: string, f: string)
    ensures FlagKey(name, f) != Lower(name)
    ensures FlagKey(name, f) == HaveKey(name) ==> HaveLike(name)
  {
    assert |FlagKey(name, f)| > |Lower(name)|;
    if FlagKey(name, f) == HaveKey(name) {
      HaveCollision(name, f, name);
    }
  }

  lemma AbandonedMeans(start: Env, c: Check, some: set<string>)
    requires c.flags.Some? && some <= c.flags.value.Keys
    ensures var env := Abandoned(start, c, some);
            && "HAVE_" + c.name in env && Lower(c.name) in env
            && env[Lower(c.name)] == Available(false)
            && (!HaveLike(c.name) ==> env["HAVE_" + c.name] == Available(false))
  {
    hide HaveLike;
    HaveIsNotLower(c.name);
    forall f | f in some
      ensures FlagKey(c.name, f) != Lower(c.name) && (FlagKey(c.name, f) == HaveKey(c.name) ==> HaveLike(c.name))
    {
      KeyElsewhere(c.name, f);
    }
  }

  predicate PlainAll(flags: set<string>) {
    forall f | f in flags :: Plain(f)
  }

  /** The environment when the assertion fails after some flags. */
  function Abandoned(start: Env, c: Check, some: set<string>): Env
    requires c.flags.Some? && some <= c.flags.value.Keys
  {
    start[HaveKey(c.name) := Available(false)][Lower(c.name) := Available(false)]
    + Entries(c.name, c.flags.value, some)
  }

  lemma HaveIsNotLower(name: string)
    ensures HaveKey(name) != Lower(name)
  {
    assert |HaveKey(name)| == |name| + 5;
  }

  function RunChecks(env: Env, checks: seq<Check>): Env
    decreases |checks|
  {
    if checks == [] then env else RunChecks(AfterCheck(env, checks[0]), checks[1..])
  }

  // ---------- using a module ----------

  /** A key decodes as a flag of `name` when what follows the prefix has no underscore. */
  predicate Decodes(key: string, name: string) {
    name + "_" <= key && Plain(key[|name| + 1..])
  }

  function Collect(env: Env, name: string): map<string, Value> {
    var suffixes := set k | k in env && Decodes(k, name) :: k[|name| + 1..];
    map f | f in suffixes && FlagKey(name, f) in env :: env[FlagKey(name, f)]
  }

  function Entry(env: Env, key: string): Option<Value> {
    if key in env then Some(env[key]) else None
  }

  /** The collected flags, one by one. */
  lemma CollectAt(env: Env, name: string, f: string)
    ensures Entry(Collect(env, name), f) == if Plain(f) then Entry(env, FlagKey(name, f)) else None
  {
    var key := FlagKey(name, f);
    assert key[|name| + 1..] == f;
    assert forall k | Decodes(k, name) :: Plain(k[|name| + 1..]);
    assert Plain(f) ==> Decodes(key, name);
  }

  lemma CollectIs(env: Env, name: string, m: map<string, Value>)
    requires forall f :: Entry(m, f) == if Plain(f) then Entry(env, FlagKey(name, f)) else None
    ensures Collect(env, name) == m
  {
    hide Collect, Plain;
    forall f ensures Entry(Collect(env, name), f) == Entry(m, f) {
      CollectAt(env, name, f);
    }
    assert forall f :: f in m <==> Entry(m, f).Some?;
    assert forall f :: f in Collect(env, name) <==> Entry(Collect(env, name), f).Some?;
    assert forall f | f in m :: m[f] == Entry(m, f).value == Entry(Collect(env, name), f).value;
  }

  datatype UseError = UnknownModule(name: string) | UnavailableModule(name: string)

  /** `PkgUseModules`: the flag sets handed to `MergeFlags`, up to the first unusable module. */
  method UseModules(env: Env, names: seq<string>) returns (merged: seq<map<string, Value>>, error: Option<UseError>)
    ensures error == None <==> FirstUnusable(env, names) == |names|
    ensures merged == NonEmpty(env, names[..FirstUnusable(env, names)])
    ensures error.Some? ==> error.value == Refusal(env, names[FirstUnusable(env, names)])
  {
    hide Collect, HaveKey, NonEmpty, FirstUnusable, Usable;
    merged, error := [], None;
    NonEmptyNone(env);
    for i := 0 to |names|
      invariant i + FirstUnusable(env, names[i..]) == FirstUnusable(env, names)
      invariant merged == NonEmpty(env, names[..i])
    {
      var name := names[i];
      UseStep(env, names, i);
      if HaveKey(name) !in env {
        return merged, Some(UnknownModule(name));
      }
      if !Truthy(env[HaveKey(name)]) {
        return merged, Some(UnavailableModule(name));
      }
      var flags := CollectFlags(env, name);
      if flags != map[] {
        merged := merged + [flags];
      }
    }
    assert names[..|names|] == names;
  }

  lemma NonEmptyNone(env: Env)
    ensures NonEmpty(env, []) == []
  {
  }

  /** One turn of the loop over the names. */
  lemma UseStep(env: Env, names: seq<string>, i: nat)
    requires i < |names|
    ensures Usable(env, names[i]) <==> HaveKey(names[i]) in env && Truthy(env[HaveKey(names[i])])
    ensures FirstUnusable(env, names[i..]) ==
            if Usable(env, names[i]) then 1 + FirstUnusable(env, names[i + 1..]) else 0
    ensures NonEmpty(env, names[..i + 1]) ==
            NonEmpty(env, names[..i]) + if Collect(env, names[i]) == map[] then [] else [Collect(env, names[i])]
  {
    hide Collect, HaveKey;
    assert names[i..][1..] == names[i + 1..];
    assert names[..i + 1] == names[..i] + [names[i]];
    NonEmptySnoc(env, names[..i], names[i]);
  }

  function FirstUnusable(env: Env, names: seq<string>): (k: nat)
    ensures k <= |names|
    ensures k < |names| ==> !Usable(env, names[k])
    ensures forall i | 0 <= i < k :: Usable(env, names[i])
  {
    if names == [] || !Usable(env, names[0]) then 0 else 1 + FirstUnusable(env, names[1..])
  }

  function Refusal(env: Env, name: string): UseError {
    if HaveKey(name) in env then UnavailableModule(name) else UnknownModule(name)
  }

  predicate Usable(env: Env, name: string) {
    HaveKey(name) in env && Truthy(env[HaveKey(name)])
  }

  function NonEmpty(env: Env, names: seq<string>): seq<map<string, Value>> {
    if names == [] then []
    else (if Collect(env, names[0]) == map[] then [] else [Collect(env, names[0])]) + NonEmpty(env, names[1..])
  }

  lemma {:induction false} NonEmptySnoc(env: Env, names: seq<string>, name: string)
    ensures NonEmpty(env, names + [name]) ==
            NonEmpty(env, names) + if Collect(env, name) == map[] then [] else [Collect(env, name)]
  {
    hide Collect;
    if names == [] {
      assert names + [name] == [name] && [name][1..] == [];
    } else {
      assert (names + [name])[1..] == names[1..] + [name];
      NonEmptySnoc(env, names[1..], name);
    }
  }

  /** Goes through the whole dictionary, in any order. */
  method CollectFlags(env: Env, name: string) returns (flags: map<string, Value>)
    ensures flags == Collect(env, name)
  {
    hide Gathered, Plain;
    flags := map[];
    var done: set<string> := {};
    GatheredNone(env, name);
    while done != env.Keys
      invariant done <= env.Keys && Gathered(flags, env, name, done)
      decreases |env.Keys - done|
    {
      var key :| key in env.Keys - done;
      assert env.Keys - (done + {key}) == (env.Keys - done) - {key};
      GatherKey(flags, env, name, done, key);
      if name + "_" <= key {
        var flag := key[|name| + 1..];
        if Plain(flag) {
          flags := flags[flag := env[key]];
        }
      }
      done := done + {key};
    }
    GatheredAll(flags, env, name);
  }

  /** The flags found among the keys visited so far. */
  ghost predicate Gathered(flags: map<string, Value>, env: Env, name: string, done: set<string>) {
    forall f :: Entry(flags, f) ==
                if Plain(f) && FlagKey(name, f) in done then Entry(env, FlagKey(name, f)) else None
  }

  lemma GatheredNone(env: Env, name: string)
    ensures Gathered(map[], env, name, {})
  {
  }

  lemma GatheredAll(flags: map<string, Value>, env: Env, name: string)
    requires Gathered(flags, env, name, env.Keys)
    ensures flags == Collect(env, name)
  {
    CollectIs(env, name, flags);
  }

  /** One key more: a flag of the module if it decodes as one, nothing otherwise. */
  lemma GatherKey(flags: map<string, Value>, env: Env, name: string, done: set<string>, key: string)
    requires key in env && Gathered(flags, env, name, done)
    ensures Gathered(if Decodes(key, name) then flags[key[|name| + 1..] := env[key]] else flags,
                     env, name, done + {key})
  {
    KeysInjective(name);
    assert forall f :: name + "_" <= FlagKey(name, f) && FlagKey(name, f)[|name| + 1..] == f;
    if name + "_" <= key {
      assert FlagKey(name, key[|name| + 1..]) == key;
    }
  }

  // ---------- flag keys decode uniquely ----------

  /** What is stored for a module by a sequence of checks, later reports overriding earlier ones. */
  function Stored(checks: seq<Check>, name: string): map<string, Value> {
    if checks == [] then map[]
    else
      var before, c := checks[..|checks| - 1], checks[|checks| - 1];
      if c.name == name && c.flags.Some?
      then Stored(before, name) + (map f | f in c.flags.value :: Flags(c.flags.value[f]))
      else Stored(before, name)
  }

  /** The module names for which the key scheme works. */
  predicate CleanName(name: string) {
    HasUpper(name) && !HaveLike(name)
  }

  /** The last underscore of a flag key ends the module name. */
  lemma LastUnderscore(a: string, f: string, at: nat)
    requires Plain(f) && at < |FlagKey(a, f)| && FlagKey(a, f)[at] == '_'
    ensures at <= |a|
  {
    var key := FlagKey(a, f);
    assert forall i | |a| < i < |key| :: key[i] == f[i - |a| - 1];
  }

  lemma SplitUnique(a: string, f: string, b: string, g: string)
    requires Plain(f) && Plain(g) && FlagKey(a, f) == FlagKey(b, g)
    ensures a == b && f == g
  {
    var key := FlagKey(a, f);
    assert key[|a|] == '_' && key[|b|] == '_';
    LastUnderscore(a, f, |b|);
    LastUnderscore(b, g, |a|);
    assert key[..|a|] == a && key[..|b|] == b && key[|a| + 1..] == f && key[|b| + 1..] == g;
  }

  /** A flag key that is also an availability key gives its module name away. */
  lemma HaveCollision(name: string, f: string, other: string)
    requires FlagKey(name, f) == HaveKey(other)
    ensures HaveLike(name)
  {
    var key := HaveKey(other);
    assert key[0] == 'H' && key[1] == 'A' && key[2] == 'V' && key[3] == 'E' && key[4] == '_';
    assert FlagKey(name, f)[|name|] == '_' && FlagKey(name, f)[..|name|] == name;
    assert |name| >= 4;
    assert |name| == 4 ==> name == "HAVE";
    assert |name| > 4 ==> "HAVE_" <= name;
  }

  lemma NotLowerKey(name: string, f: string, other: string)
    requires HasUpper(name)
    ensures FlagKey(name, f) != Lower(other)
  {
    var i :| 0 <= i < |name| && Upper(name[i]);
    assert FlagKey(name, f)[i] == name[i];
  }

  lemma EntriesAt(c: Check, name: string, f: string)
    requires c.flags.Some? && Proper(c) && Plain(f)
    ensures var flags := c.flags.value;
            Entry(Entries(c.name, flags, flags.Keys), FlagKey(name, f)) ==
            if c.name == name && f in flags then Some(Flags(flags[f])) else None
  {
    var flags := c.flags.value;
    var stored := Entries(c.name, flags, flags.Keys);
    KeysInjective(c.name);
    if FlagKey(name, f) in stored {
      var g :| g in flags && FlagKey(c.name, g) == FlagKey(name, f);
      SplitUnique(name, f, c.name, g);
    }
    if c.name == name && f in flags {
      assert FlagKey(c.name, f) in stored;
    }
  }

  function Reported(c: Check, name: string, f: string): Option<Value> {
    if c.name == name && c.flags.Some? && f in c.flags.value then Some(Flags(c.flags.value[f])) else None
  }

  /** The keys of a clean name are written by the checks of that name only. */
  lemma CheckEffect(env: Env, c: Check, name: string, f: string)
    requires CleanName(name) && Plain(f) && Proper(c)
    ensures Entry(AfterCheck(env, c), FlagKey(name, f)) ==
            if Reported(c, name, f).Some? then Reported(c, name, f) else Entry(env, FlagKey(name, f))
  {
    hide Entries, Lower;
    NotLowerKey(name, f, c.name);
    if FlagKey(name, f) == HaveKey(c.name) {
      HaveCollision(name, f, c.name);
    }
    if c.flags.Some? {
      EntriesAt(c, name, f);
    }
  }

  lemma {:induction false} RunChecksSnoc(env: Env, checks: seq<Check>, c: Check)
    ensures RunChecks(env, checks + [c]) == AfterCheck(RunChecks(env, checks), c)
    decreases |checks|
  {
    hide AfterCheck;
    if checks == [] {
      assert checks + [c] == [c] && [c][1..] == [];
      assert RunChecks(AfterCheck(env, c), []) == AfterCheck(env, c);
    } else {
      assert (checks + [c])[1..] == checks[1..] + [c];
      RunChecksSnoc(AfterCheck(env, checks[0]), checks[1..], c);
    }
  }

  ghost predicate AllProper(checks: seq<Check>) {
    forall i | 0 <= i < |checks| :: Proper(checks[i])
  }

  lemma {:induction false} EntriesOfRun(base: Env, checks: seq<Check>, name: string, f: string)
    requires CleanName(name) && AllProper(checks)
    requires Plain(f) ==> FlagKey(name, f) !in base
    ensures Entry(Stored(checks, name), f) ==
            if Plain(f) then Entry(RunChecks(base, checks), FlagKey(name, f)) else None
    decreases |checks|
  {
    hide AfterCheck, CleanName, FlagKey;
    if checks == [] {
    } else {
      var before, c := checks[..|checks| - 1], checks[|checks| - 1];
      EntriesOfRun(base, before, name, f);
      assert checks == before + [c] && Proper(c);
      RunChecksSnoc(base, before, c);
      if Plain(f) {
        CheckEffect(RunChecks(base, before), c, name, f);
      }
    }
  }

  /** For a clean name, using the module yields exactly what was stored for it, whatever other
      modules were checked and however their names overlap with it. */
  lemma UseYieldsStored(base: Env, checks: seq<Check>, name: string)
    requires CleanName(name) && AllProper(checks)
    requires forall f :: Plain(f) ==> FlagKey(name, f) !in base
    ensures Collect(RunChecks(base, checks), name) == Stored(checks, name)
  {
    hide RunChecks, Stored, CleanName, Collect;
    forall f ensures Entry(Stored(checks, name), f) ==
                     if Plain(f) then Entry(RunChecks(base, checks), FlagKey(name, f)) else None {
      EntriesOfRun(base, checks, name, f);
    }
    CollectIs(RunChecks(base, checks), name, Stored(checks, name));
  }

  // ---------- which modules are usable ----------

  /** Whether the last check of that name found its module; None if there was none. */
  function LastFound(checks: seq<Check>, name: string): Option<bool> {
    if checks == [] then None
    else
      var before, c := checks[..|checks| - 1], checks[|checks| - 1];
      if c.name == name then Some(c.flags.Some?) else LastFound(before, name)
  }

  /** A check writes the availability key of its own module only, unless its name is odd. */
  lemma CheckAvailability(env: Env, c: Check, name: string)
    requires !HaveLike(c.name)
    ensures Entry(AfterCheck(env, c), HaveKey(name)) ==
            if c.name == name then Some(Available(c.flags.Some?)) else Entry(env, HaveKey(name))
  {
    hide Entries, Lower, HaveKey, HaveLike;
    HaveKeysDiffer(name, c.name);
    if c.flags.Some? {
      NoHaveEntry(c, name);
    }
  }

  lemma NoHaveEntry(c: Check, name: string)
    requires c.flags.Some? && !HaveLike(c.name)
    ensures HaveKey(name) !in Entries(c.name, c.flags.value, c.flags.value.Keys)
  {
    hide HaveLike;
    forall f ensures FlagKey(c.name, f) != HaveKey(name) {
      if FlagKey(c.name, f) == HaveKey(name) {
        HaveCollision(c.name, f, name);
      }
    }
  }

  lemma {:induction false} RunAvailability(env: Env, checks: seq<Check>, name: string)
    requires forall i | 0 <= i < |checks| :: !HaveLike(checks[i].name)
    ensures Entry(RunChecks(env, checks), HaveKey(name)) ==
            match LastFound(checks, name)
            case Some(found) => Some(Available(found))
            case None => Entry(env, HaveKey(name))
    decreases |checks|
  {
    hide AfterCheck, HaveLike, HaveKey;
    if checks == [] {
    } else {
      var before, c := checks[..|checks| - 1], checks[|checks| - 1];
      RunAvailability(env, before, name);
      assert checks == before + [c];
      RunChecksSnoc(env, before, c);
      CheckAvailability(RunChecks(env, before), c, name);
    }
  }

  /** After any sequence of checks of ordinary names a module is usable exactly when the last check of
      its name found it; otherwise using it is refused, as unknown if its name was never checked. */
  lemma UsableIff(checks: seq<Check>, name: string)
    requires forall i | 0 <= i < |checks| :: !HaveLike(checks[i].name)
    ensures var env := RunChecks(map[], checks);
            && (Usable(env, name) <==> LastFound(checks, name) == Some(true))
            && (LastFound(checks, name) == None ==> Refusal(env, name) == UnknownModule(name))
            && (LastFound(checks, name) == Some(false) ==> Refusal(env, name) == UnavailableModule(name))
  {
    hide RunChecks, LastFound, HaveLike, HaveKey;
    RunAvailability(map[], checks, name);
  }

  /** Two modules are found one after the other, the first without flags. */
  function BothFound(first: string, second: string, flags: map<string, string>): seq<Check> {
    [Check(first, Some(map[])), Check(second, Some(flags))]
  }

  /** The second module may hide the first from its users, through a flag of its own. */
  ghost predicate CanHide(second: string) {
    exists first, flags: map<string, string> ::
      && first != second && AllProper(BothFound(first, second, flags))
      && !Usable(RunChecks(map[], BothFound(first, second, flags)), first)
  }

  /** Exactly the odd names are left out of `UsableIff` with reason: each of them can hide a module
      that was found, and no other name can. */
  lemma CanHideIff(name: string)
    ensures CanHide(name) <==> HaveLike(name)
  {
    hide RunChecks, HaveKey, HaveLike, Intruder;
    if HaveLike(name) {
      var flags := map["X" := ""];
      IntruderHidden(name);
      assert AllProper(BothFound(Intruder(name), name, flags));
    } else if CanHide(name) {
      var first, flags: map<string, string> :|
        first != name && !Usable(RunChecks(map[], BothFound(first, name, flags)), first);
      FoundStays(first, name, flags);
    }
  }

  lemma FoundStays(first: string, second: string, flags: map<string, string>)
    requires first != second && !HaveLike(second)
    ensures Usable(RunChecks(map[], BothFound(first, second, flags)), first)
  {
    hide AfterCheck, HaveKey, HaveLike, Lower;
    var a, b := Check(first, Some(map[])), Check(second, Some(flags));
    RunTwo(map[], a, b);
    FoundWithoutFlags(map[], first);
    HaveKeysDiffer(first, first);
    CheckAvailability(AfterCheck(map[], a), b, first);
  }

  lemma IntruderHidden(odd: string)
    requires HaveLike(odd)
    ensures Intruder(odd) != odd
    ensures !Usable(RunChecks(map[], BothFound(Intruder(odd), odd, map["X" := ""])), Intruder(odd))
  {
    var hidden := Intruder(odd);
    var a, b := Check(hidden, Some(map[])), Check(odd, Some(map["X" := ""]));
    IntruderUnderFlag(odd);
    hide AfterCheck, HaveKey, Intruder;
    RunTwo(map[], a, b);
    EmptyFlag(AfterCheck(map[], a), odd, hidden);
  }

  lemma IntruderUnderFlag(odd: string)
    requires HaveLike(odd)
    ensures Intruder(odd) != odd && FlagKey(odd, "X") == HaveKey(Intruder(odd))
  {
    if odd == "HAVE" {
      assert "HAVE" + "_" + "X" == "HAVE_" + "X";
    } else {
      assert odd == "HAVE_" + odd[5..];
      assert |Intruder(odd)| == |odd| - 3;
    }
  }

  lemma EmptyFlag(env: Env, odd: string, hidden: string)
    requires hidden != odd && FlagKey(odd, "X") == HaveKey(hidden)
    ensures Entry(AfterCheck(env, Check(odd, Some(map["X" := ""]))), HaveKey(hidden)) == Some(Flags(""))
  {
    var flags := map["X" := ""];
    HaveKeysDiffer(hidden, odd);
    hide Lower, HaveKey, FlagKey;
    KeysInjective(odd);
    assert "X" in flags.Keys;
    assert FlagKey(odd, "X") in Entries(odd, flags, flags.Keys);
  }

  /** What a use of the module should hand to `MergeFlags`. */
  function Expected(checks: seq<Check>, name: string): seq<map<string, Value>> {
    if Stored(checks, name) == map[] then [] else [Stored(checks, name)]
  }

  /** The key scheme serves a name when, after any sequence of checks that leaves the module usable,
      using it merges exactly what was stored for it. */
  ghost predicate Served(name: string) {
    forall checks: seq<Check> ::
      AllProper(checks) && Usable(RunChecks(map[], checks), name) ==>
        NonEmpty(RunChecks(map[], checks), [name]) == Expected(checks, name)
  }

  /** The check of another module whose bookkeeping key decodes as a flag of `name`. */
  function Intruder(name: string): string {
    if name == "HAVE" then "X" else if "HAVE_" <= name then name[5..] + "_X" else name + "_x"
  }

  /** Both modules are found, without flags, the other one last. */
  function IntruderRun(name: string): seq<Check> {
    [Check(name, Some(map[])), Check(Intruder(name), Some(map[]))]
  }

  lemma IntruderKey(name: string) returns (flag: string)
    requires !CleanName(name)
    ensures Plain(flag) && FlagKey(name, flag) in {HaveKey(Intruder(name)), Lower(Intruder(name))}
    ensures Intruder(name) != name
  {
    if name == "HAVE" {
      flag := "X";
      assert HaveKey("X") == FlagKey(name, "X");
    } else if "HAVE_" <= name {
      flag := "X";
      assert HaveKey(Intruder(name)) == FlagKey(name, "X");
    } else {
      flag := "x";
      LowerFixed(name + "_x");
      assert Lower(Intruder(name)) == FlagKey(name, "x");
    }
  }

  lemma RunTwo(env: Env, a: Check, b: Check)
    ensures RunChecks(env, [a, b]) == AfterCheck(AfterCheck(env, a), b)
  {
    hide AfterCheck;
    assert [a, b][1..] == [b] && [b][1..] == [];
    assert RunChecks(AfterCheck(AfterCheck(env, a), b), []) == AfterCheck(AfterCheck(env, a), b);
    assert RunChecks(AfterCheck(env, a), [b]) == AfterCheck(AfterCheck(env, a), b);
  }

  lemma HaveKeysDiffer(a: string, b: string)
    ensures HaveKey(a) == HaveKey(b) ==> a == b
    ensures HaveKey(a) != Lower(b)
  {
    assert HaveKey(a)[5..] == a && HaveKey(b)[5..] == b;
    assert HaveKey(a)[0] == 'H';
  }

  /** A module found without flags leaves its two availability keys. */
  lemma FoundWithoutFlags(env: Env, name: string)
    ensures AfterCheck(env, Check(name, Some(map[]))) ==
            env[HaveKey(name) := Available(true)][Lower(name) := Available(true)]
  {
    hide HaveKey, Lower;
    EntriesNone(env, name, map[]);
  }

  lemma NothingStored(a: string, b: string, name: string)
    ensures Stored([Check(a, Some(map[])), Check(b, Some(map[]))], name) == map[]
  {
    var x, y := Check(a, Some(map[])), Check(b, Some(map[]));
    assert [x, y][..1] == [x] && [x][..0] == [];
    assert Stored([], name) == map[] && Stored([x], name) == map[];
  }

  lemma MergedOne(env: Env, name: string, flag: string)
    requires Entry(Collect(env, name), flag).Some?
    ensures NonEmpty(env, [name]) == [Collect(env, name)]
  {
    hide Collect;
    NonEmptyNone(env);
    assert [name][1..] == [];
  }

  /** For every other name there is a run after which the module is usable, nothing was stored for
      it, and yet using it merges the other module's availability as a flag. */
  lemma IntruderIsMerged(name: string)
    requires !CleanName(name)
    ensures AllProper(IntruderRun(name)) && Usable(RunChecks(map[], IntruderRun(name)), name)
    ensures Expected(IntruderRun(name), name) == []
    ensures var env := RunChecks(map[], IntruderRun(name));
            && NonEmpty(env, [name]) == [Collect(env, name)]
            && exists flag :: Entry(Collect(env, name), flag) == Some(Available(true))
  {
    hide Collect, Lower, HaveKey, FlagKey, CleanName, Intruder, AfterCheck, Stored, RunChecks, NonEmpty;
    var a, b := Check(name, Some(map[])), Check(Intruder(name), Some(map[]));
    RunTwo(map[], a, b);
    FoundWithoutFlags(map[], name);
    FoundWithoutFlags(AfterCheck(map[], a), Intruder(name));
    var env := RunChecks(map[], IntruderRun(name));
    var flag := IntruderKey(name);
    HaveKeysDiffer(name, Intruder(name));
    HaveKeysDiffer(Intruder(name), Intruder(name));
    HaveKeysDiffer(name, name);
    CollectAt(env, name, flag);
    assert Entry(Collect(env, name), flag) == Some(Available(true));
    MergedOne(env, name, flag);
    NothingStored(name, Intruder(name), name);
  }

  lemma LowerFixed(s: string)
    requires forall i | 0 <= i < |s| :: !Upper(s[i])
    ensures Lower(s) == s
  {
  }

  /** Exactly the names with an upper-case letter that are neither HAVE nor begin with HAVE_. */
  lemma ServedIff(name: string)
    ensures Served(name) <==> CleanName(name)
  {
    hide RunChecks, Stored, Collect, CleanName;
    if CleanName(name) {
      forall checks: seq<Check> | AllProper(checks)
        ensures NonEmpty(RunChecks(map[], checks), [name]) == Expected(checks, name)
      {
        UseYieldsStored(map[], checks, name);
        NonEmptySnoc(RunChecks(map[], checks), [], name);
        NonEmptyNone(RunChecks(map[], checks));
        assert [] + [name] == [name];
      }
    } else {
      IntruderIsMerged(name);
      assert AllProper(IntruderRun(name)) && Usable(RunChecks(map[], IntruderRun(name)), name);
    }
  }
}
