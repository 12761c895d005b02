/** Reference counting in the OpenCL C++ binding: wrappers that own handles, and the driver's counts. */
module RefCounts {
  import opened Options

  type Handle = nat
  type Id = nat

  /** `refs[h]` is the driver's count of handle h (zero: no such object); `slots` holds the
      `object_` field of every constructed wrapper, null being None. */
  datatype World = World(refs: multiset<Handle>, slots: map<Id, Option<Handle>>)

  /** A fault is a retain or a release of a handle whose count is zero. */
  datatype Outcome = Ok(world: World) | Fault

  // ---------- statements ----------

  function Retain(w: World, obj: Option<Handle>): Outcome {
    match obj
    case None => Ok(w)
    case Some(h) => if w.refs[h] == 0 then Fault else Ok(w.(refs := w.refs + multiset{h}))
  }

  function Release(w: World, obj: Option<Handle>): Outcome {
    match obj
    case None => Ok(w)
    case Some(h) => if w.refs[h] == 0 then Fault else Ok(w.(refs := w.refs - multiset{h}))
  }

  function Write(w: World, i: Id, obj: Option<Handle>): World {
    w.(slots := w.slots[i := obj])
  }

  // ---------- operations ----------

  datatype Op =
    | Construct(i: Id)
    | Create(i: Id, obj: Option<Handle>)
    | Copy(i: Id, from: Id)
    | BaseAssign(i: Id, from: Id)
    | Assign(i: Id, from: Id)
    | Destroy(i: Id)
    | EventOut(i: Id, h: Option<Handle>)
    | GetInfo(i: Id, reply: Reply)
    | CreateKernels(previous: seq<Id>, made: Option<seq<(Id, Handle)>>)

  /** An information query fails, or answers with an object or null. A failing enqueue or kernel
      creation stores nothing either: there the handle or the array is None. */
  datatype Reply = QueryFailed | Answer(obj: Option<Handle>)

  /** `Wrapper::operator=`: release, overwrite, retain, with no check for self-assignment. */
  function AssignStep(w: World, i: Id, from: Id): Outcome
    requires i in w.slots && from in w.slots
  {
    match Release(w, w.slots[i])
    case Fault => Fault
    case Ok(w1) => Retain(Write(w1, i, w1.slots[from]), w1.slots[from])
  }

  function DestroyStep(w: World, i: Id): Outcome
    requires i in w.slots
  {
    match Release(w, w.slots[i])
    case Fault => Fault
    case Ok(w1) => Ok(w1.(slots := w1.slots - {i}))
  }

  function DestroyAll(w: World, ids: seq<Id>): Outcome
    requires Distinct(ids) && forall k | 0 <= k < |ids| :: ids[k] in w.slots
    decreases |ids|
  {
    if ids == [] then Ok(w)
    else
      match DestroyStep(w, ids[0])
      case Fault => Fault
      case Ok(w1) => DestroyAll(w1, ids[1..])
  }

  /** Copy-constructs a wrapper from each element of the driver-filled array. */
  function CopyAll(w: World, made: seq<(Id, Handle)>): Outcome
    decreases |made|
  {
    if made == [] then Ok(w)
    else
      match Retain(Write(w, made[0].0, Some(made[0].1)), Some(made[0].1))
      case Fault => Fault
      case Ok(w1) => CopyAll(w1, made[1..])
  }

  predicate Distinct(ids: seq<Id>) {
    forall j, k | 0 <= j < k < |ids| :: ids[j] != ids[k]
  }

  function Handles(made: seq<(Id, Handle)>): (r: seq<Handle>)
    ensures |r| == |made|
    ensures forall k | 0 <= k < |made| :: r[k] == made[k].1
  {
    if made == [] then [] else [made[0].1] + Handles(made[1..])
  }

  function Ids(made: seq<(Id, Handle)>): (r: seq<Id>)
    ensures |r| == |made|
    ensures forall k | 0 <= k < |made| :: r[k] == made[k].0
  {
    if made == [] then [] else [made[0].0] + Ids(made[1..])
  }

  /** What C++ object lifetimes and the driver guarantee of an operation: wrappers are constructed
      once and used while alive; the driver hands out handles that are not in use, and an
      information query returns a live object or null. */
  predicate Legal(w: World, op: Op) {
    match op
    case Construct(i) => i !in w.slots
    case Create(i, obj) => i !in w.slots && (obj.Some? ==> w.refs[obj.value] == 0)
    case Copy(i, from) => i !in w.slots && from in w.slots
    case BaseAssign(i, from) => i in w.slots && from in w.slots
    case Assign(i, from) => i in w.slots && from in w.slots
    case Destroy(i) => i in w.slots
    case EventOut(i, h) => i in w.slots && (h.Some? ==> w.refs[h.value] == 0)
    case GetInfo(i, reply) => i in w.slots && (reply.Answer? && reply.obj.Some? ==> w.refs[reply.obj.value] > 0)
    case CreateKernels(previous, made) =>
      && Distinct(previous)
      && (forall k | 0 <= k < |previous| :: previous[k] in w.slots)
      && (made.Some? ==> Deliverable(w, made.value))
  }

  /** New kernels, for new vector elements. */
  predicate Deliverable(w: World, made: seq<(Id, Handle)>) {
    && Distinct(Ids(made))
    && (forall k | 0 <= k < |made| :: made[k].0 !in w.slots)
    && (forall k | 0 <= k < |made| :: w.refs[made[k].1] == 0)
  }

  function Step(w: World, op: Op): Outcome
    requires Legal(w, op)
  {
    match op
    case Construct(i) => Ok(Write(w, i, None))
    case Create(i, obj) =>
      Ok(Write(if obj.Some? then w.(refs := w.refs + multiset{obj.value}) else w, i, obj))
    case Copy(i, from) => Retain(Write(w, i, w.slots[from]), w.slots[from])
    case BaseAssign(i, from) => AssignStep(w, i, from)
    case Assign(i, from) => if i != from then AssignStep(w, i, from) else Ok(w)
    case Destroy(i) => DestroyStep(w, i)
    case EventOut(i, None) => Ok(w)
    case EventOut(i, Some(h)) => Ok(Write(w.(refs := w.refs + multiset{h}), i, Some(h)))
    case GetInfo(i, QueryFailed) => Ok(w)
    case GetInfo(i, Answer(obj)) => Retain(Write(w, i, obj), obj)
    case CreateKernels(_, None) => Ok(w)
    case CreateKernels(previous, Some(made)) => Deliver(w, previous, made)
  }

  /** The driver fills a raw array, the old elements go, the array's elements are copied in. */
  function Deliver(w: World, previous: seq<Id>, made: seq<(Id, Handle)>): Outcome
    requires Legal(w, CreateKernels(previous, Some(made)))
  {
    match DestroyAll(w.(refs := w.refs + multiset(Handles(made))), previous)
    case Fault => Fault
    case Ok(w1) => CopyAll(w1, made)
  }

  /** References that no wrapper will ever release: the handle a raw write overwrites, and the
      handles in the array that createKernels abandons. */
  function Loss(w: World, op: Op): multiset<Handle>
    requires Legal(w, op)
  {
    match op
    case EventOut(i, Some(_)) => One(w.slots[i])
    case GetInfo(i, Answer(_)) => One(w.slots[i])
    case CreateKernels(_, Some(made)) => multiset(Handles(made))
    case _ => multiset{}
  }

  // ---------- what the operations mean for the wrappers, as plain values ----------

  type Slots = map<Id, Option<Handle>>

  /** A wrapper is a plain value: copied, assigned, overwritten or gone. */
  function PlainSlots(slots: Slots, op: Op): Slots {
    match op
    case Construct(i) => slots[i := None]
    case Create(i, obj) => slots[i := obj]
    case Copy(i, from) => slots[i := Held(slots, from)]
    case BaseAssign(i, from) => slots[i := Held(slots, from)]
    case Assign(i, from) => slots[i := Held(slots, from)]
    case Destroy(i) => slots - {i}
    case EventOut(i, h) => if h.Some? then slots[i := h] else slots
    case GetInfo(i, reply) => if reply.Answer? then slots[i := reply.obj] else slots
    case CreateKernels(previous, made) =>
      if made.Some? then Filled(Without(slots, previous), made.value) else slots
  }

  function Held(slots: Slots, i: Id): Option<Handle> {
    if i in slots then slots[i] else None
  }

  function Without(slots: Slots, ids: seq<Id>): Slots {
    slots - (set i | i in ids)
  }

  /** The slots with a wrapper for each pair. */
  function Filled(slots: Slots, made: seq<(Id, Handle)>): Slots
    decreases |made|
  {
    if made == [] then slots else Filled(slots[made[0].0 := Some(made[0].1)], made[1..])
  }

  /** The references the given wrappers hold. */
  function HeldBy(slots: Slots, ids: seq<Id>): multiset<Handle> {
    if ids == [] then multiset{} else One(Held(slots, ids[0])) + HeldBy(slots, ids[1..])
  }

  /** The driver's counts: one reference more for what a wrapper gets, one less for what it gives up,
      and for raw writes nothing less. */
  function PlainRefs(refs: multiset<Handle>, slots: Slots, op: Op): multiset<Handle> {
    match op
    case Construct(_) => refs
    case Create(_, obj) => refs + One(obj)
    case Copy(_, from) => refs + One(Held(slots, from))
    case BaseAssign(i, from) => refs - One(Held(slots, i)) + One(Held(slots, from))
    case Assign(i, from) => if i == from then refs else refs - One(Held(slots, i)) + One(Held(slots, from))
    case Destroy(i) => refs - One(Held(slots, i))
    case EventOut(_, h) => refs + One(h)
    case GetInfo(_, reply) => if reply.Answer? then refs + One(reply.obj) else refs
    case CreateKernels(previous, made) =>
      if made.Some? then refs + multiset(Handles(made.value)) - HeldBy(slots, previous) + multiset(Handles(made.value))
      else refs
  }

  lemma RetainMeans(w: World, obj: Option<Handle>)
    requires Retain(w, obj).Ok?
    ensures Retain(w, obj).world == World(w.refs + One(obj), w.slots)
  {
    assert w.refs + multiset{} == w.refs;
  }

  lemma ReleaseMeans(w: World, obj: Option<Handle>)
    requires Release(w, obj).Ok?
    ensures Release(w, obj).world == World(w.refs - One(obj), w.slots)
  {
    assert w.refs - multiset{} == w.refs;
  }

  lemma DestroyMeans(w: World, i: Id)
    requires i in w.slots && DestroyStep(w, i).Ok?
    ensures DestroyStep(w, i).world == World(w.refs - One(w.slots[i]), w.slots - {i})
  {
    hide Release, One;
    ReleaseMeans(w, w.slots[i]);
  }

  lemma WithoutFirst(slots: Slots, ids: seq<Id>)
    requires ids != []
    ensures Without(slots, ids) == Without(slots - {ids[0]}, ids[1..])
  {
    assert (set i | i in ids) == {ids[0]} + (set i | i in ids[1..]);
  }

  lemma WithoutNone(slots: Slots)
    ensures Without(slots, []) == slots
  {
  }

  lemma MinusTwice(a: multiset<Handle>, b: multiset<Handle>, c: multiset<Handle>)
    ensures a - b - c == a - (b + c)
  {
  }

  lemma {:induction false} DestroyAllMeans(w: World, ids: seq<Id>)
    requires Distinct(ids) && forall k | 0 <= k < |ids| :: ids[k] in w.slots
    requires DestroyAll(w, ids).Ok?
    ensures DestroyAll(w, ids).world == World(w.refs - HeldBy(w.slots, ids), Without(w.slots, ids))
    decreases |ids|
  {
    hide DestroyStep, Without, One;
    if ids == [] {
      WithoutNone(w.slots);
      assert w.refs - multiset{} == w.refs;
    } else {
      var rest := ids[1..];
      DestroyMeans(w, ids[0]);
      DestroyAllMeans(DestroyStep(w, ids[0]).world, rest);
      HeldElsewhere(w.slots, ids[0], rest);
      WithoutFirst(w.slots, ids);
      MinusTwice(w.refs, One(w.slots[ids[0]]), HeldBy(w.slots, rest));
    }
  }

  lemma {:induction false} HeldElsewhere(slots: Slots, i: Id, ids: seq<Id>)
    requires forall k | 0 <= k < |ids| :: ids[k] != i
    ensures HeldBy(slots - {i}, ids) == HeldBy(slots, ids)
  {
    hide One;
    if ids == [] {
    } else {
      HeldElsewhere(slots, i, ids[1..]);
    }
  }

  lemma {:induction false} CopyAllMeans(w: World, made: seq<(Id, Handle)>)
    requires CopyAll(w, made).Ok?
    ensures CopyAll(w, made).world == World(w.refs + multiset(Handles(made)), Filled(w.slots, made))
    decreases |made|
  {
    if made == [] {
      assert w.refs + multiset{} == w.refs;
    } else {
      CopyAllMeans(World(w.refs + multiset{made[0].1}, w.slots[made[0].0 := Some(made[0].1)]), made[1..]);
      assert Handles(made) == [made[0].1] + Handles(made[1..]);
    }
  }

  lemma DeliverMeans(w: World, previous: seq<Id>, made: seq<(Id, Handle)>)
    requires Legal(w, CreateKernels(previous, Some(made))) && Deliver(w, previous, made).Ok?
    ensures var handles := multiset(Handles(made));
            Deliver(w, previous, made).world ==
            World(w.refs + handles - HeldBy(w.slots, previous) + handles, Filled(Without(w.slots, previous), made))
  {
    hide DestroyAll, CopyAll, Distinct, Filled, Without, HeldBy, Handles, Deliverable;
    var w0 := World(w.refs + multiset(Handles(made)), w.slots);
    assert w.(refs := w0.refs) == w0;
    var outcome := DestroyAll(w0, previous);
    assert outcome.Ok?;
    DestroyAllMeans(w0, previous);
    CopyAllMeans(outcome.world, made);
  }

  lemma AssignMeans(w: World, i: Id, from: Id)
    requires i in w.slots && from in w.slots && AssignStep(w, i, from).Ok?
    ensures AssignStep(w, i, from).world ==
            World(w.refs - One(w.slots[i]) + One(w.slots[from]), w.slots[i := w.slots[from]])
  {
    hide Release, Retain, One;
    ReleaseMeans(w, w.slots[i]);
    RetainMeans(Write(Release(w, w.slots[i]).world, i, w.slots[from]), w.slots[from]);
  }

  lemma NothingMore(refs: multiset<Handle>)
    ensures refs + One(None) == refs
  {
  }

  /** Every operation that does not fault does exactly this to the wrappers and to the counts. */
  lemma StepMeans(w: World, op: Op)
    requires Legal(w, op) && Step(w, op).Ok?
    ensures Step(w, op).world == World(PlainRefs(w.refs, w.slots, op), PlainSlots(w.slots, op))
  {
    hide Deliver, DestroyStep, AssignStep, Retain, Deliverable, Distinct, Filled, Without, HeldBy;
    NothingMore(w.refs);
    match op
    case Construct(_) =>
    case Create(_, _) =>
    case Copy(i, from) => RetainMeans(Write(w, i, w.slots[from]), w.slots[from]);
    case BaseAssign(i, from) => AssignMeans(w, i, from);
    case Assign(i, from) =>
      if i == from {
        assert w.slots[i := w.slots[from]] == w.slots;
      } else {
        AssignMeans(w, i, from);
      }
    case Destroy(i) => DestroyMeans(w, i);
    case EventOut(_, _) =>
    case GetInfo(i, QueryFailed) =>
    case GetInfo(i, Answer(obj)) => RetainMeans(Write(w, i, obj), obj);
    case CreateKernels(_, None) =>
    case CreateKernels(previous, Some(made)) => DeliverMeans(w, previous, made);
  }

  // ---------- the invariant ----------

  function Holders(slots: map<Id, Option<Handle>>, h: Handle): set<Id> {
    set i | i in slots && slots[i] == Some(h)
  }

  /** Each handle's count is the number of wrappers holding it plus its lost references. */
  ghost predicate Balanced(w: World, lost: multiset<Handle>) {
    forall h :: w.refs[h] == |Holders(w.slots, h)| + lost[h]
  }

  /** The references of one object: one for a handle, none for null. */
  function One(h: Option<Handle>): multiset<Handle> {
    if h.Some? then multiset{h.value} else multiset{}
  }

  function Holds(obj: Option<Handle>, h: Handle): nat {
    if obj == Some(h) then 1 else 0
  }

  function SlotHeld(slots: Slots, i: Id, h: Handle): nat {
    if i in slots then Holds(slots[i], h) else 0
  }

  lemma CountWithout(ids: set<Id>, i: Id)
    ensures |ids| == |ids - {i}| + if i in ids then 1 else 0
  {
    if i in ids {
      assert ids == (ids - {i}) + {i};
    } else {
      assert ids == ids - {i};
    }
  }

  lemma HoldersElsewhere(slots: map<Id, Option<Handle>>, i: Id, obj: Option<Handle>, h: Handle)
    ensures Holders(slots, h) - {i} == Holders(slots[i := obj], h) - {i}
  {
  }

  lemma HoldersWrite(slots: map<Id, Option<Handle>>, i: Id, obj: Option<Handle>, h: Handle)
    ensures |Holders(slots[i := obj], h)| == |Holders(slots, h)| - SlotHeld(slots, i, h) + Holds(obj, h)
  {
    var before, after := Holders(slots, h), Holders(slots[i := obj], h);
    assert before - {i} == after - {i} by {
      HoldersElsewhere(slots, i, obj, h);
    }
    assert i in before <==> SlotHeld(slots, i, h) == 1;
    assert i in after <==> Holds(obj, h) == 1;
    hide Holders, SlotHeld, Holds;
    CountWithout(before, i);
    CountWithout(after, i);
  }

  lemma HoldersRemove(slots: map<Id, Option<Handle>>, i: Id, h: Handle)
    requires i in slots
    ensures |Holders(slots - {i}, h)| == |Holders(slots, h)| - Holds(slots[i], h)
  {
    assert Holders(slots - {i}, h) == Holders(slots, h) - {i};
    CountWithout(Holders(slots, h), i);
  }

  /** A wrapper keeps its handle alive. */
  lemma HeldIsLive(w: World, lost: multiset<Handle>, i: Id)
    requires Balanced(w, lost) && i in w.slots && w.slots[i].Some?
    ensures w.refs[w.slots[i].value] > 0
  {
    assert i in Holders(w.slots, w.slots[i].value);
  }

  /** Two wrappers holding the same handle force its count to at least two. */
  lemma SharedCount(w: World, lost: multiset<Handle>, i: Id, j: Id)
    requires Balanced(w, lost) && i != j && i in w.slots && j in w.slots
    requires w.slots[i].Some? && w.slots[i] == w.slots[j]
    ensures w.refs[w.slots[i].value] >= 2
  {
    var h := w.slots[i].value;
    assert {i, j} <= Holders(w.slots, h);
    CardinalityMonotone({i, j}, Holders(w.slots, h));
  }

  lemma CardinalityMonotone(a: set<Id>, b: set<Id>)
    requires a <= b
    ensures |a| <= |b|
  {
    assert b == a + (b - a);
  }

  // ---------- every operation keeps the invariant ----------

  lemma WriteBalanced(w: World, lost: multiset<Handle>, i: Id, obj: Option<Handle>,
                      refs: multiset<Handle>, lost': multiset<Handle>)
    requires Balanced(w, lost)
    requires forall h :: refs[h] + SlotHeld(w.slots, i, h) + lost[h] == w.refs[h] + Holds(obj, h) + lost'[h]
    ensures Balanced(World(refs, w.slots[i := obj]), lost')
  {
    forall h ensures refs[h] == |Holders(w.slots[i := obj], h)| + lost'[h] {
      HoldersWrite(w.slots, i, obj, h);
    }
  }

  /** The bare assignment faults exactly on self-assignment of the only reference. */
  lemma BaseAssignFaultsIff(w: World, lost: multiset<Handle>, i: Id, from: Id)
    requires Balanced(w, lost) && i in w.slots && from in w.slots
    ensures AssignStep(w, i, from) == Fault <==>
            i == from && w.slots[i].Some? && w.refs[w.slots[i].value] == 1
  {
    hide Balanced;
    if w.slots[i].Some? {
      HeldIsLive(w, lost, i);
    }
    if w.slots[from].Some? {
      HeldIsLive(w, lost, from);
      if i != from && w.slots[i] == w.slots[from] {
        SharedCount(w, lost, i, from);
      }
    }
  }

  /** The failing case is reachable: one wrapper, created and then assigned to itself. */
  lemma SelfAssignmentFaults(h: Handle)
    ensures Step(START, Create(0, Some(h))).Ok?
    ensures AssignStep(Step(START, Create(0, Some(h))).world, 0, 0) == Fault
  {
    var w := Step(START, Create(0, Some(h))).world;
    assert w.slots[0] == Some(h) && w.refs[h] == 1;
  }

  lemma AssignBalanced(w: World, lost: multiset<Handle>, i: Id, from: Id)
    requires Balanced(w, lost) && i in w.slots && from in w.slots
    requires AssignStep(w, i, from).Ok?
    ensures Balanced(AssignStep(w, i, from).world, lost)
  {
    hide Balanced;
    if w.slots[i].Some? {
      HeldIsLive(w, lost, i);
    }
    var refs := AssignStep(w, i, from).world.refs;
    forall h ensures refs[h] + SlotHeld(w.slots, i, h) == w.refs[h] + Holds(w.slots[from], h) {
    }
    WriteBalanced(w, lost, i, w.slots[from], refs, lost);
  }

  lemma DestroyBalanced(w: World, lost: multiset<Handle>, i: Id)
    requires Balanced(w, lost) && i in w.slots
    ensures var r := DestroyStep(w, i);
            r.Ok? && Balanced(r.world, lost) && r.world.slots == w.slots - {i}
  {
    if w.slots[i].Some? {
      HeldIsLive(w, lost, i);
    }
    var w' := DestroyStep(w, i).world;
    forall h ensures w'.refs[h] == |Holders(w'.slots, h)| + lost[h] {
      HoldersRemove(w.slots, i, h);
    }
  }

  lemma {:induction false} DestroyAllBalanced(w: World, lost: multiset<Handle>, ids: seq<Id>)
    requires Balanced(w, lost)
    requires Distinct(ids) && forall k | 0 <= k < |ids| :: ids[k] in w.slots
    ensures var r := DestroyAll(w, ids);
            && r.Ok? && Balanced(r.world, lost)
            && r.world.slots.Keys <= w.slots.Keys
    decreases |ids|
  {
    hide Balanced, DestroyStep;
    if ids == [] {
    } else {
      DestroyBalanced(w, lost, ids[0]);
      DestroyAllBalanced(DestroyStep(w, ids[0]).world, lost, ids[1..]);
    }
  }

  /** Copying out of an array whose elements own one reference each. */
  lemma {:induction false} CopyAllBalanced(w: World, lost: multiset<Handle>, made: seq<(Id, Handle)>)
    requires Balanced(w, lost) && Distinct(Ids(made))
    requires forall k | 0 <= k < |made| :: made[k].0 !in w.slots && lost[made[k].1] > 0
    ensures var r := CopyAll(w, made);
            r.Ok? && Balanced(r.world, lost)
    decreases |made|
  {
    hide Balanced;
    if made == [] {
    } else {
      var (i, h) := made[0];
      LostIsLive(w, lost, h);
      var w1 := World(w.refs + multiset{h}, w.slots[i := Some(h)]);
      WriteBalanced(w, lost, i, Some(h), w1.refs, lost);
      assert Ids(made[1..]) == Ids(made)[1..];
      assert forall k | 1 <= k < |made| :: Ids(made)[k] != Ids(made)[0];
      CopyAllBalanced(w1, lost, made[1..]);
    }
  }

  lemma LostIsLive(w: World, lost: multiset<Handle>, h: Handle)
    requires Balanced(w, lost) && lost[h] > 0
    ensures w.refs[h] > 0
  {
  }

  /** References nobody will release. */
  lemma UnheldBalanced(w: World, lost: multiset<Handle>, handles: multiset<Handle>)
    requires Balanced(w, lost)
    ensures Balanced(w.(refs := w.refs + handles), lost + handles)
  {
    hide Holders;
  }

  lemma CreateKernelsBalanced(w: World, lost: multiset<Handle>, previous: seq<Id>, made: seq<(Id, Handle)>)
    requires Balanced(w, lost) && Legal(w, CreateKernels(previous, Some(made)))
    ensures var r := Step(w, CreateKernels(previous, Some(made)));
            r.Ok? && Balanced(r.world, lost + multiset(Handles(made)))
  {
    hide Balanced, DestroyAll, CopyAll;
    var handles := multiset(Handles(made));
    var w0, lost' := w.(refs := w.refs + handles), lost + handles;
    UnheldBalanced(w, lost, handles);
    DestroyAllBalanced(w0, lost', previous);
    var w1 := DestroyAll(w0, previous).world;
    forall k | 0 <= k < |made| ensures made[k].0 !in w1.slots && lost'[made[k].1] > 0 {
      assert Handles(made)[k] in handles;
    }
    CopyAllBalanced(w1, lost', made);
  }

  lemma CreateBalanced(w: World, lost: multiset<Handle>, i: Id, obj: Option<Handle>)
    requires Balanced(w, lost) && Legal(w, Create(i, obj))
    ensures Balanced(Step(w, Create(i, obj)).world, lost)
  {
    hide Balanced;
    WriteBalanced(w, lost, i, obj, Step(w, Create(i, obj)).world.refs, lost);
  }

  lemma CopyBalanced(w: World, lost: multiset<Handle>, i: Id, from: Id)
    requires Balanced(w, lost) && Legal(w, Copy(i, from))
    ensures Step(w, Copy(i, from)).Ok?
    ensures Balanced(Step(w, Copy(i, from)).world, lost)
  {
    hide Balanced;
    if w.slots[from].Some? {
      HeldIsLive(w, lost, from);
    }
    WriteBalanced(w, lost, i, w.slots[from], Step(w, Copy(i, from)).world.refs, lost);
  }

  /** Storing an object into a wrapper without a release loses what the wrapper held. */
  lemma RawWriteBalanced(w: World, lost: multiset<Handle>, i: Id, obj: Option<Handle>)
    requires Balanced(w, lost) && i in w.slots
    ensures Balanced(World(w.refs + One(obj), w.slots[i := obj]), lost + One(w.slots[i]))
  {
    hide Balanced;
    WriteBalanced(w, lost, i, obj, w.refs + One(obj), lost + One(w.slots[i]));
  }

  lemma EventOutBalanced(w: World, lost: multiset<Handle>, i: Id, h: Option<Handle>)
    requires Balanced(w, lost) && Legal(w, EventOut(i, h))
    ensures Step(w, EventOut(i, h)).Ok?
    ensures Balanced(Step(w, EventOut(i, h)).world, lost + Loss(w, EventOut(i, h)))
  {
    hide Balanced;
    if h == None {
      assert lost + multiset{} == lost;
    } else {
      RawWriteBalanced(w, lost, i, h);
    }
  }

  lemma GetInfoBalanced(w: World, lost: multiset<Handle>, i: Id, reply: Reply)
    requires Balanced(w, lost) && Legal(w, GetInfo(i, reply))
    ensures Step(w, GetInfo(i, reply)).Ok?
    ensures Balanced(Step(w, GetInfo(i, reply)).world, lost + Loss(w, GetInfo(i, reply)))
  {
    hide Balanced;
    if reply == QueryFailed {
      assert lost + multiset{} == lost;
    } else {
      RawWriteBalanced(w, lost, i, reply.obj);
      assert w.refs + multiset{} == w.refs;
    }
  }

  /** Only the bare assignment can fault, and losses are exactly those of raw writes. */
  lemma StepBalanced(w: World, lost: multiset<Handle>, op: Op)
    requires Balanced(w, lost) && Legal(w, op) && !op.BaseAssign?
    ensures Step(w, op).Ok?
    ensures Balanced(Step(w, op).world, lost + Loss(w, op))
  {
    hide Balanced, AssignStep, DestroyStep, Deliver, Retain;
    assert lost + multiset{} == lost;
    match op
    case Construct(i) => CreateBalanced(w, lost, i, None);
    case Create(i, obj) => CreateBalanced(w, lost, i, obj);
    case Copy(i, from) => CopyBalanced(w, lost, i, from);
    case Assign(i, from) =>
      if i != from {
        BaseAssignFaultsIff(w, lost, i, from);
        AssignBalanced(w, lost, i, from);
      }
    case Destroy(i) => DestroyBalanced(w, lost, i);
    case EventOut(i, h) => EventOutBalanced(w, lost, i, h);
    case GetInfo(i, reply) => GetInfoBalanced(w, lost, i, reply);
    case CreateKernels(_, None) =>
    case CreateKernels(previous, Some(made)) => CreateKernelsBalanced(w, lost, previous, made);
  }

  // ---------- whole runs ----------

  /** The operations a program can reach through the derived classes. */
  predicate LegalRun(w: World, ops: seq<Op>)
    decreases |ops|
  {
    ops == [] ||
    (&& !ops[0].BaseAssign? && Legal(w, ops[0])
     && (Step(w, ops[0]).Ok? ==> LegalRun(Step(w, ops[0]).world, ops[1..])))
  }

  function Run(w: World, ops: seq<Op>): Outcome
    requires LegalRun(w, ops)
    decreases |ops|
  {
    if ops == [] then Ok(w)
    else
      match Step(w, ops[0])
      case Fault => Fault
      case Ok(w1) => Run(w1, ops[1..])
  }

  function TotalLoss(w: World, ops: seq<Op>): multiset<Handle>
    requires LegalRun(w, ops)
    decreases |ops|
  {
    if ops == [] || Step(w, ops[0]).Fault? then multiset{}
    else Loss(w, ops[0]) + TotalLoss(Step(w, ops[0]).world, ops[1..])
  }

  lemma {:induction false} RunBalanced(w: World, lost: multiset<Handle>, ops: seq<Op>)
    requires Balanced(w, lost) && LegalRun(w, ops)
    ensures Run(w, ops).Ok?
    ensures Balanced(Run(w, ops).world, lost + TotalLoss(w, ops))
    decreases |ops|
  {
    hide Balanced, Step, Legal, Loss;
    if ops == [] {
      assert lost + multiset{} == lost;
    } else {
      StepBalanced(w, lost, ops[0]);
      var w1, lost1 := Step(w, ops[0]).world, lost + Loss(w, ops[0]);
      RunBalanced(w1, lost1, ops[1..]);
      assert lost1 + TotalLoss(w1, ops[1..]) == lost + TotalLoss(w, ops);
    }
  }

  function PlainRun(slots: Slots, ops: seq<Op>): Slots
    decreases |ops|
  {
    if ops == [] then slots else PlainRun(PlainSlots(slots, ops[0]), ops[1..])
  }

  /** Over every run the wrappers behave as plain values. */
  lemma {:induction false} RunMeans(w: World, ops: seq<Op>)
    requires LegalRun(w, ops) && Run(w, ops).Ok?
    ensures Run(w, ops).world.slots == PlainRun(w.slots, ops)
    decreases |ops|
  {
    hide Step, Legal, PlainSlots, PlainRefs;
    if ops == [] {
    } else {
      StepMeans(w, ops[0]);
      RunMeans(Step(w, ops[0]).world, ops[1..]);
    }
  }

  const START := World(multiset{}, map[])

  /** From program start no run ever retains or releases a dead handle; every live wrapper's handle
      is alive; and once every wrapper is gone the driver is left with exactly the lost references. */
  lemma ProgramAccounting(ops: seq<Op>)
    requires LegalRun(START, ops)
    ensures Run(START, ops).Ok?
    ensures var end := Run(START, ops).world;
            && end.slots == PlainRun(map[], ops)
            && (forall i | i in end.slots && end.slots[i].Some? :: end.refs[end.slots[i].value] > 0)
            && (end.slots == map[] ==> end.refs == TotalLoss(START, ops))
  {
    assert Balanced(START, multiset{}) by {
      assert forall h :: Holders(map[], h) == {};
    }
    RunBalanced(START, multiset{}, ops);
    RunMeans(START, ops);
    var end, lost := Run(START, ops).world, TotalLoss(START, ops);
    assert multiset{} + lost == lost;
    forall i | i in end.slots && end.slots[i].Some? ensures end.refs[end.slots[i].value] > 0 {
      HeldIsLive(end, lost, i);
    }
    if end.slots == map[] {
      assert forall h :: Holders(end.slots, h) == {};
      assert forall h :: end.refs[h] == lost[h];
      assert end.refs == lost;
    }
  }

  /** What a kernel functor call executes: a local event receives the raw handle, a copy is returned
      and the local is destroyed. */
  function Invocation(i: Id, local: Id, h: Option<Handle>): seq<Op> {
    [Construct(local), EventOut(local, h), Copy(i, local), Destroy(local)]
  }

  /** The local is null when it is written, so a successful call leaves one wrapper, one reference and
      no loss; a failed call returns a null event. Both are what a plain creation would leave. */
  lemma InvokeLosesNothing(w: World, i: Id, local: Id, h: Option<Handle>)
    requires i != local && i !in w.slots && local !in w.slots && (h.Some? ==> w.refs[h.value] == 0)
    ensures var ops := Invocation(i, local, h);
            && LegalRun(w, ops)
            && TotalLoss(w, ops) == multiset{}
            && Run(w, ops) == Step(w, Create(i, h))
  {
    hide Step, Legal, Loss;
    var create, event, copy, destroy := Construct(local), EventOut(local, h), Copy(i, local), Destroy(local);
    var w1, w2, w3, w4 := InvokeSteps(w, i, local, h);
    RunCons(w3, destroy, [], w4);
    RunCons(w2, copy, [destroy], w3);
    RunCons(w1, event, [copy, destroy], w2);
    RunCons(w, create, [event, copy, destroy], w1);
    assert [create] + [event, copy, destroy] == Invocation(i, local, h);
    assert [event] + [copy, destroy] == [event, copy, destroy];
    assert [copy] + [destroy] == [copy, destroy];
    assert [destroy] + [] == [destroy];
  }

  predicate Takes(w: World, op: Op, w': World) {
    Legal(w, op) && Step(w, op) == Ok(w') && Loss(w, op) == multiset{}
  }

  lemma TakesConstruct(w: World, i: Id)
    requires i !in w.slots
    ensures Takes(w, Construct(i), World(w.refs, w.slots[i := None]))
  {
  }

  lemma TakesEventOut(w: World, i: Id, h: Option<Handle>)
    requires i in w.slots && w.slots[i] == None && (h.Some? ==> w.refs[h.value] == 0)
    ensures Takes(w, EventOut(i, h), World(w.refs + One(h), w.slots[i := h]))
  {
    if h == None {
      assert w.refs + multiset{} == w.refs && w.slots[i := None] == w.slots;
    }
  }

  lemma TakesCopy(w: World, i: Id, from: Id)
    requires i !in w.slots && from in w.slots && (w.slots[from].Some? ==> w.refs[w.slots[from].value] > 0)
    ensures Takes(w, Copy(i, from), World(w.refs + One(w.slots[from]), w.slots[i := w.slots[from]]))
  {
    assert w.refs + multiset{} == w.refs;
  }

  lemma TakesDestroy(w: World, i: Id)
    requires i in w.slots && (w.slots[i].Some? ==> w.refs[w.slots[i].value] > 0)
    ensures Takes(w, Destroy(i), World(w.refs - One(w.slots[i]), w.slots - {i}))
  {
    assert w.refs - multiset{} == w.refs;
  }

  lemma CreateIs(w: World, i: Id, h: Option<Handle>)
    requires i !in w.slots && (h.Some? ==> w.refs[h.value] == 0)
    ensures Legal(w, Create(i, h)) && Step(w, Create(i, h)) == Ok(World(w.refs + One(h), w.slots[i := h]))
  {
    assert w.refs + multiset{} == w.refs;
  }

  lemma InvokeSteps(w: World, i: Id, local: Id, h: Option<Handle>) returns (w1: World, w2: World, w3: World, w4: World)
    requires i != local && i !in w.slots && local !in w.slots && (h.Some? ==> w.refs[h.value] == 0)
    ensures Takes(w, Construct(local), w1) && Takes(w1, EventOut(local, h), w2)
    ensures Takes(w2, Copy(i, local), w3) && Takes(w3, Destroy(local), w4)
    ensures Legal(w, Create(i, h)) && Step(w, Create(i, h)) == Ok(w4)
  {
    hide Takes, Step, Legal;
    SlotsAgree(w.slots, i, local, h);
    w1 := World(w.refs, w.slots[local := None]);
    w2 := World(w.refs + One(h), w.slots[local := h]);
    w3 := World(w.refs + One(h) + One(h), w2.slots[i := h]);
    w4 := World(w.refs + One(h), w.slots[i := h]);
    TakesConstruct(w, local);
    TakesEventOut(w1, local, h);
    TakesCopy(w2, i, local);
    assert w3.refs - One(h) == w4.refs;
    TakesDestroy(w3, local);
    CreateIs(w, i, h);
  }

  lemma SlotsAgree(slots: map<Id, Option<Handle>>, i: Id, local: Id, obj: Option<Handle>)
    requires i != local && local !in slots
    ensures slots[local := None][local := obj] == slots[local := obj]
    ensures slots[local := obj][i := obj] - {local} == slots[i := obj]
  {
  }

  lemma RunCons(w: World, op: Op, rest: seq<Op>, w1: World)
    requires !op.BaseAssign? && Legal(w, op) && Step(w, op) == Ok(w1) && LegalRun(w1, rest)
    ensures LegalRun(w, [op] + rest)
    ensures Run(w, [op] + rest) == Run(w1, rest)
    ensures TotalLoss(w, [op] + rest) == Loss(w, op) + TotalLoss(w1, rest)
  {
    hide Step, Legal, Loss;
    assert ([op] + rest)[1..] == rest;
  }

  // ---------- the wrappers and the driver as objects changed in place ----------

  /** The driver's counts and the `object_` fields of all wrappers. Besides handing out new handles,
      the counts change only in `ClRetain` and `ClRelease`, whose preconditions exclude every fault. */
  class Session {
    var refs: multiset<Handle>
    var slots: map<Id, Option<Handle>>

    ghost function Value(): World
      reads this
    {
      World(refs, slots)
    }

    constructor ()
      ensures Value() == START
    {
      refs, slots := multiset{}, map[];
    }

    method ClRetain(h: Handle)
      requires refs[h] > 0
      modifies `refs
      ensures refs == old(refs) + multiset{h}
    {
      refs := refs[h := refs[h] + 1];
    }

    method ClRelease(h: Handle)
      requires refs[h] > 0
      modifies `refs
      ensures refs == old(refs) - multiset{h}
    {
      refs := refs[h := refs[h] - 1];
    }

    method CopyConstruct(i: Id, from: Id, ghost lost: multiset<Handle>)
      requires Balanced(Value(), lost) && Legal(Value(), Copy(i, from))
      modifies this
      ensures Step(old(Value()), Copy(i, from)) == Ok(Value())
      ensures slots == PlainSlots(old(slots), Copy(i, from))
      ensures refs == PlainRefs(old(refs), old(slots), Copy(i, from))
      ensures Balanced(Value(), lost)
    {
      hide Balanced;
      CopyBalanced(Value(), lost, i, from);
      StepMeans(Value(), Copy(i, from));
      slots := slots[i := slots[from]];
      if slots[i].Some? {
        ClRetain(slots[i].value);
      }
    }

    /** The guarded assignment of the derived classes around the bare one. */
    method AssignFrom(i: Id, from: Id, ghost lost: multiset<Handle>)
      requires Balanced(Value(), lost) && Legal(Value(), Assign(i, from))
      modifies this
      ensures Step(old(Value()), Assign(i, from)) == Ok(Value())
      ensures slots == PlainSlots(old(slots), Assign(i, from))
      ensures refs == PlainRefs(old(refs), old(slots), Assign(i, from))
      ensures Balanced(Value(), lost)
    {
      hide Balanced;
      StepBalanced(Value(), lost, Assign(i, from));
      StepMeans(Value(), Assign(i, from));
      if i != from {
        BaseAssignFaultsIff(Value(), lost, i, from);
        AssignBalanced(Value(), lost, i, from);
        if slots[i].Some? {
          ClRelease(slots[i].value);
        }
        slots := slots[i := slots[from]];
        if slots[i].Some? {
          ClRetain(slots[i].value);
        }
      }
    }

    method Destruct(i: Id, ghost lost: multiset<Handle>)
      requires Balanced(Value(), lost) && Legal(Value(), Destroy(i))
      modifies this
      ensures Step(old(Value()), Destroy(i)) == Ok(Value())
      ensures slots == PlainSlots(old(slots), Destroy(i))
      ensures refs == PlainRefs(old(refs), old(slots), Destroy(i))
      ensures Balanced(Value(), lost)
    {
      hide Balanced;
      DestroyBalanced(Value(), lost, i);
      StepMeans(Value(), Destroy(i));
      if slots[i].Some? {
        ClRelease(slots[i].value);
      }
      slots := slots - {i};
    }

    /** The driver stores a new handle straight into the field and counts one reference; if the call
        fails the event is left alone. */
    method EnqueueInto(i: Id, h: Option<Handle>, ghost lost: multiset<Handle>) returns (success: bool)
      requires Balanced(Value(), lost) && Legal(Value(), EventOut(i, h))
      modifies this
      ensures success <==> h.Some?
      ensures Step(old(Value()), EventOut(i, h)) == Ok(Value())
      ensures slots == PlainSlots(old(slots), EventOut(i, h))
      ensures refs == PlainRefs(old(refs), old(slots), EventOut(i, h))
      ensures Balanced(Value(), lost + Loss(old(Value()), EventOut(i, h)))
    {
      hide Balanced;
      EventOutBalanced(Value(), lost, i, h);
      StepMeans(Value(), EventOut(i, h));
      if h == None {
        return false;
      }
      refs := refs + multiset{h.value};
      slots := slots[i := h];
      return true;
    }

    /** The query stores an object straight into the field and the binding then retains it. A failed
        query returns before the retain; retaining null reports an error and changes nothing. */
    method GetInfoInto(i: Id, reply: Reply, ghost lost: multiset<Handle>) returns (success: bool)
      requires Balanced(Value(), lost) && Legal(Value(), GetInfo(i, reply))
      modifies this
      ensures success <==> reply.Answer? && reply.obj.Some?
      ensures Step(old(Value()), GetInfo(i, reply)) == Ok(Value())
      ensures slots == PlainSlots(old(slots), GetInfo(i, reply))
      ensures refs == PlainRefs(old(refs), old(slots), GetInfo(i, reply))
      ensures Balanced(Value(), lost + Loss(old(Value()), GetInfo(i, reply)))
    {
      hide Balanced;
      GetInfoBalanced(Value(), lost, i, reply);
      StepMeans(Value(), GetInfo(i, reply));
      if reply == QueryFailed {
        return false;
      }
      slots := slots[i := reply.obj];
      if slots[i] == None {
        return false;
      }
      ClRetain(slots[i].value);
      return true;
    }

    method DestroyElements(previous: seq<Id>, ghost lost: multiset<Handle>)
      requires Balanced(Value(), lost) && Distinct(previous)
      requires forall k | 0 <= k < |previous| :: previous[k] in slots
      modifies this
      ensures DestroyAll(old(Value()), previous) == Ok(Value())
    {
      hide Balanced, DestroyStep;
      ghost var start := Value();
      for k := 0 to |previous|
        invariant Balanced(Value(), lost)
        invariant forall j | k <= j < |previous| :: previous[j] in slots
        invariant DestroyAll(start, previous) == DestroyAll(Value(), previous[k..])
      {
        DestroyBalanced(Value(), lost, previous[k]);
        assert previous[k..][1..] == previous[k + 1..];
        Destruct(previous[k], lost);
      }
    }

    method CopyElements(made: seq<(Id, Handle)>)
      requires CopyAll(Value(), made).Ok?
      modifies this
      ensures CopyAll(old(Value()), made) == Ok(Value())
    {
      ghost var start := Value();
      for k := 0 to |made|
        invariant CopyAll(start, made) == CopyAll(Value(), made[k..])
      {
        assert made[k..][1..] == made[k + 1..];
        slots := slots[made[k].0 := Some(made[k].1)];
        ClRetain(made[k].1);
      }
    }

    /** The driver fills a raw array, the vector's old elements go, and copies of the array's
        elements take their place; the array itself is never destroyed. If either driver call fails,
        nothing happens. */
    method CreateKernelsInto(previous: seq<Id>, made: Option<seq<(Id, Handle)>>, ghost lost: multiset<Handle>)
        returns (success: bool)
      requires Balanced(Value(), lost) && Legal(Value(), CreateKernels(previous, made))
      modifies this
      ensures success <==> made.Some?
      ensures Step(old(Value()), CreateKernels(previous, made)) == Ok(Value())
      ensures slots == PlainSlots(old(slots), CreateKernels(previous, made))
      ensures refs == PlainRefs(old(refs), old(slots), CreateKernels(previous, made))
      ensures Balanced(Value(), lost + Loss(old(Value()), CreateKernels(previous, made)))
    {
      hide Balanced, DestroyAll, CopyAll;
      if made == None {
        assert lost + multiset{} == lost;
        return false;
      }
      var kernels := made.value;
      CreateKernelsBalanced(Value(), lost, previous, kernels);
      StepMeans(Value(), CreateKernels(previous, made));
      RefsRaised(Value(), lost, multiset(Handles(kernels)));
      refs := refs + multiset(Handles(kernels));
      DestroyElements(previous, lost + multiset(Handles(kernels)));
      CopyElements(kernels);
      return true;
    }
  }

  lemma RefsRaised(w: World, lost: multiset<Handle>, extra: multiset<Handle>)
    requires Balanced(w, lost)
    ensures Balanced(w.(refs := w.refs + extra), lost + extra)
  {
  }
}
