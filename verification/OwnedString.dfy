/** `cl::string`: strings that own heap buffers, copied by value. */
module OwnedString {
  import opened Options

  type Addr = nat
  type Id = nat

  /** The two fields of a string; `buf` None is the null pointer. */
  datatype Str = Str(size: nat, buf: Option<Addr>)

  /** The buffers allocated and not yet freed, and the constructed strings. */
  datatype World = World(heap: map<Addr, seq<char>>, strs: map<Id, Str>)

  /** A fault is a read or a free of a buffer that is not allocated. */
  datatype Outcome = Ok(world: World) | Fault

  /** `place` is what the allocator returns if it is asked: an unused address, or None for null. */
  datatype Op =
    | New(i: Id)
    | FromBytes(i: Id, bytes: seq<char>, place: Option<Addr>)
    | FromCString(i: Id, memory: seq<char>, place: Option<Addr>)
    | CopyOf(i: Id, from: Id, place: Option<Addr>)
    | Assign(i: Id, from: Id, place: Option<Addr>)
    | Destroy(i: Id)

  /** The length of the C string at the start of `memory`. */
  function Strlen(memory: seq<char>): (n: nat)
    requires '\0' in memory
    ensures n < |memory| && memory[n] == '\0' && forall k | 0 <= k < n :: memory[k] != '\0'
  {
    if memory[0] == '\0' then 0 else 1 + Strlen(memory[1..])
  }

  predicate Legal(w: World, op: Op) {
    match op
    case New(i) => i !in w.strs
    case FromBytes(i, _, place) => i !in w.strs && Unused(w, place)
    case FromCString(i, memory, place) => i !in w.strs && '\0' in memory && Unused(w, place)
    case CopyOf(i, from, place) => i !in w.strs && from in w.strs && Unused(w, place)
    case Assign(i, from, place) => i in w.strs && from in w.strs && Unused(w, place)
    case Destroy(i) => i in w.strs
  }

  predicate Unused(w: World, place: Option<Addr>) {
    place.Some? ==> place.value !in w.heap
  }

  function Store(w: World, i: Id, bytes: seq<char>, place: Option<Addr>): World {
    match place
    case None => w.(strs := w.strs[i := Str(0, None)])
    case Some(a) => World(w.heap[a := bytes + ['\0']], w.strs[i := Str(|bytes|, Some(a))])
  }

  /** `operator=` after its self-assignment test; it never looks at the old fields of `i`. */
  function CopyInto(w: World, i: Id, from: Id, place: Option<Addr>): Outcome
    requires from in w.strs
  {
    var rhs := w.strs[from];
    if rhs.size == 0 || rhs.buf.None? then Ok(w.(strs := w.strs[i := Str(0, None)]))
    else if rhs.buf.value !in w.heap || |w.heap[rhs.buf.value]| <= rhs.size then Fault
    else
      match place
      case None => Ok(w.(strs := w.strs[i := Str(0, None)]))
      case Some(a) =>
        var bytes := w.heap[rhs.buf.value][..rhs.size + 1];
        Ok(World(w.heap[a := bytes], w.strs[i := Str(rhs.size, Some(a))]))
  }

  function Step(w: World, op: Op): Outcome
    requires Legal(w, op)
  {
    match op
    case New(i) => Ok(w.(strs := w.strs[i := Str(0, None)]))
    case FromBytes(i, bytes, place) => Ok(Store(w, i, bytes, place))
    case FromCString(i, memory, place) => Ok(Store(w, i, memory[..Strlen(memory)], place))
    case CopyOf(i, from, place) => CopyInto(w, i, from, place)
    case Assign(i, from, place) => if i == from then Ok(w) else CopyInto(w, i, from, place)
    case Destroy(i) =>
      var s := w.strs[i];
      if s.buf.None? then Ok(w.(strs := w.strs - {i}))
      else if s.buf.value !in w.heap then Fault
      else Ok(World(w.heap - {s.buf.value}, w.strs - {i}))
  }

  // ---------- the invariant and the meaning ----------

  /** The buffer of a string is allocated, holds its bytes and a terminator, and is its alone. */
  ghost predicate Valid(w: World) {
    && (forall i | i in w.strs :: ValidStr(w, w.strs[i]))
    && (forall i, j | i in w.strs && j in w.strs && i != j && w.strs[i].buf.Some? :: w.strs[i].buf != w.strs[j].buf)
  }

  predicate ValidStr(w: World, s: Str) {
    match s.buf
    case None => s.size == 0
    case Some(a) => a in w.heap && |w.heap[a]| == s.size + 1 && w.heap[a][s.size] == '\0'
  }

  /** The text of a string: its first `size()` characters. `c_str()` shows it up to the first NUL. */
  function Text(w: World, i: Id): (t: seq<char>)
    requires i in w.strs && ValidStr(w, w.strs[i])
    ensures |t| == w.strs[i].size
  {
    match w.strs[i].buf
    case None => []
    case Some(a) => w.heap[a][..w.strs[i].size]
  }

  ghost function Texts(w: World): map<Id, seq<char>>
    requires Valid(w)
  {
    map i | i in w.strs :: Text(w, i)
  }

  /** Strings as plain values: what each operation should do, with no buffers at all. */
  function Meaning(t: map<Id, seq<char>>, op: Op): map<Id, seq<char>>
    requires op.CopyOf? || op.Assign? ==> op.from in t
    requires op.FromCString? ==> '\0' in op.memory
  {
    match op
    case New(i) => t[i := []]
    case FromBytes(i, bytes, place) => t[i := if place.Some? then bytes else []]
    case FromCString(i, memory, place) => t[i := if place.Some? then memory[..Strlen(memory)] else []]
    case CopyOf(i, from, place) => t[i := if place.Some? then t[from] else []]
    case Assign(i, from, place) => if i == from then t else t[i := if place.Some? then t[from] else []]
    case Destroy(i) => t - {i}
  }

  /** The buffer an operation makes unreachable: the one the target of an assignment owned. */
  function Dropped(w: World, op: Op): set<Addr>
    requires Legal(w, op)
  {
    match op
    case Assign(i, from, _) => if i != from && w.strs[i].buf.Some? then {w.strs[i].buf.value} else {}
    case _ => {}
  }

  ghost function Owned(w: World): set<Addr> {
    set i | i in w.strs && w.strs[i].buf.Some? :: w.strs[i].buf.value
  }

  /** Allocated and not freed: owned by a live string, or dropped. */
  ghost predicate Accounted(w: World, dropped: set<Addr>) {
    && w.heap.Keys == Owned(w) + dropped
    && Owned(w) !! dropped
  }

  // ---------- steps ----------

  /** Giving string i a new buffer, or none, and leaving every other string alone. */
  lemma ReplaceValid(w: World, i: Id, s: Str, w': World)
    requires Valid(w)
    requires w'.strs == w.strs[i := s] && ValidStr(w', s)
    requires s.buf.Some? ==> s.buf.value !in w.heap && w'.heap == w.heap[s.buf.value := w'.heap[s.buf.value]]
    requires s.buf.None? ==> w'.heap == w.heap
    ensures Valid(w')
    ensures forall k | k in w.strs && k != i :: Text(w', k) == Text(w, k)
  {
  }

  lemma ReplaceAccounted(w: World, i: Id, s: Str, w': World, dropped: set<Addr>)
    requires Valid(w) && Accounted(w, dropped)
    requires w'.strs == w.strs[i := s]
    requires s.buf.Some? ==> s.buf.value !in w.heap && w'.heap.Keys == w.heap.Keys + {s.buf.value}
    requires s.buf.None? ==> w'.heap == w.heap
    ensures Accounted(w', dropped + if i in w.strs && w.strs[i].buf.Some? then {w.strs[i].buf.value} else {})
  {
    hide ValidStr;
    var lost: set<Addr> := if i in w.strs && w.strs[i].buf.Some? then {w.strs[i].buf.value} else {};
    var gained: set<Addr> := if s.buf.Some? then {s.buf.value} else {};
    forall a | a in Owned(w') ensures a in (Owned(w) - lost) + gained {
      var k :| k in w'.strs && w'.strs[k].buf == Some(a);
      assert k != i ==> w.strs[k].buf == Some(a) && a in Owned(w);
    }
    forall a | a in (Owned(w) - lost) + gained ensures a in Owned(w') {
      if a in gained {
        assert w'.strs[i].buf == Some(a);
      } else {
        var k :| k in w.strs && w.strs[k].buf == Some(a);
        assert w'.strs[k].buf == Some(a);
      }
    }
    assert Owned(w') == (Owned(w) - lost) + gained;
  }

  /** How an operation other than destruction changes the world: one string is replaced. */
  function Replacement(w: World, op: Op): Option<(Id, Str)>
    requires Legal(w, op) && Step(w, op).Ok?
  {
    var w' := Step(w, op).world;
    if op.Destroy? || (op.Assign? && op.i == op.from) then None else Some((op.i, w'.strs[op.i]))
  }

  /** One string gets a new value, in a new buffer or in none. */
  predicate Replaced(w: World, w': World, i: Id, place: Option<Addr>, text: seq<char>) {
    && i in w'.strs && w'.strs == w.strs[i := w'.strs[i]] && ValidStr(w', w'.strs[i])
    && (match w'.strs[i].buf
        case None => w'.heap == w.heap
        case Some(a) => place == Some(a) && a in w'.heap && w'.heap == w.heap[a := w'.heap[a]])
    && Text(w', i) == text
  }

  lemma CopyReplaces(w: World, i: Id, from: Id, place: Option<Addr>)
    requires from in w.strs && ValidStr(w, w.strs[from])
    ensures CopyInto(w, i, from, place).Ok?
    ensures Replaced(w, CopyInto(w, i, from, place).world, i, place, if place.Some? then Text(w, from) else [])
  {
  }

  lemma StoreReplaces(w: World, i: Id, bytes: seq<char>, place: Option<Addr>)
    ensures Replaced(w, Store(w, i, bytes, place), i, place, if place.Some? then bytes else [])
  {
  }

  lemma StepReplaces(w: World, op: Op)
    requires Valid(w) && Legal(w, op)
    ensures Step(w, op).Ok?
    ensures var w' := Step(w, op).world;
            match Replacement(w, op)
            case None => true
            case Some((i, s)) =>
              && w'.strs == w.strs[i := s] && ValidStr(w', s)
              && (s.buf.Some? ==> s.buf.value !in w.heap && s.buf.value in w'.heap
                                  && w'.heap == w.heap[s.buf.value := w'.heap[s.buf.value]])
              && (s.buf.None? ==> w'.heap == w.heap)
              && Text(w', i) == Meaning(Texts(w), op)[i]
  {
    hide CopyInto, Store, Strlen;
    match op
    case New(_) =>
    case FromBytes(i, bytes, place) => StoreReplaces(w, i, bytes, place);
    case FromCString(i, memory, place) => StoreReplaces(w, i, memory[..Strlen(memory)], place);
    case CopyOf(i, from, place) => CopyReplaces(w, i, from, place);
    case Assign(i, from, place) => CopyReplaces(w, i, from, place);
    case Destroy(i) => assert ValidStr(w, w.strs[i]);
  }

  lemma DestroyValid(w: World, i: Id)
    requires Valid(w) && i in w.strs
    ensures Step(w, Destroy(i)).Ok?
    ensures var w' := Step(w, Destroy(i)).world;
            Valid(w') && Texts(w') == Texts(w) - {i}
  {
    assert ValidStr(w, w.strs[i]);
    var w' := Step(w, Destroy(i)).world;
    forall k | k in w'.strs ensures ValidStr(w', w'.strs[k]) && Text(w', k) == Text(w, k) {
      assert ValidStr(w, w.strs[k]);
    }
  }

  lemma DestroyAccounted(w: World, i: Id, dropped: set<Addr>)
    requires Valid(w) && Accounted(w, dropped) && i in w.strs && Step(w, Destroy(i)).Ok?
    ensures Accounted(Step(w, Destroy(i)).world, dropped)
  {
    var w' := Step(w, Destroy(i)).world;
    var freed: set<Addr> := if w.strs[i].buf.Some? then {w.strs[i].buf.value} else {};
    forall a | a in Owned(w') ensures a in Owned(w) - freed {
      var k :| k in w'.strs && w'.strs[k].buf == Some(a);
      assert w.strs[k].buf == Some(a);
    }
    forall a | a in Owned(w) - freed ensures a in Owned(w') {
      var k :| k in w.strs && w.strs[k].buf == Some(a);
      assert k in w'.strs;
    }
    assert Owned(w') == Owned(w) - freed;
    assert freed <= Owned(w);
  }

  /** A replaced string shows the new text, and the others what they showed. */
  lemma ReplaceTexts(w: World, op: Op, i: Id, s: Str, w': World)
    requires Valid(w) && Valid(w') && Legal(w, op) && !op.Destroy? && op.i == i
    requires op.Assign? ==> i != op.from
    requires w'.strs == w.strs[i := s]
    requires forall k | k in w.strs && k != i :: Text(w', k) == Text(w, k)
    requires Text(w', i) == Meaning(Texts(w), op)[i]
    ensures Texts(w') == Meaning(Texts(w), op)
  {
    hide Valid, ValidStr, Text, Legal;
  }

  lemma OwnerListed(w: World, i: Id)
    requires i in w.strs && w.strs[i].buf.Some?
    ensures w.strs[i].buf.value in Owned(w)
  {
  }

  /** Every operation is safe, keeps ownership exclusive, acts on the texts as on plain values, and
      leaves unaccounted exactly the buffer an assignment drops. */
  lemma StepCorrect(w: World, op: Op, dropped: set<Addr>)
    requires Valid(w) && Accounted(w, dropped) && Legal(w, op)
    ensures Step(w, op).Ok?
    ensures var w' := Step(w, op).world;
            && Valid(w')
            && Texts(w') == Meaning(Texts(w), op)
            && Dropped(w, op) !! dropped
            && Accounted(w', dropped + Dropped(w, op))
  {
    hide Valid, ValidStr, Text, Texts, Owned, CopyInto, Store;
    assert dropped + {} == dropped;
    if op.Destroy? {
      DestroyValid(w, op.i);
      DestroyAccounted(w, op.i, dropped);
    } else if !(op.Assign? && op.i == op.from) {
      StepReplaces(w, op);
      var w' := Step(w, op).world;
      var (i, s) := Replacement(w, op).value;
      ReplaceValid(w, i, s, w');
      ReplaceAccounted(w, i, s, w', dropped);
      ReplaceTexts(w, op, i, s, w');
      if op.Assign? && w.strs[i].buf.Some? {
        OwnerListed(w, i);
      }
    }
  }

  // ---------- runs ----------

  predicate LegalRun(w: World, ops: seq<Op>)
    decreases |ops|
  {
    ops == [] ||
    (Legal(w, ops[0]) && (Step(w, ops[0]).Ok? ==> LegalRun(Step(w, ops[0]).world, ops[1..])))
  }

  function Run(w: World, ops: seq<Op>): Outcome
    requires LegalRun(w, ops)
    decreases |ops|
  {
    if ops == [] then Ok(w)
    else
      match Step(w, ops[0])
      case Fault => Fault
      case Ok(w1) => Run(w1, ops[1..])
  }

  /** The number of assignments in a run whose target owned a buffer. */
  function Drops(w: World, ops: seq<Op>): nat
    requires LegalRun(w, ops)
    decreases |ops|
  {
    if ops == [] || Step(w, ops[0]).Fault? then 0
    else |Dropped(w, ops[0])| + Drops(Step(w, ops[0]).world, ops[1..])
  }

  /** The texts that plain values would have after the run. */
  ghost function PlainRun(t: map<Id, seq<char>>, ops: seq<Op>): Option<map<Id, seq<char>>>
    decreases |ops|
  {
    if ops == [] then Some(t)
    else if ((ops[0].CopyOf? || ops[0].Assign?) && ops[0].from !in t) || (ops[0].FromCString? && '\0' !in ops[0].memory)
    then None
    else PlainRun(Meaning(t, ops[0]), ops[1..])
  }

  lemma {:induction false} RunCorrect(w: World, ops: seq<Op>, dropped: set<Addr>) returns (dropped': set<Addr>)
    requires Valid(w) && Accounted(w, dropped) && LegalRun(w, ops)
    ensures Run(w, ops).Ok?
    ensures var w' := Run(w, ops).world;
            && Valid(w')
            && PlainRun(Texts(w), ops) == Some(Texts(w'))
            && Accounted(w', dropped')
            && |dropped'| == |dropped| + Drops(w, ops)
            && |w'.heap| == |Owned(w')| + |dropped'|
    decreases |ops|
  {
    hide Valid, Accounted, Step, Legal, Dropped;
    if ops == [] {
      dropped' := dropped;
      HeapSize(w, dropped);
    } else {
      StepCorrect(w, ops[0], dropped);
      LegalSource(w, ops[0]);
      var w1 := Step(w, ops[0]).world;
      assert |dropped + Dropped(w, ops[0])| == |dropped| + |Dropped(w, ops[0])|;
      dropped' := RunCorrect(w1, ops[1..], dropped + Dropped(w, ops[0]));
    }
  }

  lemma HeapSize(w: World, dropped: set<Addr>)
    requires Accounted(w, dropped)
    ensures |w.heap| == |Owned(w)| + |dropped|
  {
    assert |w.heap.Keys| == |Owned(w) + dropped|;
  }

  lemma LegalSource(w: World, op: Op)
    requires Valid(w) && Legal(w, op)
    ensures op.CopyOf? || op.Assign? ==> op.from in Texts(w)
    ensures op.FromCString? ==> '\0' in op.memory
  {
  }

  const START := World(map[], map[])

  /** From program start: no buffer is read or freed when not allocated, every string shows what
      plain values would show, and when all strings are gone exactly the dropped buffers remain. */
  lemma ProgramStrings(ops: seq<Op>)
    requires LegalRun(START, ops)
    ensures Run(START, ops).Ok?
    ensures var end := Run(START, ops).world;
            && Valid(end)
            && PlainRun(map[], ops) == Some(Texts(end))
            && |end.heap| == |Owned(end)| + Drops(START, ops)
            && (end.strs == map[] ==> |end.heap| == Drops(START, ops))
  {
    assert Owned(START) == {} && Texts(START) == map[];
    var dropped := RunCorrect(START, ops, {});
    var end := Run(START, ops).world;
    if end.strs == map[] {
      assert Owned(end) == {};
    }
  }

  // ---------- the strings as objects changed in place ----------

  /** All buffers and the fields of all strings. Buffers are freed only by `Delete` and read only by
      `Read`, whose preconditions exclude every fault. */
  class Strings {
    var heap: map<Addr, seq<char>>
    var strs: map<Id, Str>

    ghost function Value(): World
      reads this
    {
      World(heap, strs)
    }

    constructor ()
      ensures Value() == START
    {
      heap, strs := map[], map[];
    }

    method Delete(a: Addr)
      requires a in heap
      modifies `heap
      ensures heap == old(heap) - {a}
    {
      heap := heap - {a};
    }

    function Read(a: Addr, count: nat): seq<char>
      requires a in heap && count <= |heap[a]|
      reads this
    {
      heap[a][..count]
    }

    method ConstructFrom(i: Id, bytes: seq<char>, place: Option<Addr>)
      requires Valid(Value()) && Legal(Value(), FromBytes(i, bytes, place))
      modifies this
      ensures Step(old(Value()), FromBytes(i, bytes, place)) == Ok(Value())
      ensures Valid(Value())
    {
      hide Valid, ValidStr;
      StepKeepsValid(Value(), FromBytes(i, bytes, place));
      var size := |bytes|;
      if place.Some? {
        heap := heap[place.value := bytes + ['\0']];
      } else {
        size := 0;
      }
      strs := strs[i := Str(size, place)];
    }

    /** The string found at the start of `memory`. */
    method ConstructFromCString(i: Id, memory: seq<char>, place: Option<Addr>)
      requires Valid(Value()) && Legal(Value(), FromCString(i, memory, place))
      modifies this
      ensures Step(old(Value()), FromCString(i, memory, place)) == Ok(Value())
      ensures Valid(Value())
    {
      hide Valid, ValidStr;
      ConstructFrom(i, memory[..Strlen(memory)], place);
    }

    /** `operator=` behind its self-assignment test. */
    method CopyFields(i: Id, from: Id, place: Option<Addr>)
      requires Valid(Value()) && from in strs && Unused(Value(), place)
      modifies this
      ensures CopyInto(old(Value()), i, from, place) == Ok(Value())
    {
      var rhs := strs[from];
      assert ValidStr(Value(), rhs);
      if rhs.size == 0 || rhs.buf == None {
        strs := strs[i := Str(0, None)];
      } else {
        var size := rhs.size;
        if place.Some? {
          heap := heap[place.value := Read(rhs.buf.value, size + 1)];
        } else {
          size := 0;
        }
        strs := strs[i := Str(size, place)];
      }
    }

    method AssignFrom(i: Id, from: Id, place: Option<Addr>)
      requires Valid(Value()) && Legal(Value(), Assign(i, from, place))
      modifies this
      ensures Step(old(Value()), Assign(i, from, place)) == Ok(Value())
      ensures Valid(Value())
    {
      hide Valid, ValidStr, CopyInto;
      StepKeepsValid(Value(), Assign(i, from, place));
      if i == from {
        return;
      }
      CopyFields(i, from, place);
    }

    /** Delegates to assignment while the fields are still unset. */
    method CopyConstruct(i: Id, from: Id, place: Option<Addr>)
      requires Valid(Value()) && Legal(Value(), CopyOf(i, from, place))
      modifies this
      ensures Step(old(Value()), CopyOf(i, from, place)) == Ok(Value())
      ensures Valid(Value())
    {
      hide Valid, ValidStr, CopyInto;
      StepKeepsValid(Value(), CopyOf(i, from, place));
      CopyFields(i, from, place);
    }

    method Destruct(i: Id)
      requires Valid(Value()) && Legal(Value(), Destroy(i))
      modifies this
      ensures Step(old(Value()), Destroy(i)) == Ok(Value())
      ensures Valid(Value())
    {
      StepKeepsValid(Value(), Destroy(i));
      assert ValidStr(Value(), strs[i]);
      if strs[i].buf.Some? {
        Delete(strs[i].buf.value);
      }
      strs := strs - {i};
    }

    method Size(i: Id) returns (size: nat)
      requires Valid(Value()) && i in strs
      ensures size == |Texts(Value())[i]|
    {
      assert ValidStr(Value(), strs[i]);
      size := strs[i].size;
    }

    /** What a C caller reads through the pointer: the text up to its first NUL, which is the whole
        text exactly when it contains none. */
    method CStr(i: Id) returns (shown: seq<char>)
      requires Valid(Value()) && i in strs
      ensures shown == UpToNul(Texts(Value())[i])
      ensures shown == Texts(Value())[i] <==> '\0' !in Texts(Value())[i]
    {
      assert ValidStr(Value(), strs[i]);
      ghost var text := Texts(Value())[i];
      UpToNulIsAll(text);
      if strs[i].buf == None {
        return [];
      }
      var memory := Read(strs[i].buf.value, strs[i].size + 1);
      assert memory == text + ['\0'] && memory[|text|] == '\0';
      StrlenOfText(text);
      shown := memory[..Strlen(memory)];
    }
  }

  function UpToNul(text: seq<char>): seq<char> {
    if text == [] || text[0] == '\0' then [] else [text[0]] + UpToNul(text[1..])
  }

  lemma {:induction false} UpToNulIsAll(text: seq<char>)
    ensures UpToNul(text) == text <==> '\0' !in text
  {
    if text == [] {
    } else {
      UpToNulIsAll(text[1..]);
      assert text == [text[0]] + text[1..];
    }
  }

  /** A terminated text is read up to its first NUL. */
  lemma {:induction false} StrlenOfText(text: seq<char>)
    ensures var memory := text + ['\0'];
            '\0' in memory && memory[..Strlen(memory)] == UpToNul(text)
  {
    var memory := text + ['\0'];
    assert memory[|text|] == '\0';
    if text == [] || text[0] == '\0' {
    } else {
      StrlenOfText(text[1..]);
      assert memory[1..] == text[1..] + ['\0'];
    }
  }

  lemma StepKeepsValid(w: World, op: Op)
    requires Valid(w) && Legal(w, op)
    ensures Step(w, op).Ok? && Valid(Step(w, op).world)
  {
    hide Valid, ValidStr, CopyInto, Store, Texts;
    if op.Destroy? {
      DestroyValid(w, op.i);
    } else if !(op.Assign? && op.i == op.from) {
      StepReplaces(w, op);
      var (i, s) := Replacement(w, op).value;
      ReplaceValid(w, i, s, Step(w, op).world);
    }
  }
}
