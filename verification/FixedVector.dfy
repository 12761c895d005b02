/** `cl::vector`: a fixed-capacity vector that stores its size minus one in an unsigned field. */
module FixedVector {

  const TWO32 := 0x1_0000_0000
  const INT_MAX := 0x7FFF_FFFF

  // ---------- bounded sequences ----------

  function Push<T>(s: seq<T>, x: T, n: nat): seq<T> {
    if |s| < n then s + [x] else s
  }

  function Pop<T>(s: seq<T>): seq<T> {
    if s == [] then [] else s[..|s| - 1]
  }

  function PushAll<T>(s: seq<T>, xs: seq<T>, n: nat): seq<T>
    decreases |xs|
  {
    if xs == [] then s else PushAll(Push(s, xs[0], n), xs[1..], n)
  }

  function Take<T>(s: seq<T>, n: nat): seq<T> {
    if |s| <= n then s else s[..n]
  }

  /** Pushing a whole range keeps the elements that fit, in order. */
  lemma {:induction false} PushAllTakes<T>(s: seq<T>, xs: seq<T>, n: nat)
    requires |s| <= n
    ensures PushAll(s, xs, n) == Take(s + xs, n)
    decreases |xs|
  {
    if xs == [] {
      assert s + xs == s;
    } else {
      PushAllTakes(Push(s, xs[0], n), xs[1..], n);
      if |s| < n {
        assert (s + [xs[0]]) + xs[1..] == s + xs;
      } else {
        assert Take(s + xs, n) == s == Take(s + xs[1..], n);
      }
    }
  }

  lemma {:induction false} PushAllSnoc<T>(s: seq<T>, xs: seq<T>, x: T, n: nat)
    ensures PushAll(s, xs + [x], n) == Push(PushAll(s, xs, n), x, n)
    decreases |xs|
  {
    if xs == [] {
      assert xs + [x] == [x] && [x][1..] == [];
      assert PushAll(Push(s, x, n), [], n) == Push(s, x, n);
    } else {
      assert (xs + [x])[1..] == xs[1..] + [x] && (xs + [x])[0] == xs[0];
      PushAllSnoc(Push(s, xs[0], n), xs[1..], x, n);
    }
  }

  /** `Store` is a write through `operator[]`, which may also hit the unused part of the array;
      `CopyVector` is `operator=` from a vector that was assigned the given elements. */
  datatype Op<T> =
    | PushBack(x: T)
    | PopBack
    | Clear
    | AssignRange(xs: seq<T>)
    | Store(index: nat, x: T)
    | CopyVector(xs: seq<T>)

  function Apply<T>(s: seq<T>, op: Op<T>, n: nat): seq<T> {
    match op
    case PushBack(x) => Push(s, x, n)
    case PopBack => Pop(s)
    case Clear => []
    case AssignRange(xs) => Take(xs, n)
    case Store(index, x) => if index < |s| then s[index := x] else s
    case CopyVector(xs) => Take(xs, n)
  }

  /** Writes stay inside the array. */
  predicate InBounds<T>(ops: seq<Op<T>>, n: nat) {
    forall k | 0 <= k < |ops| && ops[k].Store? :: ops[k].index < n
  }

  function ApplyAll<T>(s: seq<T>, ops: seq<Op<T>>, n: nat): seq<T>
    decreases |ops|
  {
    if ops == [] then s else ApplyAll(Apply(s, ops[0], n), ops[1..], n)
  }

  // ---------- the object ----------

  class Vector<T(==, 0)> {
    const n: nat
    const data: array<T>
    var sizeField: int
    var emptyField: bool

    /** The unsigned sum `size_ + 1`. */
    function Size(): int
      reads this
    {
      (sizeField + 1) % TWO32
    }

    ghost predicate Valid()
      reads this
    {
      && 0 < n < TWO32 && data.Length == n
      && 0 <= sizeField < TWO32
      && Size() <= n
      && (emptyField <==> Size() == 0)
    }

    ghost function Contents(): (s: seq<T>)
      requires Valid()
      reads this, data
      ensures |s| == Size() <= n
    {
      data[..Size()]
    }

    constructor (capacity: nat)
      requires 0 < capacity < TWO32
      ensures Valid() && n == capacity && Contents() == [] && fresh(data)
      ensures emptyField && sizeField == 0xFFFF_FFFF
    {
      n := capacity;
      data := new T[capacity];
      sizeField := TWO32 - 1;
      emptyField := true;
    }

    constructor Fill(capacity: nat, size: nat, val: T)
      requires 0 < capacity < TWO32
      ensures Valid() && n == capacity && fresh(data)
      ensures Contents() == Take(seq(size, i => val), capacity)
    {
      n := capacity;
      data := new T[capacity];
      sizeField := TWO32 - 1;
      emptyField := true;
      new;
      ghost var all := seq(size, i => val);
      for i := 0 to size
        invariant Valid() && fresh(data)
        invariant Contents() == PushAll([], all[..i], n)
      {
        assert all[..i + 1] == all[..i] + [val];
        PushAllSnoc([], all[..i], val, n);
        PushBackElement(val);
      }
      assert all[..size] == all;
      PushAllTakes([], all, n);
      assert [] + all == all;
    }

    method ClearAll()
      requires Valid()
      modifies this
      ensures Valid() && Contents() == Apply(old(Contents()), Clear, n)
    {
      sizeField := TWO32 - 1;
      emptyField := true;
    }

    method PushBackElement(x: T)
      requires Valid()
      modifies this, data
      ensures Valid() && Contents() == Apply(old(Contents()), PushBack(x), n)
    {
      if Size() < n {
        sizeField := (sizeField + 1) % TWO32;
        data[sizeField] := x;
        emptyField := false;
      }
    }

    method PopBackElement()
      requires Valid()
      modifies this
      ensures Valid() && Contents() == Apply(old(Contents()), PopBack, n)
    {
      if !emptyField {
        sizeField := (sizeField + TWO32 - 1) % TWO32;
        if sizeField == TWO32 - 1 {
          emptyField := true;
        }
      }
    }

    method Assign(range: seq<T>)
      requires Valid()
      modifies this, data
      ensures Valid() && Contents() == Apply(old(Contents()), AssignRange(range), n)
    {
      ClearAll();
      var start := 0;
      while start < |range|
        invariant 0 <= start <= |range| && Valid()
        invariant Contents() == PushAll([], range[..start], n)
      {
        assert range[..start + 1] == range[..start] + [range[start]];
        PushAllSnoc([], range[..start], range[start], n);
        PushBackElement(range[start]);
        start := start + 1;
      }
      assert range[..|range|] == range;
      PushAllTakes([], range, n);
      assert [] + range == range;
    }

    /** `operator=`: copies the fields, and the elements when there are any. */
    method CopyFrom(rhs: Vector<T>)
      requires Valid() && rhs.Valid() && n == rhs.n && (this != rhs ==> data != rhs.data)
      modifies this, data
      ensures Valid() && Contents() == old(rhs.Contents())
      ensures this != rhs ==> rhs.Valid() && rhs.Contents() == old(rhs.Contents())
    {
      if this == rhs {
        return;
      }
      ghost var from := rhs.Contents();
      sizeField, emptyField := rhs.sizeField, rhs.emptyField;
      if !emptyField {
        forall i | 0 <= i < Size() {
          data[i] := rhs.data[i];
        }
      }
      assert forall i | 0 <= i < Size() :: data[i] == from[i];
    }

    method StoreElement(index: nat, x: T)
      requires Valid() && index < n
      modifies data
      ensures Valid() && Contents() == Apply(old(Contents()), Store(index, x), n)
    {
      data[index] := x;
    }

    method Equals(rhs: Vector<T>) returns (r: bool)
      requires Valid() && rhs.Valid()
      ensures r <==> Contents() == rhs.Contents()
    {
      if emptyField && rhs.emptyField {
        return true;
      }
      if Size() != rhs.Size() {
        return false;
      }
      var i := 0;
      while i < Size()
        invariant 0 <= i <= Size()
        invariant forall k | 0 <= k < i :: data[k] == rhs.data[k]
      {
        if data[i] != rhs.data[i] {
          assert Contents()[i] != rhs.Contents()[i];
          return false;
        }
        i := i + 1;
      }
      assert forall k | 0 <= k < Size() :: Contents()[k] == rhs.Contents()[k];
      return true;
    }

    /** Any sequence of operations: the object follows the bounded sequence. */
    method Perform(ops: seq<Op<T>>)
      requires Valid() && InBounds(ops, n)
      modifies this, data
      ensures Valid() && Contents() == ApplyAll(old(Contents()), ops, n)
    {
      for k := 0 to |ops|
        invariant Valid()
        invariant ApplyAll(old(Contents()), ops, n) == ApplyAll(Contents(), ops[k..], n)
      {
        assert ops[k..][1..] == ops[k + 1..];
        match ops[k]
        case PushBack(x) => PushBackElement(x);
        case PopBack => PopBackElement();
        case Clear => ClearAll();
        case AssignRange(xs) => Assign(xs);
        case Store(index, x) => StoreElement(index, x);
        case CopyVector(xs) =>
          var rhs := new Vector<T>(n);
          rhs.Assign(xs);
          CopyFrom(rhs);
      }
    }

    method Begin() returns (it: Iterator<T>)
      requires Valid()
      ensures fresh(it) && it.Value() == BeginAt(Contents())
    {
      it := new Iterator<T>(data[..Size()], if emptyField then -1 else 0);
    }

    /** The unsigned size is converted to the iterator's signed index. */
    method End() returns (it: Iterator<T>)
      requires Valid()
      ensures fresh(it) && it.Value() == EndAt(Contents())
    {
      it := new Iterator<T>(data[..Size()], if emptyField then -1 else ToInt32(Size()));
    }

    /** The standard loop, from begin() by prefix increment until end(). It visits exactly the
        elements in order; only for a vector of more than INT_MAX elements, whose end() is negative,
        does the index run into signed overflow, having visited as many as an int can count. */
    method Collect() returns (visited: seq<T>, overflow: bool)
      requires Valid()
      ensures overflow <==> Size() > 0x7FFF_FFFF
      ensures visited == if overflow then Contents()[..0x8000_0000] else Contents()
    {
      hide Contents;
      ghost var s := Contents();
      var it := Begin();
      var end := End();
      visited := [];
      while true
        invariant fresh(it) && fresh(end) && it != end
        invariant |visited| <= |s| && |visited| <= INT_MAX && visited == s[..|visited|]
        invariant it.Value() == Prefix(BeginAt(s), |visited|)
        invariant end.Value() == EndAt(s)
        decreases |s| - |visited|
      {
        PrefixReachesEnd(s, |visited|);
        var done := it.Equals(end);
        if done {
          return visited, false;
        }
        assert it.vec == s && it.index == |visited| < |s|;
        var x := it.Deref();
        assert s[..|visited| + 1] == visited + [x];
        visited := visited + [x];
        if it.index == INT_MAX {
          return visited, true;
        }
        it.PreIncrement();
      }
    }
  }

  /** Pushing and popping cancel, unless the vector was full and ignored the push. */
  lemma PopUndoesPush<T>(s: seq<T>, x: T, n: nat)
    requires |s| <= n && 0 < n
    ensures Pop(Push(s, x, n)) == s <==> |s| < n
  {
    if |s| < n {
      assert (s + [x])[..|s|] == s;
    }
  }

  // ---------- iterators ----------

  /** The fields of an iterator, which carries its own copy of the vector. */
  datatype Position<T> = Position(vec: seq<T>, index: int, initialized: bool)

  function ToInt32(u: int): int
    requires 0 <= u < TWO32
  {
    if u <= INT_MAX then u else u - TWO32
  }

  function BeginAt<T>(s: seq<T>): Position<T> {
    Position(s, if s == [] then -1 else 0, true)
  }

  function EndAt<T>(s: seq<T>): Position<T>
    requires |s| < TWO32
  {
    Position(s, if s == [] then -1 else ToInt32(|s|), true)
  }

  function Prefix<T>(p: Position<T>, times: nat): Position<T> {
    p.(index := p.index + times)
  }

  /** `it++` calls the int overload with argument 0. */
  function Postfix<T>(p: Position<T>, times: nat): Position<T>
    decreases times
  {
    if times == 0 then p else Postfix(p.(index := p.index + 0), times - 1)
  }

  /** Prefix increments reach the end after exactly |s| turns, short of signed overflow; for a vector
      longer than INT_MAX the end index is negative and is never reached. */
  lemma PrefixReachesEnd<T>(s: seq<T>, times: nat)
    requires |s| < TWO32 && times <= INT_MAX
    ensures Prefix(BeginAt(s), times) == EndAt(s) <==> times == |s|
  {
  }

  lemma {:induction false} PostfixStays<T>(p: Position<T>, times: nat)
    ensures Postfix(p, times) == p
    decreases times
  {
    if times == 0 {
    } else {
      PostfixStays(p, times - 1);
    }
  }

  lemma PostfixReachesEndIff<T>(s: seq<T>, times: nat)
    requires |s| < TWO32
    ensures Postfix(BeginAt(s), times) == EndAt(s) <==> s == []
  {
    PostfixStays(BeginAt(s), times);
  }

  class Iterator<T(==)> {
    const vec: seq<T>
    var index: int
    var initialized: bool

    ghost function Value(): Position<T>
      reads this
    {
      Position(vec, index, initialized)
    }

    constructor (snapshot: seq<T>, start: int)
      ensures Value() == Position(snapshot, start, true)
    {
      vec, index, initialized := snapshot, start, true;
    }

    method Equals(rhs: Iterator<T>) returns (r: bool)
      ensures r <==> Value() == rhs.Value()
    {
      r := vec == rhs.vec && index == rhs.index && initialized == rhs.initialized;
    }

    method PreIncrement()
      requires index < INT_MAX
      modifies `index
      ensures Value() == Prefix(old(Value()), 1)
    {
      index := index + 1;
    }

    method Advance(x: int)
      modifies `index
      ensures Value() == old(Value()).(index := old(index) + x)
    {
      index := index + x;
    }

    /** The expression `it++` supplies 0 for the unnamed int. */
    method PostIncrement()
      modifies `index
      ensures Value() == Postfix(old(Value()), 1)
    {
      Advance(0);
    }

    method Deref() returns (x: T)
      requires 0 <= index < |vec|
      ensures x == vec[index]
    {
      x := vec[index];
    }
  }
}
