/** The byte ring buffer, on its own: one caller at a time.

  `Ring` is the value of the C structure. The storage array runs from `Start` to `End`, so `inIdx`
  and `outIdx` stand for the pointers `In` and `Out` as distances from `Start`, and `Size` is the
  length of `data`. `Insert` and `Remove` are written as the separate memory accesses they are made of,
  because RingConcurrency interleaves exactly those accesses. */
module RingBuffer {
  import opened Bytes

  datatype Ring = Ring(data: seq<Byte>, inIdx: nat, outIdx: nat, count: nat)

  function Size(r: Ring): nat {
    |r.data|
  }

  // The memory accesses of Insert ...

  function Store(r: Ring, b: Byte): Ring
    requires r.inIdx < Size(r)
  {
    r.(data := r.data[r.inIdx := b])
  }

  function AdvanceIn(r: Ring): Ring {
    r.(inIdx := r.inIdx + 1)
  }

  function WrapIn(r: Ring): Ring {
    if r.inIdx == Size(r) then r.(inIdx := 0) else r
  }

  function CountUp(r: Ring): Ring {
    r.(count := Next16(r.count))
  }

  // ... and those of Remove

  function Load(r: Ring): Byte
    requires r.outIdx < Size(r)
  {
    r.data[r.outIdx]
  }

  function AdvanceOut(r: Ring): Ring {
    r.(outIdx := r.outIdx + 1)
  }

  function WrapOut(r: Ring): Ring {
    if r.outIdx == Size(r) then r.(outIdx := 0) else r
  }

  function CountDown(r: Ring): Ring {
    r.(count := Previous16(r.count))
  }

  function Inserted(r: Ring, b: Byte): Ring
    requires r.inIdx < Size(r)
  {
    CountUp(WrapIn(AdvanceIn(Store(r, b))))
  }

  function Removed(r: Ring): Ring
    requires r.outIdx < Size(r)
  {
    CountDown(WrapOut(AdvanceOut(r)))
  }

  /** The slot reached from the start of the storage by going `k` places round it, at most once. */
  function Slot(size: nat, k: nat): nat {
    if k < size then k else k - size
  }

  predicate PointersInStorage(r: Ring) {
    r.inIdx < Size(r) && r.outIdx < Size(r)
  }

  /** What InitBuffer sets up and every guarded operation keeps. */
  predicate WellFormed(r: Ring) {
    && r.count <= Size(r) < UINT16
    && if Size(r) == 0 then r.inIdx == r.outIdx == 0
       else PointersInStorage(r) && r.inIdx == Slot(Size(r), r.outIdx + r.count)
  }

  /** The bytes waiting to be removed, oldest first. */
  function Contents(r: Ring): (s: seq<Byte>)
    requires WellFormed(r)
    ensures |s| == r.count
    ensures forall i :: 0 <= i < r.count ==> s[i] == r.data[Slot(Size(r), r.outIdx + i)]
  {
    var end := r.outIdx + r.count;
    if end <= Size(r) then r.data[r.outIdx..end] else r.data[r.outIdx..] + r.data[..end - Size(r)]
  }

  /** An Insert keeps the buffer in order exactly when it was not full, and then appends. */
  lemma InsertAppendsIffNotFull(r: Ring, b: Byte)
    requires WellFormed(r) && Size(r) > 0
    ensures WellFormed(Inserted(r, b)) <==> r.count < Size(r)
    ensures r.count < Size(r) ==> Contents(Inserted(r, b)) == Contents(r) + [b]
  {
    var r' := Inserted(r, b);
    if r.count < Size(r) {
      assert r'.count == r.count + 1;
      forall i | 0 <= i < r'.count ensures Contents(r')[i] == (Contents(r) + [b])[i] {
        assert i < r.count ==> Slot(Size(r), r.outIdx + i) != r.inIdx;
      }
      assert Contents(r') == Contents(r) + [b];
    }
  }

  /** A Remove keeps the buffer in order exactly when it was not empty, and then takes the oldest byte. */
  lemma RemoveTakesOldestIffNotEmpty(r: Ring)
    requires WellFormed(r) && Size(r) > 0
    ensures WellFormed(Removed(r)) <==> r.count > 0
    ensures r.count > 0 ==> Contents(r) == [Load(r)] + Contents(Removed(r))
  {
    RemoveKeepsOrderIffNotEmpty(r);
    if r.count > 0 {
      assert |Contents(Removed(r))| == r.count - 1;
      forall i | 0 < i < r.count ensures Contents(r)[i] == Contents(Removed(r))[i - 1] {
        SlotBehind(r, i);
      }
    }
  }

  lemma RemoveKeepsOrderIffNotEmpty(r: Ring)
    requires WellFormed(r) && Size(r) > 0
    ensures WellFormed(Removed(r)) <==> r.count > 0
  {
  }

  lemma SlotBehind(r: Ring, i: nat)
    requires WellFormed(r) && Size(r) > 0 && 0 < i < r.count
    ensures Slot(Size(r), Removed(r).outIdx + (i - 1)) == Slot(Size(r), r.outIdx + i)
  {
  }

  class RingBuffer {
    const storage: array<Byte>
    const size: nat
    var inIdx: nat
    var outIdx: nat
    var count: nat

    ghost predicate Allocated() {
      size <= storage.Length && size < UINT16
    }

    ghost function Value(): Ring
      reads this, storage
      requires Allocated()
    {
      Ring(storage[..size], inIdx, outIdx, count)
    }

    ghost predicate Valid()
      reads this, storage
    {
      Allocated() && WellFormed(Value())
    }

    /** The caller supplies the storage, which may be longer than the part handed over. */
    constructor InitBuffer(storage: array<Byte>, size: nat)
      requires size <= storage.Length && size < UINT16
      ensures this.storage == storage && this.size == size
      ensures Valid() && Contents(Value()) == []
    {
      this.storage := storage;
      this.size := size;
      inIdx := 0;
      outIdx := 0;
      count := 0;
    }

    method GetCount() returns (n: nat)
      requires Valid()
      ensures n == |Contents(Value())|
    {
      n := count;
    }

    method GetFreeCount() returns (n: nat)
      requires Valid()
      ensures n + |Contents(Value())| == size
    {
      var used := GetCount();
      n := size - used;
    }

    method IsEmpty() returns (empty: bool)
      requires Valid()
      ensures empty <==> Contents(Value()) == []
    {
      var n := GetCount();
      empty := n == 0;
    }

    method IsFull() returns (full: bool)
      requires Valid()
      ensures full <==> |Contents(Value())| == size
    {
      var n := GetCount();
      full := n == size;
    }

    /** Callers should test IsFull first; what happens when they do not is part of the contract. */
    method Insert(b: Byte)
      requires Valid() && size > 0
      modifies this`inIdx, this`count, storage
      ensures Allocated() && Value() == Inserted(old(Value()), b)
      ensures Valid() <==> old(count) < size
      ensures old(count) < size ==> Contents(Value()) == old(Contents(Value())) + [b]
      ensures storage[size..] == old(storage[size..])
    {
      InsertAppendsIffNotFull(Value(), b);
      ghost var was := Value();
      storage[inIdx] := b;
      assert Value() == Store(was, b);
      inIdx := inIdx + 1;
      if inIdx == size {
        inIdx := 0;
      }
      count := Next16(count);
    }

    /** Callers should test IsEmpty first; what happens when they do not is part of the contract. */
    method Remove() returns (b: Byte)
      requires Valid() && size > 0
      modifies this`outIdx, this`count
      ensures Value() == Removed(old(Value()))
      ensures Valid() <==> old(count) > 0
      ensures old(count) > 0 ==> old(Contents(Value())) == [b] + Contents(Value())
    {
      RemoveTakesOldestIffNotEmpty(Value());
      b := storage[outIdx];
      outIdx := outIdx + 1;
      if outIdx == size {
        outIdx := 0;
      }
      count := Previous16(count);
    }

    method Peek() returns (b: Byte)
      requires Valid() && size > 0
      ensures b == Load(Value())
      ensures count > 0 ==> b == Contents(Value())[0]
    {
      assert count > 0 ==> Contents(Value())[0] == Value().data[outIdx];
      b := storage[outIdx];
    }
  }
}
