/** The ring buffer shared by one inserting thread and one removing thread.

  Insert and Remove lock only their update of `Count`: the data access and the pointer updates run with
  interrupts on. A `World` is therefore the shared structure plus a program counter for each thread, and
  a run is an arbitrary schedule that moves one of the threads by one memory access at a time. Either
  thread may be the interrupt handler.

  A thread calls Insert (Remove) only within the room (bytes) its last test of the buffer promised it:
  `room` and `stock` hold what is left of that promise, whether it came from IsFull and IsEmpty or from
  a cached GetFreeCount and GetCount. A move that is not possible in a world leaves it unchanged. */
module RingConcurrency {
  import opened Bytes
  import opened RingBuffer

  datatype Producer = Outside | Storing(b: Byte) | AdvancingIn | WrappingIn | CountingUp

  datatype Consumer = Away | Loading | AdvancingOut(got: Byte) | WrappingOut(got: Byte) | CountingDown(got: Byte)

  /** `sent` lists the bytes given to Insert so far and `received` those Remove has loaded, both in order. */
  datatype World = World(
    ring: Ring,
    producer: Producer, room: nat, sent: seq<Byte>,
    consumer: Consumer, stock: nat, received: seq<Byte>)

  datatype Step =
    | TestIsFull | ReadFreeCount | CallInsert(b: Byte) | ProducerGoesOn
    | TestIsEmpty | ReadCount | CallRemove | ConsumerGoesOn

  function Start(data: seq<Byte>): World {
    World(Ring(data, 0, 0, 0), Outside, 0, [], Away, 0, [])
  }

  function Do(w: World, s: Step): World {
    match s
    case TestIsFull =>
      if w.producer.Outside? && w.ring.count != Size(w.ring) && w.room == 0 then w.(room := 1) else w
    case ReadFreeCount =>
      if w.producer.Outside? && w.ring.count <= Size(w.ring) then w.(room := Size(w.ring) - w.ring.count) else w
    case CallInsert(b) =>
      if w.producer.Outside? && w.room > 0
      then w.(producer := Storing(b), room := w.room - 1, sent := w.sent + [b])
      else w
    case ProducerGoesOn => ProducerMoves(w)
    case TestIsEmpty =>
      if w.consumer.Away? && w.ring.count != 0 && w.stock == 0 then w.(stock := 1) else w
    case ReadCount =>
      if w.consumer.Away? then w.(stock := w.ring.count) else w
    case CallRemove =>
      if w.consumer.Away? && w.stock > 0 then w.(consumer := Loading, stock := w.stock - 1) else w
    case ConsumerGoesOn => ConsumerMoves(w)
  }

  function ProducerMoves(w: World): World {
    match w.producer
    case Outside => w
    case Storing(b) =>
      if w.ring.inIdx < Size(w.ring) then w.(ring := Store(w.ring, b), producer := AdvancingIn) else w
    case AdvancingIn => w.(ring := AdvanceIn(w.ring), producer := WrappingIn)
    case WrappingIn => w.(ring := WrapIn(w.ring), producer := CountingUp)
    case CountingUp => w.(ring := CountUp(w.ring), producer := Outside)
  }

  function ConsumerMoves(w: World): World {
    match w.consumer
    case Away => w
    case Loading =>
      if w.ring.outIdx < Size(w.ring)
      then w.(consumer := AdvancingOut(Load(w.ring)), received := w.received + [Load(w.ring)])
      else w
    case AdvancingOut(b) => w.(ring := AdvanceOut(w.ring), consumer := WrappingOut(b))
    case WrappingOut(b) => w.(ring := WrapOut(w.ring), consumer := CountingDown(b))
    case CountingDown(b) => w.(ring := CountDown(w.ring), consumer := Away)
  }

  function Exec(w: World, steps: seq<Step>): World
    decreases |steps|
  {
    if steps == [] then w else Do(Exec(w, steps[..|steps| - 1]), steps[|steps| - 1])
  }

  // The invariant

  /** A byte is in its slot but `Count` does not say so yet. */
  predicate StoredUncounted(w: World) {
    w.producer.AdvancingIn? || w.producer.WrappingIn? || w.producer.CountingUp?
  }

  /** A byte has been taken but `Count` still includes it. */
  predicate LoadedUncounted(w: World) {
    w.consumer.AdvancingOut? || w.consumer.WrappingOut? || w.consumer.CountingDown?
  }

  function One(b: bool): nat {
    if b then 1 else 0
  }

  /** Where the next Store goes, whatever Insert is in the middle of. */
  function NextIn(w: World): nat {
    if w.producer.AdvancingIn? then Slot(Size(w.ring), w.ring.inIdx + 1)
    else if w.producer.WrappingIn? then Slot(Size(w.ring), w.ring.inIdx)
    else w.ring.inIdx
  }

  /** Where the next Load comes from, whatever Remove is in the middle of. */
  function NextOut(w: World): nat {
    if w.consumer.AdvancingOut? then Slot(Size(w.ring), w.ring.outIdx + 1)
    else if w.consumer.WrappingOut? then Slot(Size(w.ring), w.ring.outIdx)
    else w.ring.outIdx
  }

  /** How many bytes are stored and not yet loaded. */
  function Unread(w: World): int {
    |w.sent| - One(w.producer.Storing?) - |w.received|
  }

  /** The slot of the j-th unread byte. */
  function UnreadSlot(w: World, j: nat): nat {
    Slot(Size(w.ring), NextOut(w) + j)
  }

  predicate PointersOk(w: World) {
    && (if w.producer.WrappingIn? then 0 < w.ring.inIdx <= Size(w.ring) else w.ring.inIdx < Size(w.ring))
    && (if w.consumer.WrappingOut? then 0 < w.ring.outIdx <= Size(w.ring) else w.ring.outIdx < Size(w.ring))
    && 0 <= Unread(w)
    && NextIn(w) == Slot(Size(w.ring), NextOut(w) + Unread(w))
  }

  predicate CountOk(w: World) {
    && w.ring.count == Unread(w) - One(StoredUncounted(w)) + One(LoadedUncounted(w))
    && w.room + One(!w.producer.Outside?) + w.ring.count <= Size(w.ring)
    && w.stock + One(!w.consumer.Away?) <= w.ring.count
  }

  /** The histories agree with each other and with the bytes the two calls have in hand. */
  predicate HistoryOk(w: World) {
    && w.received <= w.sent
    && (w.producer.Storing? ==> w.sent != [] && w.producer.b == w.sent[|w.sent| - 1])
    && (LoadedUncounted(w) ==> w.received != [] && w.consumer.got == w.received[|w.received| - 1])
  }

  /** Every unread byte is in its slot. */
  ghost predicate SlotsOk(w: World) {
    && 0 <= Unread(w) <= Size(w.ring)
    && forall j :: 0 <= j < Unread(w) ==>
         && UnreadSlot(w, j) < Size(w.ring)
         && w.ring.data[UnreadSlot(w, j)] == w.sent[|w.received| + j]
  }

  predicate BooksOk(w: World) {
    && Size(w.ring) < UINT16
    && CountOk(w)
    && HistoryOk(w)
    && if Size(w.ring) == 0 then w.ring.inIdx == w.ring.outIdx == 0 else PointersOk(w)
  }

  ghost predicate Inv(w: World) {
    BooksOk(w) && SlotsOk(w)
  }

  lemma StoreKeepsSlots(w: World)
    requires Inv(w) && w.producer.Storing?
    ensures SlotsOk(ProducerMoves(w))
  {
    var w' := ProducerMoves(w);
    forall j | 0 <= j < Unread(w')
      ensures UnreadSlot(w', j) < Size(w.ring) && w'.ring.data[UnreadSlot(w', j)] == w'.sent[|w'.received| + j]
    {
      assert UnreadSlot(w', j) == UnreadSlot(w, j);
      assert j < Unread(w) ==> UnreadSlot(w, j) != w.ring.inIdx;
    }
  }

  lemma LoadKeepsSlots(w: World)
    requires Inv(w) && w.consumer.Loading?
    ensures SlotsOk(ConsumerMoves(w))
  {
    var w' := ConsumerMoves(w);
    assert UnreadSlot(w, 0) == w.ring.outIdx;
    forall j | 0 <= j < Unread(w')
      ensures UnreadSlot(w', j) < Size(w.ring) && w'.ring.data[UnreadSlot(w', j)] == w'.sent[|w'.received| + j]
    {
      assert UnreadSlot(w', j) == UnreadSlot(w, j + 1);
    }
  }

  /** The byte that is loaded is the oldest unread one. */
  lemma LoadKeepsBooks(w: World)
    requires Inv(w) && w.consumer.Loading?
    ensures BooksOk(ConsumerMoves(w))
  {
    assert UnreadSlot(w, 0) == w.ring.outIdx;
  }

  lemma ProducerKeepsCounts(w: World)
    requires BooksOk(w)
    ensures CountOk(ProducerMoves(w)) && HistoryOk(ProducerMoves(w))
  {
  }

  lemma ProducerKeepsPointers(w: World)
    requires Inv(w) && Size(w.ring) > 0
    ensures PointersOk(ProducerMoves(w))
  {
    var w' := ProducerMoves(w);
    assert NextOut(w') == NextOut(w) && w'.ring.outIdx == w.ring.outIdx;
    if w.producer.Storing? {
      assert NextIn(w') == Slot(Size(w.ring), w.ring.inIdx + 1) && Unread(w') == Unread(w) + 1;
    } else {
      assert NextIn(w') == NextIn(w) && Unread(w') == Unread(w);
    }
  }

  lemma ConsumerKeepsCounts(w: World)
    requires BooksOk(w) && !w.consumer.Loading?
    ensures CountOk(ConsumerMoves(w)) && HistoryOk(ConsumerMoves(w))
  {
  }

  lemma ConsumerKeepsPointers(w: World)
    requires Inv(w) && !w.consumer.Loading? && Size(w.ring) > 0
    ensures PointersOk(ConsumerMoves(w))
  {
    var w' := ConsumerMoves(w);
    assert Unread(w') == Unread(w) && NextIn(w') == NextIn(w) && w'.ring.inIdx == w.ring.inIdx;
    assert NextOut(w') == NextOut(w);
  }

  /** All other moves change pointers, counts and promises only: every unread byte stays where it is. */
  lemma SlotsStay(w: World, w': World)
    requires SlotsOk(w)
    requires w'.ring.data == w.ring.data && w'.received == w.received
    requires Unread(w') == Unread(w) && w.sent <= w'.sent
    requires NextOut(w') == NextOut(w)
    ensures SlotsOk(w')
  {
    forall j: nat ensures UnreadSlot(w', j) == UnreadSlot(w, j) {
    }
  }

  lemma ProducerMoveKeepsInv(w: World)
    requires Inv(w)
    ensures Inv(ProducerMoves(w))
  {
    ProducerKeepsCounts(w);
    if Size(w.ring) > 0 {
      ProducerKeepsPointers(w);
    }
    if w.producer.Storing? {
      StoreKeepsSlots(w);
    } else {
      SlotsStay(w, ProducerMoves(w));
    }
  }

  lemma ConsumerMoveKeepsInv(w: World)
    requires Inv(w)
    ensures Inv(ConsumerMoves(w))
  {
    if w.consumer.Loading? {
      LoadKeepsBooks(w);
      LoadKeepsSlots(w);
    } else {
      ConsumerKeepsCounts(w);
      if Size(w.ring) > 0 {
        ConsumerKeepsPointers(w);
      }
      SlotsStay(w, ConsumerMoves(w));
    }
  }

  lemma ProducerCallKeepsInv(w: World, s: Step)
    requires Inv(w) && (s.TestIsFull? || s.ReadFreeCount? || s.CallInsert?)
    ensures Inv(Do(w, s))
  {
    SlotsStay(w, Do(w, s));
  }

  lemma ConsumerCallKeepsInv(w: World, s: Step)
    requires Inv(w) && (s.TestIsEmpty? || s.ReadCount? || s.CallRemove?)
    ensures Inv(Do(w, s))
  {
    SlotsStay(w, Do(w, s));
  }

  lemma StepKeepsInv(w: World, s: Step)
    requires Inv(w)
    ensures Inv(Do(w, s))
  {
    if s.ProducerGoesOn? {
      ProducerMoveKeepsInv(w);
    } else if s.ConsumerGoesOn? {
      ConsumerMoveKeepsInv(w);
    } else if s.TestIsFull? || s.ReadFreeCount? || s.CallInsert? {
      ProducerCallKeepsInv(w, s);
    } else {
      ConsumerCallKeepsInv(w, s);
    }
  }

  lemma {:induction false} RunKeepsInv(w: World, steps: seq<Step>)
    requires Inv(w)
    ensures Inv(Exec(w, steps))
    decreases |steps|
  {
    if steps != [] {
      var before := Exec(w, steps[..|steps| - 1]);
      RunKeepsInv(w, steps[..|steps| - 1]);
      StepKeepsInv(before, steps[|steps| - 1]);
    }
  }

  lemma {:induction false} RunKeepsSize(w: World, steps: seq<Step>)
    ensures Size(Exec(w, steps).ring) == Size(w.ring)
    decreases |steps|
  {
    if steps != [] {
      RunKeepsSize(w, steps[..|steps| - 1]);
    }
  }

  lemma StartIsInv(data: seq<Byte>)
    requires |data| < UINT16
    ensures Inv(Start(data))
  {
  }

  lemma EveryRunKeepsInv(data: seq<Byte>, steps: seq<Step>)
    requires |data| < UINT16
    ensures Inv(Exec(Start(data), steps)) && Size(Exec(Start(data), steps).ring) == |data|
  {
    StartIsInv(data);
    RunKeepsInv(Start(data), steps);
    RunKeepsSize(Start(data), steps);
  }

  // What every interleaving guarantees

  /** First in, first out: what has been read is, byte for byte, the start of what has been inserted, and at
    most `Size` stored bytes behind it. A Remove about to return hands over the last byte it read. */
  lemma {:induction false} EveryInterleavingIsFifo(data: seq<Byte>, steps: seq<Step>)
    requires |data| < UINT16
    ensures var w := Exec(Start(data), steps);
            && w.received <= w.sent
            && Unread(w) <= |data|
            && (w.consumer.CountingDown? ==> w.received != [] && w.consumer.got == w.received[|w.received| - 1])
  {
    EveryRunKeepsInv(data, steps);
  }

  /** An Insert that is about to store writes inside the storage, to a slot that holds no unread byte. */
  lemma {:induction false} NoUnreadByteIsOverwritten(data: seq<Byte>, steps: seq<Step>)
    requires |data| < UINT16
    requires Exec(Start(data), steps).producer.Storing?
    ensures var w := Exec(Start(data), steps);
            && w.ring.inIdx < Size(w.ring)
            && forall j :: 0 <= j < Unread(w) ==> UnreadSlot(w, j) != w.ring.inIdx
  {
    EveryRunKeepsInv(data, steps);
  }

  /** A Remove that is about to load finds an unread byte, and it is the oldest one. */
  lemma {:induction false} NoRemoveUnderflows(data: seq<Byte>, steps: seq<Step>)
    requires |data| < UINT16
    requires Exec(Start(data), steps).consumer.Loading?
    ensures var w := Exec(Start(data), steps);
            && w.ring.outIdx < Size(w.ring)
            && |w.received| < |w.sent|
            && Load(w.ring) == w.sent[|w.received|]
  {
    EveryRunKeepsInv(data, steps);
    var w := Exec(Start(data), steps);
    assert UnreadSlot(w, 0) == w.ring.outIdx;
  }

  /** GetCount tells the consumer no more than there is to read, and GetFreeCount tells the producer no
    more than there is room for, whatever the other thread is in the middle of. */
  lemma {:induction false} SampledCountsAreSafe(data: seq<Byte>, steps: seq<Step>)
    requires |data| < UINT16
    ensures var w := Exec(Start(data), steps);
            && (w.consumer.Away? ==> w.ring.count <= Unread(w))
            && (w.producer.Outside? ==> Size(w.ring) - w.ring.count <= Size(w.ring) - Unread(w))
  {
    EveryRunKeepsInv(data, steps);
  }

  /** What the tests tell. IsFull entitles the producer to an Insert exactly when the bytes stored and not yet
    removed are fewer than the size, where a byte that Remove has loaded but not yet counted still takes up its
    place. IsEmpty entitles the consumer to a Remove exactly when there is a byte besides the one, if any, that
    Insert is still busy with. The counts tell how many there are. */
  lemma {:induction false} TestsTellWhatThereIs(data: seq<Byte>, steps: seq<Step>)
    requires |data| < UINT16
    ensures var w := Exec(Start(data), steps);
            var taken := |w.sent| - |w.received| + One(!w.consumer.Away? && !w.consumer.Loading?);
            w.producer.Outside? ==>
              && w.ring.count == taken <= |data|
              && (w.room == 0 ==> Do(w, TestIsFull) == w.(room := if taken < |data| then 1 else 0))
              && Do(w, ReadFreeCount) == w.(room := |data| - taken)
    ensures var w := Exec(Start(data), steps);
            var there := |w.sent| - |w.received| - One(!w.producer.Outside?);
            w.consumer.Away? ==>
              && w.ring.count == there >= 0
              && (w.stock == 0 ==> Do(w, TestIsEmpty) == w.(stock := if there > 0 then 1 else 0))
              && Do(w, ReadCount) == w.(stock := there)
  {
    EveryRunKeepsInv(data, steps);
  }

  /** A cached count lasts: once the consumer has read GetCount as n, whatever the producer then does, each
    of the next n calls of Remove is served, and only those. (`stock` is what is left of n; a Remove
    under way that has not loaded yet is the one byte not accounted for by the other two terms.) */
  lemma {:induction false} CachedCountLasts(data: seq<Byte>, before: seq<Step>, after: seq<Step>)
    requires |data| < UINT16
    requires Exec(Start(data), before).consumer.Away?
    requires forall s :: s in after ==> !s.TestIsEmpty? && !s.ReadCount?
    ensures var n := Exec(Start(data), before).ring.count;
            var w0 := Do(Exec(Start(data), before), ReadCount);
            var w := Exec(w0, after);
            && n == w.stock + One(w.consumer.Loading?) + (|w.received| - |w0.received|)
            && w.stock + One(w.consumer.Loading?) <= Unread(w)
  {
    var w0 := Do(Exec(Start(data), before), ReadCount);
    EveryRunKeepsInv(data, before);
    StepKeepsInv(Exec(Start(data), before), ReadCount);
    RunKeepsInv(w0, after);
    StockPlusReceivedIsKept(w0, after);
  }

  lemma {:induction false} StockPlusReceivedIsKept(w: World, steps: seq<Step>)
    requires forall s :: s in steps ==> !s.TestIsEmpty? && !s.ReadCount?
    ensures var w' := Exec(w, steps);
            w'.stock + One(w'.consumer.Loading?) + |w'.received| == w.stock + One(w.consumer.Loading?) + |w.received|
    decreases |steps|
  {
    if steps != [] {
      assert steps[|steps| - 1] in steps;
      StockPlusReceivedIsKept(w, steps[..|steps| - 1]);
    }
  }

  /** The same for the producer: once it has read GetFreeCount as m, whatever the consumer then does, each
    of the next m calls of Insert finds room, and only those. */
  lemma {:induction false} CachedFreeCountLasts(data: seq<Byte>, before: seq<Step>, after: seq<Step>)
    requires |data| < UINT16
    requires Exec(Start(data), before).producer.Outside?
    requires forall s :: s in after ==> !s.TestIsFull? && !s.ReadFreeCount?
    ensures var m := |data| - Exec(Start(data), before).ring.count;
            var w0 := Do(Exec(Start(data), before), ReadFreeCount);
            var w := Exec(w0, after);
            && m == w.room + (|w.sent| - |w0.sent|)
            && w.room + One(w.producer.Storing?) <= |data| - Unread(w)
  {
    var w0 := Do(Exec(Start(data), before), ReadFreeCount);
    EveryRunKeepsInv(data, before);
    StepKeepsInv(Exec(Start(data), before), ReadFreeCount);
    RunKeepsInv(w0, after);
    RunKeepsSize(w0, after);
    RoomPlusSentIsKept(w0, after);
  }

  lemma {:induction false} RoomPlusSentIsKept(w: World, steps: seq<Step>)
    requires forall s :: s in steps ==> !s.TestIsFull? && !s.ReadFreeCount?
    ensures var w' := Exec(w, steps);
            w'.room + |w'.sent| == w.room + |w.sent|
    decreases |steps|
  {
    if steps != [] {
      assert steps[|steps| - 1] in steps;
      RoomPlusSentIsKept(w, steps[..|steps| - 1]);
    }
  }

  /** When neither thread is inside a call, the structure is the sequential ring buffer again, and it holds
    exactly the bytes inserted and not yet removed: none was lost or made up on the way. */
  lemma {:induction false} QuietBufferHoldsTheUnreadBytes(data: seq<Byte>, steps: seq<Step>)
    requires |data| < UINT16
    requires Exec(Start(data), steps).producer.Outside? && Exec(Start(data), steps).consumer.Away?
    ensures var w := Exec(Start(data), steps);
            WellFormed(w.ring) && w.sent == w.received + Contents(w.ring)
  {
    EveryRunKeepsInv(data, steps);
    QuietWorld(Exec(Start(data), steps));
  }

  lemma QuietWorld(w: World)
    requires Inv(w) && w.producer.Outside? && w.consumer.Away?
    ensures WellFormed(w.ring) && w.sent == w.received + Contents(w.ring)
  {
    var waiting := Contents(w.ring);
    forall j | 0 <= j < |waiting| ensures waiting[j] == w.sent[|w.received| + j] {
      assert waiting[j] == w.ring.data[UnreadSlot(w, j)];
    }
  }

  /** Undisturbed, the moves of a call add up to the sequential operation. */
  lemma UndisturbedInsertIsSequential(w: World, b: Byte)
    requires w.producer.Outside? && w.room > 0 && PointersInStorage(w.ring)
    ensures Exec(w, [CallInsert(b)] + [ProducerGoesOn] + [ProducerGoesOn] + [ProducerGoesOn] + [ProducerGoesOn])
            == w.(ring := Inserted(w.ring, b), room := w.room - 1, sent := w.sent + [b])
  {
    ExecFive(w, CallInsert(b), ProducerGoesOn);
    var w1 := w.(producer := Storing(b), room := w.room - 1, sent := w.sent + [b]);
    assert Do(w, CallInsert(b)) == w1;
    var w2 := w1.(ring := Store(w.ring, b), producer := AdvancingIn);
    assert Do(w1, ProducerGoesOn) == w2;
    var w3 := w2.(ring := AdvanceIn(w2.ring), producer := WrappingIn);
    assert Do(w2, ProducerGoesOn) == w3;
    assert Do(w3, ProducerGoesOn) == w3.(ring := WrapIn(w3.ring), producer := CountingUp);
  }

  lemma UndisturbedRemoveIsSequential(w: World)
    requires w.consumer.Away? && w.stock > 0 && PointersInStorage(w.ring)
    ensures Exec(w, [CallRemove] + [ConsumerGoesOn] + [ConsumerGoesOn] + [ConsumerGoesOn] + [ConsumerGoesOn])
            == w.(ring := Removed(w.ring), stock := w.stock - 1, received := w.received + [Load(w.ring)])
  {
    ExecFive(w, CallRemove, ConsumerGoesOn);
    var b := Load(w.ring);
    var w1 := w.(consumer := Loading, stock := w.stock - 1);
    assert Do(w, CallRemove) == w1;
    var w2 := w1.(consumer := AdvancingOut(b), received := w.received + [b]);
    assert Do(w1, ConsumerGoesOn) == w2;
    var w3 := w2.(ring := AdvanceOut(w.ring), consumer := WrappingOut(b));
    assert Do(w2, ConsumerGoesOn) == w3;
    assert Do(w3, ConsumerGoesOn) == w3.(ring := WrapOut(w3.ring), consumer := CountingDown(b));
  }

  lemma ExecFive(w: World, s: Step, t: Step)
    ensures Exec(w, [s] + [t] + [t] + [t] + [t]) == Do(Do(Do(Do(Do(w, s), t), t), t), t)
  {
    assert [s][..0] == [];
    ExecLast(w, [s], t);
    ExecLast(w, [s] + [t], t);
    ExecLast(w, [s] + [t] + [t], t);
    ExecLast(w, [s] + [t] + [t] + [t], t);
  }

  lemma ExecLast(w: World, steps: seq<Step>, s: Step)
    ensures Exec(w, steps + [s]) == Do(Exec(w, steps), s)
  {
    assert (steps + [s])[..|steps|] == steps;
  }

  /** Why only one thread may insert: two Inserts whose stores both come first put their bytes in the same
    slot, and the buffer then counts two bytes while the first one is gone. */
  lemma TwoProducersLoseAByte(a: Byte, b: Byte, junk: Byte)
    ensures var r := Ring([junk, junk], 0, 0, 0);
            var r' := CountUp(WrapIn(AdvanceIn(CountUp(WrapIn(AdvanceIn(Store(Store(r, a), b)))))));
            WellFormed(r) && WellFormed(r') && Contents(r') == [b, junk]
  {
  }
}
