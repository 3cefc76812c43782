/** Master transfers on the two-wire bus, against any bus and any slave.

  What the bus does is an oracle: the k-th operation the master starts is finished after `delay` unsuccessful
  polls, with a status and perhaps a byte. What the master does is the list of its commands, in order. */
module TwiMaster {
  import opened Bytes
  import opened Sequences

  datatype Reply = Reply(delay: nat, twsr: Byte, data: Byte)

  type Bus = nat -> Reply

  function At(bus: Bus, k: nat): Reply {
    bus(k)
  }

  datatype Command = SendStart | Send(b: Byte) | Receive(ack: bool) | SendStop | Release

  datatype ErrorCode = NoError | BusFault | BusCaptureTimeout | SlaveResponseTimeout | SlaveNotReady | SlaveNAK

  const TW_START: Byte := 0x08
  const TW_REP_START: Byte := 0x10
  const TW_MT_SLA_ACK: Byte := 0x18
  const TW_MT_DATA_ACK: Byte := 0x28
  const TW_MT_ARB_LOST: Byte := 0x38
  const TW_MR_SLA_ACK: Byte := 0x40
  const TW_MR_DATA_ACK: Byte := 0x50
  const TW_MR_DATA_NACK: Byte := 0x58

  /** The status without the three low bits of the register. */
  function Status(r: Reply): Byte {
    r.twsr - r.twsr % 8
  }

  predicate Started(r: Reply) {
    Status(r) == TW_START || Status(r) == TW_REP_START
  }

  predicate Lost(r: Reply) {
    Status(r) == TW_MT_ARB_LOST
  }

  predicate AddressAcked(r: Reply) {
    Status(r) == TW_MT_SLA_ACK || Status(r) == TW_MR_SLA_ACK
  }

  predicate Acked(r: Reply) {
    Status(r) == TW_MT_DATA_ACK
  }

  predicate ReceivedWell(r: Reply, last: bool) {
    Status(r) == if last then TW_MR_DATA_NACK else TW_MR_DATA_ACK
  }

  /** The statuses as the bus reports them, in the upper five bits of the register. */
  lemma StatusesInBytes(r: Reply)
    ensures var status := r.twsr / 8 * 8;
            && (Started(r) <==> status == 0x08 || status == 0x10)
            && (Lost(r) <==> status == 0x38)
            && (AddressAcked(r) <==> status == 0x18 || status == 0x40)
            && (Acked(r) <==> status == 0x28)
            && (ReceivedWell(r, false) <==> status == 0x50)
            && (ReceivedWell(r, true) <==> status == 0x58)
  {
    assert r.twsr == r.twsr / 8 * 8 + r.twsr % 8;
  }

  // Starting a transmission

  datatype Capture = Captured(at: nat) | OutOfTime(at: nat) | Faulty(at: nat)

  /** The capture that begins with operation `k` is settled by operation `end`: either that one does not lose the
    arbitration, or the delays up to it use up the budget. */
  predicate Settles(bus: Bus, k: nat, budget: nat, end: nat) {
    k <= end && (!Lost(At(bus, end)) || TotalDelay(bus, k, end) >= budget)
  }

  ghost predicate CaptureEnds(bus: Bus, k: nat, budget: nat) {
    exists end: nat :: Settles(bus, k, budget, end)
  }

  /** Every capture ends. The only buses that are not fair lose one arbitration after the other for ever, and so
    quickly that they never use up the budget. */
  ghost predicate Fair(bus: Bus) {
    forall k: nat, timeoutMS: Byte :: CaptureEnds(bus, k, Budget(timeoutMS))
  }

  ghost function Settling(bus: Bus, k: nat, timeoutMS: Byte): (end: nat)
    requires Fair(bus)
    ensures Settles(bus, k, Budget(timeoutMS), end)
  {
    assert CaptureEnds(bus, k, Budget(timeoutMS));
    var end: nat :| Settles(bus, k, Budget(timeoutMS), end);
    end
  }

  /** It is enough that from some operation on no arbitration is lost. */
  lemma EndingLossesAreFair(bus: Bus, end: nat)
    requires forall k: nat :: k >= end ==> !Lost(At(bus, k))
    ensures Fair(bus)
  {
    forall k: nat, timeoutMS: Byte ensures CaptureEnds(bus, k, Budget(timeoutMS)) {
      assert Settles(bus, k, Budget(timeoutMS), if k < end then end else k);
    }
  }

  /** It is also enough that each lost arbitration takes some time. */
  lemma SlowLossesAreFair(bus: Bus)
    requires forall k: nat :: Lost(At(bus, k)) ==> At(bus, k).delay > 0
    ensures Fair(bus)
  {
    forall k: nat, timeoutMS: Byte ensures CaptureEnds(bus, k, Budget(timeoutMS)) {
      var end := SlowLossesSettle(bus, k, Budget(timeoutMS));
    }
  }

  lemma {:induction false} SlowLossesSettle(bus: Bus, k: nat, budget: nat) returns (end: nat)
    requires forall k: nat :: Lost(At(bus, k)) ==> At(bus, k).delay > 0
    ensures Settles(bus, k, budget, end)
    decreases budget
  {
    var r := At(bus, k);
    if Lost(r) && r.delay < budget {
      end := SlowLossesSettle(bus, k + 1, budget - r.delay);
    } else {
      end := k;
    }
  }

  /** And it is needed that not all are lost without any delay. */
  lemma FastLossesAreNotFair(bus: Bus, k: nat)
    requires forall i: nat :: i >= k ==> Lost(At(bus, i)) && At(bus, i).delay == 0
    ensures !Fair(bus)
  {
    forall end: nat ensures !Settles(bus, k, Budget(1), end) {
      if k <= end {
        NoDelay(bus, k, end);
      }
    }
    assert !CaptureEnds(bus, k, Budget(1));
  }

  lemma {:induction false} NoDelay(bus: Bus, k: nat, end: nat)
    requires k <= end && forall i: nat :: i >= k ==> At(bus, i).delay == 0
    ensures TotalDelay(bus, k, end) == 0
    decreases end - k
  {
    if k < end {
      NoDelay(bus, k + 1, end);
    }
  }

  /** What becomes of a START that is operation `k`, with `budget` delays left: a lost arbitration makes the
    master try again at once, within the same budget, and the capture itself takes one more delay. */
  ghost function CaptureFrom(bus: Bus, k: nat, budget: nat, end: nat): Capture
    requires Settles(bus, k, budget, end)
    decreases end - k
  {
    var r := At(bus, k);
    if r.delay >= budget then OutOfTime(k)
    else if Lost(r) then CaptureFrom(bus, k + 1, budget - r.delay, end)
    else if !Started(r) then Faulty(k)
    else if r.delay + 1 == budget then OutOfTime(k)
    else Captured(k)
  }

  /** The delays of the operations from `k` up to and including `last`. */
  function TotalDelay(bus: Bus, k: nat, last: nat): nat
    requires k <= last
    decreases last - k
  {
    At(bus, k).delay + if k == last then 0 else TotalDelay(bus, k + 1, last)
  }

  /** Operation `at` is the first one not to lose the arbitration, it is a START, and all the delays up to it
    leave more than one unit of the budget. */
  ghost predicate IsCapture(bus: Bus, k: nat, budget: nat, at: nat) {
    && k <= at
    && (forall i :: k <= i < at ==> Lost(At(bus, i)))
    && Started(At(bus, at))
    && TotalDelay(bus, k, at) + 1 < budget
  }

  /** The loop captures the bus exactly with such an operation. */
  lemma {:induction false} CapturedIff(bus: Bus, k: nat, budget: nat, end: nat, at: nat)
    requires Settles(bus, k, budget, end)
    ensures CaptureFrom(bus, k, budget, end) == Captured(at) <==> IsCapture(bus, k, budget, at)
    decreases end - k
  {
    if At(bus, k).delay < budget && Lost(At(bus, k)) {
      CapturedIff(bus, k + 1, budget - At(bus, k).delay, end, at);
      if k < at && forall i :: k + 1 <= i < at ==> Lost(At(bus, i)) {
        assert forall i :: k <= i < at ==> Lost(At(bus, i));
      }
    }
  }

  /** Operation `at` is the first one not to lose the arbitration, it is not a START, and it is done in time. */
  ghost predicate IsFault(bus: Bus, k: nat, budget: nat, at: nat) {
    && k <= at
    && (forall i :: k <= i < at ==> Lost(At(bus, i)))
    && !Lost(At(bus, at)) && !Started(At(bus, at))
    && TotalDelay(bus, k, at) < budget
  }

  lemma {:induction false} FaultyIff(bus: Bus, k: nat, budget: nat, end: nat, at: nat)
    requires Settles(bus, k, budget, end)
    ensures CaptureFrom(bus, k, budget, end) == Faulty(at) <==> IsFault(bus, k, budget, at)
    decreases end - k
  {
    if At(bus, k).delay < budget && Lost(At(bus, k)) {
      FaultyIff(bus, k + 1, budget - At(bus, k).delay, end, at);
      if k < at && forall i :: k + 1 <= i < at ==> Lost(At(bus, i)) {
        assert forall i :: k <= i < at ==> Lost(At(bus, i));
      }
    }
  }

  /** Operation `at` uses up the budget, all before it having lost the arbitration in time: it is done too late, or
    it is a START for which the budget ends with the capture itself. */
  ghost predicate IsOutOfTime(bus: Bus, k: nat, budget: nat, at: nat) {
    && k <= at
    && (forall i :: k <= i < at ==> Lost(At(bus, i)))
    && (k < at ==> TotalDelay(bus, k, at - 1) < budget)
    && (TotalDelay(bus, k, at) >= budget || (Started(At(bus, at)) && TotalDelay(bus, k, at) + 1 == budget))
  }

  lemma {:induction false} OutOfTimeIff(bus: Bus, k: nat, budget: nat, end: nat, at: nat)
    requires Settles(bus, k, budget, end)
    ensures CaptureFrom(bus, k, budget, end) == OutOfTime(at) <==> IsOutOfTime(bus, k, budget, at)
    decreases end - k
  {
    if At(bus, k).delay < budget && Lost(At(bus, k)) {
      OutOfTimeIff(bus, k + 1, budget - At(bus, k).delay, end, at);
      if k < at && forall i :: k + 1 <= i < at ==> Lost(At(bus, i)) {
        assert forall i :: k <= i < at ==> Lost(At(bus, i));
      }
    }
  }

  /** What one poll that finds the operation finished makes of the capture, with `left` delays to go. */
  lemma CaptureStep(bus: Bus, k: nat, left: nat, end: nat)
    requires left > 0 && Settles(bus, k, left + At(bus, k).delay, end)
    ensures Lost(At(bus, k)) ==> k < end && Settles(bus, k + 1, left, end)
    ensures var r := At(bus, k);
            CaptureFrom(bus, k, left + r.delay, end)
            == if Lost(r) then CaptureFrom(bus, k + 1, left, end)
               else if !Started(r) then Faulty(k)
               else if left == 1 then OutOfTime(k)
               else Captured(k)
  {
  }

  /** The result of a start, the commands it takes, and the number of the next operation. */
  datatype Outcome = Outcome(code: ErrorCode, commands: seq<Command>, next: nat)

  /** The result of a packet, all its commands, and the bytes it stores. */
  datatype Packet = Packet(code: ErrorCode, commands: seq<Command>, data: seq<Byte>)

  lemma StartsGrow(before: seq<Command>, n: nat)
    ensures before + Starts(n) + [SendStart] == before + Starts(n + 1)
  {
  }

  function Starts(n: nat): (s: seq<Command>)
    ensures |s| == n && forall i :: 0 <= i < n ==> s[i] == SendStart
  {
    seq(n, _ => SendStart)
  }

  /** The delay units that each of the two phases of a start may take. */
  function Budget(timeoutMS: Byte): nat {
    timeoutMS * 100
  }

  ghost function CaptureOf(bus: Bus, k: nat, timeoutMS: Byte): (c: Capture)
    requires Fair(bus)
    ensures c.at >= k
  {
    var end := Settling(bus, k, timeoutMS);
    CaptureIsNotBefore(bus, k, Budget(timeoutMS), end);
    CaptureFrom(bus, k, Budget(timeoutMS), end)
  }

  ghost function StartOutcome(bus: Bus, k: nat, address: Byte, timeoutMS: Byte): Outcome
    requires Fair(bus)
  {
    var capture := CaptureOf(bus, k, timeoutMS);
    var starts := Starts(capture.at + 1 - k);
    match capture
    case OutOfTime(at) => Outcome(BusCaptureTimeout, starts + [Release], at + 1)
    case Faulty(at) => Outcome(BusFault, starts + [Release], at + 1)
    case Captured(at) =>
      var r := At(bus, at + 1);
      if r.delay >= Budget(timeoutMS) then Outcome(SlaveResponseTimeout, starts + [Send(address)], at + 2)
      else if AddressAcked(r) then Outcome(NoError, starts + [Send(address)], at + 2)
      else Outcome(SlaveNotReady, starts + [Send(address), SendStop], at + 2)
  }

  lemma {:induction false} CaptureIsNotBefore(bus: Bus, k: nat, budget: nat, end: nat)
    requires Settles(bus, k, budget, end)
    ensures CaptureFrom(bus, k, budget, end).at >= k
    decreases end - k
  {
    if At(bus, k).delay < budget && Lost(At(bus, k)) {
      CaptureIsNotBefore(bus, k + 1, budget - At(bus, k).delay, end);
    }
  }

  /** A start succeeds exactly when the bus is captured within the budget and the slave acknowledges its address
    within the budget. */
  lemma StartSucceedsIff(bus: Bus, k: nat, address: Byte, timeoutMS: Byte)
    requires Fair(bus)
    ensures var budget := timeoutMS as int * 100;
            StartOutcome(bus, k, address, timeoutMS).code == NoError
            <==> exists at: nat ::
                   && IsCapture(bus, k, budget, at)
                   && AddressAcked(At(bus, at + 1)) && At(bus, at + 1).delay < budget
  {
    CaptureIs(bus, k, timeoutMS);
  }

  /** When a start fails in which way. */
  lemma StartFailsIff(bus: Bus, k: nat, address: Byte, timeoutMS: Byte)
    requires Fair(bus)
    ensures var budget, o := timeoutMS as int * 100, StartOutcome(bus, k, address, timeoutMS);
            && (o.code == BusFault <==> exists at: nat :: IsFault(bus, k, budget, at))
            && (o.code == BusCaptureTimeout <==> exists at: nat :: IsOutOfTime(bus, k, budget, at))
            && (o.code == SlaveResponseTimeout
                <==> exists at: nat :: IsCapture(bus, k, budget, at) && At(bus, at + 1).delay >= budget)
            && (o.code == SlaveNotReady
                <==> exists at: nat ::
                       && IsCapture(bus, k, budget, at)
                       && At(bus, at + 1).delay < budget && !AddressAcked(At(bus, at + 1)))
            && o.code != SlaveNAK
  {
    CaptureIs(bus, k, timeoutMS);
  }

  /** Which operation decides the capture, and how. */
  lemma CaptureIs(bus: Bus, k: nat, timeoutMS: Byte)
    requires Fair(bus)
    ensures forall at: nat :: CaptureOf(bus, k, timeoutMS) == Captured(at) <==> IsCapture(bus, k, Budget(timeoutMS), at)
    ensures forall at: nat :: CaptureOf(bus, k, timeoutMS) == Faulty(at) <==> IsFault(bus, k, Budget(timeoutMS), at)
    ensures forall at: nat ::
              CaptureOf(bus, k, timeoutMS) == OutOfTime(at) <==> IsOutOfTime(bus, k, Budget(timeoutMS), at)
  {
    var budget, end := Budget(timeoutMS), Settling(bus, k, timeoutMS);
    forall at: nat
      ensures CaptureOf(bus, k, timeoutMS) == Captured(at) <==> IsCapture(bus, k, budget, at)
      ensures CaptureOf(bus, k, timeoutMS) == Faulty(at) <==> IsFault(bus, k, budget, at)
      ensures CaptureOf(bus, k, timeoutMS) == OutOfTime(at) <==> IsOutOfTime(bus, k, budget, at)
    {
      CapturedIff(bus, k, budget, end, at);
      FaultyIff(bus, k, budget, end, at);
      OutOfTimeIff(bus, k, budget, end, at);
    }
  }

  /** The commands of a start: some STARTs, and then the address, a stop behind it if it is not acknowledged; or
    the release of the bus when it was not captured. Each START and the address is one operation. */
  lemma CommandsOfStart(bus: Bus, k: nat, address: Byte, timeoutMS: Byte)
    requires Fair(bus)
    ensures var o := StartOutcome(bus, k, address, timeoutMS);
            var addressed := o.code != BusFault && o.code != BusCaptureTimeout;
            var starts := o.next - k - if addressed then 1 else 0;
            && starts > 0
            && o.commands == seq(starts, _ => SendStart)
                             + if !addressed then [Release]
                               else if o.code == SlaveNotReady then [Send(address), SendStop]
                               else [Send(address)]
  {
    assert forall n: nat :: Starts(n) == seq(n, _ => SendStart);
  }

  /** Without the bus the address is not sent, and the bus is let go. */
  lemma NothingIsSentWithoutTheBus(bus: Bus, k: nat, address: Byte, timeoutMS: Byte)
    requires Fair(bus)
    ensures var o := StartOutcome(bus, k, address, timeoutMS);
            && o.commands != []
            && (o.code == BusFault || o.code == BusCaptureTimeout
                <==> Send(address) !in o.commands && o.commands[|o.commands| - 1] == Release)
  {
    CommandsOfStart(bus, k, address, timeoutMS);
  }

  // Sending and receiving bytes

  function Sends(bytes: seq<Byte>): (s: seq<Command>)
    ensures |s| == |bytes|
  {
    seq(|bytes|, i requires 0 <= i < |bytes| => Send(bytes[i]))
  }

  /** The first `m` of `length` bytes asked for; all are acknowledged but the last of the `length`. */
  function Receives(m: nat, length: nat): (s: seq<Command>)
    requires m <= length
    ensures |s| == m
    ensures forall i :: 0 <= i < m ==> s[i] == Receive(i != length - 1)
  {
    seq(m, i => Receive(i != length - 1))
  }

  ghost predicate AllAcked(bus: Bus, k: nat, n: int) {
    forall i :: k <= i < k + n ==> Acked(At(bus, i))
  }

  /** How many of `n` bytes are sent when sending stops after the first that is not acknowledged. */
  function SentOf(bus: Bus, k: nat, n: nat): (m: nat)
    ensures m <= n
    decreases n
  {
    if n == 0 then 0 else if !Acked(At(bus, k)) then 1 else 1 + SentOf(bus, k + 1, n - 1)
  }

  /** Whether it never stops so. */
  predicate NoneRefused(bus: Bus, k: nat, n: nat)
    decreases n
  {
    n > 0 ==> Acked(At(bus, k)) && NoneRefused(bus, k + 1, n - 1)
  }

  ghost predicate AllReceived(bus: Bus, k: nat, n: nat) {
    && (forall i :: k <= i < k + n - 1 ==> ReceivedWell(At(bus, i), false))
    && (n > 0 ==> ReceivedWell(At(bus, k + n - 1), true))
  }

  /** How many of `n` bytes are received when receiving stops after the first that goes wrong. */
  function ReceivedOf(bus: Bus, k: nat, n: nat): (m: nat)
    ensures m <= n
    decreases n
  {
    if n == 0 then 0
    else if !ReceivedWell(At(bus, k), n == 1) then 1
    else 1 + ReceivedOf(bus, k + 1, n - 1)
  }

  /** Whether it is never stopped so. */
  predicate NoneGoesWrong(bus: Bus, k: nat, n: nat)
    decreases n
  {
    n > 0 ==> ReceivedWell(At(bus, k), n == 1) && NoneGoesWrong(bus, k + 1, n - 1)
  }

  // Packets

  /** The address byte of a device: its seven bits, and whether it is to be read. */
  function AddressByte(device: Byte, read: bool): Byte {
    device - device % 2 + if read then 1 else 0
  }

  /** The bytes a write sends after a successful start, and whether all of them were acknowledged. A byte of the
    internal address that is not acknowledged does not keep the data from being sent. */
  ghost function Payload(bus: Bus, k: nat, internalAddress: seq<Byte>, data: seq<Byte>): (bool, seq<Command>) {
    var a := SentOf(bus, k, |internalAddress|);
    var d := SentOf(bus, k + a, |data|);
    (NoneRefused(bus, k, |internalAddress|) && NoneRefused(bus, k + a, |data|),
     Sends(internalAddress[..a]) + Sends(data[..d]))
  }

  /** What a write does: the code it returns and all the commands it gives. */
  ghost function WriteOutcome(bus: Bus, k: nat, device: Byte, timeoutMS: Byte,
                              internalAddress: seq<Byte>, data: seq<Byte>): Packet
    requires Fair(bus)
  {
    var o := StartOutcome(bus, k, AddressByte(device, false), timeoutMS);
    if o.code != NoError then Packet(o.code, o.commands, [])
    else
      var (acked, sent) := Payload(bus, o.next, internalAddress, data);
      Packet(if acked then NoError else SlaveNAK, o.commands + sent + [SendStop], [])
  }

  /** The second half of a read, from its own start on: the code, the commands, and the bytes stored. */
  ghost function DataOutcome(bus: Bus, k: nat, device: Byte, timeoutMS: Byte, length: nat)
    : (r: Packet)
    requires Fair(bus)
    ensures |r.data| <= length
  {
    var o := StartOutcome(bus, k, AddressByte(device, true), timeoutMS);
    if o.code != NoError then Packet(o.code, o.commands, [])
    else
      var m := ReceivedOf(bus, o.next, length);
      Packet(if NoneGoesWrong(bus, o.next, length) then NoError else SlaveNAK,
             o.commands + Receives(m, length) + [SendStop],
             DataOf(bus, o.next, m))
  }

  /** A read after its first start. Whether the internal address was acknowledged is forgotten with the second. */
  ghost function RestOfRead(bus: Bus, k: nat, device: Byte, timeoutMS: Byte,
                            internalAddress: seq<Byte>, length: nat): (r: Packet)
    requires Fair(bus)
    ensures |r.data| <= length
  {
    var a := SentOf(bus, k, |internalAddress|);
    var r := DataOutcome(bus, k + a, device, timeoutMS, length);
    Packet(r.code, Sends(internalAddress[..a]) + r.commands, r.data)
  }

  /** What a read does. */
  ghost function ReadOutcome(bus: Bus, k: nat, device: Byte, timeoutMS: Byte,
                             internalAddress: seq<Byte>, length: nat): (r: Packet)
    requires Fair(bus)
    ensures |r.data| <= length
  {
    var o := StartOutcome(bus, k, AddressByte(device, false), timeoutMS);
    if o.code != NoError then Packet(o.code, o.commands, [])
    else
      var r := RestOfRead(bus, o.next, device, timeoutMS, internalAddress, length);
      Packet(r.code, o.commands + r.commands, r.data)
  }

  /** The bytes that come with `m` operations. */
  function DataOf(bus: Bus, k: nat, m: nat): (data: seq<Byte>)
    ensures |data| == m
    ensures forall i :: 0 <= i < m ==> data[i] == At(bus, k + i).data
  {
    seq<Byte>(m, i requires i >= 0 => At(bus, k + i).data)
  }

  /** The address byte has the seven bits of the device, and is even for writing and odd for reading. */
  lemma AddressInBits(device: Byte)
    ensures AddressByte(device, false) == device / 2 * 2 && AddressByte(device, true) == device / 2 * 2 + 1
  {
    assert device == device / 2 * 2 + device % 2;
  }

  /** Some STARTs, and then this address byte. */
  ghost predicate Addresses(commands: seq<Command>, b: Byte) {
    exists n: nat ::
      && 0 < n < |commands| && (forall i :: 0 <= i < n ==> commands[i] == SendStart)
      && commands[n] == Send(b)
  }

  lemma StartAddresses(bus: Bus, k: nat, address: Byte, timeoutMS: Byte, more: seq<Command>)
    requires Fair(bus)
    requires var code := StartOutcome(bus, k, address, timeoutMS).code; code != BusFault && code != BusCaptureTimeout
    ensures Addresses(StartOutcome(bus, k, address, timeoutMS).commands + more, address)
  {
    var o := StartOutcome(bus, k, address, timeoutMS);
    CommandsOfStart(bus, k, address, timeoutMS);
    var starts := o.next - k - 1;
    assert (o.commands + more)[starts] == Send(address);
  }

  /** Whatever becomes of a write, if it addresses a slave at all it is that device, for writing. */
  lemma WriteAddressesForWriting(bus: Bus, k: nat, device: Byte, timeoutMS: Byte,
                                 internalAddress: seq<Byte>, data: seq<Byte>)
    requires Fair(bus)
    ensures var p := WriteOutcome(bus, k, device, timeoutMS, internalAddress, data);
            p.code != BusFault && p.code != BusCaptureTimeout ==> Addresses(p.commands, device / 2 * 2)
  {
    AddressInBits(device);
    var o := StartOutcome(bus, k, device / 2 * 2, timeoutMS);
    var sent := Payload(bus, o.next, internalAddress, data).1;
    if o.code == NoError {
      StartAddresses(bus, k, device / 2 * 2, timeoutMS, sent + [SendStop]);
      Associative(o.commands, sent, [SendStop]);
    } else if o.code != BusFault && o.code != BusCaptureTimeout {
      StartAddresses(bus, k, device / 2 * 2, timeoutMS, []);
      assert o.commands + [] == o.commands;
    }
  }

  /** A read addresses the device for writing first. */
  lemma ReadAddressesForWriting(bus: Bus, k: nat, device: Byte, timeoutMS: Byte,
                                internalAddress: seq<Byte>, length: nat)
    requires Fair(bus)
    ensures var o := StartOutcome(bus, k, device / 2 * 2, timeoutMS);
            var p := ReadOutcome(bus, k, device, timeoutMS, internalAddress, length);
            && (o.code != NoError ==> p == Packet(o.code, o.commands, []))
            && (o.code != BusFault && o.code != BusCaptureTimeout ==> Addresses(p.commands, device / 2 * 2))
  {
    AddressInBits(device);
    var o := StartOutcome(bus, k, device / 2 * 2, timeoutMS);
    if o.code == NoError {
      StartAddresses(bus, k, device / 2 * 2, timeoutMS,
                     RestOfRead(bus, o.next, device, timeoutMS, internalAddress, length).commands);
    } else if o.code != BusFault && o.code != BusCaptureTimeout {
      StartAddresses(bus, k, device / 2 * 2, timeoutMS, []);
      assert o.commands + [] == o.commands;
    }
  }

  /** When that succeeds, the internal address follows up to its first refused byte, and then, refused or not, a
    second start; if this one addresses a slave at all, it is the same device, for reading. */
  lemma ReadThenAddressesForReading(bus: Bus, k: nat, device: Byte, timeoutMS: Byte,
                                    internalAddress: seq<Byte>, length: nat)
    returns (a: nat, rest: seq<Command>)
    requires Fair(bus) && StartOutcome(bus, k, device / 2 * 2, timeoutMS).code == NoError
    ensures var o := StartOutcome(bus, k, device / 2 * 2, timeoutMS);
            var p := ReadOutcome(bus, k, device, timeoutMS, internalAddress, length);
            && StopsAfterRefusal(bus, o.next, |internalAddress|, a)
            && p.commands == o.commands + (Sends(internalAddress[..a]) + rest)
            && (p.code != BusFault && p.code != BusCaptureTimeout ==> Addresses(rest, device / 2 * 2 + 1))
  {
    AddressInBits(device);
    var o := StartOutcome(bus, k, device / 2 * 2, timeoutMS);
    a := SentOf(bus, o.next, |internalAddress|);
    var d := DataOutcome(bus, o.next + a, device, timeoutMS, length);
    rest := d.commands;
    RestIs(bus, o.next, device, timeoutMS, internalAddress, length, a, d);
    SentStopsAfterRefusal(bus, o.next, |internalAddress|);
    ReadGoesOn(bus, k, device, timeoutMS, internalAddress, length);
    DataAddressesForReading(bus, o.next + a, device, timeoutMS, length);
  }

  lemma ReadGoesOn(bus: Bus, k: nat, device: Byte, timeoutMS: Byte, internalAddress: seq<Byte>, length: nat)
    requires Fair(bus) && StartOutcome(bus, k, AddressByte(device, false), timeoutMS).code == NoError
    ensures var o := StartOutcome(bus, k, AddressByte(device, false), timeoutMS);
            var r := RestOfRead(bus, o.next, device, timeoutMS, internalAddress, length);
            var p := ReadOutcome(bus, k, device, timeoutMS, internalAddress, length);
            p.code == r.code && p.commands == o.commands + r.commands
  {
  }

  lemma RestIs(bus: Bus, k: nat, device: Byte, timeoutMS: Byte, internalAddress: seq<Byte>, length: nat,
               a: nat, d: Packet)
    requires Fair(bus) && a == SentOf(bus, k, |internalAddress|)
    requires d == DataOutcome(bus, k + a, device, timeoutMS, length)
    ensures RestOfRead(bus, k, device, timeoutMS, internalAddress, length)
            == Packet(d.code, Sends(internalAddress[..a]) + d.commands, d.data)
  {
  }

  lemma DataAddressesForReading(bus: Bus, k: nat, device: Byte, timeoutMS: Byte, length: nat)
    requires Fair(bus)
    ensures var p := DataOutcome(bus, k, device, timeoutMS, length);
            p.code != BusFault && p.code != BusCaptureTimeout ==> Addresses(p.commands, device / 2 * 2 + 1)
  {
    AddressInBits(device);
    var o := StartOutcome(bus, k, device / 2 * 2 + 1, timeoutMS);
    if o.code == NoError {
      var received := Receives(ReceivedOf(bus, o.next, length), length);
      StartAddresses(bus, k, device / 2 * 2 + 1, timeoutMS, received + [SendStop]);
      Associative(o.commands, received, [SendStop]);
    } else if o.code != BusFault && o.code != BusCaptureTimeout {
      StartAddresses(bus, k, device / 2 * 2 + 1, timeoutMS, []);
      assert o.commands + [] == o.commands;
    }
  }

  /** Of `n` bytes, `m` are sent: all before the last of the `m` are acknowledged, and if not all are sent, that one
    is not. */
  ghost predicate StopsAfterRefusal(bus: Bus, k: nat, n: nat, m: nat) {
    && m <= n && (n > 0 ==> m > 0)
    && AllAcked(bus, k, m - 1)
    && (m < n ==> !Acked(At(bus, k + m - 1)))
  }

  /** After a successful start a write sends both parts, each up to its first refused byte, and a stop: a refused
    internal address does not keep the data from being sent. */
  lemma WriteSendsBothParts(bus: Bus, k: nat, device: Byte, timeoutMS: Byte,
                            internalAddress: seq<Byte>, data: seq<Byte>)
    returns (a: nat, d: nat)
    requires Fair(bus) && StartOutcome(bus, k, device / 2 * 2, timeoutMS).code == NoError
    ensures var o := StartOutcome(bus, k, device / 2 * 2, timeoutMS);
            var p := WriteOutcome(bus, k, device, timeoutMS, internalAddress, data);
            && (p.code == NoError || p.code == SlaveNAK)
            && StopsAfterRefusal(bus, o.next, |internalAddress|, a)
            && StopsAfterRefusal(bus, o.next + a, |data|, d)
            && p.commands == o.commands + (Sends(internalAddress[..a]) + Sends(data[..d])) + [SendStop]
  {
    AddressInBits(device);
    var o := StartOutcome(bus, k, device / 2 * 2, timeoutMS);
    a := SentOf(bus, o.next, |internalAddress|);
    d := SentOf(bus, o.next + a, |data|);
    SentStopsAfterRefusal(bus, o.next, |internalAddress|);
    SentStopsAfterRefusal(bus, o.next + a, |data|);
  }

  lemma SentStopsAfterRefusal(bus: Bus, k: nat, n: nat)
    ensures StopsAfterRefusal(bus, k, n, SentOf(bus, k, n))
  {
    SendingStopsAtFirstNak(bus, k, n);
  }

  /** A write returns NoError exactly when the start succeeded and every byte, of the internal address and of the
    data, was acknowledged; the bus has then carried them all, in order, and one stop. */
  lemma WriteSucceedsIff(bus: Bus, k: nat, device: Byte, timeoutMS: Byte,
                         internalAddress: seq<Byte>, data: seq<Byte>)
    requires Fair(bus)
    ensures var o := StartOutcome(bus, k, AddressByte(device, false), timeoutMS);
            var Packet(code, commands, _) := WriteOutcome(bus, k, device, timeoutMS, internalAddress, data);
            && (code == NoError <==> o.code == NoError && AllAcked(bus, o.next, |internalAddress + data|))
            && (code == NoError ==> commands == o.commands + Sends(internalAddress + data) + [SendStop])
            && (code == NoError ==> StopsOnce(commands))
  {
    NoStopYet(bus, k, AddressByte(device, false), timeoutMS);
    OnlySends(internalAddress + data);
    var o := StartOutcome(bus, k, AddressByte(device, false), timeoutMS);
    PayloadSucceedsIff(bus, o.next, internalAddress, data);
    SendingStopsAtFirstNak(bus, o.next, |internalAddress + data|);
  }

  /** One stop, and nothing after it. */
  predicate StopsOnce(commands: seq<Command>) {
    commands != [] && commands[|commands| - 1] == SendStop && SendStop !in commands[..|commands| - 1]
  }

  lemma OneStop(a: seq<Command>, b: seq<Command>, c: seq<Command>, d: seq<Command>)
    requires SendStop !in a && SendStop !in b && SendStop !in c && SendStop !in d
    ensures StopsOnce(a + (b + (c + d + [SendStop])))
  {
    var commands := a + (b + (c + d + [SendStop]));
    assert commands[..|commands| - 1] == a + b + c + d;
  }

  lemma NoStopYet(bus: Bus, k: nat, address: Byte, timeoutMS: Byte)
    requires Fair(bus)
    ensures var o := StartOutcome(bus, k, address, timeoutMS);
            o.code == NoError ==> SendStop !in o.commands
  {
    var capture := CaptureOf(bus, k, timeoutMS);
  }

  lemma OnlySends(bytes: seq<Byte>)
    ensures SendStop !in Sends(bytes)
  {
  }

  lemma PayloadSucceedsIff(bus: Bus, k: nat, internalAddress: seq<Byte>, data: seq<Byte>)
    ensures var (acked, sent) := Payload(bus, k, internalAddress, data);
            && (acked <==> NoneRefused(bus, k, |internalAddress + data|))
            && (acked ==> sent == Sends(internalAddress + data))
  {
    var m := SentOf(bus, k, |internalAddress|);
    SendsAllOf(bus, k, internalAddress);
    SendsAllOf(bus, k + m, data);
    NoneRefusedSplits(bus, k, |internalAddress|, |data|);
    SendsAddUp(internalAddress, data);
  }

  lemma SendsAllOf(bus: Bus, k: nat, bytes: seq<Byte>)
    ensures NoneRefused(bus, k, |bytes|) ==> SentOf(bus, k, |bytes|) == |bytes|
                                             && bytes[..SentOf(bus, k, |bytes|)] == bytes
  {
    SendingStopsAtFirstNak(bus, k, |bytes|);
  }

  lemma {:induction false} NoneRefusedSplits(bus: Bus, k: nat, m: nat, n: nat)
    ensures NoneRefused(bus, k, m + n) <==> NoneRefused(bus, k, m) && NoneRefused(bus, k + m, n)
    decreases m
  {
    if m > 0 {
      NoneRefusedSplits(bus, k + 1, m - 1, n);
    }
  }

  /** Sending goes up to the first byte that is not acknowledged, that byte included. */
  lemma {:induction false} SendingStopsAtFirstNak(bus: Bus, k: nat, n: nat)
    ensures var m := SentOf(bus, k, n);
            && AllAcked(bus, k, m - 1)
            && (NoneRefused(bus, k, n) <==> AllAcked(bus, k, n))
            && if NoneRefused(bus, k, n) then m == n else m > 0 && !Acked(At(bus, k + m - 1))
    decreases n
  {
    if n > 0 {
      SendingStopsAtFirstNak(bus, k + 1, n - 1);
      assert AllAcked(bus, k, n) <==> Acked(At(bus, k)) && AllAcked(bus, k + 1, n - 1);
    }
  }

  lemma SendsAt(bytes: seq<Byte>, i: nat)
    requires i < |bytes|
    ensures Sends(bytes)[i] == Send(bytes[i])
  {
  }

  lemma SendsAddUp(a: seq<Byte>, b: seq<Byte>)
    ensures Sends(a + b) == Sends(a) + Sends(b)
  {
  }

  /** A read returns NoError exactly when both starts succeeded and every byte was received, acknowledged by the
    master except for the last one; the bytes are then stored, all and in order, and the last command is a stop. */
  lemma ReadSucceedsIff(bus: Bus, k: nat, device: Byte, timeoutMS: Byte, internalAddress: seq<Byte>, length: nat,
                        o: Outcome, a: nat, o2: Outcome)
    requires Fair(bus)
    requires o == StartOutcome(bus, k, AddressByte(device, false), timeoutMS)
    requires a == SentOf(bus, o.next, |internalAddress|)
    requires o2 == StartOutcome(bus, o.next + a, AddressByte(device, true), timeoutMS)
    ensures var p := ReadOutcome(bus, k, device, timeoutMS, internalAddress, length);
            && (p.code == NoError <==> o.code == NoError && o2.code == NoError && AllReceived(bus, o2.next, length))
            && (p.code == NoError ==>
                  && p.data == DataOf(bus, o2.next, length)
                  && p.commands == o.commands + (Sends(internalAddress[..a])
                                                 + (o2.commands + Receives(length, length) + [SendStop])))
  {
    var d := DataOutcome(bus, o.next + a, device, timeoutMS, length);
    DataSucceedsIff(bus, o.next + a, device, timeoutMS, length, o2);
    ReadIs(bus, k, device, timeoutMS, internalAddress, length, o, a, d);
  }

  lemma ReadIs(bus: Bus, k: nat, device: Byte, timeoutMS: Byte, internalAddress: seq<Byte>, length: nat,
               o: Outcome, a: nat, d: Packet)
    requires Fair(bus)
    requires o == StartOutcome(bus, k, AddressByte(device, false), timeoutMS)
    requires a == SentOf(bus, o.next, |internalAddress|)
    requires d == DataOutcome(bus, o.next + a, device, timeoutMS, length)
    ensures ReadOutcome(bus, k, device, timeoutMS, internalAddress, length)
            == if o.code != NoError then Packet(o.code, o.commands, [])
               else Packet(d.code, o.commands + (Sends(internalAddress[..a]) + d.commands), d.data)
  {
    RestIs(bus, o.next, device, timeoutMS, internalAddress, length, a, d);
  }

  /** The bus has then carried one stop. */
  lemma ReadStopsOnce(bus: Bus, k: nat, device: Byte, timeoutMS: Byte,
                      internalAddress: seq<Byte>, length: nat)
    requires Fair(bus)
    requires ReadOutcome(bus, k, device, timeoutMS, internalAddress, length).code == NoError
    ensures StopsOnce(ReadOutcome(bus, k, device, timeoutMS, internalAddress, length).commands)
  {
    var o := StartOutcome(bus, k, AddressByte(device, false), timeoutMS);
    var a := SentOf(bus, o.next, |internalAddress|);
    var o2 := StartOutcome(bus, o.next + a, AddressByte(device, true), timeoutMS);
    ReadSucceedsIff(bus, k, device, timeoutMS, internalAddress, length, o, a, o2);
    NoStopYet(bus, k, AddressByte(device, false), timeoutMS);
    NoStopYet(bus, o.next + a, AddressByte(device, true), timeoutMS);
    OnlySends(internalAddress[..a]);
    OneStop(o.commands, Sends(internalAddress[..a]), o2.commands, Receives(length, length));
  }

  lemma DataSucceedsIff(bus: Bus, k: nat, device: Byte, timeoutMS: Byte, length: nat, o: Outcome)
    requires Fair(bus) && o == StartOutcome(bus, k, AddressByte(device, true), timeoutMS)
    ensures var p := DataOutcome(bus, k, device, timeoutMS, length);
            && (p.code == NoError <==> o.code == NoError && AllReceived(bus, o.next, length))
            && (p.code == NoError ==>
                  && p.data == DataOf(bus, o.next, length)
                  && p.commands == o.commands + Receives(length, length) + [SendStop])
  {
    ReceivingStopsAtFirstFault(bus, o.next, length);
  }

  /** Receiving goes up to the first byte that goes wrong, that byte included. */
  lemma {:induction false} ReceivingStopsAtFirstFault(bus: Bus, k: nat, n: nat)
    ensures var m := ReceivedOf(bus, k, n);
            && (forall i :: k <= i < k + m - 1 ==> ReceivedWell(At(bus, i), false))
            && (NoneGoesWrong(bus, k, n) <==> AllReceived(bus, k, n))
            && if NoneGoesWrong(bus, k, n) then m == n else m > 0 && !ReceivedWell(At(bus, k + m - 1), m == n)
    decreases n
  {
    if n > 0 {
      ReceivingStopsAtFirstFault(bus, k + 1, n - 1);
      assert AllReceived(bus, k, n) <==> ReceivedWell(At(bus, k), n == 1) && AllReceived(bus, k + 1, n - 1);
    }
  }

  /** The buffer `was` after the bytes of `m` operations have been stored one by one. */
  function Stored(bus: Bus, k: nat, m: nat, was: seq<Byte>): (now: seq<Byte>)
    requires m <= |was|
    ensures |now| == |was|
  {
    if m == 0 then was else Stored(bus, k, m - 1, was)[m - 1 := At(bus, k + m - 1).data]
  }

  /** They fill its front, and the rest stays. */
  lemma {:induction false} StoredInFront(bus: Bus, k: nat, m: nat, was: seq<Byte>)
    requires m <= |was|
    ensures Stored(bus, k, m, was) == DataOf(bus, k, m) + was[m..]
  {
    if m > 0 {
      StoredInFront(bus, k, m - 1, was);
      assert was[m - 1..][1..] == was[m..];
    }
  }

  class Master {
    const bus: Bus
    var issued: nat
    var pollsLeft: nat
    var twdr: Byte
    var delayed: nat
    var commands: seq<Command>

    ghost predicate Valid() {
      Fair(bus)
    }

    // The registers

    /** Writing the control register with the interrupt flag set starts an operation. */
    method Write(c: Command)
      requires !c.SendStop? && !c.Release?
      modifies this
      ensures commands == old(commands) + [c] && issued == old(issued) + 1
      ensures pollsLeft == At(bus, old(issued)).delay && delayed == old(delayed) && twdr == old(twdr)
    {
      commands := commands + [c];
      pollsLeft := At(bus, issued).delay;
      issued := issued + 1;
    }

    /** A stop, or letting the bus go, is not waited for. */
    method WriteLast(c: Command)
      requires c.SendStop? || c.Release?
      modifies this`commands
      ensures commands == old(commands) + [c]
    {
      commands := commands + [c];
    }

    /** Whether the operation under way is finished. */
    method Poll() returns (finished: bool)
      modifies this`pollsLeft
      ensures finished <==> old(pollsLeft) == 0
      ensures pollsLeft == if finished then 0 else old(pollsLeft) - 1
    {
      finished := pollsLeft == 0;
      if !finished {
        pollsLeft := pollsLeft - 1;
      }
    }

    method Delay()
      modifies this`delayed
      ensures delayed == old(delayed) + 1
    {
      delayed := delayed + 1;
    }

    method StopTransmission()
      modifies this`commands
      ensures commands == old(commands) + [SendStop]
    {
      WriteLast(SendStop);
    }

    // Starting a transmission

    method StartTransmission(slaveAddress: Byte, timeoutMS: Byte) returns (code: ErrorCode)
      requires Valid()
      modifies this
      ensures var o := StartOutcome(bus, old(issued), slaveAddress, timeoutMS);
              code == o.code && issued == o.next && commands == old(commands) + o.commands
      ensures delayed <= old(delayed) + 200 * timeoutMS as int
    {
      ghost var k := issued;
      Write(SendStart);
      var timeoutRemaining, fault := Capture(k, timeoutMS);
      if fault {
        WriteLast(Release);
        return BusFault;
      }
      if timeoutRemaining == 0 {
        WriteLast(Release);
        return BusCaptureTimeout;
      }
      timeoutRemaining := AwaitAddress(slaveAddress, timeoutMS);
      if timeoutRemaining == 0 {
        return SlaveResponseTimeout;
      }
      var r := At(bus, issued - 1);
      if AddressAcked(r) {
        return NoError;
      } else {
        WriteLast(SendStop);
        return SlaveNotReady;
      }
    }

    /** The loop that captures the bus, after the START that is operation `k` has been issued. */
    method Capture(ghost k: nat, timeoutMS: Byte) returns (timeoutRemaining: nat, fault: bool)
      requires Valid() && issued == k + 1 && pollsLeft == At(bus, k).delay
      requires commands != [] && commands[|commands| - 1] == SendStart
      modifies this
      ensures var c := CaptureOf(bus, k, timeoutMS);
              && c.at >= k && issued == c.at + 1
              && commands == old(commands)[..|old(commands)| - 1] + Starts(c.at + 1 - k)
              && (fault <==> c.Faulty?)
              && (!fault ==> (timeoutRemaining > 0 <==> c.Captured?))
      ensures delayed <= old(delayed) + Budget(timeoutMS)
    {
      ghost var c, end := CaptureOf(bus, k, timeoutMS), Settling(bus, k, timeoutMS);
      ghost var before := commands[..|commands| - 1];
      fault := false;
      var busCaptured := false;
      timeoutRemaining := Budget(timeoutMS);
      ghost var at := k;
      assert Starts(1) == [SendStart];
      while timeoutRemaining > 0 && !busCaptured
        invariant k <= at && issued == at + 1
        invariant commands == before + Starts(at + 1 - k)
        invariant delayed + timeoutRemaining == old(delayed) + Budget(timeoutMS)
        invariant pollsLeft <= At(bus, at).delay
        invariant !busCaptured ==>
                    var budget := timeoutRemaining + At(bus, at).delay - pollsLeft;
                    Settles(bus, at, budget, end) && c == CaptureFrom(bus, at, budget, end)
        invariant busCaptured ==> c == if timeoutRemaining > 0 then Captured(at) else OutOfTime(at)
        decreases end - at, timeoutRemaining
      {
        var finished := Poll();
        if finished {
          CaptureStep(bus, at, timeoutRemaining, end);
          var status := Status(At(bus, issued - 1));
          if status == TW_START || status == TW_REP_START {
            busCaptured := true;
          } else if status == TW_MT_ARB_LOST {
            StartsGrow(before, at + 1 - k);
            Write(SendStart);
            at := at + 1;
            continue;
          } else {
            fault := true;
            return;
          }
        }
        Delay();
        timeoutRemaining := timeoutRemaining - 1;
      }
    }

    /** Sends the slave address and waits for an answer. */
    method AwaitAddress(slaveAddress: Byte, timeoutMS: Byte) returns (timeoutRemaining: nat)
      modifies this
      ensures commands == old(commands) + [Send(slaveAddress)] && issued == old(issued) + 1
      ensures timeoutRemaining > 0 <==> At(bus, old(issued)).delay < Budget(timeoutMS)
      ensures delayed <= old(delayed) + Budget(timeoutMS)
    {
      twdr := slaveAddress;
      Write(Send(twdr));
      timeoutRemaining := Budget(timeoutMS);
      while timeoutRemaining > 0
        invariant pollsLeft <= At(bus, old(issued)).delay
        invariant timeoutRemaining + At(bus, old(issued)).delay - pollsLeft == Budget(timeoutMS)
        invariant delayed + timeoutRemaining == old(delayed) + Budget(timeoutMS)
        invariant commands == old(commands) + [Send(slaveAddress)] && issued == old(issued) + 1
      {
        var finished := Poll();
        if finished {
          break;
        }
        Delay();
        timeoutRemaining := timeoutRemaining - 1;
      }
    }

    // Bytes

    method Await()
      modifies this`pollsLeft
      ensures pollsLeft == 0
    {
      var finished := Poll();
      while !finished
        invariant finished ==> pollsLeft == 0
        decreases !finished, pollsLeft
      {
        finished := Poll();
      }
    }

    method SendByte(b: Byte) returns (acked: bool)
      modifies this
      ensures acked <==> Acked(At(bus, old(issued)))
      ensures commands == old(commands) + [Send(b)] && issued == old(issued) + 1 && delayed == old(delayed)
    {
      twdr := b;
      Write(Send(twdr));
      Await();
      acked := Status(At(bus, issued - 1)) == TW_MT_DATA_ACK;
    }

    /** Stores the byte, whether or not it was received well. */
    method ReceiveByte(buffer: array<Byte>, place: nat, lastByte: bool) returns (ok: bool)
      requires place < buffer.Length
      modifies this, buffer
      ensures buffer[..] == old(buffer[..])[place := At(bus, old(issued)).data]
      ensures ok <==> ReceivedWell(At(bus, old(issued)), lastByte)
      ensures commands == old(commands) + [Receive(!lastByte)] && issued == old(issued) + 1 && delayed == old(delayed)
    {
      Write(Receive(!lastByte));
      Await();
      buffer[place] := At(bus, issued - 1).data;
      var status := Status(At(bus, issued - 1));
      ok := if lastByte then status == TW_MR_DATA_NACK else status == TW_MR_DATA_ACK;
    }

    /** The loop that sends bytes until one is not acknowledged. */
    method SendBytes(bytes: seq<Byte>) returns (acked: bool)
      modifies this
      ensures var m := SentOf(bus, old(issued), |bytes|);
              issued == old(issued) + m && commands == old(commands) + Sends(bytes[..m])
      ensures acked <==> NoneRefused(bus, old(issued), |bytes|)
    {
      ghost var first := issued;
      ghost var before := commands;
      var k := 0;
      while k < |bytes|
        invariant 0 <= k <= |bytes| && issued == first + k
        invariant commands == before + Sends(bytes[..k])
        invariant SentOf(bus, first, |bytes|) == k + SentOf(bus, issued, |bytes| - k)
        invariant NoneRefused(bus, first, |bytes|) <==> NoneRefused(bus, issued, |bytes| - k)
      {
        acked := SendByte(bytes[k]);
        assert bytes[..k + 1][..k] == bytes[..k];
        k := k + 1;
        if !acked {
          return;
        }
      }
      return true;
    }

    method SendPayload(internalAddress: seq<Byte>, data: seq<Byte>) returns (acked: bool)
      modifies this
      ensures var (ok, sent) := Payload(bus, old(issued), internalAddress, data);
              acked == ok && commands == old(commands) + sent
    {
      ghost var before, a := commands, SentOf(bus, issued, |internalAddress|);
      ghost var d := SentOf(bus, issued + a, |data|);
      var addressAcked := SendBytes(internalAddress);
      var dataAcked := SendBytes(data);
      acked := addressAcked && dataAcked;
      Associative(before, Sends(internalAddress[..a]), Sends(data[..d]));
    }

    method WritePacket(slaveAddress: Byte, timeoutMS: Byte, internalAddress: seq<Byte>, data: seq<Byte>)
      returns (code: ErrorCode)
      requires Valid() && |internalAddress| < 256 && |data| < 256
      modifies this
      ensures var Packet(c, given, _) := WriteOutcome(bus, old(issued), slaveAddress, timeoutMS, internalAddress, data);
              code == c && commands == old(commands) + given
    {
      ghost var before := commands;
      ghost var o := StartOutcome(bus, issued, AddressByte(slaveAddress, false), timeoutMS);
      code := StartTransmission(AddressByte(slaveAddress, false), timeoutMS);
      if code == NoError {
        var acked := SendPayload(internalAddress, data);
        if !acked {
          code := SlaveNAK;
        }
        StopTransmission();
        Associative4(before, o.commands, Payload(bus, o.next, internalAddress, data).1, [SendStop]);
      }
    }

    /** The loop that fills the buffer; only the last byte is not acknowledged. */
    method ReceiveBytes(buffer: array<Byte>, length: nat) returns (ok: bool)
      requires length <= buffer.Length
      modifies this, buffer
      ensures var m := ReceivedOf(bus, old(issued), length);
              && issued == old(issued) + m && commands == old(commands) + Receives(m, length)
              && buffer[..] == Stored(bus, old(issued), m, old(buffer[..]))
      ensures ok <==> NoneGoesWrong(bus, old(issued), length)
    {
      ghost var first, before, was := issued, commands, buffer[..];
      ghost var k := 0;
      var left := length;
      while left > 0
        invariant 0 <= k <= length && left == length - k && issued == first + k
        invariant commands == before + Receives(k, length)
        invariant buffer[..] == Stored(bus, first, k, was)
        invariant ReceivedOf(bus, first, length) == k + ReceivedOf(bus, issued, left)
        invariant NoneGoesWrong(bus, first, length) <==> NoneGoesWrong(bus, issued, left)
      {
        left := left - 1;
        ok := ReceiveByte(buffer, length - left - 1, left == 0);
        k := k + 1;
        if !ok {
          return;
        }
      }
      return true;
    }

    /** The second half of a read. */
    method ReadData(slaveAddress: Byte, timeoutMS: Byte, buffer: array<Byte>, length: nat) returns (code: ErrorCode)
      requires Valid() && length <= buffer.Length
      modifies this, buffer
      ensures var p := DataOutcome(bus, old(issued), slaveAddress, timeoutMS, length);
              && code == p.code && commands == old(commands) + p.commands
              && buffer[..] == p.data + old(buffer[..])[|p.data|..]
    {
      ghost var before := commands;
      ghost var o := StartOutcome(bus, issued, AddressByte(slaveAddress, true), timeoutMS);
      code := StartTransmission(AddressByte(slaveAddress, true), timeoutMS);
      if code == NoError {
        ghost var m := ReceivedOf(bus, o.next, length);
        var ok := ReceiveBytes(buffer, length);
        StoredInFront(bus, o.next, m, old(buffer[..]));
        if !ok {
          code := SlaveNAK;
        }
        StopTransmission();
        Associative4(before, o.commands, Receives(m, length), [SendStop]);
      }
    }

    /** A read after its first start. */
    method ReadAfterStart(slaveAddress: Byte, timeoutMS: Byte, internalAddress: seq<Byte>,
                          buffer: array<Byte>, length: nat)
      returns (code: ErrorCode)
      requires Valid() && length <= buffer.Length
      modifies this, buffer
      ensures var p := RestOfRead(bus, old(issued), slaveAddress, timeoutMS, internalAddress, length);
              && code == p.code && commands == old(commands) + p.commands
              && buffer[..] == p.data + old(buffer[..])[|p.data|..]
    {
      ghost var k, before, was := issued, commands, buffer[..];
      var acked := SendBytes(internalAddress);
      if !acked {
        code := SlaveNAK;
      }
      assert buffer[..] == was;
      ghost var d := DataOutcome(bus, issued, slaveAddress, timeoutMS, length);
      code := ReadData(slaveAddress, timeoutMS, buffer, length);
      Associative(before, Sends(internalAddress[..SentOf(bus, k, |internalAddress|)]), d.commands);
    }

    method ReadPacket(slaveAddress: Byte, timeoutMS: Byte, internalAddress: seq<Byte>, buffer: array<Byte>, length: nat)
      returns (code: ErrorCode)
      requires Valid() && |internalAddress| < 256 && length < 256 && length <= buffer.Length
      modifies this, buffer
      ensures var p := ReadOutcome(bus, old(issued), slaveAddress, timeoutMS, internalAddress, length);
              && code == p.code && commands == old(commands) + p.commands
              && buffer[..] == p.data + old(buffer[..])[|p.data|..]
    {
      ghost var before := commands;
      ghost var o := StartOutcome(bus, issued, AddressByte(slaveAddress, false), timeoutMS);
      code := StartTransmission(AddressByte(slaveAddress, false), timeoutMS);
      if code == NoError {
        ghost var more := RestOfRead(bus, issued, slaveAddress, timeoutMS, internalAddress, length).commands;
        code := ReadAfterStart(slaveAddress, timeoutMS, internalAddress, buffer, length);
        Associative(before, o.commands, more);
      }
    }
  }
}
