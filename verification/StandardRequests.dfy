/** The standard requests of a USB device on its control endpoint (section 9.4 of the USB 2.0 specification).

  `Answer` says what each request means: what the device replies and how its state changes. The class `Device`
  answers requests the way the library does, by operations on whichever endpoint is selected. */
module StandardRequests {
  import opened Bytes
  import opened Sequences

  // Requests

  datatype Request = Request(bmRequestType: Byte, bRequest: Byte, wValue: nat, wIndex: nat, wLength: nat)

  const HEADER_SIZE: nat := 8

  predicate FitsHeader(r: Request) {
    r.wValue < UINT16 && r.wIndex < UINT16 && r.wLength < UINT16
  }

  function Word(low: int, high: int): int {
    low + 256 * high
  }

  /** The request header: two bytes and three little-endian words. */
  function Decode(h: seq<Byte>): (r: Request)
    requires |h| == HEADER_SIZE
    ensures FitsHeader(r)
  {
    Request(h[0], h[1], Word(h[2], h[3]), Word(h[4], h[5]), Word(h[6], h[7]))
  }

  function Encode(r: Request): (h: seq<Byte>)
    requires FitsHeader(r)
    ensures |h| == HEADER_SIZE
  {
    [r.bmRequestType, r.bRequest, r.wValue % 256, r.wValue / 256, r.wIndex % 256, r.wIndex / 256,
     r.wLength % 256, r.wLength / 256]
  }

  lemma HeaderRoundTrip(r: Request, h: seq<Byte>)
    requires FitsHeader(r)
    requires |h| == HEADER_SIZE
    ensures Decode(Encode(r)) == r
    ensures Encode(Decode(h)) == h
  {
    LowAndHighByte(h[2], h[3]);
    LowAndHighByte(h[4], h[5]);
    LowAndHighByte(h[6], h[7]);
  }

  /** Which byte is which: the words are little-endian. */
  lemma HeaderInBytes(h: seq<Byte>)
    requires |h| == 8
    ensures var r := Decode(h);
            && r.bmRequestType == h[0] && r.bRequest == h[1]
            && r.wValue == (h[2] as int) + 256 * h[3] as int
            && r.wIndex == (h[4] as int) + 256 * h[5] as int
            && r.wLength == (h[6] as int) + 256 * h[7] as int
  {
  }

  lemma LowAndHighByte(low: Byte, high: Byte)
    ensures Word(low, high) % 256 == low && Word(low, high) / 256 == high
  {
  }

  const REQDIR_DEVICETOHOST: Byte := 0x80
  const REQREC_DEVICE: Byte := 0
  const REQREC_INTERFACE: Byte := 1
  const REQREC_ENDPOINT: Byte := 2

  const REQ_GetStatus: Byte := 0
  const REQ_ClearFeature: Byte := 1
  const REQ_SetFeature: Byte := 3
  const REQ_SetAddress: Byte := 5
  const REQ_GetDescriptor: Byte := 6
  const REQ_GetConfiguration: Byte := 8
  const REQ_SetConfiguration: Byte := 9

  const FEATURE_SEL_EndpointHalt: Byte := 0
  const FEATURE_SEL_DeviceRemoteWakeup: Byte := 1
  const FEATURE_SELFPOWERED_ENABLED: Byte := 1
  const FEATURE_REMOTE_WAKEUP_ENABLED: Byte := 2

  const FIXED_NUM_CONFIGURATIONS: Byte := 1
  const DTYPE_String: Byte := 3
  const USE_INTERNAL_SERIAL: Byte := 0xDC
  const SERIAL_STRING_BYTES: nat := 40

  /** Endpoint numbers are four bits wide. */
  const ENDPOINTS: nat := 16
  const ENDPOINT_CONTROLEP: nat := 0

  datatype DeviceState = Unattached | Powered | Default | Addressed | Configured | Suspended

  /** An endpoint: whether it is configured, whether it is halted, which data packet comes next (true for DATA1),
    and the bytes in its bank. */
  datatype Endpoint = Endpoint(enabled: bool, halted: bool, toggle: bool, bank: seq<Byte>)

  // What requests mean

  /** What the host can see or change by standard requests. A stall of the control endpoint is left out of the
    endpoints: it is a reply, and the next request ends it. */
  datatype Std = Std(
    configuration: Byte, state: DeviceState, remoteWakeup: bool, selfPowered: bool,
    address: nat, addressEnabled: bool, endpoints: seq<Endpoint>)

  /** What has happened to the endpoints when the class driver is done with a request. */
  datatype Change = Unchanged | Changed(endpoints: seq<Endpoint>)

  /** The class driver sees each request before the library does. It may take it, it may change endpoints,
    and it leaves some endpoint selected. */
  datatype ClassDriver = ClassDriver(takesIt: bool, selects: nat, change: Change)

  /** What the rest of the firmware does about a request: first the class driver; descriptors come from the
    application, none being the empty one; the serial number from the chip. After a change of configuration the
    endpoints are set up anew, and some endpoint is left selected. */
  datatype Firmware = Firmware(
    classDriver: ClassDriver, descriptor: (nat, nat) -> seq<Byte>, serial: seq<Byte>,
    newEndpoints: seq<Endpoint>, newSelected: nat)

  predicate EndpointsOk(endpoints: seq<Endpoint>) {
    |endpoints| == ENDPOINTS && !endpoints[ENDPOINT_CONTROLEP].halted
  }

  predicate FirmwareOk(f: Firmware) {
    && f.classDriver.selects < ENDPOINTS
    && (f.classDriver.change.Changed? ==> EndpointsOk(f.classDriver.change.endpoints))
    && |f.serial| == SERIAL_STRING_BYTES
    && EndpointsOk(f.newEndpoints) && f.newSelected < ENDPOINTS
  }

  predicate StdOk(s: Std) {
    EndpointsOk(s.endpoints)
  }

  datatype Reply = ByClass | Accepted(data: seq<Byte>) | Stalled | Unanswered

  /** A standard request to the device is in this direction, with this recipient and this code. */
  predicate Is(r: Request, direction: Byte, recipient: Byte, code: Byte) {
    r.bmRequestType == direction + recipient && r.bRequest == code
  }

  function Low(w: nat): Byte {
    w % 256
  }

  function EndpointOf(r: Request): (ep: nat)
    ensures ep < ENDPOINTS
  {
    r.wIndex % 16
  }

  function Truncated(data: seq<Byte>, length: nat): seq<Byte> {
    if |data| > length then data[..length] else data
  }

  function DescriptorFor(r: Request, f: Firmware): seq<Byte> {
    if r.wValue == 256 * DTYPE_String + USE_INTERNAL_SERIAL
    then [2 + SERIAL_STRING_BYTES, DTYPE_String] + f.serial
    else f.descriptor(r.wValue, Low(r.wIndex))
  }

  function DeviceStatus(s: Std): Byte {
    (if s.selfPowered then FEATURE_SELFPOWERED_ENABLED else 0)
    + (if s.remoteWakeup then FEATURE_REMOTE_WAKEUP_ENABLED else 0)
  }

  predicate IsFeature(r: Request, recipient: Byte) {
    Is(r, 0, recipient, REQ_SetFeature) || Is(r, 0, recipient, REQ_ClearFeature)
  }

  /** Halting an endpoint only halts it; ending the halt also empties it and starts over with DATA0. */
  function WithHalt(e: Endpoint, on: bool): Endpoint {
    if !e.enabled then e else if on then e.(halted := true) else e.(halted := false, toggle := false, bank := [])
  }

  function AnswerFeature(s: Std, r: Request): (Reply, Std)
    requires StdOk(s)
  {
    var on := r.bRequest == REQ_SetFeature;
    var ep := EndpointOf(r);
    if IsFeature(r, REQREC_DEVICE) then
      if Low(r.wValue) == FEATURE_SEL_DeviceRemoteWakeup then (Accepted([]), s.(remoteWakeup := on)) else (Stalled, s)
    else if Low(r.wValue) != FEATURE_SEL_EndpointHalt then (Accepted([]), s)
    else if ep == ENDPOINT_CONTROLEP then (Stalled, s)
    else (Accepted([]), s.(endpoints := s.endpoints[ep := WithHalt(s.endpoints[ep], on)]))
  }

  function AnswerSetConfiguration(s: Std, r: Request, f: Firmware): (Reply, Std) {
    var number := Low(r.wValue);
    if number > FIXED_NUM_CONFIGURATIONS then (Stalled, s)
    else
      (Accepted([]),
       s.(configuration := number,
          state := if number != 0 || s.addressEnabled then Configured else Powered,
          endpoints := f.newEndpoints))
  }

  /** What the library answers when the class driver has left the request to it. */
  function AnswerStandard(s: Std, r: Request, f: Firmware): (Reply, Std)
    requires StdOk(s)
  {
    if Is(r, REQDIR_DEVICETOHOST, REQREC_DEVICE, REQ_GetStatus) then (Accepted([DeviceStatus(s), 0]), s)
    else if Is(r, REQDIR_DEVICETOHOST, REQREC_ENDPOINT, REQ_GetStatus) then
      (Accepted([if s.endpoints[EndpointOf(r)].halted then 1 else 0, 0]), s)
    else if IsFeature(r, REQREC_DEVICE) || IsFeature(r, REQREC_ENDPOINT) then AnswerFeature(s, r)
    else if Is(r, 0, REQREC_DEVICE, REQ_SetAddress) then
      var address := r.wValue % 128;
      (Accepted([]), s.(address := address, addressEnabled := true,
                        state := if address != 0 then Addressed else Default))
    else if Is(r, REQDIR_DEVICETOHOST, REQREC_DEVICE, REQ_GetDescriptor)
         || Is(r, REQDIR_DEVICETOHOST, REQREC_INTERFACE, REQ_GetDescriptor) then
      var d := DescriptorFor(r, f);
      if d == [] then (Stalled, s) else (Accepted(Truncated(d, r.wLength)), s)
    else if Is(r, REQDIR_DEVICETOHOST, REQREC_DEVICE, REQ_GetConfiguration) then (Accepted([s.configuration]), s)
    else if Is(r, 0, REQREC_DEVICE, REQ_SetConfiguration) then AnswerSetConfiguration(s, r, f)
    else (Stalled, s)
  }

  function AfterClass(s: Std, f: Firmware): Std {
    if f.classDriver.change.Changed? then s.(endpoints := f.classDriver.change.endpoints) else s
  }

  /** The class driver leaves the request to the library, and the library can see it: it looks for the SETUP packet
    on the endpoint that is selected. */
  predicate LeftToLibrary(f: Firmware) {
    !f.classDriver.takesIt && f.classDriver.selects == ENDPOINT_CONTROLEP
  }

  function Answer(s: Std, r: Request, f: Firmware): (Reply, Std)
    requires StdOk(s) && FirmwareOk(f)
  {
    if f.classDriver.takesIt then (ByClass, AfterClass(s, f))
    else if LeftToLibrary(f) then AnswerStandard(AfterClass(s, f), r, f)
    else (Unanswered, AfterClass(s, f))
  }

  /** The requests of the standard that the library knows, as pairs of type and code. */
  const KNOWN_REQUESTS: set<(int, int)> :=
    {(0x80, 0), (0x82, 0), (0x00, 1), (0x02, 1), (0x00, 3), (0x02, 3), (0x00, 5),
     (0x80, 6), (0x81, 6), (0x80, 8), (0x00, 9)}

  predicate Known(r: Request) {
    (r.bmRequestType, r.bRequest) in KNOWN_REQUESTS
  }

  /** What a known request must not ask for: a configuration that does not exist, a device feature that does
    not exist, the halt of the control endpoint, a descriptor that the application does not have. */
  predicate AsksForTheImpossible(r: Request, f: Firmware) {
    match r.bRequest
    case 1 | 3 =>
      if r.bmRequestType == 0 then Low(r.wValue) != FEATURE_SEL_DeviceRemoteWakeup
      else Low(r.wValue) == FEATURE_SEL_EndpointHalt && EndpointOf(r) == ENDPOINT_CONTROLEP
    case 6 => DescriptorFor(r, f) == []
    case 9 => Low(r.wValue) > FIXED_NUM_CONFIGURATIONS
    case _ => false
  }

  /** Exactly the unknown and the impossible requests are stalled, and they change nothing. Requests to the host
    change nothing either, and those to the device are answered without data. A request is left unanswered exactly
    when the class driver neither takes it nor leaves the control endpoint selected. */
  lemma StalledIffRefused(s: Std, r: Request, f: Firmware)
    requires StdOk(s) && FirmwareOk(f)
    ensures var (reply, s') := Answer(s, r, f);
            && (reply.Stalled? <==> LeftToLibrary(f) && (!Known(r) || AsksForTheImpossible(r, f)))
            && (reply.Unanswered? <==> !f.classDriver.takesIt && f.classDriver.selects != ENDPOINT_CONTROLEP)
            && (!reply.Accepted? || r.bmRequestType >= REQDIR_DEVICETOHOST ==> s' == AfterClass(s, f))
            && (reply.Accepted? && r.bmRequestType < REQDIR_DEVICETOHOST ==> reply.data == [])
  {
  }

  // The requests one by one, in the bytes of section 9.4

  /** The class driver has done nothing. */
  predicate LeftAlone(f: Firmware) {
    !f.classDriver.takesIt && f.classDriver.selects == 0 && f.classDriver.change == Unchanged
  }

  /** SetFeature(ENDPOINT_HALT) halts an enabled endpoint; ClearFeature(ENDPOINT_HALT) ends the halt, empties the
    endpoint and has it start over with DATA0. */
  lemma HaltInBytes(s: Std, r: Request, f: Firmware)
    requires StdOk(s) && FirmwareOk(f) && LeftAlone(f)
    requires r.bmRequestType == 2 && r.bRequest in {1, 3}
    ensures var ep := r.wIndex % 16;
            var e := s.endpoints[ep];
            var (reply, s') := Answer(s, r, f);
            if r.wValue % 256 != 0 then reply == Accepted([]) && s' == s
            else if ep == 0 then reply == Stalled && s' == s
            else
              && reply == Accepted([])
              && var e' := if !e.enabled then e
                           else if r.bRequest == 3 then Endpoint(true, true, e.toggle, e.bank)
                           else Endpoint(true, false, false, []);
                 s' == s.(endpoints := s.endpoints[ep := e'])
  {
  }

  lemma RemoteWakeupInBytes(s: Std, r: Request, f: Firmware)
    requires StdOk(s) && FirmwareOk(f) && LeftAlone(f)
    requires r.bmRequestType == 0 && r.bRequest in {1, 3}
    ensures Answer(s, r, f)
            == if r.wValue % 256 == 1 then (Accepted([]), s.(remoteWakeup := r.bRequest == 3)) else (Stalled, s)
  {
  }

  /** GetDescriptor answers with the front of the descriptor, as much as the host asked for. The string with index
    0xDC is the serial number, which has a descriptor header of its own. */
  lemma GetDescriptorInBytes(s: Std, r: Request, f: Firmware)
    requires StdOk(s) && FirmwareOk(f) && LeftAlone(f)
    requires r.bmRequestType in {0x80, 0x81} && r.bRequest == 6
    ensures var d := if r.wValue == 0x3DC then [42, 3] + f.serial else f.descriptor(r.wValue, r.wIndex % 256);
            var (reply, s') := Answer(s, r, f);
            && s' == s
            && if d == [] then reply == Stalled
               else
                 && reply.Accepted? && reply.data <= d
                 && |reply.data| == if |d| < r.wLength then |d| else r.wLength
  {
  }

  lemma SetConfigurationInBytes(s: Std, r: Request, f: Firmware)
    requires StdOk(s) && FirmwareOk(f) && LeftAlone(f)
    requires r.bmRequestType == 0 && r.bRequest == 9
    ensures var n := r.wValue % 256;
            Answer(s, r, f)
            == if n > 1 then (Stalled, s)
               else
                 (Accepted([]), s.(configuration := n,
                                   state := if n == 1 || s.addressEnabled then Configured else Powered,
                                   endpoints := f.newEndpoints))
  {
  }

  lemma SetAddressInBytes(s: Std, r: Request, f: Firmware)
    requires StdOk(s) && FirmwareOk(f) && LeftAlone(f)
    requires r.bmRequestType == 0 && r.bRequest == 5
    ensures var a := r.wValue % 128;
            Answer(s, r, f)
            == (Accepted([]), s.(address := a, addressEnabled := true, state := if a == 0 then Default else Addressed))
  {
  }

  lemma GetRequestsInBytes(s: Std, r: Request, f: Firmware)
    requires StdOk(s) && FirmwareOk(f) && LeftAlone(f)
    requires (r.bmRequestType, r.bRequest) in {(0x80, 0), (0x82, 0), (0x80, 8)}
    ensures Answer(s, r, f)
            == (Accepted(if r.bRequest == 8 then [s.configuration]
                         else if r.bmRequestType == 0x82 then [if s.endpoints[r.wIndex % 16].halted then 1 else 0, 0]
                         else [(if s.selfPowered then 1 else 0) + (if s.remoteWakeup then 2 else 0), 0]),
                s)
  {
  }

  /** What the class driver does to the endpoints is done before the library answers, and stays when it takes the
    request or hides it. */
  lemma ClassDriverGoesFirst(s: Std, r: Request, f: Firmware)
    requires StdOk(s) && FirmwareOk(f)
    ensures var s1 := if f.classDriver.change.Changed? then s.(endpoints := f.classDriver.change.endpoints) else s;
            && (f.classDriver.takesIt ==> Answer(s, r, f) == (ByClass, s1))
            && (!f.classDriver.takesIt && f.classDriver.selects != 0 ==> Answer(s, r, f) == (Unanswered, s1))
            && (!f.classDriver.takesIt && f.classDriver.selects == 0 ==>
                  Answer(s, r, f) == Answer(s1, r, f.(classDriver := ClassDriver(false, 0, Unchanged))))
  {
  }

  // Sessions

  datatype Turn = Turn(request: Request, firmware: Firmware)

  predicate TurnsOk(turns: seq<Turn>) {
    forall i :: 0 <= i < |turns| ==> FirmwareOk(turns[i].firmware)
  }

  lemma AnswerKeepsStdOk(s: Std, t: Turn)
    requires StdOk(s) && FirmwareOk(t.firmware)
    ensures StdOk(Answer(s, t.request, t.firmware).1)
  {
  }

  /** The state after a sequence of requests. */
  function After(s: Std, turns: seq<Turn>): (s': Std)
    requires StdOk(s) && TurnsOk(turns)
    ensures StdOk(s')
  {
    if turns == [] then s
    else
      var last := |turns| - 1;
      var before := After(s, turns[..last]);
      AnswerKeepsStdOk(before, turns[last]);
      Answer(before, turns[last].request, turns[last].firmware).1
  }

  // What a host remembers of a session, without looking at the device

  predicate SetsConfiguration(t: Turn) {
    && LeftToLibrary(t.firmware)
    && Is(t.request, 0, REQREC_DEVICE, REQ_SetConfiguration)
    && Low(t.request.wValue) <= FIXED_NUM_CONFIGURATIONS
  }

  predicate SetsAddress(t: Turn) {
    LeftToLibrary(t.firmware) && Is(t.request, 0, REQREC_DEVICE, REQ_SetAddress)
  }

  predicate SetsWakeup(t: Turn) {
    && LeftToLibrary(t.firmware)
    && IsFeature(t.request, REQREC_DEVICE)
    && Low(t.request.wValue) == FEATURE_SEL_DeviceRemoteWakeup
  }

  predicate SetsHalt(t: Turn, ep: nat) {
    && LeftToLibrary(t.firmware)
    && IsFeature(t.request, REQREC_ENDPOINT)
    && Low(t.request.wValue) == FEATURE_SEL_EndpointHalt
    && EndpointOf(t.request) == ep
  }

  function LastConfiguration(initially: Byte, turns: seq<Turn>): Byte {
    if turns == [] then initially
    else
      var t := turns[|turns| - 1];
      if SetsConfiguration(t) then Low(t.request.wValue) else LastConfiguration(initially, turns[..|turns| - 1])
  }

  function LastAddress(initially: nat, turns: seq<Turn>): nat {
    if turns == [] then initially
    else
      var t := turns[|turns| - 1];
      if SetsAddress(t) then t.request.wValue % 128 else LastAddress(initially, turns[..|turns| - 1])
  }

  predicate AddressWasSet(initially: bool, turns: seq<Turn>) {
    initially || exists i :: 0 <= i < |turns| && SetsAddress(turns[i])
  }

  /** The device state is what the last SetAddress or SetConfiguration made it. */
  function LastState(initially: Std, turns: seq<Turn>): DeviceState {
    if turns == [] then initially.state
    else
      var t, before := turns[|turns| - 1], turns[..|turns| - 1];
      if SetsAddress(t) then if t.request.wValue % 128 != 0 then Addressed else Default
      else if SetsConfiguration(t) then
        if Low(t.request.wValue) != 0 || AddressWasSet(initially.addressEnabled, before) then Configured else Powered
      else LastState(initially, before)
  }

  function LastWakeup(initially: bool, turns: seq<Turn>): bool {
    if turns == [] then initially
    else
      var t := turns[|turns| - 1];
      if SetsWakeup(t) then t.request.bRequest == REQ_SetFeature else LastWakeup(initially, turns[..|turns| - 1])
  }

  /** An endpoint is as the last change of configuration, the last change by the class driver, or the last halt
    request accepted for it has left it. */
  function LastEndpoint(initially: Std, turns: seq<Turn>, ep: nat): Endpoint
    requires ep < ENDPOINTS && StdOk(initially) && TurnsOk(turns)
  {
    if turns == [] then initially.endpoints[ep]
    else
      var t, before := turns[|turns| - 1], turns[..|turns| - 1];
      EndpointAfter(LastEndpoint(initially, before, ep), t, ep)
  }

  function EndpointAfter(before: Endpoint, t: Turn, ep: nat): Endpoint
    requires ep < ENDPOINTS && FirmwareOk(t.firmware)
  {
    var change := t.firmware.classDriver.change;
    var e := if change.Changed? then change.endpoints[ep] else before;
    if SetsConfiguration(t) then t.firmware.newEndpoints[ep]
    else if SetsHalt(t, ep) then WithHalt(e, t.request.bRequest == REQ_SetFeature)
    else e
  }

  lemma AnswerChangesOnlyWhatIsAsked(s: Std, t: Turn)
    requires StdOk(s) && FirmwareOk(t.firmware)
    ensures var s' := Answer(s, t.request, t.firmware).1;
            && s'.configuration == (if SetsConfiguration(t) then Low(t.request.wValue) else s.configuration)
            && s'.remoteWakeup == (if SetsWakeup(t) then t.request.bRequest == REQ_SetFeature else s.remoteWakeup)
            && s'.selfPowered == s.selfPowered
            && s'.address == (if SetsAddress(t) then t.request.wValue % 128 else s.address)
            && s'.addressEnabled == (s.addressEnabled || SetsAddress(t))
            && s'.state == (if SetsAddress(t) then if s'.address != 0 then Addressed else Default
                            else if SetsConfiguration(t) && (s'.configuration != 0 || s.addressEnabled) then Configured
                            else if SetsConfiguration(t) then Powered
                            else s.state)
  {
  }

  /** Nor does it change any other endpoint. */
  lemma AnswerChangesOnlyThatEndpoint(s: Std, t: Turn, ep: nat)
    requires StdOk(s) && FirmwareOk(t.firmware) && 0 < ep < ENDPOINTS
    ensures var s' := Answer(s, t.request, t.firmware).1;
            |s'.endpoints| == ENDPOINTS && s'.endpoints[ep] == EndpointAfter(s.endpoints[ep], t, ep)
  {
    AnswerKeepsStdOk(s, t);
  }

  lemma {:induction false} StateIsWhatTheHostRemembers(s: Std, turns: seq<Turn>, ep: nat)
    requires StdOk(s) && TurnsOk(turns) && 0 < ep < ENDPOINTS
    ensures var s' := After(s, turns);
            && s'.configuration == LastConfiguration(s.configuration, turns)
            && s'.state == LastState(s, turns)
            && s'.remoteWakeup == LastWakeup(s.remoteWakeup, turns)
            && s'.selfPowered == s.selfPowered
            && s'.address == LastAddress(s.address, turns)
            && s'.addressEnabled == AddressWasSet(s.addressEnabled, turns)
            && s'.endpoints[ep] == LastEndpoint(s, turns, ep)
    decreases |turns|
  {
    if turns != [] {
      var t, before := turns[|turns| - 1], turns[..|turns| - 1];
      StateIsWhatTheHostRemembers(s, before, ep);
      AnswerChangesOnlyWhatIsAsked(After(s, before), t);
      AnswerChangesOnlyThatEndpoint(After(s, before), t, ep);
      AddressWasSetStep(s.addressEnabled, before, t);
      assert before + [t] == turns;
    }
  }

  lemma AddressWasSetStep(initially: bool, before: seq<Turn>, t: Turn)
    ensures AddressWasSet(initially, before + [t]) == (AddressWasSet(initially, before) || SetsAddress(t))
  {
    var turns := before + [t];
    assert turns[|before|] == t;
    assert forall i :: 0 <= i < |before| ==> turns[i] == before[i];
  }

  lemma {:induction false} LastConfigurationIsBounded(initially: Byte, turns: seq<Turn>)
    requires initially <= FIXED_NUM_CONFIGURATIONS
    ensures LastConfiguration(initially, turns) <= FIXED_NUM_CONFIGURATIONS
    decreases |turns|
  {
    if turns != [] {
      LastConfigurationIsBounded(initially, turns[..|turns| - 1]);
    }
  }

  /** After any sequence of requests, the get-requests answer with what the last accepted set-requests asked
    for, and the configuration number is one that exists. */
  lemma GetRequestsAnswerTheLastSetRequests(s: Std, turns: seq<Turn>, f: Firmware, r: Request)
    requires StdOk(s) && TurnsOk(turns)
    requires FirmwareOk(f) && LeftToLibrary(f) && f.classDriver.change.Unchanged?
    requires s.configuration <= FIXED_NUM_CONFIGURATIONS
    ensures After(s, turns).configuration <= FIXED_NUM_CONFIGURATIONS
    ensures Is(r, REQDIR_DEVICETOHOST, REQREC_DEVICE, REQ_GetConfiguration) ==>
              Answer(After(s, turns), r, f).0 == Accepted([LastConfiguration(s.configuration, turns)])
    ensures Is(r, REQDIR_DEVICETOHOST, REQREC_DEVICE, REQ_GetStatus) ==>
              Answer(After(s, turns), r, f).0
              == Accepted([(if s.selfPowered then 1 else 0) + (if LastWakeup(s.remoteWakeup, turns) then 2 else 0), 0])
    ensures Is(r, REQDIR_DEVICETOHOST, REQREC_ENDPOINT, REQ_GetStatus) && EndpointOf(r) != ENDPOINT_CONTROLEP ==>
              Answer(After(s, turns), r, f).0
              == Accepted([if LastEndpoint(s, turns, EndpointOf(r)).halted then 1 else 0, 0])
  {
    var ep := if EndpointOf(r) == 0 then 1 else EndpointOf(r);
    StateIsWhatTheHostRemembers(s, turns, ep);
    LastConfigurationIsBounded(s.configuration, turns);
  }

  /** The request halts the endpoint or ends its halt. */
  predicate IsHaltRequest(t: Turn, ep: nat) {
    && !t.firmware.classDriver.takesIt && t.firmware.classDriver.selects == 0
    && t.request.bmRequestType == 2 && t.request.bRequest in {1, 3}
    && t.request.wValue % 256 == 0 && t.request.wIndex % 16 == ep
  }

  /** Neither the request nor the firmware does anything to the endpoint. */
  predicate LeavesEndpoint(t: Turn, ep: nat) {
    && t.firmware.classDriver.change == Unchanged && !IsHaltRequest(t, ep)
    && !(t.request.bmRequestType == 0 && t.request.bRequest == 9)
  }

  lemma {:induction false} EndpointStays(s: Std, turns: seq<Turn>, k: nat, ep: nat)
    requires StdOk(s) && TurnsOk(turns) && k <= |turns| && 0 < ep < ENDPOINTS
    requires forall j :: k <= j < |turns| ==> LeavesEndpoint(turns[j], ep)
    ensures After(s, turns).endpoints[ep] == After(s, turns[..k]).endpoints[ep]
    decreases |turns|
  {
    if k < |turns| {
      var t, before := turns[|turns| - 1], turns[..|turns| - 1];
      EndpointStays(s, before, k, ep);
      assert before[..k] == turns[..k];
      AnswerChangesOnlyThatEndpoint(After(s, before), t, ep);
      assert EndpointAfter(After(s, before).endpoints[ep], t, ep) == After(s, before).endpoints[ep];
    } else {
      assert turns[..k] == turns;
    }
  }

  /** In any session: while an enabled endpoint is left alone otherwise, GetStatus reports a halt exactly when the
    last halt request for it was a SetFeature. */
  lemma StatusTellsTheLastHaltRequest(s: Std, turns: seq<Turn>, k: nat, ep: nat, r: Request, f: Firmware)
    requires StdOk(s) && TurnsOk(turns) && FirmwareOk(f) && LeftAlone(f) && k < |turns| && 0 < ep < 16
    requires IsHaltRequest(turns[k], ep) && turns[k].firmware.classDriver.change == Unchanged
    requires After(s, turns[..k]).endpoints[ep].enabled
    requires forall j :: k < j < |turns| ==> LeavesEndpoint(turns[j], ep)
    requires r.bmRequestType == 0x82 && r.bRequest == 0 && r.wIndex % 16 == ep
    ensures Answer(After(s, turns), r, f).0 == Accepted([if turns[k].request.bRequest == 3 then 1 else 0, 0])
  {
    var upTo := turns[..k + 1];
    assert upTo[..k] == turns[..k] && upTo[k] == turns[k];
    HaltInBytes(After(s, turns[..k]), turns[k].request, turns[k].firmware);
    EndpointStays(s, turns, k + 1, ep);
    GetRequestsInBytes(After(s, turns), r, f);
  }

  // The library's way

  /** What the control endpoint shows on the bus, and what is done to the address register, in order. */
  datatype Event =
    | SetupCleared | TakenByClass | Sent(data: seq<Byte>) | StatusStage | StallRequested
    | AddressStored(address: nat) | AddressEnabled

  function AddressEvents(a: nat): seq<Event> {
    [AddressStored(a), SetupCleared, StatusStage, AddressEnabled]
  }

  /** What is seen of a reply. A new address is stored before the SETUP packet is cleared, and enabled after the
    status stage. */
  function Transcript(r: Request, reply: Reply): seq<Event> {
    match reply
    case ByClass => [SetupCleared, TakenByClass]
    case Accepted(data) =>
      if Is(r, 0, REQREC_DEVICE, REQ_SetAddress) then
        AddressEvents(r.wValue % 128)
      else if data == [] then [SetupCleared, StatusStage]
      else [SetupCleared, Sent(data), StatusStage]
    case Stalled => [SetupCleared, StallRequested]
    case Unanswered => []
  }

  /** The data of an answer is sent once, between the clearing of the SETUP packet and the status stage. */
  lemma TranscriptCarriesTheAnswer(r: Request, data: seq<Byte>)
    requires !(r.bmRequestType == 0 && r.bRequest == 5) && data != []
    ensures Transcript(r, Accepted(data)) == [SetupCleared, Sent(data), StatusStage]
  {
  }

  /** All that is seen of a session. */
  function Transcripts(s: Std, turns: seq<Turn>): seq<Event>
    requires StdOk(s) && TurnsOk(turns)
  {
    if turns == [] then []
    else
      var t, before := turns[|turns| - 1], turns[..|turns| - 1];
      Transcripts(s, before) + Transcript(t.request, Answer(After(s, before), t.request, t.firmware).0)
  }

  lemma SessionGrows(s: Std, before: seq<Turn>, t: Turn)
    requires StdOk(s) && TurnsOk(before) && FirmwareOk(t.firmware)
    ensures TurnsOk(before + [t])
    ensures var (reply, s') := Answer(After(s, before), t.request, t.firmware);
            && After(s, before + [t]) == s'
            && Transcripts(s, before + [t]) == Transcripts(s, before) + Transcript(t.request, reply)
  {
    assert (before + [t])[..|before|] == before;
  }

  // How requests are resolved

  predicate IsResolution(e: Event) {
    e.TakenByClass? || e.StatusStage? || e.StallRequested?
  }

  function ResolutionOf(reply: Reply): Event
    requires !reply.Unanswered?
  {
    match reply
    case ByClass => TakenByClass
    case Accepted(_) => StatusStage
    case Stalled => StallRequested
  }

  /** The clearings of SETUP packets and the resolutions among some events. */
  function Milestones(events: seq<Event>): seq<Event> {
    if events == [] then [] else Milestones(events[..|events| - 1]) + Milestone(events[|events| - 1])
  }

  function Milestone(e: Event): seq<Event> {
    if e.SetupCleared? || IsResolution(e) then [e] else []
  }

  lemma MilestonesOfOne(e: Event)
    ensures Milestones([e]) == Milestone(e)
  {
    assert [e][..0] == [];
  }

  lemma {:induction false} MilestonesAddUp(a: seq<Event>, b: seq<Event>)
    ensures Milestones(a + b) == Milestones(a) + Milestones(b)
    decreases b
  {
    if b == [] {
      assert a + b == a;
    } else {
      var last := |b| - 1;
      MilestonesAddUp(a, b[..last]);
      assert (a + b)[..|a + b| - 1] == a + b[..last] && (a + b)[|a + b| - 1] == b[last];
      Associative(Milestones(a), Milestones(b[..last]), Milestone(b[last]));
    }
  }

  /** Each request that is answered is resolved exactly once: one clearing of the SETUP packet, and then one
    resolution. */
  lemma TranscriptResolvesOnce(r: Request, reply: Reply)
    ensures Milestones(Transcript(r, reply))
            == if reply.Unanswered? then [] else [SetupCleared, ResolutionOf(reply)]
  {
    match reply
    case ByClass => MilestonesOfTwo(SetupCleared, TakenByClass);
    case Stalled => MilestonesOfTwo(SetupCleared, StallRequested);
    case Unanswered =>
    case Accepted(data) =>
      MilestonesOfTwo(SetupCleared, StatusStage);
      if Is(r, 0, REQREC_DEVICE, REQ_SetAddress) {
        MilestonesOfAddress(r.wValue % 128);
      } else if data != [] {
        MilestonesOfThree(SetupCleared, Sent(data), StatusStage);
      }
  }

  lemma MilestonesOfAddress(a: nat)
    ensures Milestones(AddressEvents(a)) == [SetupCleared, StatusStage]
  {
    MilestonesOfTwo(AddressStored(a), SetupCleared);
    MilestonesOfTwo(StatusStage, AddressEnabled);
    MilestonesAddUp([AddressStored(a), SetupCleared], [StatusStage, AddressEnabled]);
    assert AddressEvents(a) == [AddressStored(a), SetupCleared] + [StatusStage, AddressEnabled];
  }

  lemma MilestonesOfThree(a: Event, b: Event, c: Event)
    ensures Milestones([a, b, c]) == Milestone(a) + Milestone(b) + Milestone(c)
  {
    MilestonesOfTwo(a, b);
    MilestonesOfOne(c);
    MilestonesAddUp([a, b], [c]);
    assert [a, b, c] == [a, b] + [c];
  }

  lemma MilestonesOfTwo(a: Event, b: Event)
    ensures Milestones([a, b]) == Milestone(a) + Milestone(b)
  {
    MilestonesOfOne(a);
    MilestonesOfOne(b);
    MilestonesAddUp([a], [b]);
    assert [a, b] == [a] + [b];
  }

  /** The class driver takes the request or leaves it to the library. */
  predicate IsAnswered(t: Turn) {
    t.firmware.classDriver.takesIt || LeftToLibrary(t.firmware)
  }

  function AnsweredTurns(turns: seq<Turn>): nat {
    if turns == [] then 0
    else AnsweredTurns(turns[..|turns| - 1]) + if IsAnswered(turns[|turns| - 1]) then 1 else 0
  }

  /** The replies of a session, without the requests that were left unanswered. */
  function Replies(s: Std, turns: seq<Turn>): (replies: seq<Reply>)
    requires StdOk(s) && TurnsOk(turns)
    ensures forall i :: 0 <= i < |replies| ==> !replies[i].Unanswered?
  {
    if turns == [] then []
    else
      var t, before := turns[|turns| - 1], turns[..|turns| - 1];
      var reply := Answer(After(s, before), t.request, t.firmware).0;
      Replies(s, before) + if reply.Unanswered? then [] else [reply]
  }

  /** Clearings and resolutions alternate, one pair for each reply, in order. */
  predicate ResolvesInTurn(milestones: seq<Event>, replies: seq<Reply>)
    requires forall i :: 0 <= i < |replies| ==> !replies[i].Unanswered?
  {
    && |milestones| == 2 * |replies|
    && forall i :: 0 <= i < |replies| ==>
         milestones[2 * i] == SetupCleared && milestones[2 * i + 1] == ResolutionOf(replies[i])
  }

  /** In a whole session as many SETUP packets are cleared as requests are answered, and each clearing is followed
    by exactly one resolution, that of its own request, before the next. */
  lemma {:induction false} SessionResolvesEachRequestOnce(s: Std, turns: seq<Turn>)
    requires StdOk(s) && TurnsOk(turns)
    ensures |Replies(s, turns)| == AnsweredTurns(turns)
    ensures ResolvesInTurn(Milestones(Transcripts(s, turns)), Replies(s, turns))
    decreases |turns|
  {
    if turns != [] {
      var t, before := turns[|turns| - 1], turns[..|turns| - 1];
      var reply := Answer(After(s, before), t.request, t.firmware).0;
      SessionResolvesEachRequestOnce(s, before);
      MilestonesAddUp(Transcripts(s, before), Transcript(t.request, reply));
      TranscriptResolvesOnce(t.request, reply);
      UnansweredIff(After(s, before), t);
      if !reply.Unanswered? {
        ResolvesOneMore(Milestones(Transcripts(s, before)), Replies(s, before), reply);
      }
    }
  }

  lemma UnansweredIff(s: Std, t: Turn)
    requires StdOk(s) && FirmwareOk(t.firmware)
    ensures Answer(s, t.request, t.firmware).0.Unanswered? <==> !IsAnswered(t)
  {
    StalledIffRefused(s, t.request, t.firmware);
  }

  lemma ResolvesOneMore(milestones: seq<Event>, replies: seq<Reply>, reply: Reply)
    requires forall i :: 0 <= i < |replies| ==> !replies[i].Unanswered?
    requires ResolvesInTurn(milestones, replies) && !reply.Unanswered?
    ensures forall i :: 0 <= i < |replies + [reply]| ==> !(replies + [reply])[i].Unanswered?
    ensures ResolvesInTurn(milestones + [SetupCleared, ResolutionOf(reply)], replies + [reply])
  {
  }

  // When a new address takes effect

  datatype AddressRegister = AddressRegister(address: nat, enabled: bool)

  /** A device answers to address zero until an address is enabled. */
  function InForce(register: AddressRegister): nat {
    if register.enabled then register.address else 0
  }

  function RegisterOf(s: Std): AddressRegister {
    AddressRegister(s.address, s.addressEnabled)
  }

  function RegisterAfter(register: AddressRegister, events: seq<Event>): AddressRegister {
    if events == [] then register
    else
      var last := |events| - 1;
      var before := RegisterAfter(register, events[..last]);
      match events[last]
      case AddressStored(a) => before.(address := a)
      case AddressEnabled => before.(enabled := true)
      case _ => before
  }

  lemma {:induction false} RegisterAfterBoth(register: AddressRegister, a: seq<Event>, b: seq<Event>)
    ensures RegisterAfter(register, a + b) == RegisterAfter(RegisterAfter(register, a), b)
    decreases b
  {
    if b == [] {
      assert a + b == a;
    } else {
      var last := |b| - 1;
      RegisterAfterBoth(register, a, b[..last]);
      assert (a + b)[..|a| + last] == a + b[..last];
    }
  }

  lemma RegisterAfterOne(register: AddressRegister, e: Event)
    ensures RegisterAfter(register, [e])
            == match e
               case AddressStored(a) => register.(address := a)
               case AddressEnabled => register.(enabled := true)
               case _ => register
  {
    assert [e][..0] == [];
  }

  /** The four events of an accepted SetAddress, one by one. */
  lemma RegisterDuringSetAddress(register: AddressRegister, a: nat)
    ensures var t := AddressEvents(a);
            && t[..0] == [] && RegisterAfter(register, t[..1]) == register.(address := a)
            && RegisterAfter(register, t[..2]) == RegisterAfter(register, t[..3]) == register.(address := a)
            && RegisterAfter(register, t) == AddressRegister(a, true)
  {
    var t := AddressEvents(a);
    RegisterAfterOne(register, t[0]);
    assert t[..1] == [t[0]] && t[..2] == t[..1] + [t[1]] && t[..3] == t[..2] + [t[2]] && t == t[..3] + [t[3]];
    RegisterAfterBoth(register, t[..1], [t[1]]);
    RegisterAfterOne(register.(address := a), t[1]);
    RegisterAfterBoth(register, t[..2], [t[2]]);
    RegisterAfterOne(register.(address := a), t[2]);
    RegisterAfterBoth(register, t[..3], [t[3]]);
    RegisterAfterOne(register.(address := a), t[3]);
  }

  /** The old address stays in force up to and with the status stage exactly when no address was enabled before
    or the new one is the old one. Otherwise the new one is in force at once, before the SETUP packet is cleared.
    In the end it always is. */
  lemma AddressWaitsForStatusStageIff(s: Std, r: Request)
    requires Is(r, 0, REQREC_DEVICE, REQ_SetAddress)
    ensures var t, register, a := Transcript(r, Accepted([])), RegisterOf(s), r.wValue % 128;
            && |t| == 4 && t[1] == SetupCleared && t[2] == StatusStage
            && ((forall k :: 0 <= k <= 3 ==> InForce(RegisterAfter(register, t[..k])) == InForce(register))
                <==> !s.addressEnabled || a == s.address)
            && (s.addressEnabled ==> InForce(RegisterAfter(register, t[..1])) == a)
            && InForce(RegisterAfter(register, t)) == a
  {
    var t, register := Transcript(r, Accepted([])), RegisterOf(s);
    RegisterDuringSetAddress(register, r.wValue % 128);
    forall k | 0 <= k <= 3
      ensures RegisterAfter(register, t[..k]) == if k == 0 then register else register.(address := r.wValue % 128)
    {
      assert k == 0 || k == 1 || k == 2 || k == 3;
    }
    assert t[..1] == [t[0]];
  }

  /** The events account for the address register of the device, in every session. */
  lemma {:induction false} EventsAccountForTheRegister(s: Std, turns: seq<Turn>)
    requires StdOk(s) && TurnsOk(turns)
    ensures RegisterAfter(RegisterOf(s), Transcripts(s, turns)) == RegisterOf(After(s, turns))
    decreases |turns|
  {
    if turns != [] {
      var t, before := turns[|turns| - 1], turns[..|turns| - 1];
      var state := After(s, before);
      var reply := Answer(state, t.request, t.firmware).0;
      EventsAccountForTheRegister(s, before);
      RegisterAfterBoth(RegisterOf(s), Transcripts(s, before), Transcript(t.request, reply));
      AnswerAccountsForTheRegister(state, t);
    }
  }

  lemma AnswerAccountsForTheRegister(s: Std, t: Turn)
    requires StdOk(s) && FirmwareOk(t.firmware)
    ensures var (reply, s') := Answer(s, t.request, t.firmware);
            RegisterAfter(RegisterOf(s), Transcript(t.request, reply)) == RegisterOf(s')
  {
    AnswerChangesOnlyWhatIsAsked(s, t);
    var reply := Answer(s, t.request, t.firmware).0;
    if SetsAddress(t) {
      RegisterDuringSetAddress(RegisterOf(s), t.request.wValue % 128);
    } else {
      NoAddressEvents(RegisterOf(s), Transcript(t.request, reply));
    }
  }

  lemma {:induction false} NoAddressEvents(register: AddressRegister, events: seq<Event>)
    requires forall i :: 0 <= i < |events| ==> !events[i].AddressStored? && !events[i].AddressEnabled?
    ensures RegisterAfter(register, events) == register
  {
    if events != [] {
      NoAddressEvents(register, events[..|events| - 1]);
    }
  }

  /** A session in which the address changes before the status stage: the host sets address 5 and then 9, and the
    status stage of the second request already runs under 9. */
  lemma SecondAddressTakesEffectAtOnce(s: Std, f: Firmware) returns (turns: seq<Turn>)
    requires StdOk(s) && FirmwareOk(f) && LeftToLibrary(f)
    ensures TurnsOk(turns) && |turns| == 2
    ensures var register, seen := RegisterOf(s), Transcripts(s, turns);
            && |seen| == 8 && seen[6] == StatusStage
            && InForce(RegisterAfter(register, seen[..4])) == 5
            && InForce(RegisterAfter(register, seen[..6])) == 9
  {
    turns := [SetAddressTurn(5, f)] + [SetAddressTurn(9, f)];
    TwoAddressesAreSeen(s, f, 5, 9);
    RegisterDuringTwoAddresses(RegisterOf(s), 5, 9);
  }

  function SetAddressTurn(a: nat, f: Firmware): Turn {
    Turn(Request(REQREC_DEVICE, REQ_SetAddress, a, 0, 0), f)
  }

  lemma TwoAddressesAreSeen(s: Std, f: Firmware, a: nat, b: nat)
    requires StdOk(s) && FirmwareOk(f) && LeftToLibrary(f) && a < 128 && b < 128
    ensures var turns := [SetAddressTurn(a, f)] + [SetAddressTurn(b, f)];
            TurnsOk(turns) && Transcripts(s, turns) == AddressEvents(a) + AddressEvents(b)
  {
    var none: seq<Turn> := [];
    SetAddressIsSeen(s, none, a, f);
    assert none + [SetAddressTurn(a, f)] == [SetAddressTurn(a, f)];
    SetAddressIsSeen(s, [SetAddressTurn(a, f)], b, f);
    assert Transcripts(s, none) + AddressEvents(a) == AddressEvents(a);
  }

  lemma SetAddressIsSeen(s: Std, before: seq<Turn>, a: nat, f: Firmware)
    requires StdOk(s) && TurnsOk(before) && FirmwareOk(f) && LeftToLibrary(f) && a < 128
    ensures TurnsOk(before + [SetAddressTurn(a, f)])
    ensures Transcripts(s, before + [SetAddressTurn(a, f)]) == Transcripts(s, before) + AddressEvents(a)
  {
    var t := SetAddressTurn(a, f);
    SessionGrows(s, before, t);
    SetAddressIsAnswered(After(s, before), t);
    assert a % 128 == a;
  }

  lemma SetAddressIsAnswered(s: Std, t: Turn)
    requires StdOk(s) && FirmwareOk(t.firmware) && SetsAddress(t)
    ensures Answer(s, t.request, t.firmware).0 == Accepted([])
  {
  }

  lemma RegisterDuringTwoAddresses(register: AddressRegister, a: nat, b: nat)
    ensures var seen := AddressEvents(a) + AddressEvents(b);
            && RegisterAfter(register, seen[..4]) == AddressRegister(a, true)
            && RegisterAfter(register, seen[..6]) == AddressRegister(b, true)
  {
    var seen := AddressEvents(a) + AddressEvents(b);
    RegisterDuringSetAddress(register, a);
    RegisterDuringSetAddress(AddressRegister(a, true), b);
    RegisterAfterBoth(register, AddressEvents(a), AddressEvents(b)[..2]);
    assert seen[..4] == AddressEvents(a) && seen[..6] == AddressEvents(a) + AddressEvents(b)[..2];
  }

  // How much is sent

  /** No more is sent than the host asked for, except that GetStatus and GetConfiguration do not look at the length. */
  lemma AnswerFitsLengthIff(s: Std, r: Request, f: Firmware)
    requires StdOk(s) && FirmwareOk(f) && Answer(s, r, f).0.Accepted?
    ensures |Answer(s, r, f).0.data| <= r.wLength
            <==> && !(r.bRequest == REQ_GetStatus && r.wLength < 2)
                 && !(r.bRequest == REQ_GetConfiguration && r.wLength < 1)
  {
  }

  /** A host that asks for nothing is sent the configuration number. */
  lemma GetConfigurationIgnoresLength(s: Std, f: Firmware)
    requires StdOk(s) && FirmwareOk(f) && LeftToLibrary(f)
    ensures var r := Request(REQDIR_DEVICETOHOST, REQ_GetConfiguration, 0, 0, 0);
            r.wLength == 0 && Answer(s, r, f).0 == Accepted([s.configuration])
  {
  }

  // Which endpoint is selected

  /** The endpoint that is selected when a request has been dealt with. */
  function SelectedAfter(t: Turn): nat {
    if !LeftToLibrary(t.firmware) then t.firmware.classDriver.selects
    else if SetsConfiguration(t) then t.firmware.newSelected
    else ENDPOINT_CONTROLEP
  }

  /** The control endpoint is selected again exactly when neither the class driver nor the event of an accepted
    SetConfiguration has left another endpoint selected. */
  lemma ControlEndpointIsSelectedIff(t: Turn)
    ensures SelectedAfter(t) == ENDPOINT_CONTROLEP
            <==> && t.firmware.classDriver.selects == ENDPOINT_CONTROLEP
                 && (SetsConfiguration(t) ==> t.firmware.newSelected == ENDPOINT_CONTROLEP)
  {
  }

  /** And the event may do so: here the configuration is accepted and endpoint 3 stays selected. */
  lemma SetConfigurationMayLeaveAnotherEndpoint(s: Std, f: Firmware)
    requires StdOk(s) && FirmwareOk(f) && LeftToLibrary(f) && f.newSelected == 3
    ensures var request := Request(REQREC_DEVICE, REQ_SetConfiguration, 1, 0, 0);
            && Answer(s, request, f).0 == Accepted([]) && SelectedAfter(Turn(request, f)) == 3
  {
  }

  class Device {
    // the endpoints
    var selected: nat
    var setupPending: bool
    var fifo: seq<Byte>
    var endpoints: seq<Endpoint>
    var events: seq<Event>
    // the library's variables
    var configurationNumber: Byte
    var deviceState: DeviceState
    var remoteWakeupEnabled: bool
    var currentlySelfPowered: bool
    var address: nat
    var addressEnabled: bool
    var controlRequest: Request

    predicate Valid()
      reads this
    {
      selected < ENDPOINTS && |endpoints| == ENDPOINTS
    }

    function Visible(): Std
      reads this
      requires Valid()
    {
      Std(configurationNumber, deviceState, remoteWakeupEnabled, currentlySelfPowered, address, addressEnabled,
          endpoints[0 := endpoints[0].(halted := false)])
    }

    /** The library is called with a SETUP packet on the control endpoint, which is selected. */
    predicate HasSetup()
      reads this
    {
      Valid() && selected == ENDPOINT_CONTROLEP && setupPending && !endpoints[0].halted
    }

    // Endpoint operations: they work on the selected endpoint

    method SelectEndpoint(ep: nat)
      requires Valid() && ep < ENDPOINTS
      modifies this`selected
      ensures selected == ep
    {
      selected := ep;
    }

    /** Only the control endpoint receives SETUP packets. */
    predicate IsSETUPReceived()
      reads this
    {
      selected == ENDPOINT_CONTROLEP && setupPending
    }

    method ClearSETUP()
      modifies this`setupPending, this`events
      ensures setupPending == (old(setupPending) && selected != ENDPOINT_CONTROLEP)
      ensures events == if selected == ENDPOINT_CONTROLEP then old(events) + [SetupCleared] else old(events)
    {
      if selected == ENDPOINT_CONTROLEP {
        setupPending := false;
        events := events + [SetupCleared];
      }
    }

    method StallTransaction()
      requires Valid()
      modifies this`endpoints, this`events
      ensures endpoints == old(endpoints)[selected := old(endpoints)[selected].(halted := true)]
      ensures events == if selected == ENDPOINT_CONTROLEP then old(events) + [StallRequested] else old(events)
    {
      endpoints := endpoints[selected := endpoints[selected].(halted := true)];
      if selected == ENDPOINT_CONTROLEP {
        events := events + [StallRequested];
      }
    }

    method ClearStall()
      requires Valid()
      modifies this`endpoints
      ensures endpoints == old(endpoints)[selected := old(endpoints)[selected].(halted := false)]
    {
      endpoints := endpoints[selected := endpoints[selected].(halted := false)];
    }

    /** Empties the bank of any endpoint, selected or not. */
    method ResetEndpoint(ep: nat)
      requires Valid() && ep < ENDPOINTS
      modifies this`endpoints
      ensures endpoints == old(endpoints)[ep := old(endpoints)[ep].(bank := [])]
    {
      endpoints := endpoints[ep := endpoints[ep].(bank := [])];
    }

    method ResetDataToggle()
      requires Valid()
      modifies this`endpoints
      ensures endpoints == old(endpoints)[selected := old(endpoints)[selected].(toggle := false)]
    {
      endpoints := endpoints[selected := endpoints[selected].(toggle := false)];
    }

    method Send(data: seq<Byte>)
      requires selected == ENDPOINT_CONTROLEP
      modifies this`events
      ensures events == old(events) + [Sent(data)]
    {
      events := events + [Sent(data)];
    }

    method ClearStatusStage()
      requires selected == ENDPOINT_CONTROLEP
      modifies this`events
      ensures events == old(events) + [StatusStage]
    {
      events := events + [StatusStage];
    }

    /** Writes the address; whether it is enabled stays as it is. */
    method SetDeviceAddress(deviceAddress: nat)
      modifies this`address, this`events
      ensures address == deviceAddress && events == old(events) + [AddressStored(deviceAddress)]
    {
      address := deviceAddress;
      events := events + [AddressStored(deviceAddress)];
    }

    method EnableDeviceAddress()
      modifies this`addressEnabled, this`events
      ensures addressEnabled && events == old(events) + [AddressEnabled]
    {
      addressEnabled := true;
      events := events + [AddressEnabled];
    }

    // Events of the firmware

    method EventControlRequest(f: Firmware)
      requires HasSetup() && FirmwareOk(f)
      modifies this`setupPending, this`events, this`endpoints, this`selected
      ensures Valid() && !endpoints[0].halted && selected == f.classDriver.selects
      ensures Visible() == AfterClass(old(Visible()), f)
      ensures setupPending == !f.classDriver.takesIt
      ensures events == old(events) + if f.classDriver.takesIt then [SetupCleared, TakenByClass] else []
    {
      if f.classDriver.takesIt {
        ClearSETUP();
        events := events + [TakenByClass];
      }
      if f.classDriver.change.Changed? {
        endpoints := f.classDriver.change.endpoints;
      }
      selected := f.classDriver.selects;
    }

    method EventConfigurationChanged(f: Firmware)
      requires Valid() && FirmwareOk(f)
      modifies this`selected, this`endpoints
      ensures Valid() && selected == f.newSelected && endpoints == f.newEndpoints
    {
      endpoints := f.newEndpoints;
      selected := f.newSelected;
    }

    // Handlers: each either answers the request or leaves the SETUP packet pending

    twostate predicate Answered(r: Request, f: Firmware)
      requires old(Valid()) && FirmwareOk(f)
      reads this
    {
      && Valid()
      && var (reply, s) := AnswerStandard(old(Visible()), r, f);
         && Visible() == s && !endpoints[0].halted
         && setupPending == reply.Stalled?
         && events == old(events) + if reply.Stalled? then [] else Transcript(r, reply)
    }

    /** The address is stored first and enabled last; when that puts it in force is another question. */
    method SetAddress(f: Firmware)
      requires HasSetup() && FirmwareOk(f) && Is(controlRequest, 0, REQREC_DEVICE, REQ_SetAddress)
      modifies this
      ensures Answered(controlRequest, f) && selected == ENDPOINT_CONTROLEP && controlRequest == old(controlRequest)
      ensures var a := controlRequest.wValue % 128;
              events == old(events) + [AddressStored(a), SetupCleared, StatusStage, AddressEnabled]
    {
      var deviceAddress := controlRequest.wValue % 128;
      SetDeviceAddress(deviceAddress);
      ClearSETUP();
      ClearStatusStage();
      EnableDeviceAddress();
      deviceState := if deviceAddress != 0 then Addressed else Default;
    }

    method SetConfiguration(f: Firmware)
      requires HasSetup() && FirmwareOk(f) && Is(controlRequest, 0, REQREC_DEVICE, REQ_SetConfiguration)
      modifies this
      ensures Answered(controlRequest, f) && controlRequest == old(controlRequest)
      ensures selected == if setupPending then ENDPOINT_CONTROLEP else f.newSelected
    {
      if Low(controlRequest.wValue) > FIXED_NUM_CONFIGURATIONS {
        return;
      }
      ClearSETUP();
      configurationNumber := Low(controlRequest.wValue);
      ClearStatusStage();
      if configurationNumber != 0 {
        deviceState := Configured;
      } else {
        deviceState := if addressEnabled then Configured else Powered;
      }
      EventConfigurationChanged(f);
    }

    method GetConfiguration(f: Firmware)
      requires HasSetup() && FirmwareOk(f)
      requires Is(controlRequest, REQDIR_DEVICETOHOST, REQREC_DEVICE, REQ_GetConfiguration)
      modifies this
      ensures Answered(controlRequest, f) && selected == ENDPOINT_CONTROLEP && controlRequest == old(controlRequest)
    {
      ClearSETUP();
      Send([configurationNumber]);
      ClearStatusStage();
    }

    method GetDescriptor(f: Firmware)
      requires HasSetup() && FirmwareOk(f)
      requires Is(controlRequest, REQDIR_DEVICETOHOST, REQREC_DEVICE, REQ_GetDescriptor)
            || Is(controlRequest, REQDIR_DEVICETOHOST, REQREC_INTERFACE, REQ_GetDescriptor)
      modifies this
      ensures Answered(controlRequest, f) && selected == ENDPOINT_CONTROLEP && controlRequest == old(controlRequest)
    {
      var descriptor;
      if controlRequest.wValue == 256 * DTYPE_String + USE_INTERNAL_SERIAL {
        descriptor := [2 + SERIAL_STRING_BYTES, DTYPE_String] + f.serial;
      } else {
        descriptor := f.descriptor(controlRequest.wValue, Low(controlRequest.wIndex));
        if descriptor == [] {
          return;
        }
      }
      ClearSETUP();
      WriteControlStream(descriptor);
      ClearStatusStage();
    }

    /** The data stage: no more than the host has asked for, and no packet with data if that is nothing. */
    method WriteControlStream(data: seq<Byte>)
      requires selected == ENDPOINT_CONTROLEP
      modifies this`events
      ensures var sent := Truncated(data, controlRequest.wLength);
              events == if sent == [] then old(events) else old(events) + [Sent(sent)]
    {
      var length := |data|;
      if length > controlRequest.wLength {
        length := controlRequest.wLength;
      }
      assert data[..length] == Truncated(data, controlRequest.wLength);
      if length > 0 {
        Send(data[..length]);
      }
    }

    method GetStatus(f: Firmware)
      requires HasSetup() && FirmwareOk(f) && controlRequest.bRequest == REQ_GetStatus
      requires || controlRequest.bmRequestType == REQDIR_DEVICETOHOST + REQREC_DEVICE
               || controlRequest.bmRequestType == REQDIR_DEVICETOHOST + REQREC_ENDPOINT
      modifies this
      ensures Answered(controlRequest, f) && selected == ENDPOINT_CONTROLEP && controlRequest == old(controlRequest)
    {
      var currentStatus: Byte := 0;
      if controlRequest.bmRequestType == REQDIR_DEVICETOHOST + REQREC_DEVICE {
        if currentlySelfPowered {
          currentStatus := currentStatus + FEATURE_SELFPOWERED_ENABLED;
        }
        if remoteWakeupEnabled {
          currentStatus := currentStatus + FEATURE_REMOTE_WAKEUP_ENABLED;
        }
      } else {
        SelectEndpoint(EndpointOf(controlRequest));
        currentStatus := if endpoints[selected].halted then 1 else 0;
        SelectEndpoint(ENDPOINT_CONTROLEP);
      }
      ClearSETUP();
      Send([currentStatus, 0]);
      ClearStatusStage();
    }

    method ChangeHalt(endpointIndex: nat)
      requires Valid() && 0 < endpointIndex < ENDPOINTS
      modifies this`selected, this`endpoints, this`events
      ensures Valid() && selected == endpointIndex && events == old(events)
      ensures endpoints
              == old(endpoints)[endpointIndex :=
                   WithHalt(old(endpoints)[endpointIndex], controlRequest.bRequest == REQ_SetFeature)]
    {
      SelectEndpoint(endpointIndex);
      if endpoints[selected].enabled {
        if controlRequest.bRequest == REQ_SetFeature {
          StallTransaction();
        } else {
          ClearStall();
          ResetEndpoint(endpointIndex);
          ResetDataToggle();
        }
      }
    }

    method ClearSetFeature(f: Firmware)
      requires HasSetup() && FirmwareOk(f)
      requires IsFeature(controlRequest, REQREC_DEVICE) || IsFeature(controlRequest, REQREC_ENDPOINT)
      modifies this
      ensures Answered(controlRequest, f) && selected == ENDPOINT_CONTROLEP && controlRequest == old(controlRequest)
    {
      if controlRequest.bmRequestType % 32 == REQREC_DEVICE {
        if Low(controlRequest.wValue) == FEATURE_SEL_DeviceRemoteWakeup {
          remoteWakeupEnabled := controlRequest.bRequest == REQ_SetFeature;
        } else {
          return;
        }
      } else {
        if Low(controlRequest.wValue) == FEATURE_SEL_EndpointHalt {
          var endpointIndex := EndpointOf(controlRequest);
          if endpointIndex == ENDPOINT_CONTROLEP {
            return;
          }
          ChangeHalt(endpointIndex);
        }
      }
      SelectEndpoint(ENDPOINT_CONTROLEP);
      ClearSETUP();
      ClearStatusStage();
    }

    method ReadHeader()
      requires |fifo| >= HEADER_SIZE
      modifies this`fifo, this`controlRequest
      ensures controlRequest == Decode(old(fifo[..HEADER_SIZE])) && fifo == old(fifo[HEADER_SIZE..])
    {
      var header := [];
      for requestHeaderByte := 0 to HEADER_SIZE
        invariant header == old(fifo)[..requestHeaderByte] && fifo == old(fifo)[requestHeaderByte..]
      {
        header := header + [fifo[0]];
        fifo := fifo[1..];
      }
      controlRequest := Decode(header);
    }

    /** The SETUP packet stays pending only when the class driver hides it by selecting another endpoint. */
    method ProcessControlRequest(f: Firmware)
      requires HasSetup() && |fifo| >= HEADER_SIZE && FirmwareOk(f)
      modifies this
      ensures Valid()
      ensures var request := Decode(old(fifo[..HEADER_SIZE]));
              var (reply, s) := Answer(old(Visible()), request, f);
              && Visible() == s
              && events == old(events) + Transcript(request, reply)
              && (endpoints[0].halted <==> reply.Stalled?)
              && (setupPending <==> reply.Unanswered?)
              && selected == SelectedAfter(Turn(request, f))
    {
      ReadHeader();
      EventControlRequest(f);
      if IsSETUPReceived() {
        Dispatch(f);
      }
      StallIfPending();
    }

    /** A request that nobody has answered is stalled. */
    method StallIfPending()
      requires Valid() && !endpoints[0].halted
      modifies this`setupPending, this`endpoints, this`events
      ensures Valid() && Visible() == old(Visible()) && endpoints[0].halted == old(IsSETUPReceived())
      ensures setupPending == (old(setupPending) && !old(IsSETUPReceived()))
      ensures events == old(events) + if old(IsSETUPReceived()) then [SetupCleared, StallRequested] else []
    {
      if IsSETUPReceived() {
        ClearSETUP();
        StallTransaction();
      }
    }

    method Dispatch(f: Firmware)
      requires HasSetup() && FirmwareOk(f) && LeftToLibrary(f)
      modifies this
      ensures Answered(controlRequest, f) && controlRequest == old(controlRequest)
      ensures selected == SelectedAfter(Turn(controlRequest, f))
    {
      var bmRequestType := controlRequest.bmRequestType;
      match controlRequest.bRequest {
        case 0 =>
          if || bmRequestType == REQDIR_DEVICETOHOST + REQREC_DEVICE
             || bmRequestType == REQDIR_DEVICETOHOST + REQREC_ENDPOINT {
            GetStatus(f);
          }
        case 1 | 3 =>
          if bmRequestType == REQREC_DEVICE || bmRequestType == REQREC_ENDPOINT {
            ClearSetFeature(f);
          }
        case 5 =>
          if bmRequestType == REQREC_DEVICE {
            SetAddress(f);
          }
        case 6 =>
          if || bmRequestType == REQDIR_DEVICETOHOST + REQREC_DEVICE
             || bmRequestType == REQDIR_DEVICETOHOST + REQREC_INTERFACE {
            GetDescriptor(f);
          }
        case 8 =>
          if bmRequestType == REQDIR_DEVICETOHOST + REQREC_DEVICE {
            GetConfiguration(f);
          }
        case 9 =>
          if bmRequestType == REQREC_DEVICE {
            SetConfiguration(f);
          }
        case _ =>
      }
    }

    // Sessions

    /** A SETUP packet from the host ends a stall of the control endpoint and replaces what was there. */
    method ReceiveSetup(header: seq<Byte>)
      requires Valid()
      modifies this`setupPending, this`fifo, this`endpoints
      ensures Valid() && setupPending && fifo == header && !endpoints[0].halted && Visible() == old(Visible())
    {
      setupPending := true;
      fifo := header;
      endpoints := endpoints[0 := endpoints[0].(halted := false)];
    }

    /** The task of the library: deals with a SETUP packet if there is one, and keeps the selected endpoint. */
    method DeviceTask(f: Firmware)
      requires Valid() && FirmwareOk(f)
      requires setupPending ==> !endpoints[0].halted && |fifo| >= HEADER_SIZE
      modifies this
      ensures Valid() && selected == old(selected)
      ensures old(deviceState) == Unattached || !old(setupPending) ==>
                Visible() == old(Visible()) && events == old(events) && setupPending == old(setupPending)
      ensures old(deviceState) != Unattached && old(setupPending) ==>
                var request := Decode(old(fifo[..HEADER_SIZE]));
                var (reply, s) := Answer(old(Visible()), request, f);
                Visible() == s && events == old(events) + Transcript(request, reply)
    {
      if deviceState == Unattached {
        return;
      }
      var prevEndpoint := selected;
      SelectEndpoint(ENDPOINT_CONTROLEP);
      if IsSETUPReceived() {
        ProcessControlRequest(f);
      }
      SelectEndpoint(prevEndpoint);
    }

    method ServeOne(t: Turn)
      requires Valid() && deviceState != Unattached && FirmwareOk(t.firmware) && FitsHeader(t.request)
      modifies this
      ensures Valid() && deviceState != Unattached && selected == old(selected)
      ensures var (reply, s) := Answer(old(Visible()), t.request, t.firmware);
              Visible() == s && events == old(events) + Transcript(t.request, reply)
    {
      StaysAttached(Visible(), t);
      HeaderRoundTrip(t.request, Encode(t.request));
      ReceiveSetup(Encode(t.request));
      assert fifo[..HEADER_SIZE] == Encode(t.request);
      DeviceTask(t.firmware);
    }

    /** A session with the host: the device is then in the state, and has shown the bus what, the meaning of the
      requests says. */
    method Serve(turns: seq<Turn>)
      requires Valid() && deviceState != Unattached && TurnsOk(turns)
      requires forall i :: 0 <= i < |turns| ==> FitsHeader(turns[i].request)
      modifies this
      ensures Valid() && Visible() == After(old(Visible()), turns)
      ensures events == old(events) + Transcripts(old(Visible()), turns) && selected == old(selected)
    {
      ghost var before, seen := Visible(), events;
      for k := 0 to |turns|
        invariant Valid() && deviceState != Unattached && selected == old(selected)
        invariant Visible() == After(before, turns[..k])
        invariant events == seen + Transcripts(before, turns[..k])
      {
        ghost var reply := Answer(Visible(), turns[k].request, turns[k].firmware).0;
        TakeOneMore([], turns, k);
        SessionGrows(before, turns[..k], turns[k]);
        Associative(seen, Transcripts(before, turns[..k]), Transcript(turns[k].request, reply));
        ServeOne(turns[k]);
      }
      assert turns[..|turns|] == turns;
    }
  }

  lemma StaysAttached(s: Std, t: Turn)
    requires StdOk(s) && FirmwareOk(t.firmware) && s.state != Unattached
    ensures Answer(s, t.request, t.firmware).1.state != Unattached
  {
  }
}
