/** The lock controller of the door panel as a machine of single statements.

  The main program runs one statement at a time; between any two of them the timer interrupt may come any
  number of times. A run is an arbitrary sequence of `Step`s: `Tick` is one interrupt, `Main` is the next
  statement of the main program, with whatever the outside world shows it at that moment. The unit of time
  is the tick.

  Besides what the firmware stores, a `World` remembers what happened, so that timing can be stated: when the
  timer was last reset and how often it has wrapped since, when the current turn of the main loop began, how
  long the slowest turn has been so far, and what the current turn has done. */
module DoorMachine {
  import opened Bytes

  const DOOR_CLOSE_TIME: nat := 10000
  const DOOR_OPEN_TIME: nat := 8000

  const OPEN_COMMAND: Byte := 68   // 'D'
  const CLOSE_COMMAND: Byte := 100 // 'd'

  datatype DeviceState = IDLE | VERIFYING | UNLOCKED

  datatype DoorSense = OPEN | CLOSED

  // Ports

  type Port = bv8

  const RFIDEN: Port := 0x80
  const SENSE_PULLUP: Port := 0x40
  const DOOROPEN: Port := 0x20
  const DOORCLOSE: Port := 0x10
  const LED: Port := 0x40

  /** The pins of port D that the controller never writes, the pull-up of the sense input among them. */
  const OTHER_PINS: Port := 0x4F

  function Raise(p: Port, pin: Port): Port {
    p | pin
  }

  function Lower(p: Port, pin: Port): Port {
    p & !pin
  }

  predicate High(p: Port, pin: Port) {
    p & pin != 0
  }

  /** Port D after the set-up of the pins, which also raises the pull-up of the serial receive pin. */
  function PortAfterSetup(p: Port): Port {
    Raise(Raise(Lower(Lower(Lower(p, RFIDEN), DOORCLOSE), DOOROPEN), SENSE_PULLUP), 0x04)
  }

  // Program points

  datatype Why = IdleReclose | DoorShut | Timeout | Command

  datatype OpenAt = SetUnlocked | ResetTimer | RaiseRfid | RaiseOpen | OpenDelay | LowerOpen

  datatype CloseAt = RaiseClose | CloseDelay | LowerClose | LowerRfid | SetIdle | RestartTimer

  datatype Pc =
    | StartIdle | StartLastOpen | StartCurrentOpen
    | LoopTop | Sample | ShowLed | CheckIdle | CheckSense | CheckTimeout | ReadCommand | ReadCard | Maintain
    | Opening(o: OpenAt)
    | Closing(c: CloseAt, why: Why)

  /** Where doorClose returns to. */
  function After(why: Why): Pc {
    match why
    case IdleReclose => CheckSense
    case DoorShut => CheckTimeout
    case Timeout => ReadCommand
    case Command => ReadCommand
  }

  // The world

  datatype Relay = Lock | Unlock

  /** What the current turn of the main loop started from and has done: locks decided by its checks, the
    command bytes it read, the relay pulses it gave. */
  datatype Turn = Turn(start: DeviceState, sense: DoorSense, locks: seq<Why>, commands: seq<Byte>, pulses: seq<Relay>)

  /** A decision of the checks to lock, and how long the timer had not been reset then. */
  datatype Decision = Decision(why: Why, waited: int)

  /** What the firmware stores: the device state, the timer, the two door senses and the two ports. */
  datatype Device = Device(
    state: DeviceState, timer: nat, last: DoorSense, current: DoorSense, portd: Port, porte: Port)

  datatype Clock = Clock(now: nat, lastReset: nat, wraps: nat, openedAt: nat, turnStart: nat, slowest: nat)

  datatype World = World(pc: Pc, dev: Device, clock: Clock, turn: Turn, decisions: seq<Decision>, cards: seq<CardByte>)

  datatype Input = Input(sensePinHigh: bool, command: seq<Byte>, card: seq<Byte>)

  datatype Step = Tick | Main(i: Input)

  /** Interrupts have just been enabled; static variables are zero. */
  function Start(portd: Port, porte: Port): World {
    World(StartIdle, Device(IDLE, 0, OPEN, OPEN, PortAfterSetup(portd), Lower(porte, LED)),
          Clock(0, 0, 0, 0, 0, 0), Turn(IDLE, OPEN, [], [], []), [], [])
  }

  function Longer(a: nat, b: int): nat {
    if a < b then b else a
  }

  function TickOnce(w: World): World {
    var c := w.clock;
    var timer := Next16(w.dev.timer);
    w.(dev := w.dev.(timer := timer),
       clock := c.(now := c.now + 1, wraps := if timer == 0 then c.wraps + 1 else c.wraps,
                   slowest := Longer(c.slowest, c.now + 1 - c.turnStart)))
  }

  function TimerReset(w: World): World {
    w.(dev := w.dev.(timer := 0), clock := w.clock.(lastReset := w.clock.now, wraps := 0))
  }

  function Pulse(w: World, r: Relay): World {
    w.(turn := w.turn.(pulses := w.turn.pulses + [r]))
  }

  function WithState(w: World, st: DeviceState): World {
    w.(dev := w.dev.(state := st))
  }

  function WithPortD(w: World, p: Port): World {
    w.(dev := w.dev.(portd := p))
  }

  /** A check of the main loop that finds it has to lock the door calls doorClose. */
  function Decide(w: World, fires: bool, why: Why): World {
    if fires then
      w.(pc := Closing(RaiseClose, why),
         turn := w.turn.(locks := w.turn.locks + [why]),
         decisions := w.decisions + [Decision(why, w.clock.now - w.clock.lastReset)])
    else w.(pc := After(why))
  }

  function NoteOpened(w: World): World {
    w.(clock := w.clock.(openedAt := w.clock.now))
  }

  function RunOpen(w: World, o: OpenAt): World {
    match o
    case SetUnlocked => NoteOpened(WithState(w, UNLOCKED)).(pc := Opening(ResetTimer))
    case ResetTimer => NoteOpened(TimerReset(w)).(pc := Opening(RaiseRfid))
    case RaiseRfid => WithPortD(w, Raise(w.dev.portd, RFIDEN)).(pc := Opening(RaiseOpen))
    case RaiseOpen => Pulse(WithPortD(w, Raise(w.dev.portd, DOOROPEN)), Unlock).(pc := Opening(OpenDelay))
    case OpenDelay => w.(pc := Opening(LowerOpen))
    case LowerOpen => WithPortD(w, Lower(w.dev.portd, DOOROPEN)).(pc := ReadCommand)
  }

  function RunClose(w: World, c: CloseAt, why: Why): World {
    match c
    case RaiseClose => Pulse(WithPortD(w, Raise(w.dev.portd, DOORCLOSE)), Lock).(pc := Closing(CloseDelay, why))
    case CloseDelay => w.(pc := Closing(LowerClose, why))
    case LowerClose => WithPortD(w, Lower(w.dev.portd, DOORCLOSE)).(pc := Closing(LowerRfid, why))
    case LowerRfid => WithPortD(w, Lower(w.dev.portd, RFIDEN)).(pc := Closing(SetIdle, why))
    case SetIdle => WithState(w, IDLE).(pc := Closing(RestartTimer, why))
    case RestartTimer => TimerReset(w).(pc := After(why))
  }

  function RunCommand(w: World, b: Byte): World {
    var w' := w.(turn := w.turn.(commands := w.turn.commands + [b]));
    if b == OPEN_COMMAND then w'.(pc := Opening(SetUnlocked))
    else if b == CLOSE_COMMAND then w'.(pc := Closing(RaiseClose, Command))
    else w'
  }

  /** The card byte goes to the line framer, which the controller does not look at. */
  function TakeCard(w: World, b: Byte): World {
    w.(cards := w.cards + [CardByte(b, w.dev.state == IDLE, !High(w.dev.portd, RFIDEN))])
  }

  function RunLoop(w: World, i: Input): World
    requires !w.pc.Opening? && !w.pc.Closing?
  {
    var d := w.dev;
    match w.pc
    case StartIdle => WithState(w, IDLE).(pc := StartLastOpen)
    case StartLastOpen => w.(dev := d.(last := OPEN), pc := StartCurrentOpen)
    case StartCurrentOpen => w.(dev := d.(current := OPEN), pc := LoopTop)
    case LoopTop =>
      w.(dev := d.(last := d.current), turn := Turn(d.state, d.current, [], [], []),
         clock := w.clock.(turnStart := w.clock.now), pc := Sample)
    case Sample => w.(dev := d.(current := if i.sensePinHigh then OPEN else CLOSED), pc := ShowLed)
    case ShowLed =>
      w.(dev := d.(porte := if d.current == OPEN then Raise(d.porte, LED) else Lower(d.porte, LED)), pc := CheckIdle)
    case CheckIdle => Decide(w, d.state == IDLE && d.timer >= DOOR_CLOSE_TIME, IdleReclose)
    case CheckSense => Decide(w, d.state == UNLOCKED && d.last == OPEN && d.current == CLOSED, DoorShut)
    case CheckTimeout => Decide(w, d.state == UNLOCKED && d.timer >= DOOR_OPEN_TIME, Timeout)
    case ReadCommand => if i.command == [] then w.(pc := ReadCard) else RunCommand(w, i.command[0])
    case ReadCard => if i.card == [] then w.(pc := Maintain) else TakeCard(w, i.card[0])
    case Maintain => w.(pc := LoopTop)
  }

  function RunMain(w: World, i: Input): World {
    match w.pc
    case Opening(o) => RunOpen(w, o)
    case Closing(c, why) => RunClose(w, c, why)
    case _ => RunLoop(w, i)
  }

  function Do(w: World, s: Step): World {
    match s
    case Tick => TickOnce(w)
    case Main(i) => RunMain(w, i)
  }

  function Exec(w: World, steps: seq<Step>): World
    decreases |steps|
  {
    if steps == [] then w else Do(Exec(w, steps[..|steps| - 1]), steps[|steps| - 1])
  }

  // Invariant: the device state

  predicate Starting(pc: Pc) {
    pc.StartIdle? || pc.StartLastOpen? || pc.StartCurrentOpen?
  }

  predicate StateOk(w: World) {
    && w.dev.state != VERIFYING
    && (Starting(w.pc) ==> w.dev.state == IDLE)
    && (w.pc.Opening? && w.pc.o != SetUnlocked ==> w.dev.state == UNLOCKED)
    && (w.pc.Closing? && w.pc.c == RestartTimer ==> w.dev.state == IDLE)
  }

  lemma StepKeepsState(w: World, s: Step)
    requires StateOk(w)
    ensures StateOk(Do(w, s))
  {
  }

  // Invariant: ports

  /** The relay outputs follow the program point; the reader is disabled when the door is unlocked, except in
    the few statements of doorOpen and doorClose where one of the two has changed and the other not yet. */
  predicate PortsOk(w: World, portd: Port) {
    && (High(w.dev.portd, DOOROPEN) <==> w.pc == Opening(OpenDelay) || w.pc == Opening(LowerOpen))
    && (High(w.dev.portd, DOORCLOSE) <==> w.pc.Closing? && (w.pc.c.CloseDelay? || w.pc.c.LowerClose?))
    && w.dev.portd & OTHER_PINS == PortAfterSetup(portd) & OTHER_PINS
    && match w.pc
       case Opening(o) =>
         && (o == SetUnlocked ==> (High(w.dev.portd, RFIDEN) <==> w.dev.state == UNLOCKED))
         && (o != SetUnlocked && o != ResetTimer && o != RaiseRfid ==> High(w.dev.portd, RFIDEN))
       case Closing(c, why) =>
         High(w.dev.portd, RFIDEN) <==> w.dev.state == UNLOCKED && c != SetIdle
       case _ => High(w.dev.portd, RFIDEN) <==> w.dev.state == UNLOCKED
  }

  lemma OnePinChanges(p: Port, pin: Port, other: Port)
    requires pin != 0 && pin & other == 0
    ensures High(Raise(p, pin), pin) && !High(Lower(p, pin), pin)
    ensures Raise(p, pin) & other == Lower(p, pin) & other == p & other
  {
  }

  lemma DoorPinChanges(p: Port)
    ensures forall pin :: pin in {RFIDEN, DOOROPEN, DOORCLOSE} ==>
              && High(Raise(p, pin), pin) && !High(Lower(p, pin), pin)
              && Raise(p, pin) & OTHER_PINS == Lower(p, pin) & OTHER_PINS == p & OTHER_PINS
              && forall q :: q in {RFIDEN, DOOROPEN, DOORCLOSE} && q != pin ==>
                   (High(Raise(p, pin), q) <==> High(p, q)) && (High(Lower(p, pin), q) <==> High(p, q))
  {
    OnePinChanges(p, RFIDEN, DOOROPEN);
    OnePinChanges(p, RFIDEN, DOORCLOSE);
    OnePinChanges(p, RFIDEN, OTHER_PINS);
    OnePinChanges(p, DOOROPEN, RFIDEN);
    OnePinChanges(p, DOOROPEN, DOORCLOSE);
    OnePinChanges(p, DOOROPEN, OTHER_PINS);
    OnePinChanges(p, DOORCLOSE, RFIDEN);
    OnePinChanges(p, DOORCLOSE, DOOROPEN);
    OnePinChanges(p, DOORCLOSE, OTHER_PINS);
  }

  lemma OpenKeepsPorts(w: World, o: OpenAt, portd: Port)
    requires StateOk(w) && PortsOk(w, portd) && w.pc == Opening(o)
    ensures PortsOk(RunOpen(w, o), portd)
  {
    if o in {RaiseRfid, RaiseOpen, LowerOpen} {
      DoorPinChanges(w.dev.portd);
    } else {
      assert RunOpen(w, o).dev.portd == w.dev.portd;
    }
  }

  lemma CloseKeepsPorts(w: World, c: CloseAt, why: Why, portd: Port)
    requires StateOk(w) && PortsOk(w, portd) && w.pc == Closing(c, why)
    ensures PortsOk(RunClose(w, c, why), portd)
  {
    if c in {RaiseClose, LowerClose, LowerRfid} {
      DoorPinChanges(w.dev.portd);
    } else {
      assert RunClose(w, c, why).dev.portd == w.dev.portd;
    }
  }

  lemma StepKeepsPorts(w: World, s: Step, portd: Port)
    requires StateOk(w) && PortsOk(w, portd)
    ensures PortsOk(Do(w, s), portd)
  {
    if s.Main? && w.pc.Opening? {
      OpenKeepsPorts(w, w.pc.o, portd);
    } else if s.Main? && w.pc.Closing? {
      CloseKeepsPorts(w, w.pc.c, w.pc.why, portd);
    } else {
      assert Do(w, s).dev.portd == w.dev.portd;
    }
  }

  // Invariant: time

  function Waited(w: World): int {
    w.clock.now - w.clock.lastReset
  }

  predicate ClockOk(w: World) {
    && w.clock.lastReset <= w.clock.now && w.clock.openedAt <= w.clock.now && w.clock.turnStart <= w.clock.now
    && Waited(w) == UINT16 * w.clock.wraps + w.dev.timer && w.dev.timer < UINT16
    && w.clock.now - w.clock.turnStart <= w.clock.slowest
    && (w.dev.state == UNLOCKED && w.pc != Opening(ResetTimer) ==> w.clock.openedAt == w.clock.lastReset)
    && (w.pc == Opening(ResetTimer) ==> w.clock.turnStart <= w.clock.openedAt)
  }

  /** No timer value is reached twice if no turn takes longer than this allows. */
  predicate TurnsFit(w: World) {
    DOOR_CLOSE_TIME + 2 * w.clock.slowest < UINT16
  }

  /** The timeout that will end the current wait has been looked at in this turn, and had not come. */
  predicate Checked(w: World) {
    match w.pc
    case Sample | ShowLed | CheckIdle => false
    case CheckSense | CheckTimeout => w.dev.state == IDLE
    case Closing(_, why) => why == Command
    case _ => true
  }

  function Deadline(w: World): nat {
    if w.dev.state == UNLOCKED && w.pc != Opening(ResetTimer) then DOOR_OPEN_TIME else DOOR_CLOSE_TIME
  }

  function Slack(w: World): int {
    (if Checked(w) then 0 else w.clock.slowest) + (w.clock.now - w.clock.turnStart)
  }

  predicate WaitOk(w: World) {
    TurnsFit(w) ==> Waited(w) < Deadline(w) + Slack(w)
  }

  lemma TickKeepsTime(w: World)
    requires ClockOk(w) && WaitOk(w)
    ensures ClockOk(TickOnce(w)) && WaitOk(TickOnce(w))
  {
  }

  lemma OpenKeepsTime(w: World, o: OpenAt)
    requires StateOk(w) && ClockOk(w) && WaitOk(w) && w.pc == Opening(o)
    ensures ClockOk(RunOpen(w, o)) && WaitOk(RunOpen(w, o))
  {
  }

  lemma CloseKeepsTime(w: World, c: CloseAt, why: Why)
    requires StateOk(w) && ClockOk(w) && WaitOk(w) && w.pc == Closing(c, why)
    ensures ClockOk(RunClose(w, c, why)) && WaitOk(RunClose(w, c, why))
  {
  }

  lemma StepKeepsTime(w: World, s: Step)
    requires StateOk(w) && ClockOk(w) && WaitOk(w)
    ensures ClockOk(Do(w, s)) && WaitOk(Do(w, s))
  {
    if s.Tick? {
      TickKeepsTime(w);
    } else if w.pc.Opening? {
      OpenKeepsTime(w, w.pc.o);
    } else if w.pc.Closing? {
      CloseKeepsTime(w, w.pc.c, w.pc.why);
    } else {
      LoopKeepsTime(w, s.i);
    }
  }

  lemma LoopKeepsTime(w: World, i: Input)
    requires StateOk(w) && ClockOk(w) && WaitOk(w) && !w.pc.Opening? && !w.pc.Closing?
    ensures ClockOk(RunMain(w, i)) && WaitOk(RunMain(w, i))
  {
    if TurnsFit(w) {
      TimerTellsTheWait(w);
    }
  }

  /** Unless the limit on the length of turns is passed, the timer holds the ticks since its last reset. */
  lemma TimerTellsTheWait(w: World)
    requires ClockOk(w) && WaitOk(w) && TurnsFit(w)
    ensures w.dev.timer == Waited(w)
  {
  }

  // Invariant: what one turn of the main loop does

  function LockPulses(locks: seq<Why>): seq<Relay> {
    if locks == [] then [] else LockPulses(locks[..|locks| - 1]) + [Lock]
  }

  /** One pulse for each door command, in order. */
  function CommandPulses(commands: seq<Byte>): seq<Relay> {
    if commands == [] then []
    else
      var last := |commands| - 1;
      CommandPulses(commands[..last]) + CommandPulse(commands[last])
  }

  function CommandPulse(b: Byte): seq<Relay> {
    if b == OPEN_COMMAND then [Unlock] else if b == CLOSE_COMMAND then [Lock] else []
  }

  /** The pulses that the checks and the commands of a turn call for. */
  function TurnPulses(t: Turn): seq<Relay> {
    LockPulses(t.locks) + CommandPulses(t.commands)
  }

  /** The state after one command. */
  function AfterCommand(before: DeviceState, b: Byte): DeviceState {
    if b == OPEN_COMMAND then UNLOCKED else if b == CLOSE_COMMAND then IDLE else before
  }

  /** The state after some commands: the last one that opens or closes decides. */
  function Decided(before: DeviceState, commands: seq<Byte>): DeviceState {
    if commands == [] then before
    else
      var last := |commands| - 1;
      if commands[last] == OPEN_COMMAND then UNLOCKED
      else if commands[last] == CLOSE_COMMAND then IDLE
      else Decided(before, commands[..last])
  }

  /** The state when the checks of a turn are done. */
  function AfterChecks(t: Turn): DeviceState {
    if t.locks == [] then t.start else IDLE
  }

  predicate LockedBy(t: Turn, why: Why) {
    t.locks != [] && t.locks[0] == why
  }

  predicate DoorJustShut(w: World) {
    w.turn.sense == OPEN && w.dev.current == CLOSED
  }

  /** The state once the operation under way, if any, is finished. */
  function Target(w: World): DeviceState {
    if w.pc.Opening? then UNLOCKED else if w.pc.Closing? then IDLE else w.dev.state
  }

  /** The pulse that the operation under way has not given yet. */
  function PulseToCome(pc: Pc): seq<Relay> {
    match pc
    case Opening(o) => if o == OpenDelay || o == LowerOpen then [] else [Unlock]
    case Closing(c, _) => if c == RaiseClose then [Lock] else []
    case _ => []
  }

  predicate SenseChecked(pc: Pc) {
    match pc
    case Sample | ShowLed | CheckIdle | CheckSense => false
    case Closing(_, why) => why != IdleReclose
    case _ => true
  }

  predicate ChecksOk(w: World) {
    && w.dev.last == w.turn.sense
    && |w.turn.locks| <= 1
    && (LockedBy(w.turn, IdleReclose) ==> w.turn.start == IDLE)
    && (LockedBy(w.turn, DoorShut) ==> w.turn.start == UNLOCKED && DoorJustShut(w))
    && (LockedBy(w.turn, Timeout) ==> w.turn.start == UNLOCKED && !DoorJustShut(w))
    && !LockedBy(w.turn, Command)
    && (SenseChecked(w.pc) && w.turn.start == UNLOCKED && DoorJustShut(w) ==> LockedBy(w.turn, DoorShut))
    && match w.pc
       case StartIdle | StartLastOpen | StartCurrentOpen =>
         w.turn == Turn(IDLE, OPEN, [], [], []) && w.dev.state == IDLE && w.dev.current == OPEN
       case Sample | ShowLed | CheckIdle => w.turn.locks == [] && w.turn.commands == []
       case CheckSense => w.turn.commands == [] && (w.turn.locks == [] || LockedBy(w.turn, IdleReclose))
       case CheckTimeout => w.turn.commands == []
       case Closing(_, why) => why != Command ==> w.turn.commands == [] && LockedBy(w.turn, why)
       case _ => true
  }

  predicate EffectOk(w: World) {
    && w.turn.pulses + PulseToCome(w.pc) == TurnPulses(w.turn)
    && Target(w) == Decided(AfterChecks(w.turn), w.turn.commands)
  }

  predicate LedOk(w: World) {
    || Starting(w.pc) || w.pc.LoopTop? || w.pc.Sample? || w.pc.ShowLed?
    || (High(w.dev.porte, LED) <==> w.dev.current == OPEN)
  }

  predicate DecisionsOk(w: World) {
    forall d :: d in w.decisions ==>
      && (d.why == IdleReclose ==> d.waited >= DOOR_CLOSE_TIME)
      && (d.why == Timeout ==> d.waited >= DOOR_OPEN_TIME)
  }

  /** The panel is idle exactly when the reader is enabled. */
  predicate CardsOk(w: World) {
    forall i :: 0 <= i < |w.cards| ==> (w.cards[i].idle <==> w.cards[i].readerOn)
  }

  predicate TurnOk(w: World) {
    ChecksOk(w) && EffectOk(w)
  }

  lemma BeforeAnyEffect(w: World)
    requires EffectOk(w) && !w.pc.Opening? && !w.pc.Closing? && w.turn.commands == []
    ensures w.dev.state == AfterChecks(w.turn) && w.turn.pulses == LockPulses(w.turn.locks)
  {
    assert w.turn.pulses + [] == w.turn.pulses;
    assert LockPulses(w.turn.locks) + [] == LockPulses(w.turn.locks);
  }

  lemma DecideKeepsTurn(w: World, fires: bool, why: Why)
    requires StateOk(w) && TurnOk(w) && (fires ==> w.turn.locks == [])
    requires match w.pc
             case CheckIdle => why == IdleReclose && (fires ==> w.dev.state == IDLE)
             case CheckSense => why == DoorShut && (fires <==> w.dev.state == UNLOCKED && DoorJustShut(w))
             case CheckTimeout => why == Timeout && (fires ==> w.dev.state == UNLOCKED)
             case _ => false
    ensures TurnOk(Decide(w, fires, why))
  {
    BeforeAnyEffect(w);
    if fires {
      assert [why][..0] == [];
      assert LockPulses([why]) == [Lock];
    }
  }

  lemma ChecksKeepTurn(w: World, i: Input)
    requires StateOk(w) && TurnOk(w) && (w.pc.CheckIdle? || w.pc.CheckSense? || w.pc.CheckTimeout?)
    ensures TurnOk(RunMain(w, i))
  {
    match w.pc
    case CheckIdle => DecideKeepsTurn(w, w.dev.state == IDLE && w.dev.timer >= DOOR_CLOSE_TIME, IdleReclose);
    case CheckSense =>
      DecideKeepsTurn(w, w.dev.state == UNLOCKED && w.dev.last == OPEN && w.dev.current == CLOSED, DoorShut);
    case CheckTimeout => DecideKeepsTurn(w, w.dev.state == UNLOCKED && w.dev.timer >= DOOR_OPEN_TIME, Timeout);
  }

  lemma OpenKeepsTurn(w: World, o: OpenAt)
    requires StateOk(w) && TurnOk(w) && w.pc == Opening(o)
    ensures TurnOk(RunOpen(w, o))
  {
  }

  lemma CloseKeepsTurn(w: World, c: CloseAt, why: Why)
    requires StateOk(w) && TurnOk(w) && w.pc == Closing(c, why)
    ensures TurnOk(RunClose(w, c, why))
  {
    CloseKeepsChecks(w, c, why);
    CloseKeepsEffect(w, c, why);
  }

  lemma CloseKeepsChecks(w: World, c: CloseAt, why: Why)
    requires ChecksOk(w) && w.pc == Closing(c, why)
    ensures ChecksOk(RunClose(w, c, why))
  {
  }

  lemma CloseKeepsEffect(w: World, c: CloseAt, why: Why)
    requires StateOk(w) && EffectOk(w) && w.pc == Closing(c, why)
    ensures EffectOk(RunClose(w, c, why))
  {
  }

  lemma CommandEffects(before: DeviceState, commands: seq<Byte>, b: Byte)
    ensures CommandPulses(commands + [b]) == CommandPulses(commands) + CommandPulse(b)
    ensures Decided(before, commands + [b]) == AfterCommand(Decided(before, commands), b)
  {
    assert (commands + [b])[..|commands|] == commands;
  }

  lemma CommandKeepsTurn(w: World, b: Byte)
    requires TurnOk(w) && w.pc == ReadCommand
    ensures TurnOk(RunCommand(w, b))
  {
    CommandKeepsChecks(w, b);
    CommandKeepsEffect(w, b);
  }

  lemma CommandKeepsChecks(w: World, b: Byte)
    requires ChecksOk(w) && w.pc == ReadCommand
    ensures ChecksOk(RunCommand(w, b))
  {
  }

  lemma CommandKeepsEffect(w: World, b: Byte)
    requires EffectOk(w) && w.pc == ReadCommand
    ensures EffectOk(RunCommand(w, b))
  {
    var t := w.turn;
    CommandEffects(AfterChecks(t), t.commands, b);
    CommandCalls(w, b);
    AddedBehind(t.pulses, LockPulses(t.locks), CommandPulses(t.commands), CommandPulse(b));
  }

  lemma CommandCalls(w: World, b: Byte)
    requires w.pc == ReadCommand
    ensures PulseToCome(RunCommand(w, b).pc) == CommandPulse(b)
    ensures Target(RunCommand(w, b)) == AfterCommand(w.dev.state, b)
    ensures RunCommand(w, b).turn == w.turn.(commands := w.turn.commands + [b])
  {
  }

  lemma AddedBehind<T>(given: seq<T>, a: seq<T>, b: seq<T>, more: seq<T>)
    requires given + [] == a + b
    ensures given + more == a + (b + more)
  {
    assert given == a + b;
  }

  lemma StepKeepsTurn(w: World, s: Step)
    requires StateOk(w) && TurnOk(w)
    ensures TurnOk(Do(w, s))
  {
    if s.Main? {
      match w.pc
      case CheckIdle | CheckSense | CheckTimeout => ChecksKeepTurn(w, s.i);
      case Opening(o) => OpenKeepsTurn(w, o);
      case Closing(c, why) => CloseKeepsTurn(w, c, why);
      case ReadCommand => if s.i.command != [] { CommandKeepsTurn(w, s.i.command[0]); }
      case _ => OthersKeepTurn(w, s.i);
    }
  }

  lemma OthersKeepTurn(w: World, i: Input)
    requires StateOk(w) && TurnOk(w)
    requires !(w.pc.CheckIdle? || w.pc.CheckSense? || w.pc.CheckTimeout? || w.pc.ReadCommand?)
    requires !w.pc.Opening? && !w.pc.Closing?
    ensures TurnOk(RunMain(w, i))
  {
    var w' := RunMain(w, i);
    if !w.pc.LoopTop? {
      assert w'.turn == w.turn && PulseToCome(w'.pc) == PulseToCome(w.pc) && Target(w') == Target(w);
    }
  }

  lemma LedShowsSense(p: Port)
    ensures High(Raise(p, LED), LED) && !High(Lower(p, LED), LED)
  {
  }

  lemma LedStays(w: World, s: Step)
    requires !(w.pc.StartCurrentOpen? || w.pc.Sample? || w.pc.ShowLed?)
    ensures Do(w, s).dev.porte == w.dev.porte && Do(w, s).dev.current == w.dev.current
  {
  }

  lemma StepKeepsLed(w: World, s: Step)
    requires LedOk(w)
    ensures LedOk(Do(w, s))
  {
    if w.pc.ShowLed? {
      LedShowsSense(w.dev.porte);
    } else if !w.pc.StartCurrentOpen? && !w.pc.Sample? {
      LedStays(w, s);
    }
  }

  lemma StepKeepsCards(w: World, s: Step, portd: Port)
    requires StateOk(w) && PortsOk(w, portd) && CardsOk(w)
    ensures CardsOk(Do(w, s))
  {
    if s.Main? && w.pc == ReadCard && s.i.card != [] {
      assert Do(w, s).cards == TakeCard(w, s.i.card[0]).cards;
    } else {
      assert Do(w, s).cards == w.cards;
    }
  }

  lemma StepKeepsDecisions(w: World, s: Step)
    requires ClockOk(w) && DecisionsOk(w)
    ensures DecisionsOk(Do(w, s))
  {
  }
}
