/** What the lock controller guarantees in every run, however the interrupts fall between the statements and
  whatever the sensor, the host and the card reader do. */
module DoorSafety {
  import opened Bytes
  import opened DoorMachine

  predicate Inv(w: World, portd: Port) {
    && StateOk(w)
    && PortsOk(w, portd)
    && ClockOk(w)
    && WaitOk(w)
    && TurnOk(w)
    && LedOk(w)
    && DecisionsOk(w)
    && CardsOk(w)
  }

  lemma StartIsInv(portd: Port, porte: Port)
    ensures Inv(Start(portd, porte), portd)
  {
  }

  lemma StepKeepsInv(w: World, s: Step, portd: Port)
    requires Inv(w, portd)
    ensures Inv(Do(w, s), portd)
  {
    StepKeepsState(w, s);
    StepKeepsPorts(w, s, portd);
    StepKeepsTime(w, s);
    StepKeepsTurn(w, s);
    StepKeepsLed(w, s);
    StepKeepsDecisions(w, s);
    StepKeepsCards(w, s, portd);
  }

  lemma {:induction false} RunKeepsInv(portd: Port, porte: Port, steps: seq<Step>)
    ensures Inv(Exec(Start(portd, porte), steps), portd)
    decreases |steps|
  {
    if steps == [] {
      StartIsInv(portd, porte);
    } else {
      var before := steps[..|steps| - 1];
      RunKeepsInv(portd, porte, before);
      StepKeepsInv(Exec(Start(portd, porte), before), steps[|steps| - 1], portd);
    }
  }

  /** Between operations: no door operation is under way. */
  predicate Quiet(pc: Pc) {
    !pc.Opening? && !pc.Closing?
  }

  /** The relay that opens is on pin 5 and driven in doorOpen only, between two of its statements; the relay that
    closes is on pin 4 and driven in doorClose only; so never both are. The device state VERIFYING is never
    entered. The pull-ups of the sense input (pin 6) and of the serial input (pin 2) and the unused pins of the
    port stay as set up. */
  lemma {:induction false} RelaysAreSafe(portd: Port, porte: Port, steps: seq<Step>)
    ensures var w := Exec(Start(portd, porte), steps);
            && (w.dev.portd & 0x20 != 0 <==> w.pc == Opening(OpenDelay) || w.pc == Opening(LowerOpen))
            && (w.dev.portd & 0x10 != 0 <==> w.pc.Closing? && (w.pc.c == CloseDelay || w.pc.c == LowerClose))
            && (Quiet(w.pc) ==> w.dev.portd & 0x30 == 0)
            && w.dev.state != VERIFYING
            && w.dev.portd & 0x4F == (portd & 0x4F) | 0x44
  {
    RunKeepsInv(portd, porte, steps);
    PortAfterSetupIs(portd);
    BothRelays(Exec(Start(portd, porte), steps).dev.portd);
  }

  lemma PortAfterSetupIs(portd: Port)
    ensures PortAfterSetup(portd) & 0x4F == (portd & 0x4F) | 0x44
  {
  }

  lemma BothRelays(p: Port)
    ensures p & 0x30 == 0 <==> p & 0x20 == 0 && p & 0x10 == 0
  {
  }

  /** Between operations the card reader is disabled, by pin 7, exactly when the panel is unlocked. */
  lemma {:induction false} ReaderIsDisabledWhileUnlocked(portd: Port, porte: Port, steps: seq<Step>)
    requires Quiet(Exec(Start(portd, porte), steps).pc)
    ensures var w := Exec(Start(portd, porte), steps);
            w.dev.portd & 0x80 != 0 <==> w.dev.state == UNLOCKED
  {
    RunKeepsInv(portd, porte, steps);
  }

  /** Once the first turn has shown it, and except for the moment between reading the sensor and writing the
    LED, the LED is lit exactly when the door is sensed open. */
  lemma {:induction false} LedShowsTheDoor(portd: Port, porte: Port, steps: seq<Step>)
    requires var pc := Exec(Start(portd, porte), steps).pc;
             !Starting(pc) && pc != LoopTop && pc != Sample && pc != ShowLed
    ensures var w := Exec(Start(portd, porte), steps);
            w.dev.porte & 0x40 != 0 <==> w.dev.current == OPEN
  {
    RunKeepsInv(portd, porte, steps);
  }

  // Time

  /** The timer holds the ticks since its last reset, modulo 2^16. As long as no turn of the main loop takes B
    ticks or more with 10000 + 2B >= 2^16, it has not wrapped and holds them exactly. */
  lemma {:induction false} TimerHoldsTheTicks(portd: Port, porte: Port, steps: seq<Step>)
    ensures var w := Exec(Start(portd, porte), steps);
            && w.dev.timer == (w.clock.now - w.clock.lastReset) % 0x1_0000
            && (10000 + 2 * w.clock.slowest < 0x1_0000 ==> w.dev.timer == w.clock.now - w.clock.lastReset)
  {
    RunKeepsInv(portd, porte, steps);
    var w := Exec(Start(portd, porte), steps);
    RemainderOf(w.clock.wraps, w.dev.timer);
  }

  lemma {:induction false} RemainderOf(wraps: nat, timer: nat)
    requires timer < UINT16
    ensures (UINT16 * wraps + timer) % UINT16 == timer
  {
    if wraps > 0 {
      RemainderOf(wraps - 1, timer);
    }
  }

  /** Bounded relock: with turns of at most B ticks, the panel is never unlocked for 8000 + 2B ticks after the
    last doorOpen. */
  lemma {:induction false} UnlockedTimeIsBounded(portd: Port, porte: Port, steps: seq<Step>)
    requires 10000 + 2 * Exec(Start(portd, porte), steps).clock.slowest < 0x1_0000
    requires Exec(Start(portd, porte), steps).dev.state == UNLOCKED
    ensures var w := Exec(Start(portd, porte), steps);
            w.clock.now - w.clock.openedAt < 8000 + 2 * w.clock.slowest
  {
    RunKeepsInv(portd, porte, steps);
  }

  /** Steady heartbeat: with turns of at most B ticks, the timer is reset at least every 10000 + 2B ticks. */
  lemma {:induction false} ResetsAreBounded(portd: Port, porte: Port, steps: seq<Step>)
    requires 10000 + 2 * Exec(Start(portd, porte), steps).clock.slowest < 0x1_0000
    ensures var w := Exec(Start(portd, porte), steps);
            w.clock.now - w.clock.lastReset < 10000 + 2 * w.clock.slowest
  {
    RunKeepsInv(portd, porte, steps);
  }

  /** Never early, whatever the length of the turns: a timeout locks no sooner than 8000 ticks after the last
    reset, and the periodic close comes no sooner than 10000. */
  lemma {:induction false} TimeoutsAreNeverEarly(portd: Port, porte: Port, steps: seq<Step>, d: Decision)
    requires d in Exec(Start(portd, porte), steps).decisions
    ensures d.why == Timeout ==> d.waited >= 8000
    ensures d.why == IdleReclose ==> d.waited >= 10000
  {
    RunKeepsInv(portd, porte, steps);
  }

  /** And what a timeout waited for is the time since doorOpen: while the panel is unlocked the last reset of
    the timer was doorOpen's. (Between the first two statements of doorOpen it is not yet.) */
  lemma {:induction false} UnlockedTimerWasResetByOpening(portd: Port, porte: Port, steps: seq<Step>)
    requires Exec(Start(portd, porte), steps).dev.state == UNLOCKED
    requires Exec(Start(portd, porte), steps).pc != Opening(ResetTimer)
    ensures var w := Exec(Start(portd, porte), steps);
            w.clock.lastReset == w.clock.openedAt
  {
    RunKeepsInv(portd, porte, steps);
  }

  /** When the check of the timeout locks: exactly when the panel is unlocked and the ticks since doorOpen,
    modulo 2^16, are 8000 or more. */
  lemma {:induction false} TimeoutCheckLocksIff(portd: Port, porte: Port, steps: seq<Step>, i: Input)
    requires Exec(Start(portd, porte), steps).pc == CheckTimeout
    ensures var w := Exec(Start(portd, porte), steps);
            RunMain(w, i).pc == Closing(RaiseClose, Timeout)
            <==> w.dev.state == UNLOCKED && (w.clock.now - w.clock.openedAt) % 0x1_0000 >= 8000
  {
    RunKeepsInv(portd, porte, steps);
    TimerHoldsTheTicks(portd, porte, steps);
    TimeoutCheckLooksAtTimer(Exec(Start(portd, porte), steps), i);
  }

  /** When the periodic check closes: exactly when the panel is idle and the ticks since the last reset, modulo
    2^16, are 10000 or more. */
  lemma {:induction false} PeriodicCheckLocksIff(portd: Port, porte: Port, steps: seq<Step>, i: Input)
    requires Exec(Start(portd, porte), steps).pc == CheckIdle
    ensures var w := Exec(Start(portd, porte), steps);
            RunMain(w, i).pc == Closing(RaiseClose, IdleReclose)
            <==> w.dev.state == IDLE && (w.clock.now - w.clock.lastReset) % 0x1_0000 >= 10000
  {
    TimerHoldsTheTicks(portd, porte, steps);
    PeriodicCheckLooksAtTimer(Exec(Start(portd, porte), steps), i);
  }

  /** So neither check is early, counted from doorOpen and from the last reset. */
  lemma {:induction false} ChecksAreNeverEarly(portd: Port, porte: Port, steps: seq<Step>, i: Input)
    ensures var w := Exec(Start(portd, porte), steps);
            && (w.pc == CheckTimeout && RunMain(w, i).pc == Closing(RaiseClose, Timeout) ==>
                  w.clock.now - w.clock.openedAt >= 8000)
            && (w.pc == CheckIdle && RunMain(w, i).pc == Closing(RaiseClose, IdleReclose) ==>
                  w.clock.now - w.clock.lastReset >= 10000)
  {
    var w := Exec(Start(portd, porte), steps);
    if w.pc == CheckTimeout {
      TimeoutCheckLocksIff(portd, porte, steps, i);
    } else if w.pc == CheckIdle {
      PeriodicCheckLocksIff(portd, porte, steps, i);
    }
    RunKeepsInv(portd, porte, steps);
    ModuloIsNoMore(w.clock.now - w.clock.openedAt);
    ModuloIsNoMore(w.clock.now - w.clock.lastReset);
  }

  lemma ModuloIsNoMore(n: int)
    requires n >= 0
    ensures n % 0x1_0000 <= n
  {
  }

  lemma PeriodicCheckLooksAtTimer(w: World, i: Input)
    requires w.pc == CheckIdle
    ensures RunMain(w, i).pc == Closing(RaiseClose, IdleReclose) <==> w.dev.state == IDLE && w.dev.timer >= 10000
  {
  }

  lemma TimeoutCheckLooksAtTimer(w: World, i: Input)
    requires w.pc == CheckTimeout
    ensures RunMain(w, i).pc == Closing(RaiseClose, Timeout)
            <==> w.dev.state == UNLOCKED && w.dev.timer >= 8000
  {
  }

  // A timeout that is missed

  ghost predicate Reachable(start: World, w: World) {
    exists steps: seq<Step> :: w == Exec(start, steps)
  }

  lemma StepIsReachable(start: World, w: World, s: Step)
    requires Reachable(start, w)
    ensures Reachable(start, Do(w, s))
  {
    var steps: seq<Step> :| w == Exec(start, steps);
    assert (steps + [s])[..|steps|] == steps;
    assert Do(w, s) == Exec(start, steps + [s]);
  }

  /** Any number of interrupts may come before the next statement, as many as bring the timer round to zero. */
  lemma {:induction false} TicksAreReachable(start: World, w: World, n: nat) returns (w': World)
    requires Reachable(start, w) && w.dev.timer == 0 && n <= UINT16
    ensures Reachable(start, w') && w'.pc == w.pc && w'.turn == w.turn && w'.dev.state == w.dev.state
    ensures w'.dev.timer == if n == UINT16 then 0 else n
    ensures w'.clock.now == w.clock.now + n && w'.clock.openedAt == w.clock.openedAt
  {
    w' := w;
    if n > 0 {
      w' := TicksAreReachable(start, w, n - 1);
      w' := TickIsReachable(start, w');
    }
  }

  lemma TickIsReachable(start: World, w: World) returns (w': World)
    requires Reachable(start, w)
    ensures Reachable(start, w') && w'.pc == w.pc && w'.turn == w.turn && w'.dev.state == w.dev.state
    ensures w'.dev.timer == Next16(w.dev.timer)
    ensures w'.clock.now == w.clock.now + 1 && w'.clock.openedAt == w.clock.openedAt
  {
    StepIsReachable(start, w, Tick);
    w' := Do(w, Tick);
  }

  /** The program points that are passed while nothing is going on. */
  function NextQuietly(pc: Pc): Pc {
    match pc
    case StartIdle => StartLastOpen
    case StartLastOpen => StartCurrentOpen
    case StartCurrentOpen => LoopTop
    case LoopTop => Sample
    case Sample => ShowLed
    case ShowLed => CheckIdle
    case CheckIdle => CheckSense
    case CheckSense => CheckTimeout
    case CheckTimeout => ReadCommand
    case ReadCommand => ReadCard
    case ReadCard => Maintain
    case Maintain => LoopTop
    case Opening(_) => pc
    case Closing(_, _) => pc
  }

  /** The next statement when the door is open, no command and no card byte comes, and the timer is low. */
  lemma QuietStatement(start: World, w: World) returns (w': World)
    requires Reachable(start, w) && Quiet(w.pc) && w.dev.timer < DOOR_OPEN_TIME
    requires w.pc in {ShowLed, CheckIdle, CheckSense, CheckTimeout} ==> w.dev.current == OPEN
    ensures Reachable(start, w') && w'.pc == NextQuietly(w.pc) && w'.clock.now == w.clock.now
    ensures w'.clock.openedAt == w.clock.openedAt && w'.dev.timer == w.dev.timer
    ensures !Starting(w.pc) ==> w'.dev.state == w.dev.state
    ensures w'.dev.current == if w.pc == Sample then OPEN else w'.dev.current
    ensures w.pc !in {Sample, StartCurrentOpen} ==> w'.dev.current == w.dev.current
    ensures w'.turn == if w.pc == LoopTop then Turn(w.dev.state, w.dev.current, [], [], []) else w.turn
  {
    var s := Main(Input(true, [], []));
    StepIsReachable(start, w, s);
    w' := Do(w, s);
  }

  /** From the loop top to the commands. */
  lemma QuietChecks(start: World, w: World) returns (w': World)
    requires Reachable(start, w) && w.pc == LoopTop && w.dev.timer < DOOR_OPEN_TIME
    ensures Reachable(start, w') && w'.pc == ReadCommand && w'.clock.now == w.clock.now
    ensures w'.clock.openedAt == w.clock.openedAt && w'.dev.timer == w.dev.timer
    ensures w'.dev.state == w.dev.state && w'.turn == Turn(w.dev.state, w.dev.current, [], [], [])
  {
    w' := QuietStatement(start, w);
    w' := QuietStatement(start, w');
    w' := QuietStatement(start, w');
    w' := QuietStatement(start, w');
    w' := QuietStatement(start, w');
    w' := QuietStatement(start, w');
  }

  /** From the command to open, through doorOpen, back to the commands. */
  lemma QuietOpening(start: World, w: World) returns (w': World)
    requires Reachable(start, w) && w.pc == ReadCommand
    ensures Reachable(start, w') && w'.pc == ReadCommand && w'.dev.state == UNLOCKED && w'.dev.timer == 0
    ensures w'.clock.openedAt == w'.clock.now
  {
    StepIsReachable(start, w, Main(Input(true, [OPEN_COMMAND], [])));
    w' := Do(w, Main(Input(true, [OPEN_COMMAND], [])));
    w' := OpeningStatement(start, w', SetUnlocked);
    w' := OpeningStatement(start, w', ResetTimer);
    w' := OpeningStatement(start, w', RaiseRfid);
    w' := OpeningStatement(start, w', RaiseOpen);
    w' := OpeningStatement(start, w', OpenDelay);
    w' := OpeningStatement(start, w', LowerOpen);
  }

  lemma OpeningStatement(start: World, w: World, o: OpenAt) returns (w': World)
    requires Reachable(start, w) && w.pc == Opening(o)
    ensures Reachable(start, w')
    ensures w'.pc == match o
                     case SetUnlocked => Opening(ResetTimer)
                     case ResetTimer => Opening(RaiseRfid)
                     case RaiseRfid => Opening(RaiseOpen)
                     case RaiseOpen => Opening(OpenDelay)
                     case OpenDelay => Opening(LowerOpen)
                     case LowerOpen => ReadCommand
    ensures w'.dev.state == if o == SetUnlocked then UNLOCKED else w.dev.state
    ensures w'.dev.timer == if o == ResetTimer then 0 else w.dev.timer
    ensures w'.clock.now == w.clock.now
    ensures w'.clock.openedAt == if o == SetUnlocked || o == ResetTimer then w.clock.now else w.clock.openedAt
  {
    var s := Main(Input(true, [], []));
    StepIsReachable(start, w, s);
    w' := Do(w, s);
  }

  /** The bounds do need turns that are short enough: here a turn of 2^16 ticks follows doorOpen, and then all
    checks of the next turn pass over a panel that has been unlocked for eight times as long as it should. */
  lemma LongTurnHidesTheTimeout(portd: Port, porte: Port) returns (w: World)
    ensures Reachable(Start(portd, porte), w)
    ensures w.pc == ReadCommand && w.dev.state == UNLOCKED && w.turn.start == UNLOCKED && w.turn.locks == []
    ensures w.clock.now - w.clock.openedAt == 0x1_0000 > 8 * 8000
  {
    var start := Start(portd, porte);
    w := QuietStart(portd, porte);
    w := QuietChecks(start, w);
    w := QuietOpening(start, w);
    w := TicksAreReachable(start, w, UINT16);
    w := QuietEnd(start, w);
    w := QuietChecks(start, w);
  }

  lemma QuietStart(portd: Port, porte: Port) returns (w: World)
    ensures Reachable(Start(portd, porte), w) && w.pc == LoopTop && w.dev.timer == 0
  {
    w := Start(portd, porte);
    assert w == Exec(w, []);
    w := QuietStatement(Start(portd, porte), w);
    w := QuietStatement(Start(portd, porte), w);
    w := QuietStatement(Start(portd, porte), w);
  }

  /** From the commands to the next loop top. */
  lemma QuietEnd(start: World, w: World) returns (w': World)
    requires Reachable(start, w) && w.pc == ReadCommand && w.dev.timer < DOOR_OPEN_TIME
    ensures Reachable(start, w') && w'.pc == LoopTop && w'.clock.now == w.clock.now
    ensures w'.clock.openedAt == w.clock.openedAt && w'.dev.timer == w.dev.timer && w'.dev.state == w.dev.state
  {
    w' := QuietStatement(start, w);
    w' := QuietStatement(start, w');
    w' := QuietStatement(start, w');
  }

  // One turn of the main loop

  /** The checks of a turn lock at most once, for the reason that the state and the sensor give; an unlocked
    panel that sees the door go from open to closed locks before it reads any command. */
  lemma {:induction false} ChecksLockOnceAndForAReason(portd: Port, porte: Port, steps: seq<Step>)
    requires SenseChecked(Exec(Start(portd, porte), steps).pc)
    ensures var w := Exec(Start(portd, porte), steps);
            && |w.turn.locks| <= 1
            && (w.turn.start == UNLOCKED && DoorJustShut(w) <==> LockedBy(w.turn, DoorShut))
            && (LockedBy(w.turn, Timeout) ==> w.turn.start == UNLOCKED && !DoorJustShut(w))
            && (LockedBy(w.turn, IdleReclose) ==> w.turn.start == IDLE)
  {
    RunKeepsInv(portd, porte, steps);
  }

  /** While commands are read, the state is the one the last door command asked for, or the one the checks left
    when there was none; and the relay pulses of the turn are the one of the checks, if any, followed by
    one for each door command, in order. */
  lemma {:induction false} CommandsDecideTheState(portd: Port, porte: Port, steps: seq<Step>)
    requires Quiet(Exec(Start(portd, porte), steps).pc)
    ensures var w := Exec(Start(portd, porte), steps);
            && w.dev.state == Decided(if w.turn.locks == [] then w.turn.start else IDLE, w.turn.commands)
            && w.turn.pulses == LockPulses(w.turn.locks) + CommandPulses(w.turn.commands)
  {
    RunKeepsInv(portd, porte, steps);
    var w := Exec(Start(portd, porte), steps);
    assert w.turn.pulses + [] == w.turn.pulses;
  }

  /** The last 'D' or 'd' of some commands decides, whatever comes after it. */
  lemma {:induction false} LastDoorByteDecides(before: DeviceState, commands: seq<Byte>, k: nat)
    requires k < |commands| && commands[k] in {'D' as int, 'd' as int}
    requires forall j :: k < j < |commands| ==> commands[j] !in {'D' as int, 'd' as int}
    ensures Decided(before, commands) == if commands[k] == 'D' as int then UNLOCKED else IDLE
    decreases |commands|
  {
    if k < |commands| - 1 {
      LastDoorByteDecides(before, commands[..|commands| - 1], k);
    }
  }

  lemma {:induction false} NoDoorByteChangesNothing(before: DeviceState, commands: seq<Byte>)
    requires forall j :: 0 <= j < |commands| ==> commands[j] !in {'D' as int, 'd' as int}
    ensures Decided(before, commands) == before && CommandPulses(commands) == []
    decreases |commands|
  {
    if commands != [] {
      NoDoorByteChangesNothing(before, commands[..|commands| - 1]);
    }
  }

  function DoorBytes(commands: seq<Byte>): seq<Byte> {
    if commands == [] then []
    else
      var last := commands[|commands| - 1];
      DoorBytes(commands[..|commands| - 1]) + if last in {'D' as int, 'd' as int} then [last] else []
  }

  /** The pulses are those of the 'D's and 'd's among the commands, in order: opening for 'D', closing for 'd'. */
  lemma {:induction false} PulsesFollowDoorBytes(commands: seq<Byte>)
    ensures |CommandPulses(commands)| == |DoorBytes(commands)|
    ensures forall i :: 0 <= i < |DoorBytes(commands)| ==>
              CommandPulses(commands)[i] == if DoorBytes(commands)[i] == 'D' as int then Unlock else Lock
    decreases |commands|
  {
    if commands != [] {
      PulsesFollowDoorBytes(commands[..|commands| - 1]);
    }
  }

  /** Each lock that the checks decide on is one closing pulse. */
  lemma {:induction false} LockPulsesAre(locks: seq<Why>)
    ensures LockPulses(locks) == seq(|locks|, _ => Lock)
  {
    if locks != [] {
      LockPulsesAre(locks[..|locks| - 1]);
    }
  }

  /** The relay pins that rise between two values of the port. */
  function Edges(p: Port, q: Port): seq<Relay> {
    (if p & 0x20 == 0 && q & 0x20 != 0 then [Unlock] else []) + (if p & 0x10 == 0 && q & 0x10 != 0 then [Lock] else [])
  }

  /** In every run the pulses on record are the rising edges of the relay pins. */
  lemma {:induction false} PulsesAreRisingEdges(portd: Port, porte: Port, steps: seq<Step>, s: Step)
    requires Exec(Start(portd, porte), steps).pc != LoopTop
    ensures var w := Exec(Start(portd, porte), steps);
            var w' := Do(w, s);
            w'.turn.pulses == w.turn.pulses + Edges(w.dev.portd, w'.dev.portd)
  {
    RunKeepsInv(portd, porte, steps);
    EdgesOfStep(Exec(Start(portd, porte), steps), s, portd);
  }

  lemma EdgesOfStep(w: World, s: Step, portd: Port)
    requires StateOk(w) && PortsOk(w, portd) && w.pc != LoopTop
    ensures Do(w, s).turn.pulses == w.turn.pulses + Edges(w.dev.portd, Do(w, s).dev.portd)
  {
    StepKeepsPorts(w, s, portd);
    PulsesOfStep(w, s);
    RelayPointsOfStep(w, s);
    OpenEdge(w, Do(w, s), portd);
  }

  predicate OpenDriven(pc: Pc) {
    pc == Opening(OpenDelay) || pc == Opening(LowerOpen)
  }

  predicate CloseDriven(pc: Pc) {
    pc.Closing? && (pc.c == CloseDelay || pc.c == LowerClose)
  }

  lemma OpenEdge(w: World, w': World, portd: Port)
    requires PortsOk(w, portd) && PortsOk(w', portd)
    ensures Edges(w.dev.portd, w'.dev.portd)
            == (if !OpenDriven(w.pc) && OpenDriven(w'.pc) then [Unlock] else [])
               + (if !CloseDriven(w.pc) && CloseDriven(w'.pc) then [Lock] else [])
  {
  }

  lemma RelayPointsOfStep(w: World, s: Step)
    ensures var w' := Do(w, s);
            && (!OpenDriven(w.pc) && OpenDriven(w'.pc) <==> s.Main? && w.pc == Opening(RaiseOpen))
            && (!CloseDriven(w.pc) && CloseDriven(w'.pc) <==> s.Main? && w.pc.Closing? && w.pc.c == RaiseClose)
  {
  }

  lemma PulsesOfStep(w: World, s: Step)
    requires w.pc != LoopTop
    ensures Do(w, s).turn.pulses
            == w.turn.pulses
               + if s.Main? && w.pc == Opening(RaiseOpen) then [Unlock]
                 else if s.Main? && w.pc.Closing? && w.pc.c == RaiseClose then [Lock]
                 else []
  {
  }

  // The statements of doorOpen and doorClose

  /** What each statement of doorOpen leaves, when no interrupt comes. */
  lemma StatementsOfDoorOpen(w: World)
    requires w.pc == Opening(SetUnlocked)
    ensures var p := w.dev.portd;
            var w1 := RunOpen(w, SetUnlocked);
            var w2 := RunOpen(w1, ResetTimer);
            var w3 := RunOpen(w2, RaiseRfid);
            var w4 := RunOpen(w3, RaiseOpen);
            var w5 := RunOpen(w4, OpenDelay);
            var w6 := RunOpen(w5, LowerOpen);
            && w1.pc == Opening(ResetTimer) && w1.dev == w.dev.(state := UNLOCKED)
            && w2.pc == Opening(RaiseRfid) && w2.dev == w.dev.(state := UNLOCKED, timer := 0)
            && w3.pc == Opening(RaiseOpen) && w3.dev == w2.dev.(portd := p | 0x80)
            && w4.pc == Opening(OpenDelay) && w4.dev == w2.dev.(portd := p | 0x80 | 0x20)
            && w5.pc == Opening(LowerOpen) && w5.dev == w4.dev
            && w6.pc == ReadCommand && w6.dev == w2.dev.(portd := (p | 0x80 | 0x20) & 0xDF)
  {
  }

  /** The same for doorClose, which goes on behind the check or the command that has called it. */
  lemma StatementsOfDoorClose(w: World, why: Why)
    requires w.pc == Closing(RaiseClose, why)
    ensures var p := w.dev.portd;
            var w1 := RunClose(w, RaiseClose, why);
            var w2 := RunClose(w1, CloseDelay, why);
            var w3 := RunClose(w2, LowerClose, why);
            var w4 := RunClose(w3, LowerRfid, why);
            var w5 := RunClose(w4, SetIdle, why);
            var w6 := RunClose(w5, RestartTimer, why);
            && w1.pc == Closing(CloseDelay, why) && w1.dev == w.dev.(portd := p | 0x10)
            && w2.pc == Closing(LowerClose, why) && w2.dev == w1.dev
            && w3.pc == Closing(LowerRfid, why) && w3.dev == w.dev.(portd := (p | 0x10) & 0xEF)
            && w4.pc == Closing(SetIdle, why) && w4.dev == w.dev.(portd := (p | 0x10) & 0xEF & 0x7F)
            && w5.pc == Closing(RestartTimer, why) && w5.dev == w4.dev.(state := IDLE)
            && w6.dev == w4.dev.(state := IDLE, timer := 0)
            && w6.pc == match why
                        case IdleReclose => CheckSense
                        case DoorShut => CheckTimeout
                        case Timeout => ReadCommand
                        case Command => ReadCommand
  {
  }
}
