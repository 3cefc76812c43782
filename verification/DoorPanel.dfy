/** The lock controller as the firmware is written: global variables, doorOpen, doorClose, and the turns of the
  main loop, with the timer interrupt coming between statements as often as it likes.

  Each statement is followed by `Next`, which notes the step of DoorMachine that the statement is and lets any
  number of interrupts in. `Valid` says that the variables are those of the machine after the noted steps, so
  the class runs exactly as the machine does and everything proved in DoorSafety holds of it. `Framing` says the
  same of the line framer: it has taken the card bytes of the run, so what is written is what TagReports says. */
module DoorPanel {
  import opened Bytes
  import opened Sequences
  import opened LineFramer
  import opened TagReports
  import opened DoorMachine
  import opened DoorSafety

  const NO_INPUT := Input(false, [], [])

  /** What the outside world shows in one turn: the sense pin, the command bytes and the card bytes. */
  datatype Outside = Outside(sensePinHigh: bool, commands: seq<Byte>, cards: seq<Byte>)

  /** The card bytes of some turns. */
  function AllCards(outside: seq<Outside>): seq<Byte> {
    if outside == [] then [] else AllCards(outside[..|outside| - 1]) + outside[|outside| - 1].cards
  }

  predicate OnlyTimePassed(a: World, b: World) {
    && b.pc == a.pc && b.turn == a.turn && b.decisions == a.decisions && b.cards == a.cards
    && b.dev == a.dev.(timer := b.dev.timer)
    && a.clock.now <= b.clock.now && b.clock.turnStart == a.clock.turnStart
    && b.clock.lastReset == a.clock.lastReset && b.clock.openedAt == a.clock.openedAt
  }

  /** The program point at which a statement raises a pin of port D, and the one after it. */
  ghost predicate Raises(at: Pc, pin: Port, next: Pc) {
    || (at == Opening(RaiseRfid) && pin == RFIDEN && next == Opening(RaiseOpen))
    || (at == Opening(RaiseOpen) && pin == DOOROPEN && next == Opening(OpenDelay))
    || (at.Closing? && at.c == RaiseClose && pin == DOORCLOSE && next == Closing(CloseDelay, at.why))
  }

  ghost predicate Lowers(at: Pc, pin: Port, next: Pc) {
    || (at == Opening(LowerOpen) && pin == DOOROPEN && next == ReadCommand)
    || (at.Closing? && at.c == LowerClose && pin == DOORCLOSE && next == Closing(LowerRfid, at.why))
    || (at.Closing? && at.c == LowerRfid && pin == RFIDEN && next == Closing(SetIdle, at.why))
  }

  lemma RaiseIsAStep(w: World, pin: Port, next: Pc)
    requires Raises(w.pc, pin, next)
    ensures var w' := RunMain(w, NO_INPUT);
            && w'.pc == next && w'.dev == w.dev.(portd := Raise(w.dev.portd, pin)) && w'.clock == w.clock
            && w'.turn == w.turn.(pulses := w'.turn.pulses) && w'.cards == w.cards
            && (pin == RFIDEN ==> w'.turn.pulses == w.turn.pulses)
            && (pin == DOOROPEN ==> w'.turn.pulses == w.turn.pulses + [Unlock])
            && (pin == DOORCLOSE ==> w'.turn.pulses == w.turn.pulses + [Lock])
  {
  }

  lemma LowerIsAStep(w: World, pin: Port, next: Pc)
    requires Lowers(w.pc, pin, next)
    ensures var w' := RunMain(w, NO_INPUT);
            && w'.pc == next && w'.dev == w.dev.(portd := Lower(w.dev.portd, pin)) && w'.clock == w.clock
            && w'.turn == w.turn && w'.cards == w.cards
  {
  }

  /** What is known at the top of the loop of the turn that has just ended. */
  ghost predicate TurnIsSafe(w: World) {
    && !High(w.dev.portd, DOOROPEN) && !High(w.dev.portd, DOORCLOSE)
    && (High(w.dev.portd, RFIDEN) <==> w.dev.state == UNLOCKED)
    && |w.turn.locks| <= 1
    && (w.turn.start == UNLOCKED && DoorJustShut(w) <==> LockedBy(w.turn, DoorShut))
    && w.dev.state == Decided(if w.turn.locks == [] then w.turn.start else IDLE, w.turn.commands)
    && w.turn.pulses == LockPulses(w.turn.locks) + CommandPulses(w.turn.commands)
  }

  class Panel {
    var deviceState: DeviceState
    var systemTimer: nat
    var doorsenseLast: DoorSense
    var doorsenseCurrent: DoorSense
    var portd: Port
    var porte: Port
    const tagBuffer: CharBuffer

    ghost const portd0: Port
    ghost const porte0: Port
    ghost var w: World
    ghost var steps: seq<Step>

    ghost predicate Traced()
      reads this`w, this`steps
    {
      w == Exec(Start(portd0, porte0), steps)
    }

    ghost predicate Mirrors(w': World)
      reads this
    {
      w'.dev == Device(deviceState, systemTimer, doorsenseLast, doorsenseCurrent, portd, porte)
    }

    ghost predicate Valid()
      reads this
    {
      Traced() && Mirrors(w)
    }

    /** The pins are set up, static variables are zero, and interrupts are on from here. */
    constructor SetupHardware(portd: Port, porte: Port)
      ensures portd0 == portd && porte0 == porte
      ensures Valid() && w.pc == StartIdle && w.cards == []
      ensures fresh(tagBuffer) && fresh(tagBuffer.buffer) && Framing()
    {
      tagBuffer := new CharBuffer.InitBuffer();
      portd0, porte0 := portd, porte;
      this.porte := porte & !LED;
      this.portd := (portd & !RFIDEN & !DOORCLOSE & !DOOROPEN) | SENSE_PULLUP | 0x04;
      deviceState, systemTimer, doorsenseLast, doorsenseCurrent := IDLE, 0, OPEN, OPEN;
      steps := [];
      w := Start(portd, porte);
    }

    method TimerInterrupt()
      requires Valid()
      modifies this`systemTimer, this`w, this`steps
      ensures Valid() && w == TickOnce(old(w)) && steps == old(steps) + [Tick]
    {
      systemTimer := Next16(systemTimer);
      Note(Tick);
    }

    ghost method Note(s: Step)
      requires Traced()
      modifies this`w, this`steps
      ensures Traced() && w == Do(old(w), s) && steps == old(steps) + [s]
    {
      assert (steps + [s])[..|steps|] == steps;
      steps := steps + [s];
      w := Do(w, s);
    }

    /** A statement has run: any number of interrupts may come before the next one. */
    method Next(ghost i: Input := NO_INPUT)
      requires Traced() && Mirrors(RunMain(w, i))
      modifies this`systemTimer, this`w, this`steps
      ensures Valid() && OnlyTimePassed(RunMain(old(w), i), w)
    {
      Note(Main(i));
      var interrupts: nat := *;
      while interrupts > 0
        invariant Valid() && OnlyTimePassed(RunMain(old(w), i), w)
      {
        TimerInterrupt();
        interrupts := interrupts - 1;
      }
    }

    // Statements

    /** What none of the statements of doorOpen and doorClose touches. */
    twostate predicate DoorStatement()
      reads this
    {
      && doorsenseLast == old(doorsenseLast) && doorsenseCurrent == old(doorsenseCurrent) && porte == old(porte)
      && w.turn == old(w.turn).(pulses := w.turn.pulses) && w.cards == old(w.cards)
      && old(w.clock.now) <= w.clock.now
    }

    method SetState(st: DeviceState)
      requires Valid() && (w.pc == Opening(SetUnlocked) || (w.pc.Closing? && w.pc.c == SetIdle))
      requires st == if w.pc.Opening? then UNLOCKED else IDLE
      modifies this
      ensures Valid() && DoorStatement()
      ensures w.pc == if old(w.pc).Opening? then Opening(ResetTimer) else Closing(RestartTimer, old(w.pc.why))
      ensures deviceState == st && portd == old(portd) && w.turn.pulses == old(w.turn.pulses)
      ensures st == IDLE ==> w.clock.openedAt == old(w.clock.openedAt)
    {
      deviceState := st;
      Next();
    }

    method ResetSystemTimer()
      requires Valid() && (w.pc == Opening(ResetTimer) || (w.pc.Closing? && w.pc.c == RestartTimer))
      modifies this
      ensures Valid() && DoorStatement()
      ensures w.pc == if old(w.pc).Opening? then Opening(RaiseRfid) else After(old(w.pc.why))
      ensures deviceState == old(deviceState) && portd == old(portd) && w.turn.pulses == old(w.turn.pulses)
      ensures w.clock.lastReset == old(w.clock.now)
      ensures w.clock.openedAt == if old(w.pc).Opening? then old(w.clock.now) else old(w.clock.openedAt)
    {
      systemTimer := 0;
      Next();
    }

    method RaisePin(pin: Port, ghost next: Pc)
      requires Valid() && Raises(w.pc, pin, next)
      modifies this
      ensures Valid() && DoorStatement() && w.pc == next
      ensures deviceState == old(deviceState) && portd == Raise(old(portd), pin)
      ensures pin == RFIDEN ==> w.turn.pulses == old(w.turn.pulses)
      ensures pin == DOOROPEN ==> w.turn.pulses == old(w.turn.pulses) + [Unlock]
      ensures pin == DOORCLOSE ==> w.turn.pulses == old(w.turn.pulses) + [Lock]
      ensures w.clock.openedAt == old(w.clock.openedAt) && w.clock.lastReset == old(w.clock.lastReset)
    {
      RaiseIsAStep(w, pin, next);
      portd := portd | pin;
      Next();
    }

    method LowerPin(pin: Port, ghost next: Pc)
      requires Valid() && Lowers(w.pc, pin, next)
      modifies this
      ensures Valid() && DoorStatement() && w.pc == next
      ensures deviceState == old(deviceState) && portd == Lower(old(portd), pin)
      ensures w.turn.pulses == old(w.turn.pulses)
      ensures w.clock.openedAt == old(w.clock.openedAt) && w.clock.lastReset == old(w.clock.lastReset)
    {
      LowerIsAStep(w, pin, next);
      portd := portd & !pin;
      Next();
    }

    /** The length of a relay pulse: some number of interrupts. */
    method Delay()
      requires Valid() && (w.pc == Opening(OpenDelay) || (w.pc.Closing? && w.pc.c == CloseDelay))
      modifies this
      ensures Valid() && DoorStatement()
      ensures w.pc == if old(w.pc).Opening? then Opening(LowerOpen) else Closing(LowerClose, old(w.pc.why))
      ensures deviceState == old(deviceState) && portd == old(portd) && w.turn.pulses == old(w.turn.pulses)
      ensures w.clock.openedAt == old(w.clock.openedAt) && w.clock.lastReset == old(w.clock.lastReset)
    {
      Next();
    }

    method ShiftSense()
      requires Valid() && w.pc == LoopTop
      modifies this
      ensures Valid() && w.pc == Sample && deviceState == old(deviceState)
      ensures w.turn == Turn(old(deviceState), old(doorsenseCurrent), [], [], [])
      ensures doorsenseLast == doorsenseCurrent == old(doorsenseCurrent)
      ensures w.cards == old(w.cards)
    {
      doorsenseLast := doorsenseCurrent;
      Next();
    }

    method SampleSense(sensePinHigh: bool)
      requires Valid() && w.pc == Sample
      modifies this
      ensures Valid() && w.pc == ShowLed && deviceState == old(deviceState) && w.turn == old(w.turn)
      ensures doorsenseLast == old(doorsenseLast)
      ensures doorsenseCurrent == if sensePinHigh then OPEN else CLOSED
      ensures w.cards == old(w.cards)
    {
      if sensePinHigh {
        doorsenseCurrent := OPEN;
      } else {
        doorsenseCurrent := CLOSED;
      }
      Next(Input(sensePinHigh, [], []));
    }

    method ShowSense()
      requires Valid() && w.pc == ShowLed
      modifies this
      ensures Valid() && w.pc == CheckIdle && deviceState == old(deviceState) && w.turn == old(w.turn)
      ensures doorsenseLast == old(doorsenseLast) && doorsenseCurrent == old(doorsenseCurrent)
      ensures w.cards == old(w.cards)
    {
      if doorsenseCurrent == OPEN {
        porte := porte | LED;
      } else {
        porte := porte & !LED;
      }
      Next();
    }

    /** The conditions of the three checks. */
    predicate Fires(why: Why)
      reads this
    {
      match why
      case IdleReclose => deviceState == IDLE && systemTimer >= DOOR_CLOSE_TIME
      case DoorShut => deviceState == UNLOCKED && doorsenseLast == OPEN && doorsenseCurrent == CLOSED
      case Timeout => deviceState == UNLOCKED && systemTimer >= DOOR_OPEN_TIME
      case Command => false
    }

    method Check(why: Why)
      requires Valid()
      requires (w.pc, why) in {(CheckIdle, IdleReclose), (CheckSense, DoorShut), (CheckTimeout, Timeout)}
      modifies this
      ensures Valid() && w.pc == After(why)
      ensures w.turn.start == old(w.turn.start) && w.turn.sense == old(w.turn.sense)
      ensures w.turn.commands == old(w.turn.commands)
      ensures doorsenseLast == old(doorsenseLast) && doorsenseCurrent == old(doorsenseCurrent)
      ensures deviceState == if old(Fires(why)) then IDLE else old(deviceState)
      ensures w.cards == old(w.cards)
      ensures w.turn.pulses == old(w.turn.pulses) + if old(Fires(why)) then [Lock] else []
    {
      var fires := Fires(why);
      Next();
      if fires {
        DoorClose(why);
      }
    }

    // doorOpen and doorClose

    method DoorOpen()
      requires Valid() && w.pc == Opening(SetUnlocked)
      modifies this
      ensures Valid() && w.pc == ReadCommand && DoorStatement()
      ensures deviceState == UNLOCKED && w.turn.pulses == old(w.turn.pulses) + [Unlock]
      ensures w.clock.openedAt == w.clock.lastReset >= old(w.clock.now)
      ensures portd == Lower(Raise(Raise(old(portd), RFIDEN), DOOROPEN), DOOROPEN)
    {
      SetState(UNLOCKED);
      ResetSystemTimer();
      RaisePin(RFIDEN, Opening(RaiseOpen));
      RaisePin(DOOROPEN, Opening(OpenDelay));
      Delay();
      LowerPin(DOOROPEN, ReadCommand);
    }

    method DoorClose(ghost why: Why)
      requires Valid() && w.pc == Closing(RaiseClose, why)
      modifies this
      ensures Valid() && w.pc == After(why) && DoorStatement()
      ensures deviceState == IDLE && w.turn.pulses == old(w.turn.pulses) + [Lock]
      ensures w.clock.lastReset >= old(w.clock.now) && w.clock.openedAt == old(w.clock.openedAt)
      ensures portd == Lower(Lower(Raise(old(portd), DOORCLOSE), DOORCLOSE), RFIDEN)
    {
      RaisePin(DOORCLOSE, Closing(CloseDelay, why));
      Delay();
      LowerPin(DOORCLOSE, Closing(LowerRfid, why));
      LowerPin(RFIDEN, Closing(SetIdle, why));
      SetState(IDLE);
      ResetSystemTimer();
    }

    // The main loop

    method TakeCommand(b: Byte)
      requires Valid() && w.pc == ReadCommand
      modifies this
      ensures Valid()
      ensures w.pc == if b == OPEN_COMMAND then Opening(SetUnlocked)
                      else if b == CLOSE_COMMAND then Closing(RaiseClose, Command)
                      else ReadCommand
      ensures w.turn == old(w.turn).(commands := old(w.turn.commands) + [b]) && deviceState == old(deviceState)
      ensures doorsenseLast == old(doorsenseLast) && doorsenseCurrent == old(doorsenseCurrent)
      ensures w.cards == old(w.cards)
    {
      Next(Input(false, [b], []));
    }

    method ProcessCommand(newCommand: Byte)
      requires Valid() && w.pc == ReadCommand
      modifies this
      ensures Valid() && w.pc == ReadCommand
      ensures w.turn.commands == old(w.turn.commands) + [newCommand]
      ensures w.turn.start == old(w.turn.start) && w.turn.sense == old(w.turn.sense)
      ensures deviceState == if newCommand == 'D' as int then UNLOCKED
                             else if newCommand == 'd' as int then IDLE
                             else old(deviceState)
      ensures w.turn.pulses == old(w.turn.pulses) + (if newCommand == 'D' as int then [Unlock]
                                                     else if newCommand == 'd' as int then [Lock]
                                                     else [])
      ensures doorsenseLast == old(doorsenseLast) && doorsenseCurrent == old(doorsenseCurrent)
      ensures w.cards == old(w.cards)
    {
      TakeCommand(newCommand);
      if newCommand == OPEN_COMMAND {
        DoorOpen();
      } else if newCommand == CLOSE_COMMAND {
        DoorClose(Command);
      }
    }

    method ProcessCommands(commands: seq<Byte>)
      requires Valid() && w.pc == ReadCommand && w.turn.commands == []
      modifies this
      ensures Valid() && w.pc == ReadCard
      ensures w.turn.commands == commands && w.turn.start == old(w.turn.start) && w.turn.sense == old(w.turn.sense)
      ensures deviceState == Decided(old(deviceState), commands)
      ensures w.turn.pulses == old(w.turn.pulses) + CommandPulses(commands)
      ensures doorsenseLast == old(doorsenseLast) && doorsenseCurrent == old(doorsenseCurrent)
      ensures w.cards == old(w.cards)
    {
      var k := 0;
      while k < |commands|
        invariant 0 <= k <= |commands|
        invariant Valid() && w.pc == ReadCommand
        invariant w.turn.commands == commands[..k]
        invariant w.turn.start == old(w.turn.start) && w.turn.sense == old(w.turn.sense)
        invariant deviceState == Decided(old(deviceState), commands[..k])
        invariant w.turn.pulses == old(w.turn.pulses) + CommandPulses(commands[..k])
        invariant w.cards == old(w.cards)
        invariant doorsenseLast == old(doorsenseLast) && doorsenseCurrent == old(doorsenseCurrent)
      {
        CommandEffects(old(deviceState), commands[..k], commands[k]);
        TakeOneMore([], commands, k);
        Associative(old(w.turn.pulses), CommandPulses(commands[..k]), CommandPulse(commands[k]));
        ProcessCommand(commands[k]);
        k := k + 1;
      }
      assert commands[..k] == commands;
      Next();
    }

    /** The start of a turn, up to the point where commands are read. */
    method SenseAndCheck(sensePinHigh: bool)
      requires Valid() && w.pc == LoopTop
      modifies this
      ensures Valid() && w.pc == ReadCommand
      ensures w.turn.start == old(deviceState) && w.turn.sense == old(doorsenseCurrent) && w.turn.commands == []
      ensures doorsenseCurrent == if sensePinHigh then OPEN else CLOSED
      ensures old(deviceState) == UNLOCKED && old(doorsenseCurrent) == OPEN && !sensePinHigh ==> deviceState == IDLE
      ensures w.cards == old(w.cards)
    {
      ShiftSense();
      SampleSense(sensePinHigh);
      ShowSense();
      Check(IdleReclose);
      Check(DoorShut);
      Check(Timeout);
    }

    /** The output for the card bytes of all turns so far. */
    ghost function Written(): seq<Byte>
      reads this`w
    {
      Output(CHAR_BUFFER_SIZE, w.cards)
    }

    /** The line framer has taken the card bytes of all turns so far. */
    ghost predicate Framing()
      reads this`w, tagBuffer, tagBuffer.buffer
    {
      tagBuffer.Tracks() && tagBuffer.size == CHAR_BUFFER_SIZE && tagBuffer.seen == BytesOf(w.cards)
    }

    /** Takes the card bytes that are waiting; returns what is written to the host. */
    method ReadCards(cards: seq<Byte>) returns (text: seq<Byte>)
      requires Valid() && Framing() && w.pc == ReadCard
      modifies this, tagBuffer, tagBuffer.buffer
      ensures Valid() && Framing() && w.pc == Maintain && w.turn == old(w.turn)
      ensures Written() == old(Written()) + text && BytesOf(w.cards) == BytesOf(old(w.cards)) + cards
      ensures doorsenseLast == old(doorsenseLast) && doorsenseCurrent == old(doorsenseCurrent)
    {
      text := TakeCards(cards);
      Next();
    }

    method TakeCards(cards: seq<Byte>) returns (text: seq<Byte>)
      requires Valid() && Framing() && w.pc == ReadCard
      modifies this, tagBuffer, tagBuffer.buffer
      ensures Valid() && Framing() && w.pc == ReadCard && w.turn == old(w.turn)
      ensures Written() == old(Written()) + text && BytesOf(w.cards) == BytesOf(old(w.cards)) + cards
      ensures doorsenseLast == old(doorsenseLast) && doorsenseCurrent == old(doorsenseCurrent)
    {
      ghost var written, bytes := Written(), BytesOf(w.cards);
      text := [];
      var k := 0;
      while k < |cards|
        invariant 0 <= k <= |cards|
        invariant Valid() && Framing() && w.pc == ReadCard && w.turn == old(w.turn)
        invariant Written() == written + text && BytesOf(w.cards) == bytes + cards[..k]
        invariant doorsenseLast == old(doorsenseLast) && doorsenseCurrent == old(doorsenseCurrent)
      {
        TakeOneMore(bytes, cards, k);
        var more := TakeCardByte(cards[k]);
        Associative(written, text, more);
        text := text + more;
        k := k + 1;
      }
      assert cards[..k] == cards;
    }

    method TakeCardByte(b: Byte) returns (text: seq<Byte>)
      requires Valid() && Framing() && w.pc == ReadCard
      modifies this, tagBuffer, tagBuffer.buffer
      ensures Valid() && Framing() && w.pc == ReadCard && w.turn == old(w.turn)
      ensures w.cards == old(w.cards) + [CardByte(b, old(deviceState) == IDLE, old(portd) & 0x80 == 0)]
      ensures Written() == old(Written()) + text && BytesOf(w.cards) == BytesOf(old(w.cards)) + [b]
      ensures doorsenseLast == old(doorsenseLast) && doorsenseCurrent == old(doorsenseCurrent)
    {
      BytesGrow(w.cards, CardByte(b, deviceState == IDLE, !High(portd, RFIDEN)));
      text := ServeByte(tagBuffer, w.cards, b, deviceState == IDLE, !High(portd, RFIDEN));
      Next(Input(false, [], [b]));
    }

    method FinishTurn()
      requires Valid() && w.pc == Maintain
      modifies this
      ensures Valid() && w.pc == LoopTop && w.turn == old(w.turn)
      ensures doorsenseCurrent == old(doorsenseCurrent)
      ensures High(porte, LED) <==> doorsenseCurrent == OPEN
      ensures w.cards == old(w.cards)
    {
      LedShowsTheDoor(portd0, porte0, steps);
      Next();
    }

    /** One turn of the main loop; returns what is written to the host. */
    method TakeTurn(o: Outside) returns (text: seq<Byte>)
      requires Valid() && Framing() && w.pc == LoopTop
      modifies this, tagBuffer, tagBuffer.buffer
      ensures Valid() && Framing() && w.pc == LoopTop
      ensures w.turn.start == old(deviceState) && w.turn.sense == old(doorsenseCurrent)
      ensures w.turn.commands == o.commands
      ensures doorsenseCurrent == if o.sensePinHigh then OPEN else CLOSED
      ensures High(porte, LED) <==> doorsenseCurrent == OPEN
      ensures Written() == old(Written()) + text && BytesOf(w.cards) == BytesOf(old(w.cards)) + o.cards
      ensures TurnIsSafe(w)
    {
      SenseAndCheck(o.sensePinHigh);
      ProcessCommands(o.commands);
      text := ReadCards(o.cards);
      FinishTurn();
      SafeAtLoopTop();
    }

    lemma SafeAtLoopTop()
      requires Valid() && w.pc == LoopTop
      ensures TurnIsSafe(w)
    {
      RelaysAreSafe(portd0, porte0, steps);
      ReaderIsDisabledWhileUnlocked(portd0, porte0, steps);
      ChecksLockOnceAndForAReason(portd0, porte0, steps);
      CommandsDecideTheState(portd0, porte0, steps);
    }

    /** The main program, for as many turns as the outside world is given for; returns what is written to the
      host in all of them. */
    method RunTurns(outside: seq<Outside>) returns (text: seq<Byte>)
      requires Valid() && Framing() && w.pc == StartIdle && w.cards == []
      modifies this, tagBuffer, tagBuffer.buffer
      ensures Valid() && Framing() && w.pc == LoopTop && TurnIsSafe(w)
      ensures BytesOf(w.cards) == AllCards(outside) && text == Written()
    {
      StartUp();
      SafeAtLoopTop();
      text := [];
      for t := 0 to |outside|
        invariant Valid() && Framing() && w.pc == LoopTop && TurnIsSafe(w)
        invariant BytesOf(w.cards) == AllCards(outside[..t]) && text == Written()
      {
        assert outside[..t + 1][..t] == outside[..t];
        var more := TakeTurn(outside[t]);
        text := text + more;
      }
      assert outside[..|outside|] == outside;
    }

    method SetFirstState()
      requires Valid() && w.pc == StartIdle
      modifies this
      ensures Valid() && w.pc == StartLastOpen && w.cards == old(w.cards) && deviceState == IDLE
    {
      deviceState := IDLE;
      Next();
    }

    /** The statements before the loop. */
    method StartUp()
      requires Valid() && w.pc == StartIdle
      modifies this
      ensures Valid() && w.pc == LoopTop && w.cards == old(w.cards)
      ensures deviceState == IDLE && doorsenseLast == doorsenseCurrent == OPEN
    {
      SetFirstState();
      doorsenseLast := OPEN;
      Next();
      doorsenseCurrent := OPEN;
      Next();
    }
  }
}
