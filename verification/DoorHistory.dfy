/** What the clock of DoorMachine has on record, told from the steps of the run alone: the ticks that were taken
  and the program points that were passed. */
module DoorHistory {
  import opened Bytes
  import opened DoorMachine

  function Ticks(steps: seq<Step>): nat {
    if steps == [] then 0
    else Ticks(steps[..|steps| - 1]) + if steps[|steps| - 1].Tick? then 1 else 0
  }

  /** Statements whose time is remembered: those that reset the timer, those of doorOpen that start the time for
    which the panel is unlocked, and the one that begins a turn of the main loop. */
  datatype Mark = Resets | Opens | Begins

  predicate Marks(pc: Pc, m: Mark) {
    match m
    case Resets => pc == Opening(ResetTimer) || (pc.Closing? && pc.c == RestartTimer)
    case Opens => pc == Opening(SetUnlocked) || pc == Opening(ResetTimer)
    case Begins => pc == LoopTop
  }

  /** When the last such statement was run; zero if there was none. */
  function LastTime(start: World, steps: seq<Step>, m: Mark): nat {
    if steps == [] then 0
    else
      var before := steps[..|steps| - 1];
      if steps[|steps| - 1].Main? && Marks(Exec(start, before).pc, m) then Ticks(before) else LastTime(start, before, m)
  }

  /** The length of the longest turn, the one under way included. */
  function LongestTurn(start: World, steps: seq<Step>): int {
    if steps == [] then 0
    else
      var before := LongestTurn(start, steps[..|steps| - 1]);
      var now := Ticks(steps) - LastTime(start, steps, Begins);
      if before < now then now else before
  }

  lemma {:induction false} ClockTellsTheHistory(portd: Port, porte: Port, steps: seq<Step>)
    ensures var c := Exec(Start(portd, porte), steps).clock;
            && c.now == Ticks(steps)
            && c.lastReset == LastTime(Start(portd, porte), steps, Resets)
            && c.openedAt == LastTime(Start(portd, porte), steps, Opens)
            && c.turnStart == LastTime(Start(portd, porte), steps, Begins)
            && c.slowest == LongestTurn(Start(portd, porte), steps)
            && c.now - c.turnStart <= c.slowest
    decreases |steps|
  {
    if steps != [] {
      ClockTellsTheHistory(portd, porte, steps[..|steps| - 1]);
      ClockOfStep(Exec(Start(portd, porte), steps[..|steps| - 1]), steps[|steps| - 1]);
    }
  }

  lemma ClockOfStep(w: World, s: Step)
    ensures var c, c' := w.clock, Do(w, s).clock;
            && c'.now == c.now + (if s.Tick? then 1 else 0)
            && c'.lastReset == (if s.Main? && Marks(w.pc, Resets) then c.now else c.lastReset)
            && c'.openedAt == (if s.Main? && Marks(w.pc, Opens) then c.now else c.openedAt)
            && c'.turnStart == (if s.Main? && Marks(w.pc, Begins) then c.now else c.turnStart)
            && (s.Main? ==> c'.slowest == c.slowest)
            && (s.Tick? && c.now - c.turnStart + 1 <= c.slowest ==> c'.slowest == c.slowest)
            && (s.Tick? && c.now - c.turnStart + 1 > c.slowest ==> c'.slowest == c.now - c.turnStart + 1)
  {
  }

  /** The card bytes that a run takes, each with the state of the panel and pin 7, which disables the reader. */
  function CardsTaken(start: World, steps: seq<Step>): seq<CardByte> {
    if steps == [] then []
    else
      var before, s := Exec(start, steps[..|steps| - 1]), steps[|steps| - 1];
      CardsTaken(start, steps[..|steps| - 1])
      + if s.Main? && before.pc == ReadCard && s.i.card != []
        then [CardByte(s.i.card[0], before.dev.state == IDLE, before.dev.portd & 0x80 == 0)]
        else []
  }

  lemma {:induction false} CardsTellTheHistory(portd: Port, porte: Port, steps: seq<Step>)
    ensures Exec(Start(portd, porte), steps).cards == CardsTaken(Start(portd, porte), steps)
    decreases |steps|
  {
    if steps != [] {
      CardsTellTheHistory(portd, porte, steps[..|steps| - 1]);
      CardsOfStep(Exec(Start(portd, porte), steps[..|steps| - 1]), steps[|steps| - 1]);
    }
  }

  lemma CardsOfStep(w: World, s: Step)
    ensures Do(w, s).cards
            == w.cards
               + if s.Main? && w.pc == ReadCard && s.i.card != []
                 then [CardByte(s.i.card[0], w.dev.state == IDLE, w.dev.portd & 0x80 == 0)]
                 else []
  {
  }

  /** A decision to lock is on record for each check that calls doorClose, with the ticks since the last reset. */
  lemma DecisionsOfStep(w: World, s: Step)
    ensures var w' := Do(w, s);
            w'.decisions
            == w.decisions
               + if s.Main? && w.pc in {CheckIdle, CheckSense, CheckTimeout} && w'.pc.Closing?
                 then [Decision(w'.pc.why, w.clock.now - w.clock.lastReset)]
                 else []
  {
  }
}
