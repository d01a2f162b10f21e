/** The countdown itself, as values: what one tick does to the remaining time and the running flag. */
module Countdown {
  import opened Results
  import opened SharedState

  datatype CountdownState = CountdownState(timeLeft: int, running: bool)

  /** One firing of the tick: while running, one second is counted off; while stopped, nothing happens.
      A tick never changes the running flag, changes the state exactly when running, and lowers
      the time by at most one second. */
  function Step(c: CountdownState): (r: CountdownState)
    ensures r.running == c.running
    ensures r == c <==> !c.running
    ensures c.timeLeft - 1 <= r.timeLeft <= c.timeLeft
  {
    if c.running then c.(timeLeft := c.timeLeft - 1) else c
  }

  /** `n` ticks in a row. */
  function Steps(c: CountdownState, n: nat): CountdownState
    decreases n
  {
    if n == 0 then c else Steps(Step(c), n - 1)
  }

  /** Stopping: the running flag drops, the remaining time stays. */
  function Halt(c: CountdownState): (r: CountdownState)
    ensures !r.running && r.timeLeft == c.timeLeft
  {
    c.(running := false)
  }

  /** While running, `n` ticks lower the time by exactly `n`; while stopped they change nothing. */
  lemma {:induction false} StepsCount(c: CountdownState, n: nat)
    ensures Steps(c, n).running == c.running
    ensures Steps(c, n).timeLeft == if c.running then c.timeLeft - n else c.timeLeft
    decreases n
  {
    if n > 0 {
      StepsCount(Step(c), n - 1);
    }
  }

  /** Stopping twice is stopping once, and it keeps the remaining time. */
  lemma HaltIdempotent(c: CountdownState)
    ensures Halt(Halt(c)) == Halt(c)
    ensures Halt(c).timeLeft == c.timeLeft && !Halt(c).running
  {
  }

  /** After a stop, any number of ticks leaves the countdown exactly where it was. */
  lemma {:induction false} HaltedStaysPut(c: CountdownState, n: nat)
    ensures Steps(Halt(c), n) == Halt(c)
  {
    StepsCount(Halt(c), n);
  }

  /** From 65 seconds with a one-minute threshold: five ticks reach 60 and raise the warning;
      sixty-six ticks reach -1, where the past-zero flag replaces it. */
  lemma WarningScenario(speaker: Option<Roster.Speaker>)
    ensures var c := Steps(CountdownState(65, true), 5);
      c.timeLeft == 60 && SnapshotOf(c.timeLeft, speaker).isWarning
    ensures var c := Steps(CountdownState(65, true), 66);
      c.timeLeft == -1 && SnapshotOf(c.timeLeft, speaker).isPastZero
      && !SnapshotOf(c.timeLeft, speaker).isWarning
  {
    StepsCount(CountdownState(65, true), 5);
    StepsCount(CountdownState(65, true), 66);
  }
}
