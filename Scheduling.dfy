/** The one-second reschedule of the tick, as values. Each call of `_update_timer` that finds the
    timer running counts a second off and asks Tk to call it again in 1000 ms; nothing ever
    cancels such a request. A `Chain` pairs the countdown with the number of those requests still
    pending, so that one second of wall time fires each of them once. */
module Scheduling {
  import opened Countdown

  datatype Chain = Chain(count: CountdownState, pending: nat)

  /** One call of `_update_timer`: the tick, and while running a fresh request for the next one. */
  function Update(c: Chain): (r: Chain)
    ensures r.count == Step(c.count)
    ensures r.pending == if c.count.running then c.pending + 1 else c.pending
  {
    if c.count.running then Chain(Step(c.count), c.pending + 1) else c
  }

  /** One pending request falls due: it is used up and `_update_timer` runs. The chain it belongs
      to lives on exactly when the timer is running. */
  function Fire(c: Chain): (r: Chain)
    requires c.pending > 0
    ensures r.count == Step(c.count)
    ensures r.pending == if c.count.running then c.pending else c.pending - 1
  {
    Update(c.(pending := c.pending - 1))
  }

  /** `n` of the pending requests fall due one after another. */
  function FireN(c: Chain, n: nat): Chain
    requires n <= c.pending
    decreases n
  {
    if n == 0 then c else FireN(Fire(c), n - 1)
  }

  /** One second of wall time: every request pending at its start falls due once. */
  function Second(c: Chain): Chain {
    FireN(c, c.pending)
  }

  /** `n` seconds of wall time. */
  function Seconds(c: Chain, n: nat): Chain
    decreases n
  {
    if n == 0 then c else Seconds(Second(c), n - 1)
  }

  /** `_stop_timer`: the running flag drops; the pending request stays with Tk. */
  function Stop(c: Chain): (r: Chain)
    ensures !r.count.running && r.count.timeLeft == c.count.timeLeft && r.pending == c.pending
  {
    c.(count := Halt(c.count))
  }

  /** `_start_timer` once its checks have passed, as written: the running flag is raised and
      `_update_timer` is called at once, next to whatever request is still pending. */
  function StartAsWritten(c: Chain): (r: Chain)
    ensures r.count.running
    ensures c.count.running ==> r == c
    ensures !c.count.running ==> r.count.timeLeft == c.count.timeLeft - 1 && r.pending == c.pending + 1
  {
    if c.count.running then c else Update(c.(count := c.count.(running := true)))
  }

  /** `_start_timer` with the pending request cancelled first, as the file already does for its
      blink and resize jobs (`after_cancel`): the first tick starts the only chain. */
  function StartFixed(c: Chain): (r: Chain)
    ensures r.count.running
    ensures c.count.running ==> r == c
    ensures !c.count.running ==> r.count.timeLeft == c.count.timeLeft - 1 && r.pending == 1
  {
    if c.count.running then c else Update(Chain(c.count.(running := true), 0))
  }

  /** While running, `n` firings count off `n` seconds and leave as many requests pending;
      while stopped they count nothing and use up `n` requests. */
  lemma {:induction false} FireNCount(c: Chain, n: nat)
    requires n <= c.pending
    ensures FireN(c, n).count.running == c.count.running
    ensures FireN(c, n).count.timeLeft == if c.count.running then c.count.timeLeft - n else c.count.timeLeft
    ensures FireN(c, n).pending == if c.count.running then c.pending else c.pending - n
    decreases n
  {
    if n > 0 {
      FireNCount(Fire(c), n - 1);
    }
  }

  /** While running, one second counts off one second per pending request and keeps them all;
      while stopped, it counts nothing and every pending request dies out. */
  lemma SecondCount(c: Chain)
    ensures Second(c).count.running == c.count.running
    ensures Second(c).count.timeLeft == if c.count.running then c.count.timeLeft - c.pending else c.count.timeLeft
    ensures Second(c).pending == if c.count.running then c.pending else 0
  {
    FireNCount(c, c.pending);
  }

  /** As written: start at 65 s, stop before the next second, start again. Two requests are now
      pending, and the next second of wall time counts off two seconds, where one was meant. */
  lemma StopStartDoublesSpeed()
    ensures var c := StartAsWritten(Stop(StartAsWritten(Chain(CountdownState(65, false), 0))));
      && c == Chain(CountdownState(63, true), 2)
      && Second(c).count.timeLeft == 61
      && Second(c).count != Step(c.count)
  {
    SecondCount(Chain(CountdownState(63, true), 2));
  }

  /** At most one request is pending, and exactly one while the timer runs. */
  predicate OneChain(c: Chain) {
    c.pending <= 1 && (c.count.running ==> c.pending == 1)
  }

  /** With the pending request cancelled on start, every command and every second keeps the
      single chain. */
  lemma FixedKeepsOneChain(c: Chain)
    requires OneChain(c)
    ensures OneChain(StartFixed(c)) && OneChain(Stop(c)) && OneChain(Second(c))
  {
    SecondCount(c);
  }

  /** With one chain, a second of wall time is exactly one tick. */
  lemma SecondIsStep(c: Chain)
    requires OneChain(c)
    ensures Second(c).count == Step(c.count)
    ensures OneChain(Second(c))
  {
    SecondCount(c);
  }

  /** Corrected: with one chain, `n` seconds of wall time are exactly `n` ticks, which is the
      schedule the window class assumes when it is ticked once a second. */
  lemma {:induction false} FixedSecondsAreSteps(c: Chain, n: nat)
    requires OneChain(c)
    ensures Seconds(c, n).count == Steps(c.count, n)
    decreases n
  {
    if n > 0 {
      SecondIsStep(c);
      FixedSecondsAreSteps(Second(c), n - 1);
    }
  }

  /** Corrected: stop and start within one second leave a single chain, and the next second counts
      off one second. */
  lemma StopStartFixed()
    ensures var c := StartFixed(Stop(StartFixed(Chain(CountdownState(65, false), 0))));
      && c == Chain(CountdownState(63, true), 1)
      && Second(c).count == Step(c.count)
  {
    SecondIsStep(Chain(CountdownState(63, true), 1));
  }
}
