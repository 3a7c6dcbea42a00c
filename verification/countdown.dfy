/** The one-second countdown both games run with `setInterval`. Each firing
    of the interval is one `Tick`; clearing the interval sets `running` to
    false. */
module Countdown {

  datatype Clock = Clock(timeLeft: nat, running: bool)

  /** A fresh interval counting down from `seconds`. */
  function Start(seconds: nat): Clock {
    Clock(seconds, true)
  }

  /** `clearInterval`: the time shown stays, nothing ticks any more. */
  function Stop(c: Clock): Clock {
    c.(running := false)
  }

  /** This firing is the one that ends the countdown (`prev <= 1`). */
  predicate Expires(c: Clock) {
    c.running && c.timeLeft <= 1
  }

  /** One firing of the interval: the time goes down by one second, and
      the firing that finds one second or less left sets it to zero and
      clears the interval. A cleared interval does nothing. */
  function Tick(c: Clock): (r: Clock)
    ensures !c.running ==> r == c
    ensures c.running && c.timeLeft > 1 ==> r.running && r.timeLeft + 1 == c.timeLeft
    ensures Expires(c) ==> !r.running && r.timeLeft == 0
  {
    if !c.running then c
    else if c.timeLeft <= 1 then Clock(0, false)
    else Clock(c.timeLeft - 1, true)
  }

  /** `n` consecutive firings. */
  function Ticks(c: Clock, n: nat): Clock
    decreases n
  {
    if n == 0 then c else Ticks(Tick(c), n - 1)
  }

  /** Before the time is used up, `n` firings take exactly `n` seconds off
      and leave the countdown running. */
  lemma {:induction false} CountsDown(c: Clock, n: nat)
    requires c.running && n < c.timeLeft
    ensures Ticks(c, n) == Clock(c.timeLeft - n, true)
    decreases n
  {
    if n > 0 {
      CountsDown(Tick(c), n - 1);
    }
  }

  /** Once as many firings as there were seconds have happened, the
      countdown sits at zero and is stopped, however many more follow: the
      time never goes below zero and the timeout fires once. */
  lemma {:induction false} RunsOut(c: Clock, n: nat)
    requires c.running && n >= c.timeLeft && n >= 1
    ensures Ticks(c, n) == Clock(0, false)
    decreases n
  {
    if c.timeLeft <= 1 {
      StaysStopped(Tick(c), n - 1);
    } else {
      RunsOut(Tick(c), n - 1);
    }
  }

  lemma {:induction false} StaysStopped(c: Clock, n: nat)
    requires !c.running
    ensures Ticks(c, n) == c
    decreases n
  {
    if n > 0 {
      StaysStopped(Tick(c), n - 1);
    }
  }
}
