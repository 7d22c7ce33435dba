/** The delay breakdown of a delivery record (log_adhoc.c:212-265). */
module Delays {

  datatype Time = Time(sec: int, usec: int)

  const MILLION: int := 1_000_000

  /** A time in microseconds; the microseconds field may be out of range. */
  function Micros(t: Time): int {
    t.sec * MILLION + t.usec
  }

  function Max0(x: int): nat {
    if x < 0 then 0 else x
  }

  predicate Normal(t: Time) {
    t.sec >= 0 && 0 <= t.usec < MILLION
  }

  /** DELTA: the time from z to y, zero when y is earlier, in normal form. */
  method Delta(y: Time, z: Time) returns (x: Time)
    ensures Normal(x) && Micros(x) == Max0(Micros(y) - Micros(z))
  {
    var sec, usec := y.sec - z.sec, y.usec - z.usec;
    while usec < 0
      invariant Micros(Time(sec, usec)) == Micros(y) - Micros(z)
      decreases -usec
    {
      usec := usec + MILLION;
      sec := sec - 1;
    }
    while usec >= MILLION
      invariant usec >= 0 && Micros(Time(sec, usec)) == Micros(y) - Micros(z)
    {
      usec := usec - MILLION;
      sec := sec + 1;
    }
    if sec < 0 {
      sec, usec := 0, 0;
    }
    x := Time(sec, usec);
  }

  /** MSG_STATS, as far as it is used here. */
  datatype Stats = Stats(incoming: Time, active: Time, handoff: Time, setup: Time, done: Time)

  /** TIME_STAMPED. */
  predicate Stamped(t: Time) {
    t.sec > 0
  }

  datatype Breakdown = Breakdown(delay: Time, pdelay: Time, adelay: Time, sdelay: Time, xdelay: Time)

  /** The end of the delivery: its stamp, or the clock. */
  function End(s: Stats, clock: Time): Time {
    if Stamped(s.done) then s.done else clock
  }

  /** The times between which the delays are taken, from the arrival to the end. */
  function Marks(s: Stats, clock: Time): (m: seq<Time>)
    ensures |m| >= 2 && m[0] == s.incoming && m[|m| - 1] == End(s, clock)
  {
    if !Stamped(s.active) then [s.incoming, End(s, clock)]
    else if !Stamped(s.handoff) then [s.incoming, s.active, End(s, clock)]
    else if !Stamped(s.setup) then [s.incoming, s.active, s.handoff, End(s, clock)]
    else [s.incoming, s.active, s.handoff, s.setup, End(s, clock)]
  }

  /** The marks are the stamps that are set up to the first that is not, in this order, between
      the arrival and the end. */
  lemma MarksAre(s: Stats, clock: Time, k: nat)
    requires var stamps := [s.active, s.handoff, s.setup];
             k <= 3 && (forall i | 0 <= i < k :: stamps[i].sec > 0) && (k < 3 ==> stamps[k].sec <= 0)
    ensures Marks(s, clock) ==
            [s.incoming] + [s.active, s.handoff, s.setup][..k] + [if s.done.sec > 0 then s.done else clock]
  {
    var stamps := [s.active, s.handoff, s.setup];
    assert k > 0 ==> stamps[0] == s.active;
    assert k > 1 ==> stamps[1] == s.handoff;
    assert k > 2 ==> stamps[2] == s.setup;
  }

  function Gap(m: seq<Time>, i: nat): nat {
    if i + 1 < |m| then Max0(Micros(m[i + 1]) - Micros(m[i])) else 0
  }

  /** The computation in log_adhoc: the gaps between the marks in order, with the set-up
      time left at zero when there is no such stamp. */
  method Compute(s: Stats, clock: Time) returns (b: Breakdown)
    ensures Normal(b.delay) && Normal(b.pdelay) && Normal(b.adelay) && Normal(b.sdelay) && Normal(b.xdelay)
    ensures var m := Marks(s, clock);
            && Micros(b.delay) == Max0(Micros(m[|m| - 1]) - Micros(m[0]))
            && Micros(b.pdelay) == Gap(m, 0) && Micros(b.adelay) == Gap(m, 1)
            && Micros(b.sdelay) == (if |m| == 5 then Gap(m, 2) else 0)
            && Micros(b.xdelay) == (if |m| == 5 then Gap(m, 3) else Gap(m, 2))
  {
    var zero := Time(0, 0);
    var now := if Stamped(s.done) then s.done else clock;
    var delay := Delta(now, s.incoming);
    var pdelay, adelay, sdelay, xdelay := zero, zero, zero, zero;
    if Stamped(s.active) {
      pdelay := Delta(s.active, s.incoming);
      if Stamped(s.handoff) {
        adelay := Delta(s.handoff, s.active);
        if Stamped(s.setup) {
          sdelay := Delta(s.setup, s.handoff);
          xdelay := Delta(now, s.setup);
        } else {
          xdelay := Delta(now, s.handoff);
        }
      } else {
        adelay := Delta(now, s.active);
      }
    } else {
      pdelay := Delta(now, s.incoming);
    }
    b := Breakdown(delay, pdelay, adelay, sdelay, xdelay);
  }

  function AllGaps(m: seq<Time>): nat {
    if |m| < 2 then 0 else Max0(Micros(m[1]) - Micros(m[0])) + AllGaps(m[1..])
  }

  predicate Rising(m: seq<Time>) {
    |m| < 2 || (Micros(m[0]) <= Micros(m[1]) && Rising(m[1..]))
  }

  predicate Falling(m: seq<Time>) {
    |m| < 2 || (Micros(m[0]) >= Micros(m[1]) && Falling(m[1..]))
  }

  /** The gaps cover the way from the first mark to the last; nothing is counted twice
      exactly when the marks go one way only. */
  lemma {:induction false} GapsCover(m: seq<Time>)
    requires m != []
    ensures AllGaps(m) >= Max0(Micros(m[|m| - 1]) - Micros(m[0]))
    ensures AllGaps(m) == Micros(m[|m| - 1]) - Micros(m[0]) <==> Rising(m)
    ensures AllGaps(m) == 0 <==> Falling(m)
    ensures Rising(m) ==> Micros(m[|m| - 1]) >= Micros(m[0])
    ensures Falling(m) ==> Micros(m[|m| - 1]) <= Micros(m[0])
  {
    if |m| >= 2 {
      GapsCover(m[1..]);
    }
  }

  /** On all branches the parts add up to at least the whole delay, and to exactly the delay
      if and only if the times used are in order, or all in reverse order. */
  lemma PartsCoverDelay(s: Stats, clock: Time)
    ensures var m := Marks(s, clock);
            var whole := Max0(Micros(m[|m| - 1]) - Micros(m[0]));
            var parts := Gap(m, 0) + Gap(m, 1) + Gap(m, 2) + Gap(m, 3);
            && parts >= whole
            && (parts == whole <==> Rising(m) || Falling(m))
  {
    var m := Marks(s, clock);
    GapsCover(m);
    AddUp(m);
  }

  lemma AddUp(m: seq<Time>)
    requires 2 <= |m| <= 5
    ensures AllGaps(m) == Gap(m, 0) + Gap(m, 1) + Gap(m, 2) + Gap(m, 3)
  {
    var m1 := m[1..];
    var m2 := m1[1..];
    assert AllGaps(m1) == Gap(m, 1) + AllGaps(m2);
    if |m2| >= 2 {
      var m3 := m2[1..];
      assert AllGaps(m2) == Gap(m, 2) + AllGaps(m3);
      assert AllGaps(m3) == Gap(m, 3) + (if |m3| >= 2 then AllGaps(m3[1..]) else 0);
    }
  }
}
