/** The timer list of the event dispatcher (c++/base/EventDispatch.cpp:9-61). */
module Timers {
  import opened Options
  import opened Sequences

  /** A timer, with the tick at which it was last armed and its firings since. */
  datatype Timer = Timer(callback: nat, user_data: nat, interval: nat, next_tick: nat, armed: nat, fired: nat)

  predicate HasKey(t: Timer, callback: nat, user_data: nat) {
    t.callback == callback && t.user_data == user_data
  }

  function Arm(callback: nat, user_data: nat, interval: nat, now: nat): Timer {
    Timer(callback, user_data, interval, now + interval, now, 0)
  }

  /** The place of a key in the list, or its length. */
  function Find(ts: seq<Timer>, callback: nat, user_data: nat): (i: nat)
    ensures i <= |ts|
    ensures i < |ts| ==> HasKey(ts[i], callback, user_data)
    ensures forall j | 0 <= j < i :: !HasKey(ts[j], callback, user_data)
  {
    if ts == [] || HasKey(ts[0], callback, user_data) then 0 else 1 + Find(ts[1..], callback, user_data)
  }

  function Added(ts: seq<Timer>, callback: nat, user_data: nat, interval: nat, now: nat): seq<Timer> {
    var i := Find(ts, callback, user_data);
    var t := Arm(callback, user_data, interval, now);
    if i < |ts| then ts[i := t] else ts + [t]
  }

  function Removed(ts: seq<Timer>, callback: nat, user_data: nat): seq<Timer> {
    var i := Find(ts, callback, user_data);
    if i < |ts| then Without(ts, i) else ts
  }

  /** A timer fires at most once in a check, however late the check is. */
  function Ticked(t: Timer, now: nat): Timer {
    if now >= t.next_tick then t.(next_tick := t.next_tick + t.interval, fired := t.fired + 1) else t
  }

  function Checked(ts: seq<Timer>, now: nat): (us: seq<Timer>)
    ensures |us| == |ts| && forall i | 0 <= i < |ts| :: us[i] == Ticked(ts[i], now)
  {
    if ts == [] then [] else [Ticked(ts[0], now)] + Checked(ts[1..], now)
  }

  // --------------------------------------------------------------------- runs

  datatype Step =
    | Add(callback: nat, user_data: nat, interval: nat, now: nat)
    | Remove(callback: nat, user_data: nat)
    | Check(now: nat)

  function Next(ts: seq<Timer>, step: Step): seq<Timer> {
    match step
    case Add(c, u, d, now) => Added(ts, c, u, d, now)
    case Remove(c, u) => Removed(ts, c, u)
    case Check(now) => Checked(ts, now)
  }

  function Run(ts: seq<Timer>, steps: seq<Step>): seq<Timer>
    decreases |steps|
  {
    if steps == [] then ts else Run(Next(ts, steps[0]), steps[1..])
  }

  ghost predicate Unique(ts: seq<Timer>) {
    forall i, j | 0 <= i < j < |ts| :: !HasKey(ts[i], ts[j].callback, ts[j].user_data)
  }

  predicate InStep(t: Timer) {
    t.next_tick == t.armed + (t.fired + 1) * t.interval
  }

  ghost predicate Inv(ts: seq<Timer>) {
    Unique(ts) && forall t | t in ts :: InStep(t)
  }

  lemma TickedInStep(t: Timer, now: nat)
    requires InStep(t)
    ensures InStep(Ticked(t, now))
  {
    assert (t.fired + 1 + 1) * t.interval == (t.fired + 1) * t.interval + t.interval;
  }

  lemma CheckedKeeps(ts: seq<Timer>, now: nat)
    requires Inv(ts)
    ensures Inv(Checked(ts, now))
  {
    forall i | 0 <= i < |ts|
      ensures InStep(Checked(ts, now)[i])
    {
      TickedInStep(ts[i], now);
    }
  }

  lemma AddedKeeps(ts: seq<Timer>, callback: nat, user_data: nat, interval: nat, now: nat)
    requires Inv(ts)
    ensures Inv(Added(ts, callback, user_data, interval, now))
  {
    assert InStep(Arm(callback, user_data, interval, now));
  }

  lemma NextKeeps(ts: seq<Timer>, step: Step)
    requires Inv(ts)
    ensures Inv(Next(ts, step))
  {
    match step
    case Check(now) => CheckedKeeps(ts, now);
    case Add(c, u, d, now) => AddedKeeps(ts, c, u, d, now);
    case Remove(_, _) =>
  }

  /** Under any sequence of additions, removals and checks no two timers have the same
      callback and data, and each is due one interval after its last due time: at
      t0 + (k + 1) * d after k firings. */
  lemma TimersInStep(steps: seq<Step>)
    ensures var ts := Run([], steps);
            && (forall i, j | 0 <= i < j < |ts| ::
                  ts[i].callback != ts[j].callback || ts[i].user_data != ts[j].user_data)
            && (forall t | t in ts :: t.next_tick == t.armed + (t.fired + 1) * t.interval)
  {
    RunKeeps([], steps);
    var ts := Run([], steps);
    forall i, j | 0 <= i < j < |ts|
      ensures ts[i].callback != ts[j].callback || ts[i].user_data != ts[j].user_data
    {
      assert !HasKey(ts[i], ts[j].callback, ts[j].user_data);
    }
  }

  lemma {:induction false} RunKeeps(ts: seq<Timer>, steps: seq<Step>)
    requires Inv(ts)
    ensures Inv(Run(ts, steps))
    decreases |steps|
  {
    if steps != [] {
      NextKeeps(ts, steps[0]);
      RunKeeps(Next(ts, steps[0]), steps[1..]);
    }
  }

  // ------------------------------------------------------------ one key alone

  /** What a step makes of the timer with this callback and data, if there is one. */
  function After(before: Option<Timer>, step: Step, callback: nat, user_data: nat): Option<Timer> {
    match step
    case Add(c, u, d, now) =>
      if c == callback && u == user_data then Some(Timer(c, u, d, now + d, now, 0)) else before
    case Remove(c, u) => if c == callback && u == user_data then None else before
    case Check(now) =>
      if before.Some? && before.value.next_tick <= now then
        Some(before.value.(next_tick := before.value.next_tick + before.value.interval,
                           fired := before.value.fired + 1))
      else before
  }

  /** What all steps make of it, told without the list. */
  function TimerOf(steps: seq<Step>, callback: nat, user_data: nat): Option<Timer> {
    if steps == [] then None
    else After(TimerOf(steps[..|steps| - 1], callback, user_data), steps[|steps| - 1], callback, user_data)
  }

  /** The step that put the timer into the list, when it is there. */
  function Entered(steps: seq<Step>, callback: nat, user_data: nat): nat {
    if steps == [] then 0
    else
      var before := steps[..|steps| - 1];
      var last := steps[|steps| - 1];
      if last.Add? && last.callback == callback && last.user_data == user_data
         && TimerOf(before, callback, user_data).None? then |before|
      else Entered(before, callback, user_data)
  }

  function Held(ts: seq<Timer>, callback: nat, user_data: nat): Option<Timer> {
    var i := Find(ts, callback, user_data);
    if i < |ts| then Some(ts[i]) else None
  }

  lemma {:induction false} RunMore(ts: seq<Timer>, steps: seq<Step>, step: Step)
    ensures Run(ts, steps + [step]) == Next(Run(ts, steps), step)
    decreases |steps|
  {
    var all := steps + [step];
    if steps == [] {
      assert all == [step] && all[1..] == [];
    } else {
      assert all[1..] == steps[1..] + [step];
      RunMore(Next(ts, steps[0]), steps[1..], step);
    }
  }

  /** In a list with different keys the timer with a key is the only one. */
  lemma FoundAt(ts: seq<Timer>, i: nat, callback: nat, user_data: nat)
    requires Unique(ts) && i < |ts| && HasKey(ts[i], callback, user_data)
    ensures Find(ts, callback, user_data) == i
  {
  }

  lemma NotFound(ts: seq<Timer>, callback: nat, user_data: nat)
    requires forall i | 0 <= i < |ts| :: !HasKey(ts[i], callback, user_data)
    ensures Find(ts, callback, user_data) == |ts|
  {
  }

  lemma CheckedKeys(ts: seq<Timer>, now: nat, callback: nat, user_data: nat)
    ensures forall k | 0 <= k < |ts| ::
              HasKey(Checked(ts, now)[k], callback, user_data) == HasKey(ts[k], callback, user_data)
  {
  }

  lemma HeldAfterCheck(ts: seq<Timer>, now: nat, callback: nat, user_data: nat)
    requires Unique(ts)
    ensures Held(Checked(ts, now), callback, user_data)
         == After(Held(ts, callback, user_data), Check(now), callback, user_data)
  {
    var i, us := Find(ts, callback, user_data), Checked(ts, now);
    CheckedKeys(ts, now, callback, user_data);
    if i < |ts| {
      assert Find(us, callback, user_data) == i;
    } else {
      NotFound(us, callback, user_data);
    }
  }

  lemma AddedUnique(ts: seq<Timer>, step: Step)
    requires Unique(ts) && step.Add?
    ensures Unique(Next(ts, step))
  {
  }

  lemma HeldAfterAdd(ts: seq<Timer>, step: Step, callback: nat, user_data: nat)
    requires Unique(ts) && step.Add?
    ensures Held(Next(ts, step), callback, user_data)
         == After(Held(ts, callback, user_data), step, callback, user_data)
  {
    var us := Next(ts, step);
    var k := Find(ts, step.callback, step.user_data);
    var i := Find(ts, callback, user_data);
    assert us[k] == Timer(step.callback, step.user_data, step.interval, step.now + step.interval, step.now, 0);
    AddedUnique(ts, step);
    if step.callback == callback && step.user_data == user_data {
      FoundAt(us, k, callback, user_data);
    } else if i < |ts| {
      assert us[i] == ts[i];
      FoundAt(us, i, callback, user_data);
    } else {
      NotFound(us, callback, user_data);
    }
  }

  lemma HeldAfterRemove(ts: seq<Timer>, step: Step, callback: nat, user_data: nat)
    requires Unique(ts) && step.Remove?
    ensures Held(Next(ts, step), callback, user_data)
         == After(Held(ts, callback, user_data), step, callback, user_data)
  {
    var us := Next(ts, step);
    var k := Find(ts, step.callback, step.user_data);
    var i := Find(ts, callback, user_data);
    if i < |ts| && i != k {
      var j := if k < i then i - 1 else i;
      assert us[j] == ts[i];
      FoundAt(us, j, callback, user_data);
    } else {
      NotFound(us, callback, user_data);
    }
  }

  /** Whatever has been added, removed and checked: the list holds for each key just the timer
      that the steps for this key make. */
  lemma {:induction false} KeyOnItsOwn(steps: seq<Step>, callback: nat, user_data: nat)
    ensures Held(Run([], steps), callback, user_data) == TimerOf(steps, callback, user_data)
    decreases |steps|
  {
    if steps != [] {
      var before, step := steps[..|steps| - 1], steps[|steps| - 1];
      assert steps == before + [step];
      var ts := Run([], before);
      RunMore([], before, step);
      RunKeeps([], before);
      KeyOnItsOwn(before, callback, user_data);
      match step
      case Add(_, _, _, _) => HeldAfterAdd(ts, step, callback, user_data);
      case Remove(_, _) => HeldAfterRemove(ts, step, callback, user_data);
      case Check(now) => HeldAfterCheck(ts, now, callback, user_data);
    }
  }

  /** When each of the timers in the list came in. */
  function Entries(steps: seq<Step>, ts: seq<Timer>): (es: seq<nat>)
    ensures |es| == |ts| && forall i | 0 <= i < |ts| :: es[i] == Entered(steps, ts[i].callback, ts[i].user_data)
  {
    if ts == [] then [] else [Entered(steps, ts[0].callback, ts[0].user_data)] + Entries(steps, ts[1..])
  }

  ghost predicate Rising(es: seq<nat>, n: nat) {
    && (forall i, j | 0 <= i < j < |es| :: es[i] < es[j])
    && (forall i | 0 <= i < |es| :: es[i] < n)
  }

  lemma {:induction false} EntriesStay(before: seq<Step>, step: Step, ts: seq<Timer>)
    requires ts == Run([], before) && Unique(ts)
    ensures Entries(before + [step], ts) == Entries(before, ts)
  {
    assert (before + [step])[..|before|] == before;
    forall i | 0 <= i < |ts|
      ensures Entries(before + [step], ts)[i] == Entries(before, ts)[i]
    {
      KeyOnItsOwn(before, ts[i].callback, ts[i].user_data);
      FoundAt(ts, i, ts[i].callback, ts[i].user_data);
    }
  }

  lemma {:induction false} EntryNow(before: seq<Step>, step: Step, ts: seq<Timer>)
    requires ts == Run([], before) && step.Add? && Find(ts, step.callback, step.user_data) == |ts|
    ensures Entered(before + [step], step.callback, step.user_data) == |before|
  {
    assert (before + [step])[..|before|] == before;
    KeyOnItsOwn(before, step.callback, step.user_data);
  }

  /** The same keys at the same places. */
  lemma {:induction false} SameEntries(steps: seq<Step>, ts: seq<Timer>, us: seq<Timer>)
    requires |us| == |ts|
    requires forall i | 0 <= i < |ts| :: us[i].callback == ts[i].callback && us[i].user_data == ts[i].user_data
    ensures Entries(steps, us) == Entries(steps, ts)
  {
  }

  lemma {:induction false} EntriesAfter(before: seq<Step>, step: Step, ts: seq<Timer>)
    requires ts == Run([], before) && Unique(ts)
    ensures var es, fs := Entries(before, ts), Entries(before + [step], Next(ts, step));
            || fs == es || fs == es + [|before|]
            || exists i | 0 <= i < |es| :: fs == Without(es, i)
  {
    var all, us := before + [step], Next(ts, step);
    EntriesStay(before, step, ts);
    if step.Check? {
      SameEntries(all, ts, us);
    } else {
      var k := Find(ts, step.callback, step.user_data);
      if step.Add? && k < |ts| {
        SameEntries(all, ts, us);
      } else if step.Add? {
        EntryNow(before, step, ts);
        assert Entries(all, us) == Entries(all, ts) + [|before|];
      } else if k < |ts| {
        assert Entries(all, us) == Without(Entries(all, ts), k);
      }
    }
  }

  lemma RisingStays(es: seq<nat>, fs: seq<nat>, n: nat)
    requires Rising(es, n)
    requires fs == es || fs == es + [n] || exists i | 0 <= i < |es| :: fs == Without(es, i)
    ensures Rising(fs, n + 1)
  {
  }

  /** The list is in the order in which its timers came in; a timer that is armed again keeps
      its place. */
  lemma {:induction false} OrderOfEntry(steps: seq<Step>)
    ensures Rising(Entries(steps, Run([], steps)), |steps|)
    decreases |steps|
  {
    if steps != [] {
      var before, step := steps[..|steps| - 1], steps[|steps| - 1];
      var ts := Run([], before);
      assert steps == before + [step];
      RunMore([], before, step);
      RunKeeps([], before);
      OrderOfEntry(before);
      EntriesAfter(before, step, ts);
      RisingStays(Entries(before, ts), Entries(steps, Next(ts, step)), |before|);
    }
  }

  // ------------------------------------------------------------- firing times

  /** A timer over a series of checks. */
  function Over(t: Timer, checks: seq<nat>): Timer
    decreases |checks|
  {
    if checks == [] then t else Ticked(Over(t, checks[..|checks| - 1]), checks[|checks| - 1])
  }

  /** The list over the same checks. */
  function ListOver(ts: seq<Timer>, checks: seq<nat>): (us: seq<Timer>)
    ensures |us| == |ts|
    decreases |checks|
  {
    if checks == [] then ts else Checked(ListOver(ts, checks[..|checks| - 1]), checks[|checks| - 1])
  }

  /** In the list every timer goes its own way. */
  lemma {:induction false} EachOnItsOwn(ts: seq<Timer>, checks: seq<nat>, i: nat)
    requires i < |ts|
    ensures ListOver(ts, checks)[i] == Over(ts[i], checks)
    decreases |checks|
  {
    if checks != [] {
      EachOnItsOwn(ts, checks[..|checks| - 1], i);
    }
  }

  /** How many intervals have passed since the timer was armed. */
  function Due(t: Timer, now: nat): nat
    requires t.interval > 0
  {
    if now < t.armed then 0 else (now - t.armed) / t.interval
  }

  lemma DueExactly(t: Timer, now: nat, k: nat)
    requires t.interval > 0
    ensures k <= Due(t, now) <==> k == 0 || t.armed + k * t.interval <= now
  {
    if now >= t.armed {
      Quotients(now - t.armed, t.interval, k);
    } else {
      Times(0, k, t.interval);
    }
  }

  lemma Times(a: int, b: int, d: nat)
    requires a <= b
    ensures a * d <= b * d
  {
    assert (b - a) * d >= 0;
  }

  lemma Quotients(x: nat, d: nat, k: nat)
    requires d > 0
    ensures k <= x / d <==> k * d <= x
  {
    var q := x / d;
    assert q * d <= x < (q + 1) * d;
    if k <= q {
      Times(k, q, d);
    } else {
      Times(q + 1, k, d);
    }
  }

  /** One check fires the timer once if it is behind, and not at all otherwise. */
  lemma FiringLaw(t: Timer, now: nat)
    requires t.interval > 0 && InStep(t)
    ensures Ticked(t, now).fired == if t.fired < Due(t, now) then t.fired + 1 else t.fired
  {
    DueExactly(t, now, t.fired + 1);
  }

  function LastCheck(t: Timer, checks: seq<nat>): nat {
    if checks == [] then t.armed else checks[|checks| - 1]
  }

  /** The clock does not go back between checks. */
  ghost predicate Monotone(t: Timer, checks: seq<nat>) {
    && (forall i | 0 <= i < |checks| :: t.armed <= checks[i])
    && (forall i | 0 < i < |checks| :: checks[i - 1] <= checks[i])
  }

  lemma {:induction false} SameTimer(t: Timer, checks: seq<nat>)
    requires InStep(t)
    ensures var u := Over(t, checks);
            u.armed == t.armed && u.interval == t.interval && InStep(u)
    decreases |checks|
  {
    if checks != [] {
      SameTimer(t, checks[..|checks| - 1]);
      TickedInStep(Over(t, checks[..|checks| - 1]), checks[|checks| - 1]);
    }
  }

  /** Between two checks, and before the first one, at most one interval boundary passes. */
  ghost predicate Prompt(t: Timer, checks: seq<nat>)
    requires t.interval > 0
  {
    forall n | 0 < n <= |checks| ::
      Due(t, LastCheck(t, checks[..n])) <= Due(t, LastCheck(t, checks[..n - 1])) + 1
  }

  /** On a clock that does not go back, a timer that has just been armed is on time at every
      check, having fired exactly floor((T - t0) / d) times, if and only if no two intervals
      end between two checks. */
  lemma {:induction false} OnTimeExactlyWhen(t: Timer, checks: seq<nat>)
    requires t.interval > 0 && InStep(t) && t.fired == 0 && Monotone(t, checks)
    ensures (forall n | 0 <= n <= |checks| :: Over(t, checks[..n]).fired == Due(t, LastCheck(t, checks[..n])))
            <==> Prompt(t, checks)
  {
    if Prompt(t, checks) {
      forall n | 0 <= n <= |checks|
        ensures Over(t, checks[..n]).fired == Due(t, LastCheck(t, checks[..n]))
      {
        OnTime(t, checks, n);
      }
    } else {
      var n :| 0 < n <= |checks| && Due(t, LastCheck(t, checks[..n])) > Due(t, LastCheck(t, checks[..n - 1])) + 1;
      assert checks[..n][..n - 1] == checks[..n - 1];
      SameTimer(t, checks[..n - 1]);
      FiringLaw(Over(t, checks[..n - 1]), checks[n - 1]);
    }
  }

  lemma {:induction false} OnTime(t: Timer, checks: seq<nat>, n: nat)
    requires t.interval > 0 && InStep(t) && t.fired == 0 && Monotone(t, checks) && Prompt(t, checks)
    requires n <= |checks|
    ensures Over(t, checks[..n]).fired == Due(t, LastCheck(t, checks[..n]))
    decreases n
  {
    if n == 0 {
      DueExactly(t, t.armed, 1);
    } else {
      OnTime(t, checks, n - 1);
      assert checks[..n][..n - 1] == checks[..n - 1];
      SameTimer(t, checks[..n - 1]);
      FiringLaw(Over(t, checks[..n - 1]), checks[n - 1]);
      LaterIsMore(t, LastCheck(t, checks[..n - 1]), checks[n - 1]);
    }
  }

  lemma LaterIsMore(t: Timer, a: nat, b: nat)
    requires t.interval > 0 && a <= b
    ensures Due(t, a) <= Due(t, b)
  {
    DueExactly(t, a, Due(t, a));
    DueExactly(t, b, Due(t, a));
  }

  /** Checks that are at most one interval apart are prompt enough. */
  lemma CloseChecks(t: Timer, checks: seq<nat>)
    requires t.interval > 0 && Monotone(t, checks)
    requires forall i | 0 <= i < |checks| :: checks[i] <= LastCheck(t, checks[..i]) + t.interval
    ensures Prompt(t, checks)
  {
    forall n | 0 < n <= |checks|
      ensures Due(t, LastCheck(t, checks[..n])) <= Due(t, LastCheck(t, checks[..n - 1])) + 1
    {
      var a, b := LastCheck(t, checks[..n - 1]), checks[n - 1];
      var k := Due(t, a) + 2;
      DueExactly(t, b, k);
      DueExactly(t, a, k - 1);
      assert (k - 1) * t.interval == k * t.interval - t.interval;
      LaterIsMore(t, a, b);
    }
  }

  // --------------------------------------------------------------- dispatcher

  class TimerItem {
    var callback: nat
    var user_data: nat
    var interval: nat
    var next_tick: nat
    ghost var armed: nat
    ghost var fired: nat

    ghost function Value(): Timer
      reads this
    {
      Timer(callback, user_data, interval, next_tick, armed, fired)
    }

    constructor (callback: nat, user_data: nat, interval: nat, now: nat)
      ensures Value() == Arm(callback, user_data, interval, now)
    {
      this.callback, this.user_data, this.interval, this.next_tick := callback, user_data, interval, now + interval;
      armed, fired := now, 0;
    }
  }

  ghost function Values(items: seq<TimerItem>): (ts: seq<Timer>)
    reads items
    ensures |ts| == |items| && forall i | 0 <= i < |ts| :: ts[i] == items[i].Value()
  {
    if items == [] then [] else [items[0].Value()] + Values(items[1..])
  }

  /** Which timers are due. */
  function DueNow(ts: seq<Timer>, now: nat): (due: seq<bool>)
    ensures |due| == |ts| && forall i | 0 <= i < |ts| :: due[i] <==> ts[i].next_tick <= now
  {
    if ts == [] then [] else [ts[0].next_tick <= now] + DueNow(ts[1..], now)
  }

  /** Those of the first n items that are due, in order. */
  function Picked(items: seq<TimerItem>, due: seq<bool>, n: nat): seq<TimerItem>
    requires n <= |items| == |due|
  {
    if n == 0 then [] else Picked(items, due, n - 1) + (if due[n - 1] then [items[n - 1]] else [])
  }

  class EventDispatch {
    var m_timer_list: seq<TimerItem>

    ghost predicate Valid()
      reads this
    {
      forall i, j | 0 <= i < j < |m_timer_list| :: m_timer_list[i] != m_timer_list[j]
    }

    ghost function Timers(): (ts: seq<Timer>)
      reads this, m_timer_list
      ensures |ts| == |m_timer_list| && forall i | 0 <= i < |ts| :: ts[i] == m_timer_list[i].Value()
    {
      Values(m_timer_list)
    }

    constructor ()
      ensures Valid() && Timers() == []
    {
      m_timer_list := [];
    }

    /** The search that AddTimer and RemoveTimer begin with. */
    method Search(callback: nat, user_data: nat) returns (i: nat)
      ensures i == Find(Timers(), callback, user_data)
    {
      i := 0;
      while i < |m_timer_list|
        invariant i <= |m_timer_list| && forall j | 0 <= j < i :: !HasKey(Timers()[j], callback, user_data)
      {
        if m_timer_list[i].callback == callback && m_timer_list[i].user_data == user_data {
          return;
        }
        i := i + 1;
      }
    }

    method Rearm(i: nat, interval: nat, now: nat)
      requires Valid() && i < |m_timer_list|
      modifies m_timer_list[i]
      ensures var t := old(Timers()[i]); Timers() == old(Timers())[i := Arm(t.callback, t.user_data, interval, now)]
    {
      var item := m_timer_list[i];
      item.interval := interval;
      item.next_tick := now + interval;
      item.armed, item.fired := now, 0;
    }

    method Append(item: TimerItem)
      requires Valid() && item !in m_timer_list
      modifies this
      ensures Valid() && Timers() == old(Timers()) + [item.Value()]
    {
      m_timer_list := m_timer_list + [item];
    }

    method AddTimer(callback: nat, user_data: nat, interval: nat, now: nat)
      requires Valid()
      modifies this, m_timer_list
      ensures Valid() && Timers() == Added(old(Timers()), callback, user_data, interval, now)
    {
      var i := Search(callback, user_data);
      if i < |m_timer_list| {
        Rearm(i, interval, now);
      } else {
        var item := new TimerItem(callback, user_data, interval, now);
        Append(item);
      }
    }

    method RemoveTimer(callback: nat, user_data: nat)
      requires Valid()
      modifies this
      ensures Valid() && Timers() == Removed(old(Timers()), callback, user_data)
    {
      var i := Search(callback, user_data);
      if i < |m_timer_list| {
        m_timer_list := Without(m_timer_list, i);
        assert Timers() == Without(old(Timers()), i);
      }
    }

    /** One round of _CheckTimer. */
    method CheckOne(i: nat, now: nat) returns (fires: bool)
      requires i < |m_timer_list|
      modifies m_timer_list[i]
      ensures m_timer_list[i].Value() == Ticked(old(m_timer_list[i].Value()), now)
      ensures fires == (old(m_timer_list[i].next_tick) <= now)
    {
      var item := m_timer_list[i];
      fires := now >= item.next_tick;
      if fires {
        item.next_tick := item.next_tick + item.interval;
        item.fired := item.fired + 1;
      }
    }

    /** _CheckTimer, for callbacks that leave the list alone: the timers that are due are called,
        once each and in order. */
    method CheckTimer(now: nat) returns (called: seq<TimerItem>)
      requires Valid()
      modifies m_timer_list
      ensures Valid() && Timers() == Checked(old(Timers()), now)
      ensures called == Picked(m_timer_list, DueNow(old(Timers()), now), |m_timer_list|)
    {
      ghost var due := DueNow(Timers(), now);
      called := CheckAll(now, due);
    }

    method CheckAll(now: nat, ghost due: seq<bool>) returns (called: seq<TimerItem>)
      requires Valid() && |due| == |m_timer_list|
      requires forall j | 0 <= j < |due| :: due[j] <==> m_timer_list[j].next_tick <= now
      modifies m_timer_list
      ensures Valid()
      ensures forall j | 0 <= j < |m_timer_list| ::
                m_timer_list[j].Value() == Ticked(old(m_timer_list[j].Value()), now)
      ensures called == Picked(m_timer_list, due, |m_timer_list|)
    {
      called := [];
      var i := 0;
      while i < |m_timer_list|
        invariant 0 <= i <= |m_timer_list|
        invariant forall j | 0 <= j < i :: m_timer_list[j].Value() == Ticked(old(m_timer_list[j].Value()), now)
        invariant forall j | i <= j < |m_timer_list| :: m_timer_list[j].Value() == old(m_timer_list[j].Value())
        invariant called == Picked(m_timer_list, due, i)
      {
        var fires := CheckOne(i, now);
        if fires {
          called := called + [m_timer_list[i]];
        }
        i := i + 1;
      }
    }
  }
}
