/** The master process and its pool of children, one statement at a time, with children
    that exit and SIGCHLD handlers that run anywhere in between
    (c++/client/worker.cpp:268-365). */
module WorkerPool {
  import opened Bytes

  /** Where the master is in its adjustment. */
  datatype Pc =
    | AtRest
    | Compared(more: bool)
    | Reducing(left: nat)
    | Told(pid: nat, left: nat)
    | Discounted(pid: nat, left: nat)
    | Growing(left: nat)
    | Born(pid: nat, left: nat)
    | Entered(pid: nat, left: nat)

  /** The master's counter and table; the children that run, those that were sent SIGUSR1,
      and those that are dead and not waited for, with whether they exited with SIGUSR1.
      For the current or last adjustment: its target, whether the counter fell below the
      target between the comparison and the subtraction, and how many entries the handler
      has struck off since the subtraction. `missed` counts the decrements whose erase found
      no entry. */
  datatype Pool = Pool(childNum: uint16, table: set<nat>,
                       running: set<nat>, told: set<nat>, zombies: map<nat, bool>,
                       multi: uint16, pc: Pc, target: uint16, flipped: bool, struck: nat, missed: nat)

  datatype Step =
    | SetMulti(multi: uint16)
    | Compare
    | Subtract
    | Kill(pid: nat)
    | CountDown
    | Erase
    | Fork(pid: nat)
    | Enter
    | CountUp
    | Finish
    | Exit(pid: nat, usr1: bool)
    | Handler(pid: nat)

  function ToUint16(x: int): uint16 {
    x % 0x1_0000
  }

  function Initial(multi: uint16): Pool {
    Pool(0, {}, {}, {}, map[], multi, AtRest, 0, false, 0, 0)
  }

  /** sigChldHandler, when waitpid returns this pid. With WUNTRACED that may be a child that
      is only stopped; it is 0, with the zero status of a normal exit, when there are
      children and none of them is dead. */
  function Handle(p: Pool, pid: nat): Pool {
    if pid in p.zombies && p.zombies[pid] then Reaped(p, pid)
    else if pid in p.zombies then Struck(Reaped(p, pid), pid)
    else Struck(p, pid)
  }

  function Reaped(p: Pool, pid: nat): Pool {
    p.(zombies := p.zombies - {pid}, told := p.told - {pid})
  }

  /** The entry of the child goes, and the counter goes down, whether it was there or not. */
  function Struck(p: Pool, pid: nat): Pool {
    p.(table := p.table - {pid}, childNum := ToUint16(p.childNum - 1),
       struck := p.struck + (if pid in p.table then 1 else 0),
       missed := p.missed + (if pid in p.table then 0 else 1))
  }

  predicate Unused(p: Pool, pid: nat) {
    pid > 0 && pid !in p.table && pid !in p.running && pid !in p.told && pid !in p.zombies
  }

  predicate Enabled(p: Pool, step: Step) {
    match step
    case SetMulti(_) => true
    case Compare => p.pc.AtRest?
    case Subtract => p.pc.Compared?
    case Kill(pid) => p.pc.Reducing? && p.pc.left > 0 && pid in p.table
    case CountDown => p.pc.Told?
    case Erase => p.pc.Discounted?
    case Fork(pid) => p.pc.Growing? && p.pc.left > 0 && Unused(p, pid)
    case Enter => p.pc.Born?
    case CountUp => p.pc.Entered?
    case Finish => (p.pc.Reducing? && (p.pc.left == 0 || p.table == {})) || (p.pc.Growing? && p.pc.left == 0)
    case Exit(pid, _) => pid in p.running
    case Handler(pid) => pid in p.zombies || pid in p.running || (pid == 0 && p.zombies == map[] && p.running != {})
  }

  /** A step that is not enabled does nothing. */
  function Next(p: Pool, step: Step): Pool {
    if !Enabled(p, step) then p
    else match step
      case SetMulti(m) => p.(multi := m)
      case Compare => p.(target := p.multi, pc := Compared(p.childNum > p.multi))
      case Subtract =>
        p.(struck := 0, flipped := p.pc.more && p.childNum < p.target,
           pc := if p.pc.more then Reducing(ToUint16(p.childNum - p.target))
                 else Growing(ToUint16(p.target - p.childNum)))
      case Kill(pid) => p.(pc := Told(pid, p.pc.left - 1), told := p.told + {pid})
      case CountDown => p.(pc := Discounted(p.pc.pid, p.pc.left), childNum := ToUint16(p.childNum - 1))
      case Erase => p.(pc := Reducing(p.pc.left), table := p.table - {p.pc.pid},
                       missed := p.missed + (if p.pc.pid in p.table then 0 else 1))
      case Fork(pid) => p.(pc := Born(pid, p.pc.left - 1), running := p.running + {pid})
      case Enter => p.(pc := Entered(p.pc.pid, p.pc.left), table := p.table + {p.pc.pid})
      case CountUp => p.(pc := Growing(p.pc.left), childNum := ToUint16(p.childNum + 1))
      case Finish => p.(pc := AtRest)
      case Exit(pid, usr1) => p.(running := p.running - {pid}, zombies := p.zombies[pid := usr1])
      case Handler(pid) => Handle(p, pid)
  }

  function Run(p: Pool, steps: seq<Step>): Pool
    decreases |steps|
  {
    if steps == [] then p else Run(Next(p, steps[0]), steps[1..])
  }

  // --------------------------------------------------- without any assumption

  /** Between two statements the counter is one behind the table. */
  function Behind(p: Pool): nat {
    if p.pc.Discounted? || p.pc.Entered? then 1 else 0
  }

  ghost predicate Balanced(p: Pool) {
    && p.childNum == ToUint16(|p.table| - Behind(p) - p.missed)
    && (p.pc.Born? ==> p.pc.pid !in p.table)
    && 0 !in p.table
    && (p.pc.Born? || p.pc.Entered? ==> p.pc.pid > 0)
  }

  lemma RemoveOne(s: set<nat>, x: nat)
    ensures |s - {x}| == |s| - (if x in s then 1 else 0)
  {
    if x !in s {
      assert s - {x} == s;
    }
  }

  lemma Wrapped(x: int, y: int, d: int)
    requires y == x + d
    ensures ToUint16(ToUint16(x) + d) == ToUint16(y)
  {
    var q := x / 0x1_0000;
    assert ToUint16(x) + d == y - q * 0x1_0000;
  }

  lemma HandlerBalanced(p: Pool, pid: nat)
    requires Balanced(p)
    ensures Balanced(Handle(p, pid))
  {
    RemoveOne(p.table, pid);
    var x := |p.table| - Behind(p) - p.missed;
    Wrapped(x, x - 1, -1);
  }

  lemma CountBalanced(p: Pool, step: Step)
    requires Balanced(p) && (step.CountDown? || step.CountUp?)
    ensures Balanced(Next(p, step))
  {
    var x := |p.table| - Behind(p) - p.missed;
    Wrapped(x, x - 1, -1);
    Wrapped(x, x + 1, 1);
  }

  lemma EntryBalanced(p: Pool, step: Step)
    requires Balanced(p) && (step.Erase? || step.Enter?)
    ensures Balanced(Next(p, step))
  {
    if p.pc.Discounted? {
      RemoveOne(p.table, p.pc.pid);
    }
  }

  lemma NextBalanced(p: Pool, step: Step)
    requires Balanced(p)
    ensures Balanced(Next(p, step))
  {
    match step
    case Handler(pid) => HandlerBalanced(p, pid);
    case CountDown => CountBalanced(p, step);
    case CountUp => CountBalanced(p, step);
    case Erase => EntryBalanced(p, step);
    case Enter => EntryBalanced(p, step);
    case _ =>
  }

  lemma {:induction false} RunBalanced(p: Pool, steps: seq<Step>)
    requires Balanced(p)
    ensures Balanced(Run(p, steps))
    decreases |steps|
  {
    if steps != [] {
      NextBalanced(p, steps[0]);
      RunBalanced(Next(p, steps[0]), steps[1..]);
    }
  }

  /** Whatever the children, the signals and the rate do: when the master is at rest, its
      counter is the size of its table exactly when every decrement has erased an entry
      (all in the sixteen bits of the counter). */
  lemma CounterExactlyWhen(multi: uint16, steps: seq<Step>)
    requires Run(Initial(multi), steps).pc.AtRest?
    ensures var p := Run(Initial(multi), steps);
            p.childNum == ToUint16(|p.table|) <==> ToUint16(p.missed) == 0
  {
    RunBalanced(Initial(multi), steps);
  }

  // ------------------------------------------------------ in a fair environment

  /** Each SIGCHLD handler finds a dead child; exactly the children that were told to exit
      exit with SIGUSR1, so that none of them has crashed before; and no child dies before
      it is entered in the table. */
  predicate Fair(p: Pool, step: Step) {
    match step
    case Handler(pid) => pid in p.zombies
    case Exit(pid, usr1) => (usr1 <==> pid in p.told) && !(p.pc.Born? && p.pc.pid == pid)
    case Kill(pid) => pid in p.running
    case _ => true
  }

  predicate FairRun(p: Pool, steps: seq<Step>)
    decreases |steps|
  {
    steps == [] || (Fair(p, steps[0]) && FairRun(Next(p, steps[0]), steps[1..]))
  }

  /** This entry is being taken out. */
  predicate Leaving(p: Pool, pid: nat) {
    (p.pc.Told? || p.pc.Discounted?) && p.pc.pid == pid
  }

  /** This child is running and not entered yet. */
  predicate Joining(p: Pool, pid: nat) {
    p.pc.Born? && p.pc.pid == pid
  }

  ghost predicate Orderly(p: Pool) {
    && p.missed == 0
    && (p.pc.Told? || p.pc.Discounted? ==> p.pc.pid in p.table)
    && (p.pc.Born? ==> p.pc.pid in p.running && p.pc.pid !in p.told)
    && (forall x | x in p.told && x in p.table :: Leaving(p, x))
    && (forall x | x in p.running :: x !in p.zombies && (x in p.table || x in p.told || Joining(p, x)))
    && (forall x | x in p.running && Leaving(p, x) :: x in p.told)
    && (forall x | x in p.zombies && p.zombies[x] :: x in p.told)
    && (forall x | x in p.zombies && !p.zombies[x] :: x in p.table && x !in p.told && !Leaving(p, x))
  }

  /** What the subtraction has wrapped around by. */
  function Wrap(p: Pool): nat {
    if p.flipped then 0x1_0000 else 0
  }

  /** What an adjustment leaves. */
  function Outcome(p: Pool): nat {
    if p.flipped || p.target < p.struck then 0 else p.target - p.struck
  }

  /** How far the adjustment has come. */
  ghost predicate OnTheWay(p: Pool) {
    match p.pc
    case AtRest => |p.table| == Outcome(p)
    case Compared(more) => !more ==> |p.table| <= p.target
    case Reducing(left) => |p.table| == p.target + left - p.struck - Wrap(p)
    case Told(_, left) => |p.table| == p.target + left + 1 - p.struck - Wrap(p)
    case Discounted(_, left) => |p.table| == p.target + left + 1 - p.struck - Wrap(p)
    case Growing(left) => !p.flipped && |p.table| + left + p.struck == p.target
    case Born(_, left) => !p.flipped && |p.table| + 1 + left + p.struck == p.target
    case Entered(_, left) => !p.flipped && |p.table| + left + p.struck == p.target
  }

  lemma HandlerOrderly(p: Pool, pid: nat)
    requires Orderly(p) && pid in p.zombies
    ensures Orderly(Handle(p, pid))
  {
  }

  lemma ExitOrderly(p: Pool, pid: nat, usr1: bool)
    requires Orderly(p) && pid in p.running && Fair(p, Exit(pid, usr1))
    ensures Orderly(Next(p, Exit(pid, usr1)))
  {
  }

  lemma TakingOutOrderly(p: Pool, step: Step)
    requires Balanced(p) && Orderly(p) && Fair(p, step) && (step.Kill? || step.CountDown? || step.Erase?)
    ensures Orderly(Next(p, step))
  {
  }

  lemma PuttingInOrderly(p: Pool, step: Step)
    requires Balanced(p) && Orderly(p) && (step.Fork? || step.Enter? || step.CountUp?)
    ensures Orderly(Next(p, step))
  {
  }

  lemma NextOrderly(p: Pool, step: Step)
    requires Balanced(p) && Orderly(p) && Fair(p, step)
    ensures Orderly(Next(p, step))
  {
    match step
    case Handler(pid) => HandlerOrderly(p, pid);
    case Exit(pid, usr1) =>
      if pid in p.running {
        ExitOrderly(p, pid, usr1);
      }
    case Kill(_) => TakingOutOrderly(p, step);
    case CountDown => TakingOutOrderly(p, step);
    case Erase => TakingOutOrderly(p, step);
    case Fork(_) => PuttingInOrderly(p, step);
    case Enter => PuttingInOrderly(p, step);
    case CountUp => PuttingInOrderly(p, step);
    case _ =>
  }

  /** Nor does the table outgrow the counter. */
  ghost predicate Sized(p: Pool) {
    OnTheWay(p) && |p.table| < 0x1_0000
  }

  lemma HandlerOnTheWay(p: Pool, pid: nat)
    requires Orderly(p) && Sized(p) && pid in p.zombies
    ensures Sized(Handle(p, pid))
  {
    RemoveOne(p.table, pid);
  }

  lemma SubtractOnTheWay(p: Pool)
    requires Balanced(p) && Orderly(p) && Sized(p)
    ensures Sized(Next(p, Subtract))
  {
  }

  lemma TakingOutOnTheWay(p: Pool, step: Step)
    requires Orderly(p) && Sized(p) && (step.Kill? || step.CountDown? || step.Erase?)
    ensures Sized(Next(p, step))
  {
    if p.pc.Discounted? {
      RemoveOne(p.table, p.pc.pid);
    }
  }

  lemma PuttingInOnTheWay(p: Pool, step: Step)
    requires Balanced(p) && Sized(p) && (step.Fork? || step.Enter? || step.CountUp?)
    ensures Sized(Next(p, step))
  {
  }

  lemma FinishOnTheWay(p: Pool)
    requires Sized(p)
    ensures Sized(Next(p, Finish))
  {
  }

  lemma NextOnTheWay(p: Pool, step: Step)
    requires Balanced(p) && Orderly(p) && Sized(p) && Fair(p, step)
    ensures Sized(Next(p, step))
  {
    match step
    case Handler(pid) => HandlerOnTheWay(p, pid);
    case Kill(_) => TakingOutOnTheWay(p, step);
    case CountDown => TakingOutOnTheWay(p, step);
    case Erase => TakingOutOnTheWay(p, step);
    case Fork(_) => PuttingInOnTheWay(p, step);
    case Enter => PuttingInOnTheWay(p, step);
    case CountUp => PuttingInOnTheWay(p, step);
    case Subtract => SubtractOnTheWay(p);
    case Finish => FinishOnTheWay(p);
    case Compare =>
    case SetMulti(_) =>
    case Exit(_, _) =>
  }

  lemma {:induction false} RunKeepsOrder(p: Pool, steps: seq<Step>)
    requires Balanced(p) && Orderly(p) && Sized(p) && FairRun(p, steps)
    ensures var q := Run(p, steps);
            Balanced(q) && Orderly(q) && Sized(q)
    decreases |steps|
  {
    if steps != [] {
      NextBalanced(p, steps[0]);
      NextOrderly(p, steps[0]);
      NextOnTheWay(p, steps[0]);
      RunKeepsOrder(Next(p, steps[0]), steps[1..]);
    }
  }

  lemma RunMore(p: Pool, steps: seq<Step>, step: Step)
    ensures Run(p, steps + [step]) == Next(Run(p, steps), step)
    ensures FairRun(p, steps + [step]) <==> FairRun(p, steps) && Fair(Run(p, steps), step)
    decreases |steps|
  {
    var all := steps + [step];
    if steps == [] {
      assert all == [step] && all[1..] == [];
    } else {
      assert all[1..] == steps[1..] + [step];
      RunMore(Next(p, steps[0]), steps[1..], step);
    }
  }

  lemma {:induction false} RunOn(p: Pool, a: seq<Step>, b: seq<Step>)
    ensures Run(p, a + b) == Run(Run(p, a), b)
    decreases |a|
  {
    if a == [] {
      assert a + b == b;
    } else {
      assert (a + b)[1..] == a[1..] + b;
      RunOn(Next(p, a[0]), a[1..], b);
    }
  }

  // -------------------------------------------------- what the steps tell

  /** The rate in shared memory after these steps: the last that was set. */
  function WantedAt(multi: uint16, steps: seq<Step>): uint16 {
    if steps == [] then multi
    else
      var last := steps[|steps| - 1];
      if last.SetMulti? then last.multi else WantedAt(multi, steps[..|steps| - 1])
  }

  /** What the last adjustment aims at: the rate at its comparison. */
  function AimedAt(multi: uint16, steps: seq<Step>): uint16 {
    if steps == [] then 0
    else
      var before := steps[..|steps| - 1];
      if steps[|steps| - 1] == Compare && Run(Initial(multi), before).pc.AtRest? then WantedAt(multi, before)
      else AimedAt(multi, before)
  }

  /** How many entries handlers have erased since the last subtraction. */
  function CrashedSince(multi: uint16, steps: seq<Step>): nat {
    if steps == [] then 0
    else
      var before := steps[..|steps| - 1];
      var p, q := Run(Initial(multi), before), Run(Initial(multi), steps);
      if steps[|steps| - 1] == Subtract && p.pc.Compared? then 0
      else CrashedSince(multi, before) + (if steps[|steps| - 1].Handler? && q.table != p.table then 1 else 0)
  }

  /** At the last subtraction children were to be taken out, and the counter was below the
      target. */
  predicate FellBelow(multi: uint16, steps: seq<Step>) {
    steps != [] &&
      var before := steps[..|steps| - 1];
      var p := Run(Initial(multi), before);
      if steps[|steps| - 1] == Subtract && p.pc.Compared? then p.pc.more && p.childNum < AimedAt(multi, before)
      else FellBelow(multi, before)
  }

  /** What the last adjustment and the crashes since leave. */
  function Remaining(multi: uint16, steps: seq<Step>): nat {
    if FellBelow(multi, steps) || AimedAt(multi, steps) < CrashedSince(multi, steps) then 0
    else AimedAt(multi, steps) - CrashedSince(multi, steps)
  }

  lemma {:induction false} StepTells(p: Pool, step: Step)
    ensures var q := Next(p, step);
            && q.multi == (if step.SetMulti? then step.multi else p.multi)
            && q.target == (if step == Compare && p.pc.AtRest? then p.multi else p.target)
            && q.struck == (if step == Subtract && p.pc.Compared? then 0
                            else p.struck + (if step.Handler? && q.table != p.table then 1 else 0))
            && q.flipped == if step == Subtract && p.pc.Compared? then p.pc.more && p.childNum < p.target
                            else p.flipped
  {
  }

  /** The fields that only the model has say this of the steps. */
  lemma {:induction false} StepsTell(multi: uint16, steps: seq<Step>)
    ensures var p := Run(Initial(multi), steps);
            && p.multi == WantedAt(multi, steps) && p.target == AimedAt(multi, steps)
            && p.struck == CrashedSince(multi, steps) && p.flipped == FellBelow(multi, steps)
    decreases |steps|
  {
    if steps != [] {
      var before := steps[..|steps| - 1];
      assert steps == before + [steps[|steps| - 1]];
      StepsTell(multi, before);
      RunMore(Initial(multi), before, steps[|steps| - 1]);
      StepTells(Run(Initial(multi), before), steps[|steps| - 1]);
    }
  }

  /** In a fair environment, after any interleaving: whenever the master is at rest, its
      counter is the size of its table, and both are what the last adjustment aimed at, less
      the children that have crashed since. Only when so many had crashed between its
      comparison and its subtraction that the counter had fallen below the target, it has
      taken all children out. */
  lemma PoolInvariant(multi: uint16, steps: seq<Step>)
    requires FairRun(Initial(multi), steps) && Run(Initial(multi), steps).pc.AtRest?
    ensures var p := Run(Initial(multi), steps);
            p.childNum == |p.table| == Remaining(multi, steps)
  {
    RunKeepsOrder(Initial(multi), steps);
    StepsTell(multi, steps);
  }

  /** Then the children are as many as the last adjustment aimed at if and only if it aimed at
      none, or no child has crashed since its subtraction, nor so many just before it that the
      counter had fallen below the target. */
  lemma MetExactlyWhen(multi: uint16, steps: seq<Step>)
    requires FairRun(Initial(multi), steps) && Run(Initial(multi), steps).pc.AtRest?
    ensures var p, aim := Run(Initial(multi), steps), AimedAt(multi, steps);
            p.childNum == |p.table| == aim <==>
              aim == 0 || (!FellBelow(multi, steps) && CrashedSince(multi, steps) == 0)
  {
    PoolInvariant(multi, steps);
  }

  // ------------------------------------------------------- the master's part

  /** The steps of the master itself, without signals, exits and changes of the rate. */
  function Own(steps: seq<Step>): seq<Step> {
    if steps == [] then []
    else
      var last := steps[|steps| - 1];
      Own(steps[..|steps| - 1]) + (if last.SetMulti? || last.Exit? || last.Handler? then [] else [last])
  }

  lemma OwnMore(steps: seq<Step>, step: Step)
    ensures Own(steps + [step]) == Own(steps) + (if step.SetMulti? || step.Exit? || step.Handler? then [] else [step])
  {
    assert (steps + [step])[..|steps|] == steps;
  }

  /** Children are told to exit, counted down and taken out, one after the other. */
  predicate Retirements(steps: seq<Step>) {
    steps == [] ||
      var n := |steps| - 3;
      n >= 0 && Retirements(steps[..n]) && steps[n].Kill? && steps[n + 1] == CountDown && steps[n + 2] == Erase
  }

  /** Children are forked, put in and counted, one after the other. */
  predicate Hirings(steps: seq<Step>) {
    steps == [] ||
      var n := |steps| - 3;
      n >= 0 && Hirings(steps[..n]) && steps[n].Fork? && steps[n + 1] == Enter && steps[n + 2] == CountUp
  }

  /** One comparison, one subtraction, children that are taken out or put in, and the end,
      which an adjustment that failed does not come to. */
  predicate IsAdjustment(own: seq<Step>, reduce: bool, failed: bool) {
    var n := if failed then |own| else |own| - 1;
    && n >= 2 && own[0] == Compare && own[1] == Subtract && (failed || own[n] == Finish)
    && if reduce then Retirements(own[2..n]) else Hirings(own[2..n])
  }

  lemma AdjustmentMade(rounds: seq<Step>, reduce: bool, failed: bool)
    requires if reduce then Retirements(rounds) else Hirings(rounds)
    ensures IsAdjustment([Compare, Subtract] + rounds + (if failed then [] else [Finish]), reduce, failed)
  {
    var own := [Compare, Subtract] + rounds + (if failed then [] else [Finish]);
    assert own[2..if failed then |own| else |own| - 1] == rounds;
  }

  /** A step of the master behind its subtraction. */
  predicate Works(step: Step) {
    step.Kill? || step.CountDown? || step.Erase? || step.Fork? || step.Enter? || step.CountUp? || step.Finish?
  }

  lemma {:induction false} WorkKeepsAim(p: Pool, steps: seq<Step>)
    requires forall step | step in steps :: Works(step)
    ensures var q := Run(p, steps); q.target == p.target && q.struck == p.struck && q.flipped == p.flipped
    decreases |steps|
  {
    if steps != [] {
      assert Works(steps[0]);
      StepTells(p, steps[0]);
      WorkKeepsAim(Next(p, steps[0]), steps[1..]);
    }
  }

  lemma {:induction false} RoundsAreWork(steps: seq<Step>)
    requires Retirements(steps) || Hirings(steps)
    ensures forall step | step in steps :: Works(step)
    decreases |steps|
  {
    if steps != [] {
      var n := |steps| - 3;
      RoundsAreWork(steps[..n]);
      assert steps == steps[..n] + [steps[n], steps[n + 1], steps[n + 2]];
    }
  }

  lemma {:induction false} OwnParts(a: seq<Step>, b: seq<Step>)
    ensures Own(a + b) == Own(a) + Own(b)
    decreases |b|
  {
    if b == [] {
      assert a + b == a;
    } else {
      var n := |b| - 1;
      assert (a + b)[..|a + b| - 1] == a + b[..n];
      OwnParts(a, b[..n]);
    }
  }

  /** What comes behind the comparison of an adjustment does not change what it aims at. */
  lemma {:induction false} AimStays(multi: uint16, steps: seq<Step>, tail: seq<Step>)
    requires Compare !in Own(tail)
    ensures AimedAt(multi, steps + tail) == AimedAt(multi, steps)
    decreases |tail|
  {
    if tail == [] {
      assert steps + tail == steps;
    } else {
      var n := |tail| - 1;
      assert (steps + tail)[..|steps + tail| - 1] == steps + tail[..n];
      AimStays(multi, steps, tail[..n]);
    }
  }

  lemma {:induction false} OneComparison(own: seq<Step>, reduce: bool, failed: bool)
    requires IsAdjustment(own, reduce, failed)
    ensures Compare !in own[1..]
  {
    var n := if failed then |own| else |own| - 1;
    RoundsAreWork(own[2..n]);
    assert own[1..] == [Subtract] + own[2..n] + own[n..];
  }

  lemma SameTail(front: seq<Step>, own: seq<Step>, tail: seq<Step>)
    requires own != [] && own[0] == Compare && front + own == front + [Compare] + tail
    ensures tail == own[1..]
  {
    assert tail == (front + [Compare] + tail)[|front| + 1..];
    assert own[1..] == (front + own)[|front| + 1..];
  }

  /** An adjustment aims at the rate that its comparison finds, whatever comes in between. */
  lemma {:induction false} AdjustmentAims(multi: uint16, before: seq<Step>, steps: seq<Step>, own: seq<Step>,
                                          reduce: bool, failed: bool)
    requires Run(Initial(multi), before).pc.AtRest? && before + [Compare] <= steps
    requires IsAdjustment(own, reduce, failed) && Own(steps) == Own(before) + own
    ensures AimedAt(multi, steps) == WantedAt(multi, before)
  {
    var begun := before + [Compare];
    var tail := steps[|begun|..];
    assert steps == begun + tail && begun[..|before|] == before;
    OwnParts(begun, tail);
    OwnMore(before, Compare);
    OneComparison(own, reduce, failed);
    SameTail(Own(before), own, Own(tail));
    AimStays(multi, begun, tail);
  }

  /** An adjustment into which nothing comes ends with as many children as it found wanted. */
  lemma {:induction false} Undisturbed(multi: uint16, before: seq<Step>, own: seq<Step>, reduce: bool)
    requires Run(Initial(multi), before).pc.AtRest? && IsAdjustment(own, reduce, false)
    requires FairRun(Initial(multi), before + own) && Run(Initial(multi), before + own).pc.AtRest?
    ensures var p := Run(Initial(multi), before + own); p.childNum == |p.table| == WantedAt(multi, before)
  {
    var n := |own| - 1;
    var work := own[2..n] + [Finish];
    var p := Run(Initial(multi), before);
    assert own == [Compare, Subtract] + work;
    RunOn(Initial(multi), before, own);
    RunOn(p, [Compare, Subtract], work);
    assert [Compare, Subtract][1..] == [Subtract] && [Subtract][1..] == [];
    RoundsAreWork(own[2..n]);
    WorkKeepsAim(Next(Next(p, Compare), Subtract), work);
    StepsTell(multi, before);
    StepsTell(multi, before + own);
    PoolInvariant(multi, before + own);
  }

  // ------------------------------------------------- what the assumptions are for

  /** This run leads to this state, and if it is called fair it is fair. */
  predicate Leads(s: Pool, steps: seq<Step>, fair: bool, p: Pool) {
    Run(s, steps) == p && (fair ==> FairRun(s, steps))
  }

  /** A run that goes on. */
  lemma Then(s: Pool, steps: seq<Step>, fair: bool, p: Pool, step: Step) returns (more: seq<Step>)
    requires Leads(s, steps, fair, p) && (fair ==> Fair(p, step))
    ensures Leads(s, more, fair, Next(p, step))
  {
    RunMore(s, steps, step);
    more := steps + [step];
  }

  function Begun(p: Pool, left: nat): Pool {
    p.(target := p.multi, struck := 0, flipped := false, pc := Growing(left))
  }

  /** The beginning of an adjustment from rest to at least as many children. */
  lemma ThenGrow(s: Pool, steps: seq<Step>, fair: bool, p: Pool) returns (more: seq<Step>)
    requires Leads(s, steps, fair, p) && p.pc.AtRest? && p.childNum <= p.multi
    ensures Leads(s, more, fair, Begun(p, p.multi - p.childNum))
  {
    more := Then(s, steps, fair, p, Compare);
    more := Then(s, more, fair, p.(target := p.multi, pc := Compared(false)), Subtract);
  }

  /** The beginning of an adjustment from rest to fewer children. */
  lemma ThenReduce(s: Pool, steps: seq<Step>, fair: bool, p: Pool) returns (more: seq<Step>)
    requires Leads(s, steps, fair, p) && p.pc.AtRest? && p.childNum > p.multi
    ensures Leads(s, more, fair, Begun(p, 0).(pc := Reducing(p.childNum - p.multi)))
  {
    more := Then(s, steps, fair, p, Compare);
    more := Then(s, more, fair, p.(target := p.multi, pc := Compared(true)), Subtract);
  }

  function WithChild(p: Pool, pid: nat, childNum: uint16, left: nat): Pool {
    p.(running := p.running + {pid}, table := p.table + {pid}, childNum := childNum, pc := Growing(left))
  }

  lemma ThenAddChild(s: Pool, steps: seq<Step>, fair: bool, p: Pool, pid: nat) returns (more: seq<Step>)
    requires Leads(s, steps, fair, p)
    requires p.pc.Growing? && p.pc.left > 0 && Unused(p, pid) && p.childNum < 0xFFFF
    ensures Leads(s, more, fair, WithChild(p, pid, p.childNum + 1, p.pc.left - 1))
  {
    var left := p.pc.left - 1;
    var q := p.(running := p.running + {pid}, pc := Born(pid, left));
    more := Then(s, steps, fair, p, Fork(pid));
    more := Then(s, more, fair, q, Enter);
    more := Then(s, more, fair, q.(table := p.table + {pid}, pc := Entered(pid, left)), CountUp);
  }

  function WithoutTold(p: Pool, pid: nat, childNum: uint16, left: nat): Pool {
    p.(told := p.told + {pid}, table := p.table - {pid}, childNum := childNum, pc := Reducing(left))
  }

  lemma ThenTakeChild(s: Pool, steps: seq<Step>, fair: bool, p: Pool, pid: nat) returns (more: seq<Step>)
    requires Leads(s, steps, fair, p)
    requires p.pc.Reducing? && p.pc.left > 0 && pid in p.table && pid in p.running && p.childNum > 0
    ensures Leads(s, more, fair, WithoutTold(p, pid, p.childNum - 1, p.pc.left - 1))
  {
    var left := p.pc.left - 1;
    var q := p.(told := p.told + {pid}, pc := Told(pid, left));
    assert Next(p, Kill(pid)) == q;
    more := Then(s, steps, fair, p, Kill(pid));
    more := Then(s, more, fair, q, CountDown);
    more := Then(s, more, fair, q.(childNum := p.childNum - 1, pc := Discounted(pid, left)), Step.Erase);
  }

  /** The pool when a child that crashed has been reaped. */
  function Crashed(p: Pool, pid: nat): Pool {
    Struck(p.(running := p.running - {pid}, told := p.told - {pid}), pid)
  }

  lemma ThenCrash(s: Pool, steps: seq<Step>, fair: bool, p: Pool, pid: nat) returns (more: seq<Step>)
    requires Leads(s, steps, fair, p) && pid in p.running && pid !in p.zombies
    requires fair ==> pid !in p.told && !(p.pc.Born? && p.pc.pid == pid)
    ensures Leads(s, more, fair, Crashed(p, pid))
  {
    more := Then(s, steps, fair, p, Exit(pid, false));
    more := Then(s, more, fair, p.(running := p.running - {pid}, zombies := p.zombies[pid := false]), Handler(pid));
    assert p.zombies[pid := false] - {pid} == p.zombies;
  }

  /** A pool at rest with one child, as wanted. */
  const ONE: Pool := Pool(1, {5}, {5}, {}, map[], 1, AtRest, 1, false, 0, 0)

  lemma GrowOne() returns (steps: seq<Step>)
    ensures Leads(Initial(1), steps, true, ONE)
  {
    var p := Initial(1);
    steps := ThenGrow(p, [], true, p);
    var q := Begun(p, 1);
    steps := ThenAddChild(p, steps, true, q, 5);
    steps := Then(p, steps, true, WithChild(q, 5, 1, 0), Finish);
  }

  /** A handler that finds no dead child takes one off the counter all the same. */
  lemma SpuriousSignal() returns (steps: seq<Step>)
    ensures Run(Initial(1), steps) == ONE.(childNum := 0, missed := 1)
  {
    steps := GrowOne();
    steps := Then(Initial(1), steps, false, ONE, Handler(0));
  }

  /** A child that is only stopped loses its entry while it lives, and is counted down again
      when it dies. */
  lemma StoppedChild() returns (steps: seq<Step>)
    ensures Run(Initial(1), steps) == ONE.(table := {}, childNum := 0xFFFF, running := {}, struck := 1, missed := 1)
  {
    steps := GrowOne();
    steps := Then(Initial(1), steps, false, ONE, Handler(5));
    steps := ThenCrash(Initial(1), steps, false, ONE.(table := {}, childNum := 0, struck := 1), 5);
  }

  /** A child that dies before it is entered gets an entry that outlives it. */
  lemma DeathBeforeEntry() returns (steps: seq<Step>)
    ensures Run(Initial(1), steps) == ONE.(childNum := 0, running := {}, missed := 1)
  {
    var s := Initial(1);
    steps := ThenGrow(s, [], false, s);
    var p := Begun(s, 1);
    steps := Then(s, steps, false, p, Fork(5));
    p := p.(running := {5}, pc := Born(5, 0));
    steps := ThenCrash(s, steps, false, p, 5);
    p := p.(running := {}, childNum := 0xFFFF, missed := 1);
    steps := Then(s, steps, false, p, Enter);
    p := p.(table := {5}, pc := Entered(5, 0));
    steps := Then(s, steps, false, p, CountUp);
    p := p.(childNum := 0, pc := Growing(0));
    steps := Then(s, steps, false, p, Finish);
  }

  /** No child is wanted any more: the only one is told to exit, and the adjustment ends. */
  lemma LastOneTold() returns (steps: seq<Step>)
    ensures Leads(Initial(1), steps, true, ONE.(multi := 0, target := 0, childNum := 0, table := {}, told := {5}))
  {
    var s := Initial(1);
    steps := GrowOne();
    steps := Then(s, steps, true, ONE, SetMulti(0));
    var p := ONE.(multi := 0);
    steps := ThenReduce(s, steps, true, p);
    p := p.(target := 0, pc := Reducing(1));
    steps := ThenTakeChild(s, steps, true, p, 5);
    steps := Then(s, steps, true, WithoutTold(p, 5, 0, 0), Finish);
  }

  /** A child that crashes after it was told to exit is counted down twice. */
  lemma CrashOfATold() returns (steps: seq<Step>)
    ensures var p := Run(Initial(1), steps);
            p.pc.AtRest? && p.table == p.running == {} && p.childNum == 0xFFFF
  {
    steps := LastOneTold();
    var p := ONE.(multi := 0, target := 0, childNum := 0, table := {}, told := {5});
    steps := ThenCrash(Initial(1), steps, false, p, 5);
  }

  /** A pool at rest with three children, as wanted. */
  const THREE: Pool := Pool(3, {5, 6, 7}, {5, 6, 7}, {}, map[], 3, AtRest, 3, false, 0, 0)

  lemma GrowThree() returns (steps: seq<Step>)
    ensures Leads(Initial(3), steps, true, THREE)
  {
    var s := Initial(3);
    steps := ThenGrow(s, [], true, s);
    var p := Begun(s, 3);
    steps := ThenAddChild(s, steps, true, p, 5);
    p := WithChild(p, 5, 1, 2);
    steps := ThenAddChild(s, steps, true, p, 6);
    p := WithChild(p, 6, 2, 1);
    steps := ThenAddChild(s, steps, true, p, 7);
    steps := Then(s, steps, true, WithChild(p, 7, 3, 0), Finish);
  }

  /** Two children are wanted, and two of three crash between the comparison and the
      subtraction. */
  const TWO_GONE: Pool := Pool(1, {7}, {7}, {}, map[], 2, Compared(true), 2, false, 2, 0)

  lemma TwoCrashes() returns (steps: seq<Step>)
    ensures Leads(Initial(3), steps, true, TWO_GONE)
  {
    var s := Initial(3);
    steps := GrowThree();
    steps := Then(s, steps, true, THREE, SetMulti(2));
    var p := THREE.(multi := 2);
    steps := Then(s, steps, true, p, Compare);
    p := p.(target := 2, pc := Compared(true));
    steps := ThenCrash(s, steps, true, p, 5);
    p := p.(running := {6, 7}, table := {6, 7}, childNum := 2, struck := 1);
    steps := ThenCrash(s, steps, true, p, 6);
    assert Crashed(p, 6) == TWO_GONE;
  }

  /** Then the difference wraps around, the third child is told to exit as well, and the
      adjustment ends with none. Everything in this run is fair. */
  lemma Overshoot() returns (steps: seq<Step>)
    ensures FairRun(Initial(3), steps)
    ensures var p := Run(Initial(3), steps);
            p.pc.AtRest? && p.target == p.multi == 2 && p.childNum == 0 && p.table == {} && p.told == {7}
  {
    var s := Initial(3);
    steps := TwoCrashes();
    steps := Then(s, steps, true, TWO_GONE, Subtract);
    var p := TWO_GONE.(struck := 0, flipped := true, pc := Reducing(0xFFFF));
    steps := ThenTakeChild(s, steps, true, p, 7);
    steps := Then(s, steps, true, WithoutTold(p, 7, 0, 0xFFFE), Finish);
  }
}
