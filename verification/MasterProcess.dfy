/** The master process as it runs (c++/client/worker.cpp:268-365): each of its statements
    is a step of the pool, and signals may come in before any of them. */
module MasterProcess {
  import opened Bytes
  import opened WorkerPool

  lemma Rounds(own: seq<Step>, rounds: seq<Step>, round: seq<Step>)
    ensures own + rounds + round == own + (rounds + round)
    ensures round == [] ==> rounds + round == rounds
    ensures |round| == 3 && Retirements(rounds) && Retirements(round) ==> Retirements(rounds + round)
    ensures |round| == 3 && Hirings(rounds) && Hirings(round) ==> Hirings(rounds + round)
  {
    assert |round| == 3 ==> (rounds + round)[..|rounds|] == rounds;
  }

  lemma Regrouped(own: seq<Step>, rounds: seq<Step>, end: seq<Step>)
    ensures own + [Compare] + [Subtract] + rounds + end == own + ([Compare, Subtract] + rounds + end)
  {
  }

  /** Since then a fork has failed. */
  predicate ForkFailed(forks: seq<nat>, from: nat) {
    exists k :: from <= k < |forks| && forks[k] == 0
  }

  lemma FailedMore(forks: seq<nat>, pid: nat, from: nat)
    requires from <= |forks|
    ensures ForkFailed(forks + [pid], from) <==> ForkFailed(forks, from) || pid == 0
  {
    var more := forks + [pid];
    assert more[|forks|] == pid;
    if ForkFailed(forks, from) {
      var k :| from <= k < |forks| && forks[k] == 0;
      assert more[k] == 0;
    }
  }

  class Master {
    const firstMulti: uint16
    var childNum: uint16
    var childProcessMap: set<nat>
    /** The rate in shared memory, and what the system knows about the children. */
    var multi: uint16
    var running: set<nat>
    var told: set<nat>
    var zombies: map<nat, bool>
    /** What fork has returned so far: a pid, or 0 when it failed. */
    ghost var forks: seq<nat>
    /** What has happened so far, and the state it leads to. */
    ghost var steps: seq<Step>
    ghost var pool: Pool
    /** The steps of the master itself among them. */
    ghost var own: seq<Step>

    /** The fields are the state that the steps lead to, and the master is at this place. */
    ghost predicate At(pc: Pc)
      reads this
    {
      pool == Run(Initial(firstMulti), steps) && own == Own(steps) && pool.pc == pc && Holds(pool)
    }

    ghost predicate Holds(p: Pool)
      reads this`childNum, this`childProcessMap, this`multi, this`running, this`told, this`zombies
    {
      p == p.(childNum := childNum, table := childProcessMap, multi := multi,
              running := running, told := told, zombies := zombies)
    }

    constructor (multi: uint16)
      ensures At(AtRest) && this.firstMulti == multi && steps == [] && forks == []
    {
      firstMulti, this.multi := multi, multi;
      childNum, childProcessMap := 0, {};
      running, told, zombies := {}, {}, map[];
      steps, pool, own, forks := [], Initial(multi), [], [];
    }

    /** One more step has been carried out. */
    ghost method Did(step: Step)
      requires pool == Run(Initial(firstMulti), steps) && own == Own(steps)
      modifies this`steps, this`pool, this`own
      ensures own == Own(steps)
      ensures steps == old(steps) + [step]
      ensures own == old(own) + (if step.SetMulti? || step.Exit? || step.Handler? then [] else [step])
      ensures pool == Next(old(pool), step) == Run(Initial(firstMulti), steps)
    {
      RunMore(Initial(firstMulti), steps, step);
      OwnMore(steps, step);
      steps, pool := steps + [step], Next(pool, step);
      own := Own(steps);
    }

    /** waitpid(-1, WNOHANG | WUNTRACED): a dead child, with how it exited; a child that is
        stopped; 0 when there are children but none of these; -1 when there is no child. */
    method WaitPid(ghost p: Pool) returns (pid: int, usr1: bool)
      requires Holds(p)
      modifies this`zombies, this`told
      ensures pid in p.zombies ==> usr1 == p.zombies[pid] && Holds(Reaped(p, pid))
      ensures pid !in p.zombies ==> !usr1 && Holds(p)
      ensures if pid < 0 then pid == -1 && p.running == {} && p.zombies == map[] else Enabled(p, Handler(pid))
    {
      var stopped: nat := *;
      pid, usr1 := -1, false;
      if stopped in running {
        pid := stopped;
      } else if zombies != map[] {
        assert zombies.Keys != {};
        pid :| pid in zombies;
      } else if running != {} {
        pid := 0;
      }
      if pid in zombies {
        usr1 := zombies[pid];
        zombies, told := zombies - {pid}, told - {pid};
      }
    }

    method StrikeOff(ghost p: Pool, pid: nat)
      requires Holds(p)
      modifies this`childProcessMap, this`childNum
      ensures Holds(Struck(p, pid))
    {
      childProcessMap := childProcessMap - {pid};
      childNum := ToUint16(childNum - 1);
    }

    /** sigChldHandler. When there is no child at all it leaves everything as it was. */
    method SigChldHandler(ghost pc: Pc) returns (ghost pid: nat)
      requires At(pc)
      modifies this`childNum, this`childProcessMap, this`zombies, this`told, this`steps, this`pool, this`own
      ensures At(pc) && own == old(own) && steps == old(steps) + [Handler(pid)]
      ensures Enabled(old(pool), Handler(pid)) || old(running == {} && zombies == map[])
      ensures pool.target == old(pool.target) && pool.flipped == old(pool.flipped)
      ensures old(running == {} && zombies == map[]) ==> pool == old(pool)
    {
      var chldPid, usr1 := WaitPid(pool);
      pid := 0;
      if chldPid >= 0 {
        pid := chldPid;
        if !usr1 {
          StrikeOff(if chldPid in pool.zombies then Reaped(pool, chldPid) else pool, chldPid);
        }
        assert Holds(Handle(pool, chldPid));
      }
      Did(Handler(pid));
    }

    /** A child exits. */
    method ChildExits(pid: nat, usr1: bool, ghost pc: Pc)
      requires At(pc) && pid in running
      modifies this`running, this`zombies, this`steps, this`pool, this`own
      ensures At(pc) && old(steps) <= steps && own == old(own)
      ensures pool.target == old(pool.target) && pool.flipped == old(pool.flipped)
    {
      running, zombies := running - {pid}, zombies[pid := usr1];
      Did(Exit(pid, usr1));
    }

    /** The rate changes. */
    method RateChanges(m: uint16, ghost pc: Pc)
      requires At(pc)
      modifies this`multi, this`steps, this`pool, this`own
      ensures At(pc) && old(steps) <= steps && own == old(own)
      ensures pool.target == old(pool.target) && pool.flipped == old(pool.flipped)
    {
      multi := m;
      Did(SetMulti(m));
    }

    /** What may happen between two statements of the master. */
    method Interrupt(ghost pc: Pc)
      requires At(pc)
      modifies this`childNum, this`childProcessMap, this`multi, this`running, this`told, this`zombies
      modifies this`steps, this`pool, this`own
      ensures At(pc) && old(steps) <= steps && own == old(own)
      ensures pool.target == old(pool.target) && pool.flipped == old(pool.flipped)
    {
      var rounds: nat := *;
      while rounds > 0
        invariant At(pc) && old(steps) <= steps && own == old(own)
        invariant pool.target == old(pool.target) && pool.flipped == old(pool.flipped)
      {
        var signal: bool, pid: nat, usr1: bool, m: uint16 := *, *, *, *;
        if signal {
          ghost var _ := SigChldHandler(pc);
        } else if pid in running {
          ChildExits(pid, usr1, pc);
        } else {
          RateChanges(m, pc);
        }
        rounds := rounds - 1;
      }
    }

    /** kill. */
    method Tell(pid: nat, ghost left: nat)
      requires At(Reducing(left + 1)) && pid in childProcessMap
      modifies this
      ensures At(Told(pid, left)) && old(steps) <= steps && forks == old(forks)
      ensures own == old(own) + [Kill(pid)]
    {
      told := told + {pid};
      Did(Kill(pid));
      Interrupt(Told(pid, left));
    }

    method Discount(pid: nat, ghost left: nat)
      requires At(Told(pid, left))
      modifies this
      ensures At(Discounted(pid, left)) && old(steps) <= steps && forks == old(forks)
      ensures own == old(own) + [CountDown]
    {
      childNum := ToUint16(childNum - 1);
      Did(CountDown);
      Interrupt(Discounted(pid, left));
    }

    method TakeOut(pid: nat, ghost left: nat)
      requires At(Discounted(pid, left))
      modifies this
      ensures At(Reducing(left)) && old(steps) <= steps && forks == old(forks)
      ensures own == old(own) + [Step.Erase]
    {
      childProcessMap := childProcessMap - {pid};
      Did(Step.Erase);
      Interrupt(Reducing(left));
    }

    /** One child is told to exit and taken out of the table. */
    method Retire(ghost left: nat) returns (ghost round: seq<Step>)
      requires At(Reducing(left + 1)) && childProcessMap != {}
      modifies this
      ensures At(Reducing(left)) && old(steps) <= steps && forks == old(forks)
      ensures Retirements(round) && |round| == 3 && own == old(own) + round
    {
      var pid :| pid in childProcessMap;
      Tell(pid, left);
      Discount(pid, left);
      TakeOut(pid, left);
      round := [Kill(pid), CountDown, Step.Erase];
      assert own == old(own) + round;
    }

    /** The round behind these rounds. */
    method RetireNext(ghost before: seq<Step>, ghost rounds: seq<Step>, ghost left: nat) returns (ghost more: seq<Step>)
      requires At(Reducing(left + 1)) && childProcessMap != {} && own == before + rounds && Retirements(rounds)
      modifies this
      ensures At(Reducing(left)) && own == before + more && Retirements(more)
      ensures old(steps) <= steps && forks == old(forks)
    {
      ghost var round := Retire(left);
      Rounds(before, rounds, round);
      more := rounds + round;
    }

    /** Lines 323 to 330. */
    method Reduce(reduceProcessNum: nat) returns (ghost rounds: seq<Step>)
      requires At(Reducing(reduceProcessNum))
      modifies this
      ensures At(AtRest) && old(steps) <= steps && forks == old(forks)
      ensures Retirements(rounds) && own == old(own) + rounds + [Finish]
    {
      var i := 0;
      ghost var before := own;
      rounds := [];
      Interrupt(Reducing(reduceProcessNum));
      while childProcessMap != {} && i < reduceProcessNum
        invariant 0 <= i <= reduceProcessNum && At(Reducing(reduceProcessNum - i)) && old(steps) <= steps
        invariant Retirements(rounds) && own == before + rounds && forks == old(forks)
        decreases reduceProcessNum - i
      {
        rounds := RetireNext(before, rounds, reduceProcessNum - i - 1);
        i := i + 1;
      }
      Did(Finish);
    }

    /** fork: a pid that is not in use, or none. */
    method ForkChild() returns (pid: nat)
      modifies this`forks
      ensures forks == old(forks) + [pid]
      ensures pid > 0 ==> pid !in childProcessMap && pid !in running && pid !in told && pid !in zombies
    {
      pid := *;
      if pid in childProcessMap || pid in running || pid in told || pid in zombies {
        pid := 0;
      }
      forks := forks + [pid];
    }

    /** CreateChild; no pid comes back when the fork fails. */
    method CreateChild(ghost left: nat) returns (pid: nat)
      requires At(Growing(left + 1))
      modifies this
      ensures old(steps) <= steps && forks == old(forks) + [pid]
      ensures if pid > 0 then At(Born(pid, left)) && own == old(own) + [Fork(pid)]
              else At(Growing(left + 1)) && own == old(own)
    {
      pid := ForkChild();
      if pid > 0 {
        running := running + {pid};
        Did(Fork(pid));
        Interrupt(Born(pid, left));
      }
    }

    method PutIn(pid: nat, ghost left: nat)
      requires At(Born(pid, left))
      modifies this
      ensures At(Entered(pid, left)) && old(steps) <= steps && forks == old(forks)
      ensures own == old(own) + [Enter]
    {
      childProcessMap := childProcessMap + {pid};
      Did(Enter);
      Interrupt(Entered(pid, left));
    }

    method Count(pid: nat, ghost left: nat)
      requires At(Entered(pid, left))
      modifies this
      ensures At(Growing(left)) && old(steps) <= steps && forks == old(forks)
      ensures own == old(own) + [CountUp]
    {
      childNum := ToUint16(childNum + 1);
      Did(CountUp);
      Interrupt(Growing(left));
    }

    /** One child is forked and entered in the table. */
    method Hire(ghost left: nat) returns (pid: nat, ghost round: seq<Step>)
      requires At(Growing(left + 1))
      modifies this
      ensures old(steps) <= steps && forks == old(forks) + [pid]
      ensures Hirings(round) && own == old(own) + round
      ensures if pid == 0 then round == [] && own == Own(steps) else |round| == 3 && At(Growing(left))
    {
      round := [];
      pid := CreateChild(left);
      if pid > 0 {
        PutIn(pid, left);
        Count(pid, left);
        round := [Fork(pid), Enter, CountUp];
        assert own == old(own) + round;
      }
    }

    method HireNext(ghost before: seq<Step>, ghost rounds: seq<Step>, ghost left: nat, ghost from: nat)
      returns (failed: bool, ghost more: seq<Step>)
      requires At(Growing(left + 1)) && own == before + rounds && Hirings(rounds)
      requires from <= |forks| && !ForkFailed(forks, from)
      modifies this
      ensures own == Own(steps) == before + more && Hirings(more) && (!failed ==> At(Growing(left)))
      ensures old(steps) <= steps && old(forks) <= forks && (failed <==> ForkFailed(forks, from))
    {
      var pid;
      ghost var round;
      pid, round := Hire(left);
      failed := pid == 0;
      FailedMore(old(forks), pid, from);
      Rounds(before, rounds, round);
      more := rounds + round;
    }

    method HireAll(incProcessNum: nat, ghost before: seq<Step>) returns (failed: bool, ghost rounds: seq<Step>)
      requires At(Growing(incProcessNum)) && own == before
      modifies this
      ensures own == Own(steps) == before + rounds && Hirings(rounds) && (!failed ==> At(Growing(0)))
      ensures old(steps) <= steps && old(forks) <= forks && (failed <==> ForkFailed(forks, |old(forks)|))
    {
      var i := 0;
      rounds := [];
      failed := false;
      while i < incProcessNum
        invariant 0 <= i <= incProcessNum && At(Growing(incProcessNum - i)) && own == before + rounds
        invariant old(steps) <= steps && Hirings(rounds)
        invariant old(forks) <= forks && !ForkFailed(forks, |old(forks)|)
      {
        failed, rounds := HireNext(before, rounds, incProcessNum - i - 1, |old(forks)|);
        if failed {
          return;
        }
        i := i + 1;
      }
    }

    /** Lines 340 to 346. A fork that fails ends the process, and nothing else does. */
    method Grow(incProcessNum: nat) returns (failed: bool, ghost rounds: seq<Step>)
      requires At(Growing(incProcessNum))
      modifies this
      ensures old(steps) <= steps && Hirings(rounds)
      ensures own == old(own) + rounds + (if failed then [] else [Finish])
      ensures old(forks) <= forks && (failed <==> ForkFailed(forks, |old(forks)|))
      ensures own == Own(steps) && (!failed ==> At(AtRest))
    {
      Interrupt(Growing(incProcessNum));
      failed, rounds := HireAll(incProcessNum, own);
      if !failed {
        Did(Finish);
      }
    }

    /** Lines 316 to 352: one adjustment. The master compares and subtracts once, at the rate that
        it finds, takes children out or puts children in one by one, and comes to rest, unless
        a fork fails. In a fair environment it ends with the counter equal to the size of the
        table and with what PoolInvariant says; and when nothing comes in between, with as
        many children as it found wanted. */
    method Adjust() returns (failed: bool, ghost work: seq<Step>)
      requires At(AtRest)
      modifies this
      ensures old(forks) <= forks && (failed <==> ForkFailed(forks, |old(forks)|)) && (!failed ==> At(AtRest))
      ensures old(steps) <= steps && own == Own(steps) == old(own) + work
      ensures IsAdjustment(work, old(childNum > multi), failed) && AimedAt(firstMulti, steps) == old(multi)
      ensures !failed && FairRun(Initial(firstMulti), steps) ==>
                && childNum == |childProcessMap| == Remaining(firstMulti, steps)
                && (steps == old(steps) + work ==> childNum == old(multi))
    {
      failed, work := Work();
      AdjustmentAims(firstMulti, old(steps), steps, work, old(childNum > multi), failed);
      StepsTell(firstMulti, old(steps));
      if !failed && FairRun(Initial(firstMulti), steps) {
        PoolInvariant(firstMulti, steps);
        if steps == old(steps) + work {
          Undisturbed(firstMulti, old(steps), work, old(childNum > multi));
        }
      }
    }

    method Work() returns (failed: bool, ghost work: seq<Step>)
      requires At(AtRest)
      modifies this
      ensures old(forks) <= forks && (failed <==> ForkFailed(forks, |old(forks)|)) && (!failed ==> At(AtRest))
      ensures old(steps) + [Compare] <= steps && own == Own(steps) == old(own) + work
      ensures IsAdjustment(work, old(childNum > multi), failed)
    {
      var more, difference := Difference();
      failed := false;
      ghost var rounds;
      if more {
        rounds := Reduce(difference);
      } else {
        failed, rounds := Grow(difference);
      }
      ghost var end := if failed then [] else [Finish];
      work := [Compare, Subtract] + rounds + end;
      Regrouped(old(own), rounds, end);
      AdjustmentMade(rounds, more, failed);
    }

    /** Lines 316 to 321 and 335 to 336. */
    method Difference() returns (more: bool, difference: uint16)
      requires At(AtRest)
      modifies this
      ensures more == old(childNum > multi)
      ensures At(if more then Reducing(difference) else Growing(difference)) && forks == old(forks)
      ensures old(steps) + [Compare] <= steps && own == old(own) + [Compare] + [Subtract]
    {
      var processNum := multi;
      more := childNum > processNum;
      Did(Compare);
      Interrupt(Compared(more));
      difference := Minus(processNum, more);
    }

    method Minus(processNum: uint16, more: bool) returns (difference: uint16)
      requires At(Compared(more)) && pool.target == processNum
      modifies this`steps, this`pool, this`own
      ensures At(if more then Reducing(difference) else Growing(difference))
      ensures old(steps) <= steps && own == old(own) + [Subtract]
    {
      difference := if more then ToUint16(childNum - processNum) else ToUint16(processNum - childNum);
      Did(Subtract);
    }
  }
}
