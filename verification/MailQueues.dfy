/** The children of the pool with their queues and the counter they share under a lock
    (c++/client/worker.cpp:388-443 and 470-491). */
module MailQueues {
  import opened Options

  type Mail = nat

  /** Where a child is in its loop. While it adds to the counter it has read it and not
      written it back. */
  datatype Place =
    | Top
    | Ready
    | Locked
    | Pulled
    | Adding(read: nat)
    | Added
    | Draining
    | Gone

  datatype Child = Child(place: Place, quit: bool, queue: seq<Mail>)

  /** The shared counter and lock, the children ever forked, the mails they have taken off
      their queues to send, and the counted mails that died with their child. */
  datatype Shop = Shop(havePushNum: nat, lock: Option<nat>, children: seq<Child>, taken: seq<Mail>, lost: nat)

  datatype Step =
    | Fork
    | Tell(i: nat)
    | Check(i: nat, canStart: bool)
    | Acquire(i: nat)
    | Pull(i: nat, rows: seq<Mail>)
    | Load(i: nat)
    | Store(i: nat)
    | Release(i: nat)
    | Take(i: nat)
    | Rest(i: nat)
    | Crash(i: nat)

  function Initial(): Shop {
    Shop(0, None, [], [], 0)
  }

  predicate Enabled(s: Shop, step: Step) {
    if step.Fork? then true
    else if step.i >= |s.children| then false
    else
      var c := s.children[step.i];
      match step
      case Tell(_) => true
      case Check(_, _) => c.place.Top?
      case Acquire(_) => c.place.Ready? && s.lock.None?
      case Pull(_, _) => c.place.Locked?
      case Load(_) => c.place.Pulled?
      case Store(_) => c.place.Adding?
      case Release(_) => c.place.Added?
      case Take(_) => c.place.Draining? && c.queue != []
      case Rest(_) => c.place.Draining? && c.queue == []
      case Crash(_) => !c.place.Gone?
  }

  function Put(s: Shop, i: nat, c: Child): Shop
    requires i < |s.children|
  {
    s.(children := s.children[i := c])
  }

  /** A step that is not enabled does nothing. */
  function Next(s: Shop, step: Step): Shop {
    if !Enabled(s, step) then s
    else if step.Fork? then s.(children := s.children + [Child(Top, false, [])])
    else
      var i, c := step.i, s.children[step.i];
      match step
      case Tell(_) => Put(s, i, c.(quit := true))
      case Check(_, canStart) => Put(s, i, c.(place := if c.quit then Gone else if canStart then Ready else Top))
      case Acquire(_) => Put(s, i, c.(place := Locked)).(lock := Some(i))
      case Pull(_, rows) => Put(s, i, c.(place := Pulled, queue := c.queue + rows))
      case Load(_) => Put(s, i, c.(place := Adding(s.havePushNum)))
      case Store(_) => Put(s, i, c.(place := Added)).(havePushNum := c.place.read + |c.queue|)
      case Release(_) => Put(s, i, c.(place := Draining)).(lock := None)
      case Take(_) => Put(s, i, c.(queue := c.queue[1..])).(taken := s.taken + [c.queue[0]])
      case Rest(_) => Put(s, i, c.(place := Top))
      case Crash(_) => Put(s, i, Child(Gone, c.quit, [])).(lost := s.lost + Counted(c))
  }

  function Run(s: Shop, steps: seq<Step>): Shop
    decreases |steps|
  {
    if steps == [] then s else Run(Next(s, steps[0]), steps[1..])
  }

  /** The mails of a queue that the counter already contains. */
  function Counted(c: Child): nat {
    if c.place.Pulled? || c.place.Adding? then 0 else |c.queue|
  }

  function AllCounted(cs: seq<Child>): nat {
    if cs == [] then 0 else Counted(cs[0]) + AllCounted(cs[1..])
  }

  function AllQueued(cs: seq<Child>): nat {
    if cs == [] then 0 else |cs[0].queue| + AllQueued(cs[1..])
  }

  lemma {:induction false} CountedAfter(cs: seq<Child>, i: nat, c: Child)
    requires i < |cs|
    ensures AllCounted(cs[i := c]) == AllCounted(cs) - Counted(cs[i]) + Counted(c)
  {
    if i == 0 {
      assert cs[i := c][1..] == cs[1..];
    } else {
      assert cs[i := c][1..] == cs[1..][i - 1 := c];
      CountedAfter(cs[1..], i - 1, c);
    }
  }

  lemma {:induction false} CountedWithOneMore(cs: seq<Child>, c: Child)
    ensures AllCounted(cs + [c]) == AllCounted(cs) + Counted(c)
  {
    if cs == [] {
      assert cs + [c] == [c];
    } else {
      assert (cs + [c])[1..] == cs[1..] + [c];
      CountedWithOneMore(cs[1..], c);
    }
  }

  lemma {:induction false} NothingUncounted(cs: seq<Child>)
    requires forall c | c in cs :: !c.place.Pulled? && !c.place.Adding?
    ensures AllCounted(cs) == AllQueued(cs)
  {
    if cs != [] {
      assert cs[0] in cs;
      NothingUncounted(cs[1..]);
    }
  }

  predicate Critical(c: Child) {
    c.place.Locked? || c.place.Pulled? || c.place.Adding? || c.place.Added?
  }

  ghost predicate Ordered(s: Shop) {
    && (forall i | 0 <= i < |s.children| && Critical(s.children[i]) :: s.lock == Some(i))
    && (forall i | 0 <= i < |s.children| && s.children[i].place.Adding? :: s.children[i].place.read == s.havePushNum)
    && (forall i | 0 <= i < |s.children| :: var c := s.children[i];
          c.place.Top? || c.place.Ready? || c.place.Locked? || c.place.Gone? ==> c.queue == [])
  }

  ghost predicate Conserved(s: Shop) {
    s.havePushNum == |s.taken| + AllCounted(s.children) + s.lost
  }

  lemma LockingOrdered(s: Shop, step: Step)
    requires Ordered(s) && (step.Acquire? || step.Release? || step.Crash?)
    ensures Ordered(Next(s, step))
  {
  }

  lemma CountingOrdered(s: Shop, step: Step)
    requires Ordered(s) && (step.Pull? || step.Load? || step.Store?)
    ensures Ordered(Next(s, step))
  {
  }

  lemma SendingOrdered(s: Shop, step: Step)
    requires Ordered(s) && (step.Fork? || step.Tell? || step.Check? || step.Take? || step.Rest?)
    ensures Ordered(Next(s, step))
  {
  }

  lemma NextOrdered(s: Shop, step: Step)
    requires Ordered(s)
    ensures Ordered(Next(s, step))
  {
    if step.Acquire? || step.Release? || step.Crash? {
      LockingOrdered(s, step);
    } else if step.Pull? || step.Load? || step.Store? {
      CountingOrdered(s, step);
    } else {
      SendingOrdered(s, step);
    }
  }

  lemma NextConserved(s: Shop, step: Step)
    requires Ordered(s) && Conserved(s)
    ensures Conserved(Next(s, step))
  {
    if Enabled(s, step) {
      if step.Fork? {
        CountedWithOneMore(s.children, Child(Top, false, []));
      } else {
        CountedAfter(s.children, step.i, Next(s, step).children[step.i]);
      }
    }
  }

  lemma {:induction false} RunKeeps(s: Shop, steps: seq<Step>)
    requires Ordered(s) && Conserved(s)
    ensures Ordered(Run(s, steps)) && Conserved(Run(s, steps))
    decreases |steps|
  {
    if steps != [] {
      NextOrdered(s, steps[0]);
      NextConserved(s, steps[0]);
      RunKeeps(Next(s, steps[0]), steps[1..]);
    }
  }

  /** Over all interleavings of the children: whenever no child is between its pull and its
      addition, the counter is the number of mails taken off the queues plus the number
      still queued, exactly when no child has crashed with counted mails in its queue. */
  lemma Conservation(steps: seq<Step>)
    requires forall c | c in Run(Initial(), steps).children :: !c.place.Pulled? && !c.place.Adding?
    ensures var s := Run(Initial(), steps);
            s.havePushNum == |s.taken| + AllQueued(s.children) <==> s.lost == 0
  {
    RunKeeps(Initial(), steps);
    NothingUncounted(Run(Initial(), steps).children);
  }

  /** A queue is empty at every pull, and a child that exits has nothing left to send. */
  lemma EmptyAtPullAndExit(steps: seq<Step>, i: nat)
    requires i < |Run(Initial(), steps).children|
    ensures var c := Run(Initial(), steps).children[i];
            c.place.Locked? || c.place.Gone? ==> c.queue == []
  {
    RunKeeps(Initial(), steps);
  }

  // ----------------------------------------------------------- one child at work

  lemma RunMore(s: Shop, steps: seq<Step>, step: Step)
    ensures Run(s, steps + [step]) == Next(Run(s, steps), step)
    decreases |steps|
  {
    var all := steps + [step];
    if steps == [] {
      assert all == [step] && all[1..] == [];
    } else {
      assert all[1..] == steps[1..] + [step];
      RunMore(Next(s, steps[0]), steps[1..], step);
    }
  }

  lemma Reachable(steps: seq<Step>)
    ensures Ordered(Run(Initial(), steps))
  {
    RunKeeps(Initial(), steps);
  }

  /** What another process does leaves a child alone and does not depend on it. */
  lemma OthersStep(s: Shop, me: nat, c: Child, step: Step)
    requires me < |s.children| && (step.Fork? || step.i != me)
    ensures me < |Next(s, step).children| && Put(Next(s, step), me, c) == Next(Put(s, me, c), step)
  {
    var t := Put(s, me, c);
    if step.Fork? {
      var more := [Child(Top, false, [])];
      assert (s.children + more)[me := c] == t.children + more;
    } else if step.i < |s.children| {
      assert t.children[step.i] == s.children[step.i];
      var d := Next(s, step).children[step.i];
      assert s.children[step.i := d][me := c] == t.children[step.i := d];
    }
  }

  /** While a child holds the lock, no other process touches the counter or the lock. */
  lemma OthersWait(s: Shop, me: nat, step: Step)
    requires Ordered(s) && me < |s.children| && Critical(s.children[me]) && (step.Fork? || step.i != me)
    ensures Next(s, step).havePushNum == s.havePushNum && Next(s, step).lock == s.lock
  {
    if !step.Fork? && step.i < |s.children| {
      assert !Critical(s.children[step.i]);
    }
  }

  /** The steps that are statements of this child; SIGUSR1 comes from outside. */
  function Statements(me: nat, steps: seq<Step>): seq<Step> {
    if steps == [] then []
    else
      var last := steps[|steps| - 1];
      Statements(me, steps[..|steps| - 1]) + (if IsStatement(me, last) then [last] else [])
  }

  predicate IsStatement(me: nat, step: Step) {
    !step.Fork? && !step.Tell? && step.i == me
  }

  lemma StatementsMore(me: nat, steps: seq<Step>, step: Step)
    ensures Statements(me, steps + [step]) == Statements(me, steps) + (if IsStatement(me, step) then [step] else [])
  {
    assert (steps + [step])[..|steps|] == steps;
  }

  function Takes(me: nat, n: nat): seq<Step> {
    seq(n, _ => Take(me))
  }

  /** What a child does for its rows once it may start, under the lock and behind it. */
  function Fetching(me: nat, rows: seq<Mail>): seq<Step> {
    [Acquire(me), Pull(me, rows), Load(me), Store(me), Release(me)]
  }

  lemma Joined(own: seq<Step>, a: seq<Step>, b: seq<Step>, c: seq<Step>, d: seq<Step>)
    requires own == a + b + c + d
    ensures own == a + (b + c + d)
  {
  }

  /** One child, at work among others: each of its statements is a step of the shop, and any
      steps of the other processes may come in between. */
  class ChildProcess {
    const me: nat
    /** The shared memory and the other processes. */
    var outside: Shop
    var child_quit: bool
    var send_mail_queue: seq<Mail>
    var sent: seq<Mail>
    ghost var steps: seq<Step>
    /** Its own statements among them. */
    ghost var own: seq<Step>

    function Whole(place: Place): Shop
      requires me < |outside.children|
      reads this`outside, this`child_quit, this`send_mail_queue
    {
      Put(outside, me, Child(place, child_quit, send_mail_queue))
    }

    /** The steps so far have led here, and the child is at this place. */
    ghost predicate At(place: Place)
      reads this`outside, this`child_quit, this`send_mail_queue, this`steps, this`own
    {
      me < |outside.children| && Run(Initial(), steps) == Whole(place) && own == Statements(me, steps)
    }

    /** A child that has just been forked. */
    constructor (outside: Shop, ghost steps: seq<Step>)
      requires Run(Initial(), steps) == outside
      ensures me == |outside.children| && At(Top) && this.steps == steps + [Fork]
      ensures !child_quit && send_mail_queue == sent == []
    {
      var first := Child(Top, false, []);
      me := |outside.children|;
      this.outside := outside.(children := outside.children + [first]);
      child_quit, send_mail_queue, sent := false, [], [];
      this.steps := steps + [Fork];
      own := Statements(|outside.children|, steps + [Fork]);
      new;
      RunMore(Initial(), steps, Fork);
      assert (outside.children + [first])[me := first] == outside.children + [first];
    }

    /** A statement of this child has been carried out. */
    ghost method Did(step: Step, place: Place, before: Shop)
      requires Run(Initial(), steps) == before
      requires me < |outside.children| && Next(before, step) == Whole(place)
      requires own == Statements(me, steps)
      modifies this`steps, this`own
      ensures At(place) && steps == old(steps) + [step]
      ensures own == old(own) + if IsStatement(me, step) then [step] else []
    {
      RunMore(Initial(), steps, step);
      StatementsMore(me, steps, step);
      steps := steps + [step];
      own := Statements(me, steps);
    }

    /** One step of another process, or SIGUSR1. */
    method Other(ghost place: Place)
      requires At(place)
      modifies this`outside, this`child_quit, this`steps, this`own
      ensures At(place) && old(steps) <= steps && own == old(own)
      ensures Critical(Child(place, false, [])) ==>
                outside.havePushNum == old(outside.havePushNum) && outside.lock == old(outside.lock)
    {
      var step: Step := *;
      ghost var before := Whole(place);
      Reachable(steps);
      if step == Tell(me) {
        child_quit := true;
        Did(step, place, before);
      } else if step.Fork? || step.i != me {
        if Critical(Child(place, false, [])) {
          OthersWait(before, me, step);
        }
        OthersStep(outside, me, Child(place, child_quit, send_mail_queue), step);
        outside := Next(outside, step);
        Did(step, place, before);
      }
    }

    /** What may happen between two statements. */
    method Others(ghost place: Place)
      requires At(place)
      modifies this`outside, this`child_quit, this`steps, this`own
      ensures At(place) && old(steps) <= steps && own == old(own)
      ensures Critical(Child(place, false, [])) ==>
                outside.havePushNum == old(outside.havePushNum) && outside.lock == old(outside.lock)
    {
      var rounds: nat := *;
      while rounds > 0
        invariant At(place) && old(steps) <= steps && own == old(own)
        invariant Critical(Child(place, false, [])) ==>
                    outside.havePushNum == old(outside.havePushNum) && outside.lock == old(outside.lock)
      {
        Other(place);
        rounds := rounds - 1;
      }
    }

    /** Lines 403 to 407. */
    method CheckStart(canStart: bool) returns (exited: bool)
      requires At(Top)
      modifies this`steps, this`own
      ensures exited == child_quit && At(if exited then Gone else if canStart then Ready else Top)
      ensures old(steps) <= steps && own == old(own) + [Check(me, canStart)]
    {
      ghost var before := Whole(Top);
      exited := child_quit;
      Did(Check(me, canStart), if child_quit then Gone else if canStart then Ready else Top, before);
    }

    /** childLock.Lock; while another child has the lock this one waits. */
    method Lock() returns (locked: bool)
      requires At(Ready)
      modifies this
      ensures At(if locked then Locked else Ready) && old(steps) <= steps
      ensures if locked then own == old(own) + [Acquire(me)] else own == old(own) && outside.lock.Some?
      ensures send_mail_queue == old(send_mail_queue) && sent == old(sent)
    {
      Others(Ready);
      locked := outside.lock.None?;
      if locked {
        ghost var before := Whole(Ready);
        outside := outside.(lock := Some(me));
        Did(Acquire(me), Locked, before);
      }
    }

    /** pullSentInfoFromMysql, as far as the queue goes. */
    method PullSentInfo(rows: seq<Mail>)
      requires At(Locked)
      modifies this
      ensures At(Pulled) && old(steps) <= steps && own == old(own) + [Pull(me, rows)]
      ensures outside.havePushNum == old(outside.havePushNum)
      ensures send_mail_queue == old(send_mail_queue) + rows && sent == old(sent)
    {
      Others(Locked);
      ghost var before := Whole(Locked);
      var i := 0;
      while i < |rows|
        invariant 0 <= i <= |rows| && send_mail_queue == old(send_mail_queue) + rows[..i]
        modifies this`send_mail_queue
      {
        send_mail_queue := send_mail_queue + [rows[i]];
        i := i + 1;
      }
      assert rows[..i] == rows;
      Did(Pull(me, rows), Pulled, before);
    }

    /** havePushNum += send_mail_queue.size(): read, add, and write back. */
    method AddToCounter()
      requires At(Pulled)
      modifies this
      ensures At(Added) && old(steps) <= steps && own == old(own) + [Load(me), Store(me)]
      ensures outside.havePushNum == old(outside.havePushNum) + |send_mail_queue|
      ensures send_mail_queue == old(send_mail_queue) && sent == old(sent)
    {
      Others(Pulled);
      ghost var before := Whole(Pulled);
      var read := outside.havePushNum;
      Did(Load(me), Adding(read), before);
      Others(Adding(read));
      before := Whole(Adding(read));
      outside := outside.(havePushNum := read + |send_mail_queue|);
      Did(Store(me), Added, before);
      assert own == old(own) + [Load(me)] + [Store(me)];
    }

    /** Lines 410 and 411: while the lock is held, the counter grows by the rows and by
        nothing else. */
    method CountRows(rows: seq<Mail>)
      requires At(Locked) && send_mail_queue == []
      modifies this
      ensures At(Added) && old(steps) <= steps && own == old(own) + [Pull(me, rows), Load(me), Store(me)]
      ensures outside.havePushNum == old(outside.havePushNum) + |rows|
      ensures send_mail_queue == rows && sent == old(sent)
    {
      PullSentInfo(rows);
      AddToCounter();
      assert own == old(own) + [Pull(me, rows)] + [Load(me), Store(me)];
    }

    method Unlock()
      requires At(Added)
      modifies this
      ensures At(Draining) && old(steps) <= steps && own == old(own) + [Release(me)]
      ensures send_mail_queue == old(send_mail_queue) && sent == old(sent)
    {
      Others(Added);
      ghost var before := Whole(Added);
      outside := outside.(lock := None);
      Did(Release(me), Draining, before);
    }

    /** Lines 417 to 419. */
    method SendFront()
      requires At(Draining) && send_mail_queue != []
      modifies this
      ensures At(Draining) && old(steps) <= steps && own == old(own) + [Take(me)]
      ensures sent == old(sent) + [old(send_mail_queue)[0]] && send_mail_queue == old(send_mail_queue)[1..]
    {
      Others(Draining);
      ghost var before := Whole(Draining);
      var front := send_mail_queue[0];
      send_mail_queue := send_mail_queue[1..];
      sent, outside := sent + [front], outside.(taken := outside.taken + [front]);
      Did(Take(me), Draining, before);
    }

    /** Lines 414 to 436. A child without mails reports that it is done. */
    method SendAll() returns (reported: bool)
      requires At(Draining)
      modifies this
      ensures At(Top) && old(steps) <= steps && send_mail_queue == []
      ensures own == old(own) + Takes(me, |old(send_mail_queue)|) + [Rest(me)]
      ensures sent == old(sent) + old(send_mail_queue) && (reported <==> old(send_mail_queue) == [])
    {
      reported := send_mail_queue == [];
      ghost var n := 0;
      while send_mail_queue != []
        invariant At(Draining) && old(steps) <= steps
        invariant n + |send_mail_queue| == |old(send_mail_queue)| && own == old(own) + Takes(me, n)
        invariant sent + send_mail_queue == old(sent) + old(send_mail_queue)
        decreases |send_mail_queue|
      {
        SendFront();
        assert Takes(me, n) + [Take(me)] == Takes(me, n + 1);
        n := n + 1;
      }
      Others(Draining);
      Did(Rest(me), Top, Whole(Draining));
    }

    /** Lines 409 to 412. */
    method Fetch(rows: seq<Mail>) returns (locked: bool)
      requires At(Ready) && send_mail_queue == []
      modifies this
      ensures At(if locked then Draining else Ready) && old(steps) <= steps
      ensures if locked then own == old(own) + Fetching(me, rows) else own == old(own) && outside.lock.Some?
      ensures send_mail_queue == (if locked then rows else []) && sent == old(sent)
    {
      locked := Lock();
      if locked {
        CountRows(rows);
        Unlock();
        assert own == old(own) + [Acquire(me)] + [Pull(me, rows), Load(me), Store(me)] + [Release(me)];
      }
    }

    /** One round of OnChildRun among the other processes, unless the child waits for the lock,
        which another one has: the statements of the child are these and no others, the rows
        are sent in order, and an exit leaves none behind. It reports that it is done when
        there were no rows. */
    method Round(canStart: bool, rows: seq<Mail>) returns (exited: bool, waiting: bool, reported: bool)
      requires At(Top) && send_mail_queue == []
      modifies this
      ensures At(if exited then Gone else if waiting then Ready else Top) && old(steps) <= steps
      ensures waiting ==> canStart && !exited && outside.lock.Some?
      ensures var runs := canStart && !exited && !waiting;
              && own == old(own) + [Check(me, canStart)]
                        + (if runs then Fetching(me, rows) + Takes(me, |rows|) + [Rest(me)] else [])
              && sent == old(sent) + (if runs then rows else [])
              && (reported <==> runs && rows == [])
      ensures send_mail_queue == []
    {
      Others(Top);
      waiting, reported := false, false;
      exited := CheckStart(canStart);
      if !exited && canStart {
        var locked := Fetch(rows);
        waiting := !locked;
        if locked {
          reported := SendAll();
          Joined(own, old(own) + [Check(me, canStart)], Fetching(me, rows), Takes(me, |rows|), [Rest(me)]);
        }
      }
    }
  }
}
