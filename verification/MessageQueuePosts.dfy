/** What a whole PostMessage does, whatever the other threads do between its steps. */
module MessageQueuePosts {
  import opened Basics
  import opened MessageQueue
  import opened MessageQueueSafety

  // ---------- a refused post ----------

  predicate Refuses(queue: seq<Item>, x: Option<Item>) {
    x.None? || |queue| >= 1000
  }

  /** The thread is at a step of a post that is refused, alone or inside a send. */
  predicate InRefusedPost(queue: seq<Item>, op: Op) {
    match op
    case PostLock(_, _) => true
    case PostHolding(x, _) => Refuses(queue, x)
    case PostUnlock(code, _) => !code.Posted?
    case _ => false
  }

  predicate IsAt(s: State, t: Tid, op: Op) {
    Th(s, t) == Thread(op, Outside)
  }

  /** What the caller of a refused send is told. */
  function Failure(after: After): seq<SendReturn> {
    if after.Alone? then [] else [SendReturn(after.item, after.base, after.at, false, FlagAbsent)]
  }

  /**
   * Each of the three steps of a refused post leaves the queue, every event, every other thread and the history
   * of messages, answers and resets alone; the second picks the error code, the third gives the lock back.
   */
  lemma {:induction false} RefusedPostChangesNothing(s: State, t: Tid, choice: Choice, s': State)
    requires Inv(s) && InRefusedPost(s.queue, Th(s, t).op) && Apply(s, Step(t, choice)) == Some(s')
    ensures s' == s.(lock := s'.lock, threads := s.threads[t := Th(s', t)], sends := s'.sends)
    ensures match Th(s, t).op
            case PostLock(x, after) =>
              s.lock == None && s'.lock == Some(t) && IsAt(s', t, PostHolding(x, after)) && s'.sends == s.sends
            case PostHolding(x, after) =>
              && s.lock == s'.lock == Some(t) && s'.sends == s.sends
              && IsAt(s', t, PostUnlock(if x.None? then InvalidParameter else Busy, after))
            case PostUnlock(code, after) =>
              && s.lock == Some(t) && s'.lock == None && IsAt(s', t, Idle)
              && s'.sends == s.sends + Failure(after)
  {
    assert ThreadOk(s, t);
    var eff := OpStep(s.lock, s.queue, |s.accepted|, t, Th(s, t).op, choice).value;
    assert eff.accepts == [] && eff.removes == [] && eff.queue == s.queue;
    assert s.accepted + eff.accepts == s.accepted && s.removed + eff.removes == s.removed;
  }

  /** The schedule without the steps of thread t. */
  function OthersOf(steps: seq<Step>, t: Tid): seq<Step> {
    if steps == [] then []
    else if steps[0].tid == t then OthersOf(steps[1..], t)
    else [steps[0]] + OthersOf(steps[1..], t)
  }

  /** The state in which thread t is not in a method of the queue. */
  function Without(s: State, t: Tid): State {
    s.(lock := if s.lock == Some(t) then None else s.lock, threads := s.threads[t := Thread(Idle, Outside)])
  }

  /** Along the schedule thread t makes only steps of a refused post. */
  predicate PostRefusedAlong(s: State, steps: seq<Step>, t: Tid)
    decreases |steps|
  {
    steps == []
    || (&& Apply(s, steps[0]).Some?
        && (steps[0].tid == t ==> InRefusedPost(s.queue, Th(s, t).op))
        && PostRefusedAlong(Apply(s, steps[0]).value, steps[1..], t))
  }

  /** The state e is s without t, up to the record of completed sends. */
  predicate Twin(e: State, s: State, t: Tid) {
    e.(sends := s.sends) == Without(s, t)
  }

  /** Only its holder can tell a taken list lock from a free one, except that the free one can be taken. */
  lemma {:induction false} LockUnseen(lock: Option<Tid>, queue: seq<Item>, posted: nat, t: Tid, u: Tid, op: Op,
                                      choice: Choice, eff: OpEffect)
    requires t != u && (HoldsLock(op) <==> lock == Some(u))
    requires OpStep(lock, queue, posted, u, op, choice) == Some(eff)
    ensures lock == Some(t) ==>
              eff.lock == lock && OpStep(None, queue, posted, u, op, choice) == Some(eff.(lock := None))
    ensures lock != Some(t) ==> eff.lock != Some(t)
  {}

  lemma {:induction false} OtherOpUnaware(s: State, e: State, t: Tid, u: Tid, choice: Choice, s': State)
    requires u != t && Twin(e, s, t) && Th(s, u).phase.Outside? && (HoldsLock(Th(s, u).op) <==> s.lock == Some(u))
    requires Apply(s, Step(u, choice)) == Some(s')
    ensures Apply(e, Step(u, choice)).Some? && Twin(Apply(e, Step(u, choice)).value, s', t)
  {
    var eff := OpStep(s.lock, s.queue, |s.accepted|, u, Th(s, u).op, choice).value;
    LockUnseen(s.lock, s.queue, |s.accepted|, t, u, Th(s, u).op, choice, eff);
    assert Th(e, u) == Th(s, u);
    assert s.threads[t := Thread(Idle, Outside)][u := eff.thread] ==
           s.threads[u := eff.thread][t := Thread(Idle, Outside)];
  }

  lemma {:induction false} WakesTwin(threads: map<Tid, Thread>, waiters: set<Tid>, t: Tid, th: Thread)
    requires !th.phase.Asleep?
    ensures WakeAll(threads[t := th], waiters) == WakeAll(threads, waiters)[t := th]
  {}

  lemma {:induction false} CallTwin(s: State, e: State, t: Tid, u: Tid, d: EventId, eff: CallEffect)
    requires u != t && Twin(e, s, t) && !Th(s, t).phase.Asleep?
    ensures Twin(CommitCall(e, u, d, eff), CommitCall(s, u, d, eff), t)
  {
    var idle := Thread(Idle, Outside);
    WakesTwin(s.threads, Ev(s, d).waiters, t, idle);
    var woken: map<Tid, Thread> := if eff.wakes then WakeAll(s.threads, Ev(s, d).waiters) else s.threads;
    assert woken[t := idle][u := eff.thread] == woken[u := eff.thread][t := idle];
  }

  lemma {:induction false} OtherCallUnaware(s: State, e: State, t: Tid, u: Tid, choice: Choice, s': State)
    requires u != t && Twin(e, s, t) && !Th(s, u).phase.Outside? && !Th(s, t).phase.Asleep?
    requires Apply(s, Step(u, choice)) == Some(s')
    ensures Apply(e, Step(u, choice)).Some? && Twin(Apply(e, Step(u, choice)).value, s', t)
  {
    assert Th(e, u) == Th(s, u);
    var d := EventOf(Th(s, u).op);
    var eff := CallStep(Ev(s, d), |s.answers|, u, Th(s, u).op, Th(s, u).phase, choice).value;
    CallTwin(s, e, t, u, d, eff);
  }

  lemma {:induction false} OtherKeepsOutside(s: State, t: Tid, step: Step, s': State)
    requires step.tid != t && Th(s, t).phase.Outside? && Apply(s, step) == Some(s')
    ensures Th(s', t) == Th(s, t)
  {}

  lemma {:induction false} OwnStepUnseen(s: State, e: State, t: Tid, choice: Choice, s': State)
    requires Inv(s) && InRefusedPost(s.queue, Th(s, t).op) && Twin(e, s, t)
    requires Apply(s, Step(t, choice)) == Some(s')
    ensures Twin(e, s', t) && Th(s', t).phase.Outside?
  {
    RefusedPostChangesNothing(s, t, choice, s');
    var idle := Thread(Idle, Outside);
    assert s.threads[t := Th(s', t)][t := idle] == s.threads[t := idle];
  }

  lemma {:induction false} RefusedAlongUnseen(s: State, e: State, steps: seq<Step>, s': State, t: Tid)
    requires Inv(s) && Th(s, t).phase.Outside? && Twin(e, s, t)
    requires PostRefusedAlong(s, steps, t) && Run(s, steps) == Some(s')
    ensures Run(e, OthersOf(steps, t)).Some? && Twin(Run(e, OthersOf(steps, t)).value, s', t)
    decreases |steps|
  {
    if steps != [] {
      var u := steps[0].tid;
      var s1 := Apply(s, steps[0]).value;
      StepKeepsInv(s, steps[0], s1);
      assert ThreadOk(s, u);
      if u == t {
        OwnStepUnseen(s, e, t, steps[0].choice, s1);
        RefusedAlongUnseen(s1, e, steps[1..], s', t);
      } else {
        OtherKeepsOutside(s, t, steps[0], s1);
        if Th(s, u).phase.Outside? {
          OtherOpUnaware(s, e, t, u, steps[0].choice, s1);
        } else {
          OtherCallUnaware(s, e, t, u, steps[0].choice, s1);
        }
        var e1 := Apply(e, steps[0]).value;
        RefusedAlongUnseen(s1, e1, steps[1..], s', t);
        assert OthersOf(steps, t)[1..] == OthersOf(steps[1..], t);
      }
    }
  }

  /**
   * Nobody can tell that a refused post took place: from any reachable state the other threads can make the same
   * steps without it, and everything but the poster's own result ends up the same.
   */
  lemma {:induction false} RefusedPostIsUnseen(begun: seq<Step>, s: State, steps: seq<Step>, s': State, t: Tid)
    requires Run(INIT, begun) == Some(s) && Th(s, t).phase.Outside?
    requires PostRefusedAlong(s, steps, t) && Run(s, steps) == Some(s')
    ensures Run(Without(s, t), OthersOf(steps, t)).Some?
    ensures Run(Without(s, t), OthersOf(steps, t)).value.(sends := s'.sends) == Without(s', t)
  {
    InvInit();
    RunKeepsInv(INIT, begun, s);
    RefusedAlongUnseen(s, Without(s, t), steps, s', t);
  }

  // ---------- an accepted post ----------

  /** Thread t holds the list lock from s on to the end of the schedule. */
  predicate HoldsThroughout(s: State, steps: seq<Step>, t: Tid)
    decreases |steps|
  {
    && HoldsLock(Th(s, t).op)
    && (steps != [] ==> Apply(s, steps[0]).Some? && HoldsThroughout(Apply(s, steps[0]).value, steps[1..], t))
  }

  /** From state a on, thread t has not posted m yet, or it has and nothing else has happened to the queue. */
  predicate Posting(a: State, s: State, t: Tid, m: Item) {
    && s.removed == a.removed
    && match Th(s, t).op
       case PostHolding(x, _) => x == Some(m) && s.queue == a.queue && s.accepted == a.accepted
       case PostSetting(_, _) => s.queue == a.queue + [m] && s.accepted == a.accepted + [m]
       case PostUnlock(code, _) => code.Posted? && s.queue == a.queue + [m] && s.accepted == a.accepted + [m]
       case _ => false
  }

  lemma {:induction false} WithoutLockNoChange(lock: Option<Tid>, queue: seq<Item>, posted: nat, u: Tid, op: Op,
                                               choice: Choice, eff: OpEffect)
    requires !HoldsLock(op) && OpStep(lock, queue, posted, u, op, choice) == Some(eff)
    ensures eff.queue == queue && eff.accepts == [] && eff.removes == []
  {}

  lemma {:induction false} OtherStaysInPlace(s: State, t: Tid, u: Tid, eff: OpEffect)
    requires u != t && eff.queue == s.queue && eff.accepts == [] && eff.removes == []
    ensures QueueHistory(CommitOp(s, u, eff)) == QueueHistory(s) && Th(CommitOp(s, u, eff), t) == Th(s, t)
  {
    assert s.accepted + eff.accepts == s.accepted && s.removed + eff.removes == s.removed;
  }

  lemma {:induction false} OtherCallInPlace(s: State, t: Tid, u: Tid, e: EventId, eff: CallEffect)
    requires u != t
    ensures QueueHistory(CommitCall(s, u, e, eff)) == QueueHistory(s)
    ensures Th(CommitCall(s, u, e, eff), t).op == Th(s, t).op
  {}

  /** The queue with its history. */
  function QueueHistory(s: State): (seq<Item>, seq<Item>, seq<Removal>) {
    (s.queue, s.accepted, s.removed)
  }

  /** While t holds the list lock nobody else touches the queue, and only an event call of t's can be shared. */
  lemma {:induction false} HolderIsAlone(s: State, t: Tid, step: Step, s': State)
    requires Inv(s) && HoldsLock(Th(s, t).op) && step.tid != t && Apply(s, step) == Some(s')
    ensures QueueHistory(s') == QueueHistory(s) && Th(s', t).op == Th(s, t).op
  {
    var u := step.tid;
    var th := Th(s, u);
    if th.phase.Outside? {
      assert PlaceOk(s, t) && PlaceOk(s, u) by { assert ThreadOk(s, t) && ThreadOk(s, u); }
      var eff := OpStep(s.lock, s.queue, |s.accepted|, u, th.op, step.choice).value;
      WithoutLockNoChange(s.lock, s.queue, |s.accepted|, u, th.op, step.choice, eff);
      OtherStaysInPlace(s, t, u, eff);
    } else {
      var e := EventOf(th.op);
      OtherCallInPlace(s, t, u, e, CallStep(Ev(s, e), |s.answers|, u, th.op, th.phase, step.choice).value);
    }
  }

  lemma {:induction false} PosterOp(a: State, s: State, t: Tid, m: Item, choice: Choice, eff: OpEffect)
    requires Posting(a, s, t, m) && |a.queue| < 1000
    requires OpStep(s.lock, s.queue, |s.accepted|, t, Th(s, t).op, choice) == Some(eff) && HoldsLock(eff.thread.op)
    ensures Posting(a, CommitOp(s, t, eff), t, m)
  {
    assert eff.removes == [] && s.removed + eff.removes == s.removed;
  }

  lemma {:induction false} PosterStep(a: State, s: State, t: Tid, m: Item, choice: Choice, s': State)
    requires Inv(s) && Posting(a, s, t, m) && |a.queue| < 1000
    requires Apply(s, Step(t, choice)) == Some(s') && HoldsLock(Th(s', t).op)
    ensures Posting(a, s', t, m)
  {
    assert ThreadOk(s, t);
    if Th(s, t).phase.Outside? {
      PosterOp(a, s, t, m, choice, OpStep(s.lock, s.queue, |s.accepted|, t, Th(s, t).op, choice).value);
    }
  }

  lemma {:induction false} KeepsPosting(a: State, s: State, steps: seq<Step>, s': State, t: Tid, m: Item)
    requires Inv(s) && Posting(a, s, t, m) && |a.queue| < 1000
    requires HoldsThroughout(s, steps, t) && Run(s, steps) == Some(s')
    ensures Inv(s') && Posting(a, s', t, m)
    decreases |steps|
  {
    if steps != [] {
      var s1 := Apply(s, steps[0]).value;
      StepKeepsInv(s, steps[0], s1);
      if steps[0].tid == t {
        PosterStep(a, s, t, m, steps[0].choice, s1);
      } else {
        HolderIsAlone(s, t, steps[0], s1);
      }
      KeepsPosting(a, s1, steps[1..], s', t, m);
    }
  }

  predicate SleepsOnQueue(s: State, u: Tid) {
    Th(s, u).phase.Asleep? && EventOf(Th(s, u).op) == QueueEvent
  }

  /** A poster about to give the list lock back has left a set flag and an empty wait set. */
  lemma {:induction false} PostedFlag(s: State, t: Tid)
    requires Inv(s) && s.queue != [] && Th(s, t).op.PostUnlock?
    ensures Ev(s, QueueEvent).hasEvent && Ev(s, QueueEvent).waiters == {}
    ensures forall u: Tid :: !SleepsOnQueue(s, u)
  {
    assert ThreadOk(s, t) && EventOk(s, QueueEvent);
    if Ev(s, QueueEvent).mutex.Some? {
      assert ThreadOk(s, Ev(s, QueueEvent).mutex.value);
    }
    forall u: Tid ensures !SleepsOnQueue(s, u) {
      assert ThreadOk(s, u);
    }
  }

  /**
   * Whatever the others do between its steps, a post that finds room has, when it is about to give the list lock
   * back, appended its message and nothing else has happened to the queue; the flag is set and nobody sleeps.
   */
  lemma {:induction false} AcceptedPostWakesEverybody(begun: seq<Step>, s: State, steps: seq<Step>, s': State, t: Tid,
                                                      m: Item, after: After)
    requires Run(INIT, begun) == Some(s) && IsAt(s, t, PostHolding(Some(m), after))
    requires |s.queue| < 1000
    requires HoldsThroughout(s, steps, t) && Run(s, steps) == Some(s') && Th(s', t).op.PostUnlock?
    ensures s'.queue == s.queue + [m] && s'.accepted == s.accepted + [m] && s'.removed == s.removed
    ensures Th(s', t).op.code == Posted
    ensures Ev(s', QueueEvent).hasEvent && Ev(s', QueueEvent).waiters == {}
    ensures forall u: Tid :: !SleepsOnQueue(s', u)
  {
    InvInit();
    RunKeepsInv(INIT, begun, s);
    KeepsPosting(s, s, steps, s', t, m);
    PostedFlag(s', t);
  }
}
