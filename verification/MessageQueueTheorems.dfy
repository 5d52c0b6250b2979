/** What the invariant says about every schedule of posters, senders, getters and handlers. */
module MessageQueueTheorems {
  import opened Basics
  import opened MessageQueue
  import opened MessageQueueSafety

  // ---------- no lost wake-up ----------

  /** Holds the list lock after appending a message and has not yet woken the sleepers. */
  predicate OnTheWayToWake(s: State, p: Tid) {
    var th := Th(s, p);
    s.lock == Some(p) && th.op.PostSetting? && (AboutToSet(s, p) || th.phase.Broadcasting?)
  }

  predicate SleepsForMessage(s: State, t: Tid) {
    Th(s, t).op.GetWaiting? && Th(s, t).phase.Asleep?
  }

  /** In every reachable state a getter sleeps beside a waiting message only while a poster is about to wake it. */
  lemma {:induction false} NoLostWakeup(steps: seq<Step>, s: State, t: Tid)
    requires Run(INIT, steps) == Some(s)
    requires s.queue != [] && SleepsForMessage(s, t)
    ensures s.lock.Some? && OnTheWayToWake(s, s.lock.value)
  {
    InvInit();
    RunKeepsInv(INIT, steps, s);
    assert ThreadOk(s, t) && EventOk(s, QueueEvent);
    if Ev(s, QueueEvent).hasEvent {
      assert ThreadOk(s, Ev(s, QueueEvent).mutex.value);
    }
  }

  /** With the list lock free, a waiting message means a set flag and an empty wait set. */
  lemma {:induction false} IdleQueueIsAwake(steps: seq<Step>, s: State)
    requires Run(INIT, steps) == Some(s)
    requires s.queue != [] && s.lock == None
    ensures Ev(s, QueueEvent).hasEvent && Ev(s, QueueEvent).waiters == {}
  {
    InvInit();
    RunKeepsInv(INIT, steps, s);
    assert EventOk(s, QueueEvent);
    if Ev(s, QueueEvent).mutex.Some? {
      assert ThreadOk(s, Ev(s, QueueEvent).mutex.value);
    }
  }

  /** For every event: a set flag leaves nobody in the wait set, except while its setter is about to broadcast. */
  lemma {:induction false} SetFlagWakesAll(steps: seq<Step>, s: State, e: EventId, t: Tid)
    requires Run(INIT, steps) == Some(s)
    requires Ev(s, e).hasEvent && !Th(s, t).phase.Outside? && EventOf(Th(s, t).op) == e && Th(s, t).phase.Asleep?
    ensures Ev(s, e).mutex.Some? && Th(s, Ev(s, e).mutex.value).phase.Broadcasting?
  {
    InvInit();
    RunKeepsInv(INIT, steps, s);
    assert ThreadOk(s, t) && EventOk(s, e);
  }

  // ---------- no deadlock ----------

  /** In the middle of a method and not asleep. */
  predicate Busy(th: Thread) {
    !th.op.Idle? && !th.op.Handling? && !th.phase.Asleep?
  }

  predicate CanGo(s: State, t: Tid) {
    Apply(s, Step(t, Go)).Some?
  }

  lemma {:induction false} MutexHolderCanGo(s: State, e: EventId)
    requires Inv(s) && Ev(s, e).mutex.Some?
    ensures Busy(Th(s, Ev(s, e).mutex.value)) && CanGo(s, Ev(s, e).mutex.value)
  {
    var g := Ev(s, e).mutex.value;
    assert EventOk(s, e) && ThreadOk(s, g);
    assert HoldsMutex(Th(s, g).phase);
  }

  lemma {:induction false} BusyOrBlocked(s: State, t: Tid)
    requires Inv(s) && Busy(Th(s, t)) && !CanGo(s, t)
    ensures (Th(s, t).phase.Outside? && s.lock.Some? && !HoldsLock(Th(s, t).op))
         || (!Th(s, t).phase.Outside? && Ev(s, EventOf(Th(s, t).op)).mutex.Some?)
  {
    assert ThreadOk(s, t);
  }

  /** Whenever some thread is in the middle of a method and not asleep, some such thread can move. */
  lemma {:induction false} NoDeadlock(steps: seq<Step>, s: State, t: Tid) returns (u: Tid)
    requires Run(INIT, steps) == Some(s) && Busy(Th(s, t))
    ensures Busy(Th(s, u)) && CanGo(s, u)
  {
    InvInit();
    RunKeepsInv(INIT, steps, s);
    u := t;
    if !CanGo(s, u) {
      BusyOrBlocked(s, u);
      if Th(s, u).phase.Outside? {
        u := s.lock.value;
        assert ThreadOk(s, u);
        if !CanGo(s, u) {
          BusyOrBlocked(s, u);
          var e := EventOf(Th(s, u).op);
          MutexHolderCanGo(s, e);
          u := Ev(s, e).mutex.value;
        }
      } else {
        var e := EventOf(Th(s, u).op);
        MutexHolderCanGo(s, e);
        u := Ev(s, e).mutex.value;
      }
    }
  }

  // ---------- conservation ----------

  /**
   * What left the queue, in order, followed by what is in it, is exactly what was accepted; never more than 1000
   * wait.
   */
  lemma {:induction false} AcceptedIsRemovedThenQueued(steps: seq<Step>, s: State)
    requires Run(INIT, steps) == Some(s)
    ensures s.accepted == Items(s.removed) + s.queue
    ensures |s.queue| <= 1000
  {
    InvInit();
    RunKeepsInv(INIT, steps, s);
  }

  predicate Clears(op: Op) {
    op.ClearLock? || op.ClearHolding? || op.ClearUnlock?
  }

  ghost predicate NothingCleared(s: State) {
    && (forall t: Tid :: !Clears(Th(s, t).op))
    && (forall k :: 0 <= k < |s.removed| ==> s.removed[k].Taken?)
  }

  lemma {:induction false} OpClearsNothing(s: State, t: Tid, choice: Choice, eff: OpEffect)
    requires OpStep(s.lock, s.queue, |s.accepted|, t, Th(s, t).op, choice) == Some(eff)
    requires !Clears(Th(s, t).op) && !choice.BeginClear?
    ensures !Clears(eff.thread.op) && forall k :: 0 <= k < |eff.removes| ==> eff.removes[k].Taken?
  {}

  lemma {:induction false} StepClearsNothing(s: State, step: Step, s': State)
    requires NothingCleared(s) && Apply(s, step) == Some(s') && !step.choice.BeginClear?
    ensures NothingCleared(s')
  {
    var th := Th(s, step.tid);
    assert !Clears(th.op);
    if th.phase.Outside? {
      var eff := OpStep(s.lock, s.queue, |s.accepted|, step.tid, th.op, step.choice).value;
      OpClearsNothing(s, step.tid, step.choice, eff);
    } else {
      var eff := CallStep(Ev(s, EventOf(th.op)), |s.answers|, step.tid, th.op, th.phase, step.choice).value;
      assert !Clears(eff.thread.op);
    }
    forall u: Tid ensures !Clears(Th(s', u).op) {
      assert !Clears(Th(s, u).op);
    }
  }

  lemma {:induction false} RunClearsNothing(s: State, steps: seq<Step>, s': State)
    requires NothingCleared(s) && Run(s, steps) == Some(s')
    requires forall k :: 0 <= k < |steps| ==> !steps[k].choice.BeginClear?
    ensures NothingCleared(s')
    decreases |steps|
  {
    if steps != [] {
      StepClearsNothing(s, steps[0], Apply(s, steps[0]).value);
      RunClearsNothing(Apply(s, steps[0]).value, steps[1..], s');
    }
  }

  /** Without RemoveAllMessage every accepted message is still queued or was taken by one thread, first in first out. */
  lemma {:induction false} AcceptedIsTakenThenQueued(steps: seq<Step>, s: State)
    requires Run(INIT, steps) == Some(s)
    requires forall k :: 0 <= k < |steps| ==> !steps[k].choice.BeginClear?
    ensures |s.removed| + |s.queue| == |s.accepted|
    ensures forall k :: 0 <= k < |s.removed| ==> s.removed[k].Taken? && s.removed[k].item == s.accepted[k]
    ensures forall k :: 0 <= k < |s.queue| ==> s.queue[k] == s.accepted[|s.removed| + k]
  {
    AcceptedIsRemovedThenQueued(steps, s);
    RunClearsNothing(INIT, steps, s);
    ItemsAt(s.removed);
  }

  lemma {:induction false} ItemsAt(removed: seq<Removal>)
    ensures |Items(removed)| == |removed|
    ensures forall k :: 0 <= k < |removed| ==> Items(removed)[k] == removed[k].item
  {
    if removed != [] {
      ItemsAt(removed[1..]);
    }
  }

  // ---------- the rendezvous of SendMessage with a handler ----------

  /** A thread that carries a message took it out of the queue, and every answer was given by such a thread. */
  ghost predicate CarriersOk(s: State) {
    && (forall t: Tid :: CarrierOk(s.removed, t, Th(s, t)))
    && (forall k :: 0 <= k < |s.answers| ==> GivenByTaker(s.removed, s.answers[k]))
  }

  ghost predicate CarrierOk(removed: seq<Removal>, t: Tid, th: Thread) {
    && (th.op.GetUnlock? && th.op.got.Some? ==> Taken(th.op.got.value, t) in removed)
    && (th.op.Handling? || th.op.Answering? ==> Taken(th.op.m, t) in removed)
  }

  predicate GivenByTaker(removed: seq<Removal>, r: Reply) {
    Taken(r.item, r.handler) in removed
  }

  lemma {:induction false} OpKeepsCarrier(s: State, t: Tid, choice: Choice, eff: OpEffect)
    requires Th(s, t).phase.Outside? && OpStep(s.lock, s.queue, |s.accepted|, t, Th(s, t).op, choice) == Some(eff)
    requires CarrierOk(s.removed, t, Th(s, t))
    ensures CarrierOk(s.removed + eff.removes, t, eff.thread)
  {}

  lemma {:induction false} CallKeepsCarrier(s: State, t: Tid, choice: Choice, eff: CallEffect)
    requires CallStep(Ev(s, EventOf(Th(s, t).op)), |s.answers|, t, Th(s, t).op, Th(s, t).phase, choice) == Some(eff)
    requires Fits(Th(s, t)) && CarrierOk(s.removed, t, Th(s, t))
    ensures CarrierOk(s.removed, t, eff.thread)
    ensures forall k :: 0 <= k < |eff.answers| ==> GivenByTaker(s.removed, eff.answers[k])
  {}

  lemma {:induction false} StepKeepsCarriers(s: State, step: Step, s': State)
    requires Inv(s) && CarriersOk(s) && Apply(s, step) == Some(s')
    ensures CarriersOk(s')
  {
    var t := step.tid;
    var th := Th(s, t);
    assert ThreadOk(s, t) && CarrierOk(s.removed, t, th);
    if th.phase.Outside? {
      var eff := OpStep(s.lock, s.queue, |s.accepted|, t, th.op, step.choice).value;
      OpKeepsCarrier(s, t, step.choice, eff);
      forall u: Tid ensures CarrierOk(s'.removed, u, Th(s', u)) {
        assert CarrierOk(s.removed, u, Th(s, u));
      }
      forall k | 0 <= k < |s'.answers| ensures GivenByTaker(s'.removed, s'.answers[k]) {
        assert GivenByTaker(s.removed, s.answers[k]);
      }
    } else {
      var e := EventOf(th.op);
      var eff := CallStep(Ev(s, e), |s.answers|, t, th.op, th.phase, step.choice).value;
      CallKeepsCarrier(s, t, step.choice, eff);
      assert EventOk(s, e);
      forall u: Tid ensures CarrierOk(s'.removed, u, Th(s', u)) {
        assert CarrierOk(s.removed, u, Th(s, u));
        if u != t { OthersAfter(s, t, e, eff, u); }
      }
      forall k | 0 <= k < |s'.answers| ensures GivenByTaker(s'.removed, s'.answers[k]) {
        assert k < |s.answers| ==> GivenByTaker(s.removed, s.answers[k]);
        assert k >= |s.answers| ==> s'.answers[k] == eff.answers[k - |s.answers|];
      }
    }
  }

  /** A sender knows which accepted message is its own. */
  ghost predicate SendersPosted(s: State) {
    && (forall t: Tid :: PlaceKnown(s.accepted, Th(s, t).op))
    && (forall k :: 0 <= k < |s.sends| ==> ReturnPosted(s.accepted, s.sends[k]))
  }

  predicate PlaceKnown(accepted: seq<Item>, op: Op) {
    match op
    case PostLock(x, after) => after.ThenWait? ==> x == Some(after.item)
    case PostHolding(x, after) => after.ThenWait? ==> x == Some(after.item)
    case PostSetting(_, after) => after.ThenWait? ==> StandsAt(accepted, after.item, after.at)
    case PostUnlock(code, after) => after.ThenWait? && code.Posted? ==> StandsAt(accepted, after.item, after.at)
    case SendWaiting(m, _, at) => StandsAt(accepted, m, at)
    case _ => true
  }

  predicate StandsAt(items: seq<Item>, m: Item, at: nat) {
    at < |items| && items[at] == m
  }

  predicate ReturnPosted(accepted: seq<Item>, r: SendReturn) {
    r.ok ==> StandsAt(accepted, r.item, r.at)
  }

  lemma {:induction false} OpKeepsPlaces(s: State, t: Tid, choice: Choice, eff: OpEffect)
    requires Th(s, t).phase.Outside? && OpStep(s.lock, s.queue, |s.accepted|, t, Th(s, t).op, choice) == Some(eff)
    requires PlaceKnown(s.accepted, Th(s, t).op)
    ensures PlaceKnown(s.accepted + eff.accepts, eff.thread.op)
    ensures forall k :: 0 <= k < |eff.completes| ==> !eff.completes[k].ok
  {}

  lemma {:induction false} CallKeepsPlaces(s: State, t: Tid, choice: Choice, eff: CallEffect)
    requires CallStep(Ev(s, EventOf(Th(s, t).op)), |s.answers|, t, Th(s, t).op, Th(s, t).phase, choice) == Some(eff)
    requires PlaceKnown(s.accepted, Th(s, t).op)
    ensures PlaceKnown(s.accepted, eff.thread.op)
    ensures forall k :: 0 <= k < |eff.completes| ==> ReturnPosted(s.accepted, eff.completes[k])
  {}

  lemma {:induction false} StepKeepsSenders(s: State, step: Step, s': State)
    requires Inv(s) && SendersPosted(s) && Apply(s, step) == Some(s')
    ensures SendersPosted(s')
  {
    var t := step.tid;
    var th := Th(s, t);
    assert ThreadOk(s, t) && PlaceKnown(s.accepted, th.op);
    if th.phase.Outside? {
      OpKeepsPlaces(s, t, step.choice, OpStep(s.lock, s.queue, |s.accepted|, t, th.op, step.choice).value);
    } else {
      CallKeepsPlaces(s, t, step.choice,
                      CallStep(Ev(s, EventOf(th.op)), |s.answers|, t, th.op, th.phase, step.choice).value);
    }
    forall u: Tid ensures PlaceKnown(s'.accepted, Th(s', u).op) {
      assert PlaceKnown(s.accepted, Th(s, u).op);
    }
    forall k | 0 <= k < |s'.sends| ensures ReturnPosted(s'.accepted, s'.sends[k]) {
      assert k < |s.sends| ==> ReturnPosted(s.accepted, s.sends[k]);
    }
  }

  lemma {:induction false} RunKeepsCarriers(s: State, steps: seq<Step>, s': State)
    requires Inv(s) && CarriersOk(s) && SendersPosted(s) && Run(s, steps) == Some(s')
    ensures CarriersOk(s') && SendersPosted(s')
    decreases |steps|
  {
    if steps != [] {
      var s1 := Apply(s, steps[0]).value;
      StepKeepsInv(s, steps[0], s1);
      StepKeepsCarriers(s, steps[0], s1);
      StepKeepsSenders(s, steps[0], s1);
      RunKeepsCarriers(s1, steps[1..], s');
    }
  }

  ghost predicate OnlyAt(items: seq<Item>, m: Item, at: nat) {
    forall k: nat :: StandsAt(items, m, k) ==> k == at
  }

  lemma {:induction false} TakenFromAccepted(accepted: seq<Item>, removed: seq<Removal>, queue: seq<Item>, r: Reply)
    returns (i: nat)
    requires accepted == Items(removed) + queue && GivenByTaker(removed, r)
    ensures i < |removed| && removed[i] == Taken(r.item, r.handler)
    ensures StandsAt(accepted, r.item, i)
  {
    i :| i < |removed| && removed[i] == Taken(r.item, r.handler);
    ItemsAt(removed);
    assert accepted[i] == Items(removed)[i];
  }

  /**
   * A SendMessage that succeeds was accepted, and answered: after it had reset its item, a thread that had taken
   * the item out of the queue set the item's event (the j-th answer; the i-th message accepted was the one taken).
   * Taken was this very posting if the item was accepted only once. The one exception is a send whose own wait
   * ended spuriously.
   */
  lemma {:induction false} SendReturnsAfterAnswer(steps: seq<Step>, s: State, r: SendReturn) returns (j: nat, i: nat)
    requires Run(INIT, steps) == Some(s)
    requires r in s.sends && r.ok && r.cause != Woken(Spurious)
    ensures StandsAt(s.accepted, r.item, r.at)
    ensures r.base <= j < |s.answers| && s.answers[j].item == r.item
    ensures i < |s.removed| && s.removed[i] == Taken(r.item, s.answers[j].handler)
    ensures StandsAt(s.accepted, r.item, i)
    ensures OnlyAt(s.accepted, r.item, r.at) ==> i == r.at
  {
    InvInit();
    RunKeepsInv(INIT, steps, s);
    RunKeepsCarriers(INIT, steps, s);
    var k :| 0 <= k < |s.sends| && s.sends[k] == r;
    assert SendOk(s.answers, s.sends[k]) && ReturnPosted(s.accepted, s.sends[k]);
    j :| r.base <= j < |s.answers| && s.answers[j].item == r.item;
    assert GivenByTaker(s.removed, s.answers[j]);
    i := TakenFromAccepted(s.accepted, s.removed, s.queue, s.answers[j]);
  }

  /** No thread was woken spuriously, and no send ended that way. */
  ghost predicate NothingSpurious(s: State) {
    && (forall t: Tid :: !SpuriousPhase(Th(s, t).phase))
    && NoneSpurious(s.sends)
  }

  predicate SpuriousPhase(p: Phase) {
    ((p.Roused? || p.Relocked?) && p.why == Spurious) || (p.Leaving? && p.cause == Woken(Spurious))
  }

  predicate NoneSpurious(sends: seq<SendReturn>) {
    forall k :: 0 <= k < |sends| ==> sends[k].cause != Woken(Spurious)
  }

  lemma {:induction false} OpNotSpurious(s: State, t: Tid, choice: Choice, eff: OpEffect)
    requires OpStep(s.lock, s.queue, |s.accepted|, t, Th(s, t).op, choice) == Some(eff)
    ensures !SpuriousPhase(eff.thread.phase) && NoneSpurious(eff.completes)
  {}

  lemma {:induction false} CallNotSpurious(ev: Event, n: nat, t: Tid, th: Thread, choice: Choice, eff: CallEffect)
    requires !SpuriousPhase(th.phase) && choice != Rouse(Spurious)
    requires CallStep(ev, n, t, th.op, th.phase, choice) == Some(eff)
    ensures !SpuriousPhase(eff.thread.phase) && NoneSpurious(eff.completes)
  {}

  lemma {:induction false} StepNotSpurious(s: State, step: Step, s': State)
    requires NothingSpurious(s) && Apply(s, step) == Some(s') && step.choice != Rouse(Spurious)
    ensures NothingSpurious(s')
  {
    var t := step.tid;
    var th := Th(s, t);
    assert !SpuriousPhase(th.phase);
    if th.phase.Outside? {
      OpNotSpurious(s, t, step.choice, OpStep(s.lock, s.queue, |s.accepted|, t, th.op, step.choice).value);
    } else {
      CallNotSpurious(Ev(s, EventOf(th.op)), |s.answers|, t, th, step.choice,
                      CallStep(Ev(s, EventOf(th.op)), |s.answers|, t, th.op, th.phase, step.choice).value);
    }
    forall u: Tid ensures !SpuriousPhase(Th(s', u).phase) {
      assert !SpuriousPhase(Th(s, u).phase);
    }
  }

  lemma {:induction false} RunNotSpurious(s: State, steps: seq<Step>, s': State)
    requires NothingSpurious(s) && Run(s, steps) == Some(s')
    requires forall k :: 0 <= k < |steps| ==> steps[k].choice != Rouse(Spurious)
    ensures NothingSpurious(s')
    decreases |steps|
  {
    if steps != [] {
      StepNotSpurious(s, steps[0], Apply(s, steps[0]).value);
      RunNotSpurious(Apply(s, steps[0]).value, steps[1..], s');
    }
  }

  /** In a schedule without spurious wake-ups this holds for every successful SendMessage. */
  lemma {:induction false} SendReturnsAfterAnswerWithoutSpurious(steps: seq<Step>, s: State, r: SendReturn)
    returns (j: nat, i: nat)
    requires Run(INIT, steps) == Some(s)
    requires forall k :: 0 <= k < |steps| ==> steps[k].choice != Rouse(Spurious)
    requires r in s.sends && r.ok
    ensures StandsAt(s.accepted, r.item, r.at)
    ensures r.base <= j < |s.answers| && s.answers[j].item == r.item
    ensures i < |s.removed| && s.removed[i] == Taken(r.item, s.answers[j].handler)
    ensures StandsAt(s.accepted, r.item, i)
    ensures OnlyAt(s.accepted, r.item, r.at) ==> i == r.at
  {
    RunNotSpurious(INIT, steps, s);
    j, i := SendReturnsAfterAnswer(steps, s, r);
  }
}
