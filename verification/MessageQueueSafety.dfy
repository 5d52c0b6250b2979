/** Invariants of the message queue's step system and what follows from them for every schedule. */
module MessageQueueSafety {
  import opened Basics
  import opened MessageQueue

  // ---------- the invariant ----------

  predicate HoldsLock(op: Op) {
    op.PostHolding? || op.PostSetting? || op.PostUnlock? || op.GetHolding? || op.GetResetting? || op.GetEmptied?
    || op.GetUnlock? || op.ClearHolding? || op.ClearUnlock?
  }

  predicate HoldsMutex(phase: Phase) {
    phase.Inside? || phase.Broadcasting? || phase.Relocked? || phase.Leaving?
  }

  /** The event methods are called from the places that call them, and nowhere else. */
  predicate Fits(th: Thread) {
    match th.op
    case PostSetting(_, _) => SetPhase(th.phase)
    case Answering(_) => SetPhase(th.phase)
    case SendResetting(_, _, _) => ResetPhase(th.phase)
    case GetResetting(_) => ResetPhase(th.phase)
    case SendWaiting(_, _, _) => WaitPhase(th.phase)
    case GetWaiting(_) => WaitPhase(th.phase)
    case _ => th.phase.Outside?
  }

  predicate SetPhase(p: Phase) {
    p == Entering(SetEvent) || p == Inside(SetEvent) || p.Broadcasting? || p == Leaving(Success, FlagSeen)
  }

  predicate ResetPhase(p: Phase) {
    p == Entering(ResetEvent) || p == Inside(ResetEvent) || p == Leaving(Success, FlagAbsent)
  }

  predicate WaitPhase(p: Phase) {
    (p.Entering? && p.call.WaitEvent?) || (p.Inside? && p.call.WaitEvent?) || p.Asleep? || p.Roused? || p.Relocked?
    || (p.Leaving? && (p.code.Success? <==> p.cause in {FlagSeen, Woken(Signalled), Woken(Spurious)}))
  }

  /** Some handler answered m no earlier than the base-th answer. */
  ghost predicate AnsweredSince(answers: seq<Reply>, m: Item, base: nat) {
    exists k :: base <= k < |answers| && answers[k].item == m
  }

  ghost predicate ThreadOk(s: State, t: Tid) {
    PlaceOk(s, t) && SenderOk(s.answers, s.lastReset, Th(s, t))
  }

  /** Locks, mutexes and wait sets agree with the place where thread t is. */
  ghost predicate PlaceOk(s: State, t: Tid) {
    var th := Th(s, t);
    && Fits(th)
    && (HoldsLock(th.op) <==> s.lock == Some(t))
    && (!th.phase.Outside? ==> CallerOk(Ev(s, EventOf(th.op)), t, th))
    && (th.op.GetResetting? || th.op.GetEmptied? ==> s.queue == [])
  }

  /** The event a thread is inside of agrees with the thread's phase. */
  predicate CallerOk(ev: Event, t: Tid, th: Thread) {
    && (HoldsMutex(th.phase) <==> ev.mutex == Some(t))
    && (th.phase.Asleep? <==> t in ev.waiters)
    && (th.phase.Broadcasting? ==> ev.hasEvent)
  }

  /** What a thread in SendMessage knows about the answers to its item. */
  ghost predicate SenderOk(answers: seq<Reply>, lastReset: map<Item, nat>, th: Thread) {
    && (th.op.SendResetting? && th.phase.Leaving? ==> th.op.base <= ResetAt(lastReset, th.op.m))
    && (AfterOf(th.op).ThenWait? ==> AfterOf(th.op).base <= ResetAt(lastReset, AfterOf(th.op).item))
    && (th.op.SendWaiting? ==> th.op.base <= ResetAt(lastReset, th.op.m))
    && (th.op.SendWaiting? && WasSignalled(th.phase) ==> AnsweredSince(answers, th.op.m, th.op.base))
  }

  function AfterOf(op: Op): After {
    if op.PostLock? || op.PostHolding? || op.PostSetting? || op.PostUnlock? then op.after else Alone
  }

  predicate WasSignalled(p: Phase) {
    ((p.Roused? || p.Relocked?) && p.why == Signalled)
    || (p.Leaving? && (p.cause == FlagSeen || p.cause == Woken(Signalled)))
  }

  ghost predicate EventOk(s: State, e: EventId) {
    && EventShape(s, e)
    && (e.ItemEvent? && Ev(s, e).hasEvent ==> AnsweredSince(s.answers, e.item, ResetAt(s.lastReset, e.item)))
  }

  /** Who may hold the mutex and sleep; a set flag leaves nobody asleep, unless the setter is about to broadcast. */
  ghost predicate EventShape(s: State, e: EventId) {
    var ev := Ev(s, e);
    && (ev.mutex.Some? ==> HoldsMutex(Th(s, ev.mutex.value).phase) && EventOf(Th(s, ev.mutex.value).op) == e)
    && (forall t :: t in ev.waiters ==> Th(s, t).phase.Asleep? && EventOf(Th(s, t).op) == e)
    && (ev.hasEvent && ev.waiters != {} ==> ev.mutex.Some? && Th(s, ev.mutex.value).phase.Broadcasting?)
  }

  /** The poster p holds the list lock and is still on its way to setting the queue event. */
  predicate AboutToSet(s: State, p: Tid) {
    var th := Th(s, p);
    th.op.PostSetting? && (th.phase == Entering(SetEvent) || th.phase == Inside(SetEvent))
  }

  ghost predicate QueueOk(s: State) {
    && (s.queue != [] ==> Ev(s, QueueEvent).hasEvent || (s.lock.Some? && AboutToSet(s, s.lock.value)))
    && |s.queue| <= MSG_QUEUE_MAX_ITEM_NUM
  }

  function Items(removed: seq<Removal>): seq<Item> {
    if removed == [] then [] else [removed[0].item] + Items(removed[1..])
  }

  /** Conservation: what was taken or cleared, followed by what is queued, is what was accepted. */
  ghost predicate Conserved(s: State) {
    s.accepted == Items(s.removed) + s.queue
  }

  ghost predicate HistoryOk(s: State) {
    && (forall m :: ResetAt(s.lastReset, m) <= |s.answers|)
    && (forall k :: 0 <= k < |s.sends| ==> SendOk(s.answers, s.sends[k]))
  }

  /** A send that succeeded without a spurious wake-up had its answer. */
  ghost predicate SendOk(answers: seq<Reply>, r: SendReturn) {
    r.ok && r.cause != Woken(Spurious) ==> AnsweredSince(answers, r.item, r.base)
  }

  ghost predicate Inv(s: State) {
    && (forall t: Tid :: ThreadOk(s, t))
    && (forall e: EventId :: EventOk(s, e))
    && QueueOk(s)
    && Conserved(s)
    && HistoryOk(s)
  }

  // ---------- every step keeps it ----------

  lemma {:induction false} InvInit()
    ensures Inv(INIT)
  {}

  /** A step outside the event methods: lock and queue change only in the hands of the lock's holder. */
  predicate OpFacts(s: State, t: Tid, eff: OpEffect) {
    OpLocks(s.lock, t, eff) && OpQueues(s, t, eff)
  }

  predicate OpLocks(lock: Option<Tid>, t: Tid, eff: OpEffect) {
    && Fits(eff.thread) && (HoldsLock(eff.thread.op) <==> eff.lock == Some(t))
    && (eff.lock == lock || (lock == None && eff.lock == Some(t)) || (lock == Some(t) && eff.lock == None))
    && (eff.thread.phase.Outside? || eff.thread.phase.Entering?)
    && (forall k :: 0 <= k < |eff.completes| ==> !eff.completes[k].ok)
  }

  predicate OpQueues(s: State, t: Tid, eff: OpEffect) {
    && (eff.queue == s.queue || s.lock == Some(t))
    && (eff.thread.op.GetResetting? || eff.thread.op.GetEmptied? ==> eff.queue == [])
    && |eff.queue| <= MSG_QUEUE_MAX_ITEM_NUM
    && (eff.queue != [] ==>
          || (s.queue != [] && (s.lock == Some(t) ==> !AboutToSet(s, t)))
          || (eff.lock == Some(t) && eff.thread.op.PostSetting? && eff.thread.phase == Entering(SetEvent)))
  }

  lemma {:induction false} OpStepLocks(lock: Option<Tid>, queue: seq<Item>, posted: nat, t: Tid, op: Op, choice: Choice,
                                       eff: OpEffect)
    requires HoldsLock(op) <==> lock == Some(t)
    requires OpStep(lock, queue, posted, t, op, choice) == Some(eff)
    ensures OpLocks(lock, t, eff)
  {}

  lemma {:induction false} OpStepQueues(s: State, t: Tid, choice: Choice, eff: OpEffect)
    requires PlaceOk(s, t) && QueueOk(s) && Th(s, t).phase.Outside?
    requires OpStep(s.lock, s.queue, |s.accepted|, t, Th(s, t).op, choice) == Some(eff)
    ensures OpQueues(s, t, eff)
  {}

  lemma {:induction false} OpStepFacts(s: State, t: Tid, choice: Choice, eff: OpEffect)
    requires PlaceOk(s, t) && QueueOk(s) && Th(s, t).phase.Outside?
    requires OpStep(s.lock, s.queue, |s.accepted|, t, Th(s, t).op, choice) == Some(eff)
    ensures OpFacts(s, t, eff)
  {
    OpStepLocks(s.lock, s.queue, |s.accepted|, t, Th(s, t).op, choice, eff);
    OpStepQueues(s, t, choice, eff);
  }

  lemma {:induction false} OpStepSender(s: State, t: Tid, choice: Choice, eff: OpEffect)
    requires SenderOk(s.answers, s.lastReset, Th(s, t)) && Th(s, t).phase.Outside?
    requires OpStep(s.lock, s.queue, |s.accepted|, t, Th(s, t).op, choice) == Some(eff)
    ensures SenderOk(s.answers, s.lastReset, eff.thread)
  {}

  lemma {:induction false} OpKeepsThread(s: State, t: Tid, eff: OpEffect, u: Tid)
    requires OpFacts(s, t, eff) && SenderOk(s.answers, s.lastReset, eff.thread)
    requires Th(s, t).phase.Outside? && EventShape(s, EventOf(eff.thread.op))
    requires ThreadOk(s, u)
    ensures ThreadOk(CommitOp(s, t, eff), u)
  {}

  lemma {:induction false} OpKeepsEvent(s: State, t: Tid, eff: OpEffect, e: EventId)
    requires EventOk(s, e) && Th(s, t).phase.Outside?
    ensures EventOk(CommitOp(s, t, eff), e)
  {}

  lemma {:induction false} OpKeepsQueue(s: State, t: Tid, eff: OpEffect)
    requires OpFacts(s, t, eff) && QueueOk(s)
    ensures QueueOk(CommitOp(s, t, eff))
  {}

  lemma {:induction false} ItemsOfCons(first: Removal, rest: seq<Removal>, all: seq<Removal>)
    requires all == [first] + rest
    ensures Items(all) == [first.item] + Items(rest)
  {
  }

  lemma {:induction false} ItemsConcat(a: seq<Removal>, b: seq<Removal>)
    ensures Items(a + b) == Items(a) + Items(b)
  {
    if a == [] {
      assert a + b == b;
    } else {
      ItemsConcat(a[1..], b);
      ItemsOfCons(a[0], a[1..] + b, a + b);
    }
  }

  lemma {:induction false} ItemsOfCleared(items: seq<Item>)
    ensures Items(ClearedAll(items)) == items
  {
    if items != [] {
      ItemsOfCleared(items[1..]);
      assert ([Cleared(items[0])] + ClearedAll(items[1..]))[1..] == ClearedAll(items[1..]);
    }
  }

  lemma {:induction false} OpConserves(lock: Option<Tid>, queue: seq<Item>, posted: nat, t: Tid, op: Op, choice: Choice,
                                        eff: OpEffect)
    requires OpStep(lock, queue, posted, t, op, choice) == Some(eff)
    ensures queue + eff.accepts == Items(eff.removes) + eff.queue
  {
    if op.ClearHolding? && choice.Go? {
      ItemsOfCleared(queue);
    }
  }

  lemma {:induction false} OpKeepsConserved(s: State, t: Tid, eff: OpEffect)
    requires s.queue + eff.accepts == Items(eff.removes) + eff.queue
    requires Conserved(s)
    ensures Conserved(CommitOp(s, t, eff))
  {
    ItemsConcat(s.removed, eff.removes);
    calc {
      s.accepted + eff.accepts;
      Items(s.removed) + (s.queue + eff.accepts);
      Items(s.removed) + (Items(eff.removes) + eff.queue);
      Items(s.removed) + Items(eff.removes) + eff.queue;
    }
  }

  lemma {:induction false} OpKeepsInv(s: State, t: Tid, choice: Choice, eff: OpEffect)
    requires Inv(s) && Th(s, t).phase.Outside?
    requires OpStep(s.lock, s.queue, |s.accepted|, t, Th(s, t).op, choice) == Some(eff)
    ensures Inv(CommitOp(s, t, eff))
  {
    var s' := CommitOp(s, t, eff);
    assert ThreadOk(s, t);
    OpStepFacts(s, t, choice, eff);
    OpStepSender(s, t, choice, eff);
    assert EventOk(s, EventOf(eff.thread.op));
    forall u: Tid ensures ThreadOk(s', u) {
      assert ThreadOk(s, u);
      OpKeepsThread(s, t, eff, u);
    }
    forall e: EventId ensures EventOk(s', e) {
      assert EventOk(s, e);
      OpKeepsEvent(s, t, eff, e);
    }
    OpKeepsQueue(s, t, eff);
    OpConserves(s.lock, s.queue, |s.accepted|, t, Th(s, t).op, choice, eff);
    OpKeepsConserved(s, t, eff);
    assert s'.lastReset == s.lastReset && s'.answers == s.answers;
  }

  // ---------- the same for steps inside the event methods ----------

  /** How a step inside an event method moves the thread and the event. */
  ghost predicate CallFacts(ev: Event, t: Tid, th: Thread, eff: CallEffect) {
    CallMoves(th, eff) && CallLocks(ev, t, th, eff) && CallFlags(ev, t, th, eff)
  }

  predicate CallMoves(th: Thread, eff: CallEffect) {
    && Fits(eff.thread) && (HoldsLock(eff.thread.op) <==> HoldsLock(th.op))
    && (!eff.thread.phase.Outside? ==> EventOf(eff.thread.op) == EventOf(th.op))
    && (eff.thread.op.GetResetting? || eff.thread.op.GetEmptied? ==> th.op.GetResetting? || th.op.GetEmptied?)
  }

  ghost predicate CallLocks(ev: Event, t: Tid, th: Thread, eff: CallEffect) {
    && CallerOk(eff.event, t, eff.thread)
    && (eff.event.mutex == ev.mutex || (ev.mutex == None && eff.event.mutex == Some(t))
        || (ev.mutex == Some(t) && eff.event.mutex == None))
    && (forall u :: u != t ==> (u in eff.event.waiters <==> u in ev.waiters && !eff.wakes))
    && (eff.wakes ==> th.phase.Broadcasting?)
  }

  predicate CallFlags(ev: Event, t: Tid, th: Thread, eff: CallEffect) {
    && (th.phase.Broadcasting? ==> eff.event.waiters == {} && eff.event.hasEvent)
    && (eff.event.hasEvent && !ev.hasEvent ==> eff.thread.phase.Broadcasting?)
    && (eff.event.hasEvent ==> !eff.thread.phase.Asleep?)
    && (ev.hasEvent && !eff.event.hasEvent ==> ev.mutex == Some(t) && th.phase == Inside(ResetEvent))
  }

  lemma {:induction false} CallStepMoves(ev: Event, n: nat, t: Tid, th: Thread, choice: Choice, eff: CallEffect)
    requires Fits(th) && CallStep(ev, n, t, th.op, th.phase, choice) == Some(eff)
    ensures CallMoves(th, eff)
  {}

  lemma {:induction false} CallStepLocks(ev: Event, n: nat, t: Tid, th: Thread, choice: Choice, eff: CallEffect)
    requires Fits(th) && CallerOk(ev, t, th)
    requires CallStep(ev, n, t, th.op, th.phase, choice) == Some(eff)
    ensures CallLocks(ev, t, th, eff)
  {}

  lemma {:induction false} CallStepFlags(ev: Event, n: nat, t: Tid, th: Thread, choice: Choice, eff: CallEffect)
    requires Fits(th) && CallerOk(ev, t, th)
    requires CallStep(ev, n, t, th.op, th.phase, choice) == Some(eff)
    ensures CallFlags(ev, t, th, eff)
  {}

  lemma {:induction false} CallStepFacts(ev: Event, n: nat, t: Tid, th: Thread, choice: Choice, eff: CallEffect)
    requires Fits(th) && CallerOk(ev, t, th)
    requires CallStep(ev, n, t, th.op, th.phase, choice) == Some(eff)
    ensures CallFacts(ev, t, th, eff)
  {
    CallStepMoves(ev, n, t, th, choice, eff);
    CallStepLocks(ev, n, t, th, choice, eff);
    CallStepFlags(ev, n, t, th, choice, eff);
  }

  /** The thread u after a step of another thread on event e. */
  function ThreadAfter(s: State, e: EventId, wakes: bool, u: Tid): Thread {
    if wakes && u in Ev(s, e).waiters then WakeOne(Th(s, u)) else Th(s, u)
  }

  lemma {:induction false} OthersAfter(s: State, t: Tid, e: EventId, eff: CallEffect, u: Tid)
    requires u != t && (u in Ev(s, e).waiters ==> Th(s, u).phase.Asleep?)
    ensures Th(CommitCall(s, t, e, eff), u) == ThreadAfter(s, e, eff.wakes, u)
  {}

  lemma {:induction false} CallKeepsShape(s: State, t: Tid, e: EventId, eff: CallEffect)
    requires e == EventOf(Th(s, t).op) && !Th(s, t).phase.Outside?
    requires CallFacts(Ev(s, e), t, Th(s, t), eff) && EventShape(s, e)
    ensures EventShape(CommitCall(s, t, e, eff), e)
  {
    var s' := CommitCall(s, t, e, eff);
    forall u | u != t ensures Th(s', u) == ThreadAfter(s, e, eff.wakes, u) {
      OthersAfter(s, t, e, eff, u);
    }
  }

  lemma {:induction false} CallKeepsOtherShape(s: State, t: Tid, e: EventId, eff: CallEffect, d: EventId)
    requires e == EventOf(Th(s, t).op) && !Th(s, t).phase.Outside? && d != e
    requires EventShape(s, e) && EventShape(s, d)
    ensures EventShape(CommitCall(s, t, e, eff), d)
  {
  }

  lemma {:induction false} CallKeepsPlace(s: State, t: Tid, e: EventId, eff: CallEffect, u: Tid)
    requires e == EventOf(Th(s, t).op) && !Th(s, t).phase.Outside?
    requires CallFacts(Ev(s, e), t, Th(s, t), eff) && EventShape(s, e)
    requires PlaceOk(s, t) && PlaceOk(s, u)
    ensures PlaceOk(CommitCall(s, t, e, eff), u)
  {
    if u != t {
      OthersAfter(s, t, e, eff, u);
    }
  }

  lemma {:induction false} AnsweredMonotone(answers: seq<Reply>, more: seq<Reply>, m: Item, base: nat, lower: nat)
    requires lower <= base && AnsweredSince(answers, m, base)
    ensures AnsweredSince(answers + more, m, lower)
  {
    var k :| base <= k < |answers| && answers[k].item == m;
    assert (answers + more)[k].item == m;
  }

  /** What a step inside an event method does to the answers, the resets and the completed sends. */
  ghost predicate CallHistory(s: State, th: Thread, eff: CallEffect) {
    var e := EventOf(th.op);
    var answers := s.answers + eff.answers;
    var resets := s.lastReset + map m | m in eff.resets :: |s.answers|;
    && (e.ItemEvent? && eff.event.hasEvent ==> AnsweredSince(answers, e.item, ResetAt(resets, e.item)))
    && (forall m :: ResetAt(s.lastReset, m) <= ResetAt(resets, m) <= |answers|)
    && (forall m :: m in eff.resets ==> e == ItemEvent(m))
    && SenderOk(answers, resets, eff.thread)
    && (forall k :: 0 <= k < |eff.completes| ==> SendOk(answers, eff.completes[k]))
  }

  /** Which steps write the history, and what a sender carries from one place to the next. */
  predicate CallLog(ev: Event, n: nat, t: Tid, th: Thread, eff: CallEffect) {
    && eff.answers == (if th.op.Answering? && th.phase == Inside(SetEvent) then [Reply(th.op.m, t)] else [])
    && eff.resets == (if th.op.SendResetting? && th.phase == Inside(ResetEvent) then {th.op.m} else {})
    && eff.completes == (if th.op.SendWaiting? && th.phase.Leaving?
                         then [SendReturn(th.op.m, th.op.base, th.op.at, th.phase.code.Success?, th.phase.cause)]
                         else [])
    && eff.event.hasEvent == (th.phase == Inside(SetEvent) || (ev.hasEvent && th.phase != Inside(ResetEvent)))
    && (eff.thread.op.SendWaiting? ==>
         eff.thread.op == th.op && (WasSignalled(eff.thread.phase) ==> WasSignalled(th.phase) || ev.hasEvent))
    && (eff.thread.op.SendResetting? && eff.thread.phase.Leaving? ==>
         eff.thread.op.base == n && th.phase == Inside(ResetEvent)
         && th.op.SendResetting? && th.op.m == eff.thread.op.m)
    && (th.op.PostSetting? && th.phase.Entering? ==> eff.thread == Thread(th.op, Inside(SetEvent)))
    && (AfterOf(eff.thread.op).ThenWait? ==>
         AfterOf(eff.thread.op) == AfterOf(th.op)
         || (th.op.SendResetting? && th.phase.Leaving?
             && AfterOf(eff.thread.op) == ThenWait(th.op.m, th.op.base, 0, th.op.limit)))
  }

  lemma {:induction false} CallStepLog(ev: Event, n: nat, t: Tid, th: Thread, choice: Choice, eff: CallEffect)
    requires Fits(th) && CallStep(ev, n, t, th.op, th.phase, choice) == Some(eff)
    ensures CallLog(ev, n, t, th, eff)
  {}

  lemma {:induction false} CallStepHistory(s: State, t: Tid, th: Thread, eff: CallEffect)
    requires Fits(th) && SenderOk(s.answers, s.lastReset, th) && !th.phase.Outside?
    requires EventOk(s, EventOf(th.op)) && HistoryOk(s)
    requires CallLog(Ev(s, EventOf(th.op)), |s.answers|, t, th, eff)
    ensures CallHistory(s, th, eff)
  {
    var e := EventOf(th.op);
    var answers := s.answers + eff.answers;
    if e.ItemEvent? && Ev(s, e).hasEvent {
      AnsweredMonotone(s.answers, eff.answers, e.item, ResetAt(s.lastReset, e.item), ResetAt(s.lastReset, e.item));
      if th.op.SendWaiting? {
        AnsweredMonotone(s.answers, eff.answers, e.item, ResetAt(s.lastReset, e.item), th.op.base);
      }
    }
    if th.op.SendWaiting? && WasSignalled(th.phase) {
      AnsweredMonotone(s.answers, eff.answers, th.op.m, th.op.base, th.op.base);
    }
    if th.op.Answering? && th.phase == Inside(SetEvent) {
      assert answers[|s.answers|].item == th.op.m;
    }
    if th.op.SendWaiting? && th.phase.Leaving? {
      assert eff.completes == [SendReturn(th.op.m, th.op.base, th.op.at, th.phase.code.Success?, th.phase.cause)];
      assert SendOk(answers, eff.completes[0]);
    }
  }

  lemma {:induction false} CallKeepsHistory(s: State, t: Tid, e: EventId, eff: CallEffect)
    requires e == EventOf(Th(s, t).op) && CallHistory(s, Th(s, t), eff) && HistoryOk(s)
    ensures HistoryOk(CommitCall(s, t, e, eff))
  {
    var s' := CommitCall(s, t, e, eff);
    forall k | 0 <= k < |s'.sends| ensures SendOk(s'.answers, s'.sends[k]) {
      if k < |s.sends| {
        var r := s.sends[k];
        assert SendOk(s.answers, r);
        if r.ok && r.cause != Woken(Spurious) {
          AnsweredMonotone(s.answers, eff.answers, r.item, r.base, r.base);
        }
      } else {
        assert s'.sends[k] == eff.completes[k - |s.sends|];
      }
    }
  }

  lemma {:induction false} CallKeepsAnswers(s: State, t: Tid, e: EventId, eff: CallEffect, d: EventId)
    requires e == EventOf(Th(s, t).op) && CallHistory(s, Th(s, t), eff)
    requires d != e ==> EventOk(s, d)
    ensures d.ItemEvent? && Ev(CommitCall(s, t, e, eff), d).hasEvent ==>
              AnsweredSince(s.answers + eff.answers, d.item, ResetAt(CommitCall(s, t, e, eff).lastReset, d.item))
  {
    if d != e && d.ItemEvent? && Ev(s, d).hasEvent {
      assert d.item !in eff.resets;
      AnsweredMonotone(s.answers, eff.answers, d.item, ResetAt(s.lastReset, d.item), ResetAt(s.lastReset, d.item));
    }
  }

  lemma {:induction false} CallKeepsSender(s: State, t: Tid, e: EventId, eff: CallEffect, u: Tid)
    requires e == EventOf(Th(s, t).op) && !Th(s, t).phase.Outside?
    requires CallFacts(Ev(s, e), t, Th(s, t), eff) && CallHistory(s, Th(s, t), eff) && EventOk(s, e)
    requires PlaceOk(s, t) && ThreadOk(s, u)
    ensures SenderOk(s.answers + eff.answers, CommitCall(s, t, e, eff).lastReset, Th(CommitCall(s, t, e, eff), u))
  {
    var s' := CommitCall(s, t, e, eff);
    if u != t {
      OthersAfter(s, t, e, eff, u);
      var th := Th(s, u);
      if th.op.SendWaiting? {
        assert ResetAt(s.lastReset, th.op.m) <= ResetAt(s'.lastReset, th.op.m);
        if WasSignalled(th.phase) {
          AnsweredMonotone(s.answers, eff.answers, th.op.m, th.op.base, th.op.base);
        } else if WasSignalled(Th(s', u).phase) {
          AnsweredMonotone(s.answers, eff.answers, th.op.m, ResetAt(s.lastReset, th.op.m), th.op.base);
        }
      }
    }
  }

  lemma {:induction false} CallKeepsQueue(s: State, t: Tid, e: EventId, eff: CallEffect)
    requires e == EventOf(Th(s, t).op) && !Th(s, t).phase.Outside? && PlaceOk(s, t) && QueueOk(s)
    requires CallFacts(Ev(s, e), t, Th(s, t), eff) && CallLog(Ev(s, e), |s.answers|, t, Th(s, t), eff)
    requires EventShape(s, e)
    ensures QueueOk(CommitCall(s, t, e, eff))
  {
  }

  lemma {:induction false} CallKeepsInv(s: State, t: Tid, choice: Choice, eff: CallEffect)
    requires Inv(s) && !Th(s, t).phase.Outside?
    requires CallStep(Ev(s, EventOf(Th(s, t).op)), |s.answers|, t, Th(s, t).op, Th(s, t).phase, choice) == Some(eff)
    ensures Inv(CommitCall(s, t, EventOf(Th(s, t).op), eff))
  {
    var th := Th(s, t);
    var e := EventOf(th.op);
    var s' := CommitCall(s, t, e, eff);
    assert ThreadOk(s, t) && EventOk(s, e);
    CallStepFacts(Ev(s, e), |s.answers|, t, th, choice, eff);
    CallStepLog(Ev(s, e), |s.answers|, t, th, choice, eff);
    CallStepHistory(s, t, th, eff);
    forall u: Tid ensures ThreadOk(s', u) {
      assert ThreadOk(s, u);
      CallKeepsPlace(s, t, e, eff, u);
      CallKeepsSender(s, t, e, eff, u);
    }
    forall d: EventId ensures EventOk(s', d) {
      assert EventOk(s, d);
      if d == e { CallKeepsShape(s, t, e, eff); } else { CallKeepsOtherShape(s, t, e, eff, d); }
      CallKeepsAnswers(s, t, e, eff, d);
    }
    CallKeepsQueue(s, t, e, eff);
    CallKeepsHistory(s, t, e, eff);
  }

  /** Every step of every thread keeps the invariant. */
  lemma {:induction false} StepKeepsInv(s: State, step: Step, s': State)
    requires Inv(s) && Apply(s, step) == Some(s')
    ensures Inv(s')
  {
    var th := Th(s, step.tid);
    if th.phase.Outside? {
      OpKeepsInv(s, step.tid, step.choice, OpStep(s.lock, s.queue, |s.accepted|, step.tid, th.op, step.choice).value);
    } else {
      CallKeepsInv(s, step.tid, step.choice,
                   CallStep(Ev(s, EventOf(th.op)), |s.answers|, step.tid, th.op, th.phase, step.choice).value);
    }
  }

  lemma {:induction false} RunKeepsInv(s: State, steps: seq<Step>, s': State)
    requires Inv(s) && Run(s, steps) == Some(s')
    ensures Inv(s')
    decreases |steps|
  {
    if steps != [] {
      StepKeepsInv(s, steps[0], Apply(s, steps[0]).value);
      RunKeepsInv(Apply(s, steps[0]).value, steps[1..], s');
    }
  }
}
