/** What one whole call of a getter, a sender or RemoveAllMessage does, whatever the other threads do meanwhile. */
module MessageQueueCalls {
  import opened Basics
  import opened MessageQueue
  import opened MessageQueueSafety

  // ---------- what a call begins with ----------

  /** Every call of an idle thread begins at its first step; a send of a null item ends at once. */
  lemma {:induction false} CallsBegin(s: State, t: Tid, choice: Choice, s': State)
    requires Th(s, t) == Thread(Idle, Outside) && Apply(s, Step(t, choice)) == Some(s')
    ensures s' == s.(threads := s.threads[t := Th(s', t)])
    ensures choice.BeginPost? ==> Th(s', t) == Thread(PostLock(choice.x, Alone), Outside)
    ensures choice.BeginSend? && choice.x.Some? ==>
              Th(s', t) == Thread(SendResetting(choice.x.value, choice.limit, 0), Entering(ResetEvent))
    ensures choice.BeginSend? && choice.x.None? ==> Th(s', t) == Thread(Idle, Outside)
    ensures choice.BeginGet? ==> Th(s', t) == Thread(GetLock(choice.mode), Outside)
    ensures choice.BeginClear? ==> Th(s', t) == Thread(ClearLock, Outside)
  {
    assert s.accepted + [] == s.accepted && s.removed + [] == s.removed && s.sends + [] == s.sends;
  }

  // ---------- the limits of the waits ----------

  predicate InGet(op: Op) {
    op.GetLock? || op.GetHolding? || op.GetResetting? || op.GetEmptied? || op.GetWaiting? || op.GetUnlock?
  }

  /** The limit a waiting thread carries. */
  function LimitIn(p: Phase): Option<Option<int>> {
    match p
    case Entering(WaitEvent(limit)) => Some(limit)
    case Inside(WaitEvent(limit)) => Some(limit)
    case Asleep(limit) => Some(limit)
    case Roused(limit, _) => Some(limit)
    case Relocked(limit, _) => Some(limit)
    case _ => None
  }

  /** A getter waits with the limit of its call, and only a wait with a limit ends by time or signal. */
  predicate WaitOk(th: Thread) {
    && (th.op.GetWaiting? && LimitIn(th.phase).Some? ==> LimitIn(th.phase).value == LimitOf(th.op.mode))
    && (th.op.GetWaiting? && th.phase.Leaving? && LimitOf(th.op.mode).None? ==> th.phase.code == Success)
    && ((th.phase.Roused? || th.phase.Relocked?) && th.phase.why in {Expired, Interrupted} ==> th.phase.limit.Some?)
    && (th.phase.Asleep? && th.phase.limit.Some? ==> th.phase.limit.value > 0)
    && ((th.phase.Roused? || th.phase.Relocked?) && th.phase.limit.Some? ==> th.phase.limit.value > 0)
  }

  ghost predicate WaitsOk(s: State) {
    forall t: Tid :: WaitOk(Th(s, t))
  }

  lemma {:induction false} OpKeepsWait(lock: Option<Tid>, queue: seq<Item>, posted: nat, t: Tid, op: Op, choice: Choice,
                                       eff: OpEffect)
    requires OpStep(lock, queue, posted, t, op, choice) == Some(eff)
    ensures WaitOk(eff.thread)
  {}

  lemma {:induction false} CallKeepsWait(ev: Event, n: nat, t: Tid, th: Thread, choice: Choice, eff: CallEffect)
    requires Fits(th) && WaitOk(th) && CallStep(ev, n, t, th.op, th.phase, choice) == Some(eff)
    ensures WaitOk(eff.thread)
  {}

  lemma {:induction false} StepKeepsWaits(s: State, step: Step, s': State)
    requires Inv(s) && WaitsOk(s) && Apply(s, step) == Some(s')
    ensures WaitsOk(s')
  {
    var t := step.tid;
    var th := Th(s, t);
    assert ThreadOk(s, t) && WaitOk(th);
    if th.phase.Outside? {
      var eff := OpStep(s.lock, s.queue, |s.accepted|, t, th.op, step.choice).value;
      OpKeepsWait(s.lock, s.queue, |s.accepted|, t, th.op, step.choice, eff);
    } else {
      var e := EventOf(th.op);
      var eff := CallStep(Ev(s, e), |s.answers|, t, th.op, th.phase, step.choice).value;
      CallKeepsWait(Ev(s, e), |s.answers|, t, th, step.choice, eff);
    }
    forall u: Tid ensures WaitOk(Th(s', u)) {
      assert WaitOk(Th(s, u));
    }
  }

  /** Both invariants hold in every reachable state. */
  lemma {:induction false} Reached(s: State, steps: seq<Step>, s': State)
    requires Inv(s) && WaitsOk(s) && Run(s, steps) == Some(s')
    ensures Inv(s') && WaitsOk(s')
    decreases |steps|
  {
    if steps != [] {
      var s1 := Apply(s, steps[0]).value;
      StepKeepsInv(s, steps[0], s1);
      StepKeepsWaits(s, steps[0], s1);
      Reached(s1, steps[1..], s');
    }
  }

  // ---------- what a wait does ----------

  /** A wait that holds the mutex: a set flag or a used-up limit ends it at once, anything else puts it to sleep. */
  lemma {:induction false} WaitDecides(s: State, t: Tid, limit: Option<int>, choice: Choice, s': State)
    requires Th(s, t).phase == Inside(WaitEvent(limit)) && Apply(s, Step(t, choice)) == Some(s')
    ensures var ev, ev' := Ev(s, EventOf(Th(s, t).op)), Ev(s', EventOf(Th(s, t).op));
            && Th(s', t).op == Th(s, t).op
            && if ev.hasEvent then Th(s', t).phase == Leaving(Success, FlagSeen) && ev' == ev
               else if limit.Some? && limit.value <= 0 then Th(s', t).phase == Leaving(Timeout, FlagAbsent) && ev' == ev
               else Th(s', t).phase == Asleep(limit) && ev' == Event(false, None, ev.waiters + {t})
  {}

  /** What a wait comes back with, after it has slept. */
  function CodeOf(why: Wake): Code {
    match why
    case Interrupted => SignalInterrupt
    case Expired => Timeout
    case Again => Timeout
    case _ => Success
  }

  /** A thread that has slept and holds the mutex again: a set flag is success whatever woke it. */
  lemma {:induction false} WakeDecides(s: State, t: Tid, limit: Option<int>, why: Wake, choice: Choice, s': State)
    requires Th(s, t).phase == Relocked(limit, why) && Apply(s, Step(t, choice)) == Some(s')
    ensures var ev, ev' := Ev(s, EventOf(Th(s, t).op)), Ev(s', EventOf(Th(s, t).op));
            && Th(s', t).op == Th(s, t).op
            && if ev.hasEvent then Th(s', t).phase == Leaving(Success, FlagSeen) && ev' == ev
               else if why.Again? && choice.Go? then
                 Th(s', t).phase == Asleep(limit) && ev' == Event(false, None, ev.waiters + {t})
               else (why.Again? ==> limit.Some?) && Th(s', t).phase == Leaving(CodeOf(why), Woken(why)) && ev' == ev
  {}

  /** Who sleeps is woken by a broadcast, or by itself only spuriously or, with a limit, by time or a signal. */
  lemma {:induction false} SleeperRises(s: State, t: Tid, limit: Option<int>, choice: Choice, s': State)
    requires Th(s, t).phase == Asleep(limit) && Apply(s, Step(t, choice)) == Some(s')
    ensures choice.Rouse? && choice.why != Signalled && (choice.why in {Expired, Interrupted} ==> limit.Some?)
    ensures Th(s', t) == Thread(Th(s, t).op, Roused(limit, choice.why))
    ensures t !in Ev(s', EventOf(Th(s, t).op)).waiters
  {}

  /** A getter waits for the time its caller gave; GetMessage for ever. */
  lemma {:induction false} GetterWaits(s: State, t: Tid, mode: GetMode, choice: Choice, s': State)
    requires Th(s, t) == Thread(GetEmptied(mode), Outside) && Apply(s, Step(t, choice)) == Some(s') && choice.Go?
    ensures s'.lock == None && Th(s', t).op == GetWaiting(mode)
    ensures Th(s', t).phase == Entering(WaitEvent(match mode
                                                  case GetTimeout(ms) => Some(ms)
                                                  case WaitOnly(ms) => Some(ms)
                                                  case _ => None))
  {}

  // ---------- one step of a getter ----------

  predicate SameQueue(s: State, s': State) {
    s'.queue == s.queue && s'.removed == s.removed
  }

  predicate TakesHead(s: State, s': State, t: Tid) {
    s.queue != [] && s'.queue == s.queue[1..] && s'.removed == s.removed + [Taken(s.queue[0], t)]
  }

  /** From looking at the queue: the head is taken, or there is none, or it is only waited for. */
  predicate Looked(s: State, s': State, t: Tid, mode: GetMode, next: Op) {
    if s.queue == [] then SameQueue(s, s') && next == (if mode.Peek? then GetUnlock(mode, None) else GetResetting(mode))
    else if mode.WaitOnly? then SameQueue(s, s') && next == GetUnlock(mode, None)
    else TakesHead(s, s', t) && next == GetUnlock(mode, Some(s.queue[0]))
  }

  /** From waiting: a wait that ends well leads back to the queue, a failed one, which has a limit, out of the call. */
  predicate Waited(th: Thread, next: Op)
    requires th.op.GetWaiting?
  {
    if !th.phase.Leaving? then next == th.op
    else if th.phase.code.Success? then next == GetLock(th.op.mode)
    else next == Idle && LimitOf(th.op.mode).Some?
  }

  /** What a step of a getter can be. */
  predicate GetMoves(s: State, s': State, t: Tid) {
    var op, next := Th(s, t).op, Th(s', t).op;
    match op
    case GetLock(mode) => SameQueue(s, s') && next == GetHolding(mode)
    case GetHolding(mode) => Looked(s, s', t, mode, next)
    case GetResetting(mode) => SameQueue(s, s') && (next == op || next == GetEmptied(mode))
    case GetEmptied(mode) =>
      SameQueue(s, s') && (next == GetWaiting(mode) || (mode.WaitOnly? && next == GetUnlock(mode, None)))
    case GetWaiting(mode) => SameQueue(s, s') && Waited(Th(s, t), next)
    case GetUnlock(_, got) => SameQueue(s, s') && next == if got.Some? then Handling(got.value) else Idle
    case _ => false
  }

  lemma {:induction false} GetOp(s: State, t: Tid, choice: Choice, eff: OpEffect)
    requires Fits(Th(s, t)) && InGet(Th(s, t).op) && Th(s, t).phase.Outside?
    requires OpStep(s.lock, s.queue, |s.accepted|, t, Th(s, t).op, choice) == Some(eff)
    requires Th(s, t).op.GetEmptied? ==> s.queue == []
    ensures GetMoves(s, CommitOp(s, t, eff), t)
  {
    assert eff.removes == [] ==> s.removed + eff.removes == s.removed;
  }

  predicate GetCallFacts(th: Thread, next: Op) {
    match th.op
    case GetResetting(mode) => next == th.op || next == GetEmptied(mode)
    case GetWaiting(mode) => Waited(th, next)
    case _ => true
  }

  lemma {:induction false} GetCall(ev: Event, n: nat, t: Tid, th: Thread, choice: Choice, eff: CallEffect)
    requires Fits(th) && WaitOk(th) && CallStep(ev, n, t, th.op, th.phase, choice) == Some(eff)
    ensures GetCallFacts(th, eff.thread.op)
  {}

  lemma {:induction false} GetSteps(s: State, t: Tid, choice: Choice, s': State)
    requires Inv(s) && WaitsOk(s) && InGet(Th(s, t).op) && Apply(s, Step(t, choice)) == Some(s')
    ensures GetMoves(s, s', t)
  {
    assert PlaceOk(s, t) && WaitOk(Th(s, t)) by { assert ThreadOk(s, t); }
    var th := Th(s, t);
    if th.phase.Outside? {
      GetOp(s, t, choice, OpStep(s.lock, s.queue, |s.accepted|, t, th.op, choice).value);
    } else {
      var e := EventOf(th.op);
      GetCall(Ev(s, e), |s.answers|, t, th, choice,
              CallStep(Ev(s, e), |s.answers|, t, th.op, th.phase, choice).value);
    }
  }

  // ---------- a whole call of a getter ----------

  /** The messages thread t has taken. */
  function TakenBy(removed: seq<Removal>, t: Tid): seq<Item> {
    if removed == [] then []
    else
      var last := removed[|removed| - 1];
      TakenBy(removed[..|removed| - 1], t) + if last.Taken? && last.taker == t then [last.item] else []
  }

  lemma {:induction false} TakenByMore(removed: seq<Removal>, more: seq<Removal>, t: Tid)
    requires forall k :: 0 <= k < |more| ==> more[k].Taken? ==> more[k].taker != t
    ensures TakenBy(removed + more, t) == TakenBy(removed, t)
  {
    if more == [] {
      assert removed + more == removed;
    } else {
      var n := |more| - 1;
      TakenByMore(removed, more[..n], t);
      assert (removed + more)[..|removed + more| - 1] == removed + more[..n];
    }
  }

  /** All along the schedule, but perhaps at its end, thread t is in a call of a getter. */
  predicate InGetAlong(s: State, steps: seq<Step>, t: Tid)
    decreases |steps|
  {
    steps != [] ==>
      InGet(Th(s, t).op) && Apply(s, steps[0]).Some? && InGetAlong(Apply(s, steps[0]).value, steps[1..], t)
  }

  /** What has come of a call in the given mode, begun when thread t had taken "before". */
  predicate GetSoFar(s: State, t: Tid, mode: GetMode, before: seq<Item>) {
    var now := TakenBy(s.removed, t);
    match Th(s, t).op
    case GetLock(mode') => mode' == mode && now == before
    case GetHolding(mode') => mode' == mode && now == before
    case GetResetting(mode') => mode' == mode && now == before
    case GetEmptied(mode') => mode' == mode && now == before
    case GetWaiting(mode') => mode' == mode && now == before
    case GetUnlock(mode', got) =>
      mode' == mode && if got.Some? then !mode.WaitOnly? && now == before + [got.value]
                       else (mode.WaitOnly? || mode.Peek?) && now == before
    case Handling(m) => !mode.WaitOnly? && now == before + [m]
    case Idle => mode != Get && now == before
    case _ => false
  }

  lemma {:induction false} OthersRemove(s: State, u: Tid, choice: Choice, s': State, t: Tid)
    requires u != t && Apply(s, Step(u, choice)) == Some(s')
    ensures TakenBy(s'.removed, t) == TakenBy(s.removed, t) && Th(s', t).op == Th(s, t).op
  {
    var th := Th(s, u);
    if th.phase.Outside? {
      var eff := OpStep(s.lock, s.queue, |s.accepted|, u, th.op, choice).value;
      ClearedOnly(s.queue);
      TakenByMore(s.removed, eff.removes, t);
    }
  }

  lemma {:induction false} ClearedOnly(items: seq<Item>)
    ensures |ClearedAll(items)| == |items|
    ensures forall k :: 0 <= k < |items| ==> ClearedAll(items)[k] == Cleared(items[k])
  {
    if items != [] {
      ClearedOnly(items[1..]);
    }
  }

  lemma {:induction false} OwnGetStep(s: State, t: Tid, choice: Choice, s': State, mode: GetMode, before: seq<Item>)
    requires Inv(s) && WaitsOk(s) && InGet(Th(s, t).op) && GetSoFar(s, t, mode, before)
    requires Apply(s, Step(t, choice)) == Some(s')
    ensures GetSoFar(s', t, mode, before)
  {
    GetSteps(s, t, choice, s');
    if TakesHead(s, s', t) {
      assert s'.removed[..|s'.removed| - 1] == s.removed;
    }
  }

  lemma {:induction false} GetGoesOn(s: State, steps: seq<Step>, s': State, t: Tid, mode: GetMode, before: seq<Item>)
    requires Inv(s) && WaitsOk(s) && GetSoFar(s, t, mode, before)
    requires InGetAlong(s, steps, t) && Run(s, steps) == Some(s')
    ensures GetSoFar(s', t, mode, before)
    decreases |steps|
  {
    if steps != [] {
      var s1 := Apply(s, steps[0]).value;
      StepKeepsInv(s, steps[0], s1);
      StepKeepsWaits(s, steps[0], s1);
      if steps[0].tid == t {
        OwnGetStep(s, t, steps[0].choice, s1, mode, before);
      } else {
        OthersRemove(s, steps[0].tid, steps[0].choice, s1, t);
      }
      GetGoesOn(s1, steps[1..], s', t, mode, before);
    }
  }

  /**
   * In every interleaving a call of a getter either goes on, and its thread has taken nothing or the one message it is
   * about to hand out; or it has ended with exactly one message, taken from the head of the queue; or it has ended
   * with none, which GetMessage, the getter without a limit, never does.
   */
  lemma {:induction false} GetEndsWithMessage(begun: seq<Step>, s: State, steps: seq<Step>, s': State, t: Tid,
                                              mode: GetMode)
    requires Run(INIT, begun) == Some(s) && Th(s, t) == Thread(GetLock(mode), Outside)
    requires InGetAlong(s, steps, t) && Run(s, steps) == Some(s')
    ensures GetSoFar(s', t, mode, TakenBy(s.removed, t))
  {
    InvInit();
    Reached(INIT, begun, s);
    GetGoesOn(s, steps, s', t, mode, TakenBy(s.removed, t));
  }

  /** Why a getter leaves without a message: a time limit, a signal, or a look. */
  predicate EndsWithout(th: Thread) {
    || (th.op.GetWaiting? && th.phase.Leaving? && th.phase.code in {Timeout, SignalInterrupt}
        && LimitOf(th.op.mode).Some?)
    || (th.op.GetUnlock? && th.op.got.None?)
  }

  lemma {:induction false} GetEndsWithout(begun: seq<Step>, s: State, t: Tid, choice: Choice, s': State)
    requires Run(INIT, begun) == Some(s) && InGet(Th(s, t).op) && Apply(s, Step(t, choice)) == Some(s')
    requires Th(s', t).op == Idle
    ensures EndsWithout(Th(s, t))
  {
    InvInit();
    Reached(INIT, begun, s);
    GetSteps(s, t, choice, s');
    MovesToIdle(s, s', t);
  }

  lemma {:induction false} MovesToIdle(s: State, s': State, t: Tid)
    requires GetMoves(s, s', t) && Th(s', t).op == Idle
    ensures EndsWithout(Th(s, t))
  {}

  // ---------- a whole call of a sender ----------

  /** In SendMessage for item m, with what has been found out since the call began in state a. */
  ghost predicate SendSoFar(a: State, s: State, t: Tid, m: Item) {
    var th := Th(s, t);
    match th.op
    case SendResetting(m', _, base) => m' == m && (th.phase.Leaving? ==> base >= |a.answers|)
    case PostLock(x, after) => x == Some(m) && Since(a, after, m)
    case PostHolding(x, after) => x == Some(m) && Since(a, after, m)
    case PostSetting(m', after) => m' == m && Since(a, after, m) && PostedSince(a, s, after.at, m)
    case PostUnlock(code, after) => Since(a, after, m) && (code.Posted? ==> PostedSince(a, s, after.at, m))
    case SendWaiting(m', base, at) => m' == m && base >= |a.answers| && PostedSince(a, s, at, m)
    case _ => false
  }

  predicate Since(a: State, after: After, m: Item) {
    after.ThenWait? && after.item == m && after.base >= |a.answers|
  }

  predicate PostedSince(a: State, s: State, at: nat, m: Item) {
    |a.accepted| <= at < |s.accepted| && s.accepted[at] == m
  }

  /** The result of a send begun in state a: posted by this call, and answered since unless it was woken spuriously. */
  ghost predicate SendResult(a: State, s: State, m: Item, r: SendReturn) {
    && r.item == m && r.base >= |a.answers|
    && (r.ok <==> r.cause in {FlagSeen, Woken(Signalled), Woken(Spurious)})
    && (r.ok ==> PostedSince(a, s, r.at, m))
    && (r.ok && r.cause != Woken(Spurious) ==> AnsweredSince(s.answers, m, |a.answers|))
  }

  predicate InSend(op: Op) {
    op.SendResetting? || AfterOf(op).ThenWait? || op.SendWaiting?
  }

  predicate InSendAlong(s: State, steps: seq<Step>, t: Tid)
    decreases |steps|
  {
    InSend(Th(s, t).op)
    && (steps != [] ==> Apply(s, steps[0]).Some? && InSendAlong(Apply(s, steps[0]).value, steps[1..], t))
  }

  /** Answers and accepted messages only get more. */
  predicate Grows(s: State, s': State) {
    s.answers <= s'.answers && s.accepted <= s'.accepted
  }

  lemma {:induction false} StepGrows(s: State, step: Step, s': State)
    requires Apply(s, step) == Some(s')
    ensures Grows(s, s')
  {}

  lemma {:induction false} OtherInSend(a: State, s: State, u: Tid, choice: Choice, s': State, t: Tid, m: Item)
    requires u != t && SendSoFar(a, s, t, m) && Grows(s, s') && Apply(s, Step(u, choice)) == Some(s')
    ensures SendSoFar(a, s', t, m)
  {
    OtherKeepsBase(s, u, choice, s', t);
  }

  lemma {:induction false} OtherKeepsBase(s: State, u: Tid, choice: Choice, s': State, t: Tid)
    requires u != t && Apply(s, Step(u, choice)) == Some(s')
    ensures Th(s', t).op == Th(s, t).op && (Th(s', t).phase.Leaving? ==> Th(s, t).phase.Leaving?)
  {}

  lemma {:induction false} SendOp(a: State, s: State, t: Tid, m: Item, choice: Choice, eff: OpEffect)
    requires Grows(a, s) && SendSoFar(a, s, t, m) && Th(s, t).phase.Outside?
    requires OpStep(s.lock, s.queue, |s.accepted|, t, Th(s, t).op, choice) == Some(eff)
    ensures InSend(eff.thread.op) ==> SendSoFar(a, CommitOp(s, t, eff), t, m) && eff.completes == []
    ensures !InSend(eff.thread.op) ==> |eff.completes| == 1 && SendResult(a, CommitOp(s, t, eff), m, eff.completes[0])
  {}

  /** What a sender carries through a step inside an event method, and what it completes. */
  ghost predicate SendCallFacts(th: Thread, n: nat, eff: CallEffect) {
    && (th.op.SendResetting? ==>
          eff.completes == []
          && if eff.thread.op.SendResetting?
             then eff.thread.op.m == th.op.m
                  && (eff.thread.phase.Leaving? ==> eff.thread.op.base == n)
             else
               && th.phase.Leaving?
               && eff.thread.op == PostLock(Some(th.op.m), ThenWait(th.op.m, th.op.base, 0, th.op.limit)))
    && (th.op.PostSetting? ==>
          eff.completes == [] && (eff.thread.op == th.op || eff.thread.op == PostUnlock(Posted, th.op.after)))
    && (th.op.SendWaiting? ==>
          if eff.thread.op == th.op then eff.completes == []
          else
            && th.phase.Leaving? && eff.thread == Thread(Idle, Outside)
            && eff.completes == [SendReturn(th.op.m, th.op.base, th.op.at, th.phase.code.Success?, th.phase.cause)])
  }

  lemma {:induction false} SendCallStep(ev: Event, n: nat, t: Tid, th: Thread, choice: Choice, eff: CallEffect)
    requires Fits(th) && CallStep(ev, n, t, th.op, th.phase, choice) == Some(eff)
    ensures SendCallFacts(th, n, eff)
  {}

  lemma {:induction false} SendCall(a: State, s: State, t: Tid, m: Item, choice: Choice, e: EventId, eff: CallEffect)
    requires Inv(s) && Grows(a, s) && SendSoFar(a, s, t, m) && !Th(s, t).phase.Outside? && e == EventOf(Th(s, t).op)
    requires CallStep(Ev(s, e), |s.answers|, t, Th(s, t).op, Th(s, t).phase, choice) == Some(eff)
    ensures InSend(eff.thread.op) ==> SendSoFar(a, CommitCall(s, t, e, eff), t, m) && eff.completes == []
    ensures !InSend(eff.thread.op) ==>
              |eff.completes| == 1 && SendResult(a, CommitCall(s, t, e, eff), m, eff.completes[0])
  {
    assert ThreadOk(s, t);
    var th := Th(s, t);
    SendCallStep(Ev(s, e), |s.answers|, t, th, choice, eff);
    if th.op.SendWaiting? && eff.thread.op != th.op {
      SendReturns(a, s, t, m, th, CommitCall(s, t, e, eff), eff.completes[0]);
    }
  }

  lemma {:induction false} SendReturns(a: State, s: State, t: Tid, m: Item, th: Thread, s': State, r: SendReturn)
    requires ThreadOk(s, t) && SendSoFar(a, s, t, m) && th == Th(s, t) && th.op.SendWaiting? && th.phase.Leaving?
    requires s'.accepted == s.accepted && s.answers <= s'.answers
    requires r == SendReturn(m, th.op.base, th.op.at, th.phase.code.Success?, th.phase.cause)
    ensures SendResult(a, s', m, r)
  {
    if WasSignalled(th.phase) {
      AnsweredMonotone(s.answers, s'.answers[|s.answers|..], m, th.op.base, |a.answers|);
      assert s.answers + s'.answers[|s.answers|..] == s'.answers;
    }
  }

  lemma {:induction false} SendGoesOn(a: State, s: State, steps: seq<Step>, s': State, t: Tid, m: Item)
    requires Inv(s) && Grows(a, s) && SendSoFar(a, s, t, m)
    requires InSendAlong(s, steps, t) && Run(s, steps) == Some(s')
    ensures Inv(s') && Grows(a, s') && SendSoFar(a, s', t, m)
    decreases |steps|
  {
    if steps != [] {
      var s1 := Apply(s, steps[0]).value;
      StepKeepsInv(s, steps[0], s1);
      StepGrows(s, steps[0], s1);
      SendStep(a, s, steps[0], s1, t, m);
      SendGoesOn(a, s1, steps[1..], s', t, m);
    }
  }

  lemma {:induction false} SendStep(a: State, s: State, step: Step, s': State, t: Tid, m: Item)
    requires Inv(s) && Grows(a, s) && Grows(s, s') && SendSoFar(a, s, t, m)
    requires Apply(s, step) == Some(s') && InSend(Th(s', t).op)
    ensures SendSoFar(a, s', t, m)
  {
    var th := Th(s, t);
    if step.tid != t {
      OtherInSend(a, s, step.tid, step.choice, s', t, m);
    } else if th.phase.Outside? {
      SendOp(a, s, t, m, step.choice, OpStep(s.lock, s.queue, |s.accepted|, t, th.op, step.choice).value);
    } else {
      var e := EventOf(th.op);
      SendCall(a, s, t, m, step.choice, e, CallStep(Ev(s, e), |s.answers|, t, th.op, th.phase, step.choice).value);
    }
  }

  lemma {:induction false} OneMoreSend(sends: seq<SendReturn>, more: seq<SendReturn>)
    requires |more| == 1
    ensures |sends + more| == |sends| + 1 && (sends + more)[..|sends|] == sends && (sends + more)[|sends|] == more[0]
  {}

  lemma {:induction false} EndsIdle(ev: Event, n: nat, t: Tid, th: Thread, choice: Choice, eff: CallEffect)
    requires Fits(th) && InSend(th.op) && CallStep(ev, n, t, th.op, th.phase, choice) == Some(eff)
    requires !InSend(eff.thread.op)
    ensures eff.thread == Thread(Idle, Outside)
  {
    SendCallStep(ev, n, t, th, choice, eff);
  }

  lemma {:induction false} LastSendStep(a: State, s: State, t: Tid, m: Item, last: Choice, s': State)
    requires Inv(s) && Grows(a, s) && SendSoFar(a, s, t, m)
    requires Apply(s, Step(t, last)) == Some(s') && !InSend(Th(s', t).op)
    ensures Th(s', t) == Thread(Idle, Outside)
    ensures |s'.sends| == |s.sends| + 1 && s'.sends[..|s.sends|] == s.sends
    ensures SendResult(a, s', m, s'.sends[|s.sends|])
  {
    var th := Th(s, t);
    assert ThreadOk(s, t);
    if th.phase.Outside? {
      var eff := OpStep(s.lock, s.queue, |s.accepted|, t, th.op, last).value;
      SendOp(a, s, t, m, last, eff);
      OneMoreSend(s.sends, eff.completes);
    } else {
      var e := EventOf(th.op);
      var eff := CallStep(Ev(s, e), |s.answers|, t, th.op, th.phase, last).value;
      SendCall(a, s, t, m, last, e, eff);
      OneMoreSend(s.sends, eff.completes);
      EndsIdle(Ev(s, e), |s.answers|, t, th, last, eff);
    }
  }

  /**
   * In every interleaving: a SendMessage begun in state a and ending with the last step has one result. It is success
   * exactly if the wait saw the flag or was woken; then the item was posted by this call; and it was answered after the
   * call began unless the wake-up was spurious.
   */
  lemma {:induction false} SendEndsWithAnswer(begun: seq<Step>, a: State, x: Item, limit: Option<int>, s1: State,
                                              steps: seq<Step>, s: State, t: Tid, last: Choice, s': State)
    requires Run(INIT, begun) == Some(a) && Th(a, t) == Thread(Idle, Outside)
    requires Apply(a, Step(t, BeginSend(Some(x), limit))) == Some(s1)
    requires InSendAlong(s1, steps, t) && Run(s1, steps) == Some(s)
    requires Apply(s, Step(t, last)) == Some(s') && !InSend(Th(s', t).op)
    ensures Th(s', t) == Thread(Idle, Outside)
    ensures |s'.sends| == |s.sends| + 1 && s'.sends[..|s.sends|] == s.sends
    ensures SendResult(a, s', x, s'.sends[|s.sends|])
  {
    InvInit();
    RunKeepsInv(INIT, begun, a);
    CallsBegin(a, t, BeginSend(Some(x), limit), s1);
    StepKeepsInv(a, Step(t, BeginSend(Some(x), limit)), s1);
    SendGoesOn(a, s1, steps, s, t, x);
    LastSendStep(a, s, t, x, last, s');
  }

  // ---------- RemoveAllMessage ----------

  /** RemoveAllMessage takes the lock, leaves nothing in the queue, whose messages all count as cleared, and unlocks. */
  lemma {:induction false} ClearEmpties(s: State, t: Tid, choice: Choice, s': State)
    requires Inv(s) && Apply(s, Step(t, choice)) == Some(s')
    ensures Th(s, t).op == ClearLock ==> SameQueue(s, s') && Th(s', t).op == ClearHolding && s'.lock == Some(t)
    ensures Th(s, t).op == ClearHolding ==>
              && s'.queue == [] && Th(s', t).op == ClearUnlock
              && |s'.removed| == |s.removed| + |s.queue| && s'.removed[..|s.removed|] == s.removed
              && forall k :: 0 <= k < |s.queue| ==> s'.removed[|s.removed| + k] == Cleared(s.queue[k])
    ensures Th(s, t).op == ClearUnlock ==> SameQueue(s, s') && Th(s', t).op == Idle && s'.lock == None
  {
    assert ThreadOk(s, t);
    ClearedOnly(s.queue);
    assert s.removed + [] == s.removed;
  }
}
