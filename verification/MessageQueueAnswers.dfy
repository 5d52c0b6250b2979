/** The event of a message item tells exactly whether the item was answered, and so does the end of a SendMessage. */
module MessageQueueAnswers {
  import opened Basics
  import opened MessageQueue
  import opened MessageQueueSafety

  /** A clear flag means that nobody has answered since the last reset. */
  ghost predicate ClearMeansUnanswered(s: State, e: EventId) {
    e.ItemEvent? && !Ev(s, e).hasEvent ==> !AnsweredSince(s.answers, e.item, ResetAt(s.lastReset, e.item))
  }

  /**
   * On the way out and still holding the mutex, a sender that did not see the flag leaves it clear, and a poster or
   * handler leaves it set.
   */
  predicate LeaverOk(ev: Event, th: Thread) {
    && (th.op.SendWaiting? && th.phase.Leaving? && th.phase.cause != FlagSeen ==> !ev.hasEvent)
    && ((th.op.PostSetting? || th.op.Answering?) && th.phase.Leaving? ==> ev.hasEvent)
  }

  ghost predicate FlagsExact(s: State) {
    && (forall e: EventId :: ClearMeansUnanswered(s, e))
    && (forall t: Tid :: LeaverOk(Ev(s, EventOf(Th(s, t).op)), Th(s, t)))
  }

  lemma {:induction false} CallStepLeaves(ev: Event, n: nat, t: Tid, th: Thread, choice: Choice, eff: CallEffect)
    requires Fits(th) && CallerOk(ev, t, th) && CallStep(ev, n, t, th.op, th.phase, choice) == Some(eff)
    ensures LeaverOk(eff.event, eff.thread)
  {}

  lemma {:induction false} OnlyOneMore(answers: seq<Reply>, more: seq<Reply>, m: Item, base: nat)
    requires !AnsweredSince(answers, m, base)
    requires forall k :: 0 <= k < |more| ==> more[k].item != m
    ensures !AnsweredSince(answers + more, m, base)
  {
    forall k | base <= k < |answers + more| ensures (answers + more)[k].item != m {
      assert k < |answers| ==> answers[k].item != m;
    }
  }

  lemma {:induction false} CallKeepsClear(s: State, t: Tid, th: Thread, e: EventId, eff: CallEffect, d: EventId)
    requires th == Th(s, t) && e == EventOf(th.op) && Fits(th) && !th.phase.Outside?
    requires CallLog(Ev(s, e), |s.answers|, t, th, eff) && ClearMeansUnanswered(s, d)
    ensures ClearMeansUnanswered(CommitCall(s, t, e, eff), d)
  {
    var s' := CommitCall(s, t, e, eff);
    if d.ItemEvent? && !Ev(s', d).hasEvent && !(d == e && th.phase == Inside(ResetEvent)) {
      assert !Ev(s, d).hasEvent && d.item !in eff.resets;
      assert ResetAt(s'.lastReset, d.item) == ResetAt(s.lastReset, d.item);
      OnlyOneMore(s.answers, eff.answers, d.item, ResetAt(s.lastReset, d.item));
    }
  }

  lemma {:induction false} OtherKeepsLeaver(s: State, t: Tid, e: EventId, eff: CallEffect, u: Tid)
    requires u != t && e == EventOf(Th(s, t).op) && !Th(s, t).phase.Outside?
    requires PlaceOk(s, t) && PlaceOk(s, u) && EventShape(s, e)
    requires CallLog(Ev(s, e), |s.answers|, t, Th(s, t), eff)
    requires LeaverOk(Ev(s, EventOf(Th(s, u).op)), Th(s, u))
    ensures LeaverOk(Ev(CommitCall(s, t, e, eff), EventOf(Th(s, u).op)), Th(CommitCall(s, t, e, eff), u))
  {
    OthersAfter(s, t, e, eff, u);
  }

  lemma {:induction false} StepKeepsExact(s: State, step: Step, s': State)
    requires Inv(s) && FlagsExact(s) && Apply(s, step) == Some(s')
    ensures FlagsExact(s')
  {
    var t := step.tid;
    var th := Th(s, t);
    assert ThreadOk(s, t) && LeaverOk(Ev(s, EventOf(th.op)), th);
    if th.phase.Outside? {
      var eff := OpStep(s.lock, s.queue, |s.accepted|, t, th.op, step.choice).value;
      OpStepFacts(s, t, step.choice, eff);
      OpKeepsExact(s, t, eff);
    } else {
      var e := EventOf(th.op);
      var eff := CallStep(Ev(s, e), |s.answers|, t, th.op, th.phase, step.choice).value;
      CallStepLog(Ev(s, e), |s.answers|, t, th, step.choice, eff);
      CallStepFacts(Ev(s, e), |s.answers|, t, th, step.choice, eff);
      CallStepLeaves(Ev(s, e), |s.answers|, t, th, step.choice, eff);
      CallKeepsExact(s, t, e, eff);
    }
  }

  lemma {:induction false} OpKeepsExact(s: State, t: Tid, eff: OpEffect)
    requires FlagsExact(s) && OpFacts(s, t, eff)
    ensures FlagsExact(CommitOp(s, t, eff))
  {
    var s' := CommitOp(s, t, eff);
    forall e: EventId ensures ClearMeansUnanswered(s', e) {
      assert ClearMeansUnanswered(s, e);
    }
    forall u: Tid ensures LeaverOk(Ev(s', EventOf(Th(s', u).op)), Th(s', u)) {
      assert LeaverOk(Ev(s, EventOf(Th(s, u).op)), Th(s, u));
    }
  }

  lemma {:induction false} CallKeepsExact(s: State, t: Tid, e: EventId, eff: CallEffect)
    requires Inv(s) && FlagsExact(s) && e == EventOf(Th(s, t).op) && !Th(s, t).phase.Outside?
    requires CallFacts(Ev(s, e), t, Th(s, t), eff) && CallLog(Ev(s, e), |s.answers|, t, Th(s, t), eff)
    requires LeaverOk(eff.event, eff.thread)
    ensures FlagsExact(CommitCall(s, t, e, eff))
  {
    var s' := CommitCall(s, t, e, eff);
    assert ThreadOk(s, t) && EventOk(s, e);
    forall d: EventId ensures ClearMeansUnanswered(s', d) {
      assert ClearMeansUnanswered(s, d);
      CallKeepsClear(s, t, Th(s, t), e, eff, d);
    }
    forall u: Tid ensures LeaverOk(Ev(s', EventOf(Th(s', u).op)), Th(s', u)) {
      if u != t {
        assert ThreadOk(s, u) && LeaverOk(Ev(s, EventOf(Th(s, u).op)), Th(s, u));
        OthersAfter(s, t, e, eff, u);
        OtherKeepsLeaver(s, t, e, eff, u);
      }
    }
  }

  lemma {:induction false} RunKeepsExact(s: State, steps: seq<Step>, s': State)
    requires Inv(s) && FlagsExact(s) && Run(s, steps) == Some(s')
    ensures FlagsExact(s')
    decreases |steps|
  {
    if steps != [] {
      var s1 := Apply(s, steps[0]).value;
      StepKeepsInv(s, steps[0], s1);
      StepKeepsExact(s, steps[0], s1);
      RunKeepsExact(s1, steps[1..], s');
    }
  }

  /** In every reachable state the flag of an item is set exactly if somebody has answered since the last reset. */
  lemma {:induction false} FlagMeansAnswered(steps: seq<Step>, s: State, m: Item)
    requires Run(INIT, steps) == Some(s)
    ensures Ev(s, ItemEvent(m)).hasEvent <==> AnsweredSince(s.answers, m, ResetAt(s.lastReset, m))
  {
    InvInit();
    RunKeepsInv(INIT, steps, s);
    RunKeepsExact(INIT, steps, s);
    assert EventOk(s, ItemEvent(m)) && ClearMeansUnanswered(s, ItemEvent(m));
  }

  /**
   * A SendMessage about to return, whose item nobody else has reset in between: it was answered exactly if its wait saw
   * the flag. So one that was woken spuriously returns success although nobody has answered.
   */
  lemma {:induction false} SendIsAnsweredExactly(steps: seq<Step>, s: State, t: Tid, s': State)
    requires Run(INIT, steps) == Some(s) && Apply(s, Step(t, Go)) == Some(s')
    requires Th(s, t).op.SendWaiting? && Th(s, t).phase.Leaving?
    requires ResetAt(s.lastReset, Th(s, t).op.m) == Th(s, t).op.base
    ensures var th := Th(s, t);
            && s'.sends == s.sends + [SendReturn(th.op.m, th.op.base, th.op.at, th.phase.code.Success?, th.phase.cause)]
            && s'.answers == s.answers
            && (AnsweredSince(s.answers, th.op.m, th.op.base) <==> th.phase.cause == FlagSeen)
  {
    var th := Th(s, t);
    InvInit();
    RunKeepsInv(INIT, steps, s);
    RunKeepsExact(INIT, steps, s);
    assert ThreadOk(s, t) && LeaverOk(Ev(s, EventOf(th.op)), th) && ClearMeansUnanswered(s, ItemEvent(th.op.m));
    assert s.answers + [] == s.answers;
  }

  // ---------- a whole call of a handler ----------

  predicate RepliedSince(answers: seq<Reply>, m: Item, t: Tid, base: nat) {
    Reply(m, t) in answers[if base < |answers| then base else |answers|..]
  }

  predicate AnsweringAlong(s: State, steps: seq<Step>, t: Tid)
    decreases |steps|
  {
    Th(s, t).op.Answering?
    && (steps != [] ==> Apply(s, steps[0]).Some? && AnsweringAlong(Apply(s, steps[0]).value, steps[1..], t))
  }

  predicate Answered(p: Phase) {
    p.Broadcasting? || p.Leaving?
  }

  predicate AnswerSoFar(s: State, t: Tid, m: Item, base: nat) {
    && base <= |s.answers| && Th(s, t).op == Answering(m)
    && (Answered(Th(s, t).phase) ==> RepliedSince(s.answers, m, t, base))
  }

  lemma {:induction false} MoreReplies(answers: seq<Reply>, more: seq<Reply>, all: seq<Reply>, m: Item, t: Tid,
                                       base: nat)
    requires all == answers + more && base <= |answers|
    ensures RepliedSince(answers, m, t, base) ==> RepliedSince(all, m, t, base)
    ensures Reply(m, t) in more ==> RepliedSince(all, m, t, base)
  {
    assert all[base..] == answers[base..] + more;
  }

  lemma {:induction false} AnswerCall(ev: Event, n: nat, t: Tid, th: Thread, choice: Choice, eff: CallEffect, m: Item)
    requires Fits(th) && th.op == Answering(m) && CallStep(ev, n, t, th.op, th.phase, choice) == Some(eff)
    ensures eff.thread.op == th.op || (th.phase.Leaving? && eff.thread == Thread(Idle, Outside))
    ensures Answered(eff.thread.phase) && !Answered(th.phase) ==> Reply(m, t) in eff.answers
    ensures th.phase.Leaving? ==> eff.thread == Thread(Idle, Outside)
  {}

  lemma {:induction false} AnswerStep(s: State, step: Step, s': State, t: Tid, m: Item, base: nat)
    requires Inv(s) && AnswerSoFar(s, t, m, base) && Apply(s, step) == Some(s') && Th(s', t).op.Answering?
    ensures AnswerSoFar(s', t, m, base)
  {
    var u := step.tid;
    var th := Th(s, u);
    assert PlaceOk(s, u) by { assert ThreadOk(s, u); }
    if th.phase.Outside? {
      var eff := OpStep(s.lock, s.queue, |s.accepted|, u, th.op, step.choice).value;
    } else {
      var e := EventOf(th.op);
      var eff := CallStep(Ev(s, e), |s.answers|, u, th.op, th.phase, step.choice).value;
      MoreReplies(s.answers, eff.answers, s'.answers, m, t, base);
      if u == t {
        AnswerCall(Ev(s, e), |s.answers|, t, th, step.choice, eff, m);
      }
    }
  }

  lemma {:induction false} AnswerGoesOn(s: State, steps: seq<Step>, s': State, t: Tid, m: Item, base: nat)
    requires Inv(s) && AnswerSoFar(s, t, m, base) && AnsweringAlong(s, steps, t) && Run(s, steps) == Some(s')
    ensures Inv(s') && AnswerSoFar(s', t, m, base)
    decreases |steps|
  {
    if steps != [] {
      var s1 := Apply(s, steps[0]).value;
      StepKeepsInv(s, steps[0], s1);
      AnswerStep(s, steps[0], s1, t, m, base);
      AnswerGoesOn(s1, steps[1..], s', t, m, base);
    }
  }

  /**
   * In every interleaving: a handler that answers its item has, when it returns, given that answer since it began, and
   * at its last step the item's flag is set and nobody sleeps on it.
   */
  lemma {:induction false} AnswerWakesSenders(begun: seq<Step>, a: State, m: Item, s1: State, steps: seq<Step>,
                                              s: State, t: Tid, last: Choice, s': State)
    requires Run(INIT, begun) == Some(a) && Th(a, t) == Thread(Handling(m), Outside)
    requires Apply(a, Step(t, Answer)) == Some(s1)
    requires AnsweringAlong(s1, steps, t) && Run(s1, steps) == Some(s)
    requires Apply(s, Step(t, last)) == Some(s') && !Th(s', t).op.Answering?
    ensures Th(s', t) == Thread(Idle, Outside) && RepliedSince(s'.answers, m, t, |a.answers|)
    ensures Ev(s, ItemEvent(m)).hasEvent && Ev(s, ItemEvent(m)).waiters == {}
  {
    InvInit();
    RunKeepsInv(INIT, begun, a);
    RunKeepsExact(INIT, begun, a);
    StepKeepsInv(a, Step(t, Answer), s1);
    StepKeepsExact(a, Step(t, Answer), s1);
    assert s1.answers == a.answers && Th(s1, t) == Thread(Answering(m), Entering(SetEvent));
    AnswerGoesOn(s1, steps, s, t, m, |a.answers|);
    RunKeepsExact(s1, steps, s);
    AnswerEnds(s, t, m, |a.answers|, last, s');
  }

  lemma {:induction false} AnswerEnds(s: State, t: Tid, m: Item, base: nat, last: Choice, s': State)
    requires Inv(s) && FlagsExact(s) && AnswerSoFar(s, t, m, base)
    requires Apply(s, Step(t, last)) == Some(s') && !Th(s', t).op.Answering?
    ensures Th(s', t) == Thread(Idle, Outside) && RepliedSince(s'.answers, m, t, base)
    ensures Ev(s, ItemEvent(m)).hasEvent && Ev(s, ItemEvent(m)).waiters == {}
  {
    var th := Th(s, t);
    var e := ItemEvent(m);
    assert ThreadOk(s, t) && EventOk(s, e) && LeaverOk(Ev(s, EventOf(th.op)), th);
    var eff := CallStep(Ev(s, e), |s.answers|, t, th.op, th.phase, last).value;
    AnswerCall(Ev(s, e), |s.answers|, t, th, last, eff, m);
    MoreReplies(s.answers, eff.answers, s'.answers, m, t, base);
  }

  /** A thread that carries a message may answer it or let it go; it does not come back to it. */
  lemma {:induction false} HandlerChooses(s: State, t: Tid, m: Item, choice: Choice, s': State)
    requires Th(s, t) == Thread(Handling(m), Outside) && Apply(s, Step(t, choice)) == Some(s')
    ensures if choice.Answer? then Th(s', t) == Thread(Answering(m), Entering(SetEvent))
            else choice.Discard? && Th(s', t) == Thread(Idle, Outside)
  {}
}
