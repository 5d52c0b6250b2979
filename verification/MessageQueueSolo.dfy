/**
 * One thread of the message queue running while the others pause, and how a spurious wake-up ends its
 * SendMessage too early.
 */
module MessageQueueSolo {
  import opened Basics
  import opened MessageQueue
  import opened MessageQueueSafety

  /** What thread t can see of the state while it works on item m. */
  datatype View = View(th: Thread, lock: Option<Tid>, queue: seq<Item>, accepted: seq<Item>, answers: seq<Reply>,
                       sends: seq<SendReturn>, queueEvent: Event, itemEvent: Event)

  function ViewOf(s: State, t: Tid, m: Item): View {
    View(Th(s, t), s.lock, s.queue, s.accepted, s.answers, s.sends, Ev(s, QueueEvent), Ev(s, ItemEvent(m)))
  }

  function Append<T(==)>(a: seq<T>, b: seq<T>): (r: seq<T>)
    ensures r == a + b
  {
    if b == [] then a else a + b
  }

  function ViewStep(v: View, t: Tid, choice: Choice): Option<View> {
    if v.th.phase.Outside? then
      match OpStep(v.lock, v.queue, |v.accepted|, t, v.th.op, choice)
      case None => None
      case Some(eff) =>
        Some(v.(th := eff.thread, lock := eff.lock, queue := eff.queue, accepted := Append(v.accepted, eff.accepts),
                sends := Append(v.sends, eff.completes)))
    else
      match CallStep(if EventOf(v.th.op).QueueEvent? then v.queueEvent else v.itemEvent, |v.answers|, t, v.th.op,
                     v.th.phase, choice)
      case None => None
      case Some(eff) =>
        var v1 := v.(th := eff.thread, answers := Append(v.answers, eff.answers),
                     sends := Append(v.sends, eff.completes));
        Some(if EventOf(v.th.op).QueueEvent? then v1.(queueEvent := eff.event) else v1.(itemEvent := eff.event))
  }

  /** After the schedule, thread t working on item m sees v. */
  predicate Sees(s: State, steps: seq<Step>, t: Tid, m: Item, v: View) {
    Run(s, steps).Some? && ViewOf(Run(s, steps).value, t, m) == v
  }

  /** One more step of thread t at the end of a schedule, seen through its view. */
  lemma {:induction false} Extend(s: State, steps: seq<Step>, t: Tid, m: Item, v: View, choice: Choice, v': View)
    returns (more: seq<Step>)
    requires Sees(s, steps, t, m, v) && ViewStep(v, t, choice) == Some(v')
    requires v.th.phase.Outside? || EventOf(v.th.op) in {QueueEvent, ItemEvent(m)}
    ensures Sees(s, more, t, m, v')
  {
    more := steps + [Step(t, choice)];
    var s1 := Run(s, steps).value;
    RunConcat(s, steps, [Step(t, choice)]);
    assert [Step(t, choice)][1..] == [];
    assert Run(s1, [Step(t, choice)]) == Apply(s1, Step(t, choice));
  }

  lemma {:induction false} RunConcat(s: State, a: seq<Step>, b: seq<Step>)
    requires Run(s, a).Some?
    ensures Run(s, a + b) == Run(Run(s, a).value, b)
    decreases |a|
  {
    if a == [] {
      assert a + b == b;
    } else {
      assert (a + b)[1..] == a[1..] + b;
      RunConcat(Apply(s, a[0]).value, a[1..], b);
    }
  }

  // ---------- PostMessage ----------

  lemma {:induction false} AppendAlone(s: State, begun: seq<Step>, t: Tid, m: Item, after: After, v: View)
    returns (steps: seq<Step>)
    requires Sees(s, begun, t, m, v) && v.th == Thread(PostLock(Some(m), after), Outside)
    requires v.lock == None && |v.queue| < MSG_QUEUE_MAX_ITEM_NUM
    ensures Sees(s, steps, t, m, v.(lock := Some(t), queue := v.queue + [m], accepted := v.accepted + [m],
                                    th := Thread(PostSetting(m, PlacedAt(after, |v.accepted|)), Entering(SetEvent))))
  {
    var v1 := v.(lock := Some(t), th := Thread(PostHolding(Some(m), after), Outside));
    steps := Extend(s, begun, t, m, v, Go, v1);
    steps := Extend(s, steps, t, m, v1, Go,
                    v1.(queue := v.queue + [m], accepted := v.accepted + [m],
                        th := Thread(PostSetting(m, PlacedAt(after, |v.accepted|)), Entering(SetEvent))));
  }

  lemma {:induction false} SetAlone(s: State, begun: seq<Step>, t: Tid, m: Item, after: After, v: View)
    returns (steps: seq<Step>)
    requires Sees(s, begun, t, m, v) && v.th == Thread(PostSetting(m, after), Entering(SetEvent))
    requires v.queueEvent.mutex == None && (v.queueEvent.hasEvent ==> v.queueEvent.waiters == {})
    ensures Sees(s, steps, t, m, v.(queueEvent := Event(true, Some(t), {}),
                                    th := Thread(PostSetting(m, after), Leaving(Success, FlagSeen))))
  {
    var op := PostSetting(m, after);
    var v1 := v.(queueEvent := v.queueEvent.(mutex := Some(t)), th := Thread(op, Inside(SetEvent)));
    var v3 := v1.(queueEvent := Event(true, Some(t), {}), th := Thread(op, Leaving(Success, FlagSeen)));
    steps := Extend(s, begun, t, m, v, Go, v1);
    if v.queueEvent.hasEvent {
      steps := Extend(s, steps, t, m, v1, Go, v3);
    } else {
      var v2 := v1.(queueEvent := v1.queueEvent.(hasEvent := true), th := Thread(op, Broadcasting));
      steps := Extend(s, steps, t, m, v1, Go, v2);
      steps := Extend(s, steps, t, m, v2, Go, v3);
    }
  }

  lemma {:induction false} UnlockAlone(s: State, begun: seq<Step>, t: Tid, m: Item, after: After, v: View)
    returns (steps: seq<Step>)
    requires Sees(s, begun, t, m, v) && v.th == Thread(PostSetting(m, after), Leaving(Success, FlagSeen))
    ensures Sees(s, steps, t, m,
                 v.(queueEvent := v.queueEvent.(mutex := None), lock := None, th := PostedThread(after)))
  {
    var v1 := v.(queueEvent := v.queueEvent.(mutex := None), th := Thread(PostUnlock(Posted, after), Outside));
    steps := Extend(s, begun, t, m, v, Go, v1);
    steps := Extend(s, steps, t, m, v1, Go, v1.(lock := None, th := PostedThread(after)));
  }

  function PostedThread(after: After): Thread {
    if after.Alone? then Thread(Idle, Outside)
    else Thread(SendWaiting(after.item, after.base, after.at), Entering(WaitEvent(after.limit)))
  }

  /** A post that finds room appends its message, sets the flag and leaves nobody in the wait set. */
  lemma {:induction false} PostAlone(s: State, begun: seq<Step>, t: Tid, m: Item, after: After, v: View)
    returns (steps: seq<Step>)
    requires Sees(s, begun, t, m, v) && EventShape(Run(s, begun).value, QueueEvent)
    requires v.th == Thread(PostLock(Some(m), after), Outside) && v.lock == None && v.queueEvent.mutex == None
    requires |v.queue| < MSG_QUEUE_MAX_ITEM_NUM
    ensures Sees(s, steps, t, m, v.(queue := v.queue + [m], accepted := v.accepted + [m],
                                    queueEvent := Event(true, None, {}),
                                    th := PostedThread(PlacedAt(after, |v.accepted|))))
  {
    var placed := PlacedAt(after, |v.accepted|);
    var v1 := v.(lock := Some(t), queue := v.queue + [m], accepted := v.accepted + [m],
                 th := Thread(PostSetting(m, placed), Entering(SetEvent)));
    steps := AppendAlone(s, begun, t, m, after, v);
    steps := SetAlone(s, steps, t, m, placed, v1);
    steps := UnlockAlone(s, steps, t, m, placed,
                         v1.(queueEvent := Event(true, Some(t), {}),
                             th := Thread(PostSetting(m, placed), Leaving(Success, FlagSeen))));
  }

  // ---------- the exception to the rendezvous is real ----------

  lemma {:induction false} ResetBodyAlone(s: State, begun: seq<Step>, t: Tid, m: Item, v: View)
    returns (steps: seq<Step>)
    requires Sees(s, begun, t, m, v) && v.th == Thread(SendResetting(m, None, 0), Inside(ResetEvent))
    ensures Sees(s, steps, t, m, v.(itemEvent := v.itemEvent.(hasEvent := false, mutex := None),
                                    th := Thread(PostLock(Some(m), ThenWait(m, |v.answers|, 0, None)), Outside)))
  {
    var v3 := v.(itemEvent := v.itemEvent.(hasEvent := false),
                 th := Thread(SendResetting(m, None, |v.answers|), Leaving(Success, FlagAbsent)));
    steps := Extend(s, begun, t, m, v, Go, v3);
    steps := Extend(s, steps, t, m, v3, Go,
                    v3.(itemEvent := v3.itemEvent.(mutex := None),
                        th := Thread(PostLock(Some(m), ThenWait(m, |v.answers|, 0, None)), Outside)));
  }

  lemma {:induction false} ResetAlone(s: State, t: Tid, m: Item, v: View) returns (steps: seq<Step>)
    requires v == ViewOf(s, t, m) && v.th == Thread(Idle, Outside) && v.itemEvent.mutex == None
    ensures Sees(s, steps, t, m, v.(itemEvent := v.itemEvent.(hasEvent := false),
                                    th := Thread(PostLock(Some(m), ThenWait(m, |v.answers|, 0, None)), Outside)))
  {
    var op := SendResetting(m, None, 0);
    var v1 := v.(th := Thread(op, Entering(ResetEvent)));
    var v2 := v1.(itemEvent := v.itemEvent.(mutex := Some(t)), th := Thread(op, Inside(ResetEvent)));
    steps := Extend(s, [], t, m, v, BeginSend(Some(m), None), v1);
    steps := Extend(s, steps, t, m, v1, Go, v2);
    steps := ResetBodyAlone(s, steps, t, m, v2);
  }

  /** A sender about to wait for its unanswered item can fall asleep and be woken spuriously. */
  lemma {:induction false} SleepAlone(s: State, begun: seq<Step>, t: Tid, m: Item, base: nat, at: nat, v: View)
    returns (steps: seq<Step>)
    requires Sees(s, begun, t, m, v) && v.th == Thread(SendWaiting(m, base, at), Entering(WaitEvent(None)))
    requires v.itemEvent.mutex == None && !v.itemEvent.hasEvent
    ensures Sees(s, steps, t, m, v.(itemEvent := v.itemEvent.(waiters := v.itemEvent.waiters - {t}),
                                    th := Thread(SendWaiting(m, base, at), Roused(None, Spurious))))
  {
    var op := SendWaiting(m, base, at);
    var v1 := v.(itemEvent := v.itemEvent.(mutex := Some(t)), th := Thread(op, Inside(WaitEvent(None))));
    var v2 := v.(itemEvent := v.itemEvent.(waiters := v.itemEvent.waiters + {t}), th := Thread(op, Asleep(None)));
    steps := Extend(s, begun, t, m, v, Go, v1);
    steps := Extend(s, steps, t, m, v1, Go, v2);
    assert v.itemEvent.waiters + {t} - {t} == v.itemEvent.waiters - {t};
    steps := Extend(s, steps, t, m, v2, Rouse(Spurious),
                    v.(itemEvent := v.itemEvent.(waiters := v.itemEvent.waiters - {t}),
                       th := Thread(op, Roused(None, Spurious))));
  }

  lemma {:induction false} WakeAlone(s: State, begun: seq<Step>, t: Tid, m: Item, base: nat, at: nat, v: View)
    returns (steps: seq<Step>)
    requires Sees(s, begun, t, m, v) && v.th == Thread(SendWaiting(m, base, at), Roused(None, Spurious))
    requires v.itemEvent.mutex == None && !v.itemEvent.hasEvent
    ensures Sees(s, steps, t, m, v.(th := Thread(Idle, Outside),
                                    sends := v.sends + [SendReturn(m, base, at, true, Woken(Spurious))]))
  {
    var op := SendWaiting(m, base, at);
    var v1 := v.(itemEvent := v.itemEvent.(mutex := Some(t)), th := Thread(op, Relocked(None, Spurious)));
    var v2 := v1.(th := Thread(op, Leaving(Success, Woken(Spurious))));
    steps := Extend(s, begun, t, m, v, Go, v1);
    steps := Extend(s, steps, t, m, v1, Go, v2);
    steps := Extend(s, steps, t, m, v2, Go,
                    v.(th := Thread(Idle, Outside),
                       sends := v.sends + [SendReturn(m, base, at, true, Woken(Spurious))]));
  }

  /**
   * From every state in which the locks are free and the queue has room, an idle thread has a schedule in which
   * its SendMessage returns success although its message is still queued and nobody answered it.
   */
  lemma {:induction false} SpuriousSendExists(s: State, t: Tid, m: Item) returns (steps: seq<Step>)
    requires Inv(s) && Th(s, t) == Thread(Idle, Outside) && s.lock == None && |s.queue| < MSG_QUEUE_MAX_ITEM_NUM
    requires Ev(s, QueueEvent).mutex == None && Ev(s, ItemEvent(m)).mutex == None
    ensures Run(s, steps).Some?
    ensures var s' := Run(s, steps).value;
            && s'.sends == s.sends + [SendReturn(m, |s.answers|, |s.accepted|, true, Woken(Spurious))]
            && s'.queue == s.queue + [m] && s'.answers == s.answers
  {
    var v := ViewOf(s, t, m);
    var after := ThenWait(m, |s.answers|, 0, None);
    steps := ResetAlone(s, t, m, v);
    RunKeepsInv(s, steps, Run(s, steps).value);
    assert EventOk(Run(s, steps).value, QueueEvent);
    var v1 := v.(itemEvent := v.itemEvent.(hasEvent := false), th := Thread(PostLock(Some(m), after), Outside));
    steps := PostAlone(s, steps, t, m, after, v1);
    var v2 := v1.(queue := v.queue + [m], accepted := v.accepted + [m], queueEvent := Event(true, None, {}),
                  th := PostedThread(PlacedAt(after, |s.accepted|)));
    steps := SleepAlone(s, steps, t, m, |s.answers|, |s.accepted|, v2);
    steps := WakeAlone(s, steps, t, m, |s.answers|, |s.accepted|,
                       v2.(itemEvent := v2.itemEvent.(waiters := v2.itemEvent.waiters - {t}),
                           th := Thread(SendWaiting(m, |s.answers|, |s.accepted|), Roused(None, Spurious))));
  }
}
