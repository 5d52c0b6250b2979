/**
 * The message queue between threads as a step system.
 *
 * Every thread runs PostMessage, SendMessage, GetMessage, GetMessageTimeout, PeekMessage,
 * WaitMessageTimeout, RemoveAllMessage or a message handler; one step is one action on a shared
 * object (take a lock, test or change the event flag, broadcast, enter the wait set, wake up,
 * release a lock). The two kinds of lock are modelled separately: the list lock of the queue and
 * the mutex inside every event. Threads are numbered, and any number of them may run.
 */
module MessageQueue {
  import opened Basics

  type Tid = nat
  type Item = nat

  const MSG_QUEUE_MAX_ITEM_NUM := 1000

  /** The event of the queue, and the "processed" event that every message item owns. */
  datatype EventId = QueueEvent | ItemEvent(item: Item)

  datatype Event = Event(hasEvent: bool, mutex: Option<Tid>, waiters: set<Tid>)

  /** The methods of an event; a wait may carry a limit in milliseconds. */
  datatype Call = SetEvent | ResetEvent | WaitEvent(limit: Option<int>)

  /**
   * How a condition wait ended. Spurious also stands for an unexpected error code, which the code treats as success.
   */
  datatype Wake = Signalled | Spurious | Expired | Interrupted | Again

  datatype Code = Success | Timeout | SignalInterrupt

  /** What an event call saw when it decided to return. */
  datatype Cause = FlagSeen | FlagAbsent | Woken(why: Wake)

  /** Where a thread is inside an event call. */
  datatype Phase =
    | Outside
    | Entering(call: Call)                       // about to lock the mutex
    | Inside(call: Call)                         // holds the mutex
    | Broadcasting                               // holds the mutex, flag already set
    | Asleep(limit: Option<int>)                 // in the wait set, mutex released
    | Roused(limit: Option<int>, why: Wake)      // out of the wait set, about to lock the mutex again
    | Relocked(limit: Option<int>, why: Wake)    // holds the mutex after a wait
    | Leaving(code: Code, cause: Cause)          // holds the mutex, about to release it

  /**
   * A post on its own, or the one inside SendMessage with the number of answers known when it began and,
   * once its message is accepted, that message's place among the accepted ones.
   */
  datatype After = Alone | ThenWait(item: Item, base: nat, at: nat, limit: Option<int>)

  datatype PostCode = Posted | InvalidParameter | Busy

  datatype GetMode = Get | GetTimeout(ms: int) | Peek | WaitOnly(ms: int)

  /** Where a thread is in a method of the queue. */
  datatype Op =
    | Idle
    | PostLock(x: Option<Item>, after: After)
    | PostHolding(x: Option<Item>, after: After)
    | PostSetting(m: Item, after: After)                       // in SetEvent on the queue event
    | PostUnlock(code: PostCode, after: After)
    | SendResetting(m: Item, limit: Option<int>, base: nat)    // in ResetEvent on the item
    | SendWaiting(m: Item, base: nat, at: nat)                 // in WaitEvent on the item
    | GetLock(mode: GetMode)
    | GetHolding(mode: GetMode)
    | GetResetting(mode: GetMode)                              // in ResetEvent on the queue event
    | GetEmptied(mode: GetMode)
    | GetWaiting(mode: GetMode)                                // in WaitEvent on the queue event
    | GetUnlock(mode: GetMode, got: Option<Item>)
    | ClearLock
    | ClearHolding
    | ClearUnlock
    | Handling(m: Item)
    | Answering(m: Item)                                       // in SetEvent on the item

  datatype Thread = Thread(op: Op, phase: Phase)

  /** A message that left the queue: taken by a thread, or dropped by RemoveAllMessage. */
  datatype Removal = Taken(item: Item, taker: Tid) | Cleared(item: Item)

  /** A handler's call of SetEvent on the event of an item. */
  datatype Reply = Reply(item: Item, handler: Tid)

  /** One completed SendMessage. */
  datatype SendReturn = SendReturn(item: Item, base: nat, at: nat, ok: bool, cause: Cause)

  /** The shared objects, the threads, and in the last five fields the history of the run. */
  datatype State = State(
    lock: Option<Tid>,
    queue: seq<Item>,
    events: map<EventId, Event>,
    threads: map<Tid, Thread>,
    accepted: seq<Item>,
    removed: seq<Removal>,
    answers: seq<Reply>,
    lastReset: map<Item, nat>,
    sends: seq<SendReturn>)

  const INIT := State(None, [], map[], map[], [], [], [], map[], [])

  /** Resolves the choices that are not the program's: what an idle thread starts, and how a wait ends. */
  datatype Choice =
    | Go
    | BeginPost(x: Option<Item>)
    | BeginSend(x: Option<Item>, limit: Option<int>)
    | BeginGet(mode: GetMode)
    | BeginClear
    | Answer
    | Discard
    | Rouse(why: Wake)
    | TimeUp

  datatype Step = Step(tid: Tid, choice: Choice)

  function Ev(s: State, e: EventId): Event {
    if e in s.events then s.events[e] else Event(false, None, {})
  }

  function Th(s: State, t: Tid): Thread {
    if t in s.threads then s.threads[t] else Thread(Idle, Outside)
  }

  function ResetAt(lastReset: map<Item, nat>, m: Item): nat {
    if m in lastReset then lastReset[m] else 0
  }

  function EventOf(op: Op): EventId {
    match op
    case SendResetting(m, _, _) => ItemEvent(m)
    case SendWaiting(m, _, _) => ItemEvent(m)
    case Answering(m) => ItemEvent(m)
    case _ => QueueEvent
  }

  function LimitOf(mode: GetMode): Option<int> {
    match mode
    case GetTimeout(ms) => Some(ms)
    case WaitOnly(ms) => Some(ms)
    case _ => None
  }

  /** The effect of a step outside the event methods: new lock and queue, and what the history gains. */
  datatype OpEffect = OpEffect(lock: Option<Tid>, queue: seq<Item>, thread: Thread,
                               accepts: seq<Item>, removes: seq<Removal>, completes: seq<SendReturn>)

  /** The effect of a step inside an event method on that event, and what the history gains. */
  datatype CallEffect = CallEffect(event: Event, thread: Thread, wakes: bool,
                                   answers: seq<Reply>, resets: set<Item>, completes: seq<SendReturn>)

  /** One step of one thread; None when the thread cannot make it now. */
  function Apply(s: State, step: Step): Option<State> {
    var t := step.tid;
    var th := Th(s, t);
    if th.phase.Outside? then
      match OpStep(s.lock, s.queue, |s.accepted|, t, th.op, step.choice)
      case None => None
      case Some(eff) => Some(CommitOp(s, t, eff))
    else
      match CallStep(Ev(s, EventOf(th.op)), |s.answers|, t, th.op, th.phase, step.choice)
      case None => None
      case Some(eff) => Some(CommitCall(s, t, EventOf(th.op), eff))
  }

  function CommitOp(s: State, t: Tid, eff: OpEffect): State {
    s.(lock := eff.lock, queue := eff.queue, threads := s.threads[t := eff.thread],
       accepted := s.accepted + eff.accepts, removed := s.removed + eff.removes, sends := s.sends + eff.completes)
  }

  function CommitCall(s: State, t: Tid, e: EventId, eff: CallEffect): State {
    var woken := if eff.wakes then WakeAll(s.threads, Ev(s, e).waiters) else s.threads;
    s.(events := s.events[e := eff.event], threads := woken[t := eff.thread], answers := s.answers + eff.answers,
       lastReset := s.lastReset + map m | m in eff.resets :: |s.answers|, sends := s.sends + eff.completes)
  }

  /** The broadcast: everybody in the wait set is on the way back to the mutex. */
  function WakeAll(threads: map<Tid, Thread>, waiters: set<Tid>): map<Tid, Thread> {
    map t | t in threads :: if t in waiters then WakeOne(threads[t]) else threads[t]
  }

  function WakeOne(th: Thread): Thread {
    if th.phase.Asleep? then th.(phase := Roused(th.phase.limit, Signalled)) else th
  }

  // ---------- the methods of the queue ----------

  function OpStep(lock: Option<Tid>, queue: seq<Item>, posted: nat, t: Tid, op: Op, choice: Choice): Option<OpEffect> {
    if op.Idle? then BeginStep(lock, queue, choice)
    else if op.Handling? then
      if choice.Answer? then Some(Moves(lock, queue, Thread(Answering(op.m), Entering(SetEvent))))
      else if choice.Discard? then Some(Moves(lock, queue, Thread(Idle, Outside)))
      else None
    else if op.GetEmptied? && op.mode.WaitOnly? && choice.TimeUp? then
      Some(Moves(lock, queue, Thread(GetUnlock(op.mode, None), Outside)))
    else if !choice.Go? then None
    else
      match op
      case PostLock(x, after) => TakeLock(lock, queue, t, PostHolding(x, after))
      case PostHolding(x, after) => Some(PostBody(lock, queue, posted, x, after))
      case PostUnlock(code, after) => Some(AfterPost(queue, code, after))
      case GetLock(mode) => TakeLock(lock, queue, t, GetHolding(mode))
      case GetHolding(mode) => Some(GetBody(lock, queue, t, mode))
      case GetEmptied(mode) => Some(Moves(None, queue, Thread(GetWaiting(mode), Entering(WaitEvent(LimitOf(mode))))))
      case GetUnlock(_, got) =>
        Some(Moves(None, queue, Thread(if got.Some? then Handling(got.value) else Idle, Outside)))
      case ClearLock => TakeLock(lock, queue, t, ClearHolding)
      case ClearHolding => Some(OpEffect(lock, [], Thread(ClearUnlock, Outside), [], ClearedAll(queue), []))
      case ClearUnlock => Some(Moves(None, queue, Thread(Idle, Outside)))
      case _ => None
  }

  function Moves(lock: Option<Tid>, queue: seq<Item>, th: Thread): OpEffect {
    OpEffect(lock, queue, th, [], [], [])
  }

  function TakeLock(lock: Option<Tid>, queue: seq<Item>, t: Tid, next: Op): Option<OpEffect> {
    if lock == None then Some(Moves(Some(t), queue, Thread(next, Outside))) else None
  }

  function ClearedAll(items: seq<Item>): seq<Removal> {
    if items == [] then [] else [Cleared(items[0])] + ClearedAll(items[1..])
  }

  function BeginStep(lock: Option<Tid>, queue: seq<Item>, choice: Choice): Option<OpEffect> {
    match choice
    case BeginPost(x) => Some(Moves(lock, queue, Thread(PostLock(x, Alone), Outside)))
    case BeginSend(x, limit) =>
      Some(Moves(lock, queue,
                 if x.None? then Thread(Idle, Outside)
                 else Thread(SendResetting(x.value, limit, 0), Entering(ResetEvent))))
    case BeginGet(mode) => Some(Moves(lock, queue, Thread(GetLock(mode), Outside)))
    case BeginClear => Some(Moves(lock, queue, Thread(ClearLock, Outside)))
    case _ => None
  }

  /** PostMessage under the list lock: refuse a null or an excess message, else append it. */
  function PostBody(lock: Option<Tid>, queue: seq<Item>, posted: nat, x: Option<Item>, after: After): OpEffect {
    if x.None? then Moves(lock, queue, Thread(PostUnlock(InvalidParameter, after), Outside))
    else if MSG_QUEUE_MAX_ITEM_NUM <= |queue| then Moves(lock, queue, Thread(PostUnlock(Busy, after), Outside))
    else
      OpEffect(lock, queue + [x.value], Thread(PostSetting(x.value, PlacedAt(after, posted)), Entering(SetEvent)),
               [x.value], [], [])
  }

  /** A sender remembers which accepted message is its own. */
  function PlacedAt(after: After, posted: nat): After {
    if after.ThenWait? then after.(at := posted) else after
  }

  function AfterPost(queue: seq<Item>, code: PostCode, after: After): OpEffect {
    match after
    case Alone => Moves(None, queue, Thread(Idle, Outside))
    case ThenWait(m, base, at, limit) =>
      if code.Posted? then Moves(None, queue, Thread(SendWaiting(m, base, at), Entering(WaitEvent(limit))))
      else OpEffect(None, queue, Thread(Idle, Outside), [], [], [SendReturn(m, base, at, false, FlagAbsent)])
  }

  /** The getters under the list lock: take the head, or reset the event of the empty queue. */
  function GetBody(lock: Option<Tid>, queue: seq<Item>, t: Tid, mode: GetMode): OpEffect {
    if queue != [] then
      if mode.WaitOnly? then Moves(lock, queue, Thread(GetUnlock(mode, None), Outside))
      else OpEffect(lock, queue[1..], Thread(GetUnlock(mode, Some(queue[0])), Outside), [], [Taken(queue[0], t)], [])
    else if mode.Peek? then Moves(lock, queue, Thread(GetUnlock(mode, None), Outside))
    else Moves(lock, queue, Thread(GetResetting(mode), Entering(ResetEvent)))
  }

  // ---------- the methods of an event ----------

  function CallStep(ev: Event, answered: nat, t: Tid, op: Op, phase: Phase, choice: Choice): Option<CallEffect> {
    if phase.Asleep? then
      if choice.Rouse? && choice.why != Signalled && (choice.why in {Expired, Interrupted} ==> phase.limit.Some?) then
        Some(Stays(ev.(waiters := ev.waiters - {t}), op, Roused(phase.limit, choice.why)))
      else None
    else if phase.Relocked? then RelockedStep(ev, t, op, phase.limit, phase.why, choice)
    else if !choice.Go? then None
    else
      match phase
      case Entering(call) => if ev.mutex == None then Some(Stays(ev.(mutex := Some(t)), op, Inside(call))) else None
      case Inside(call) =>
        (match call
         case SetEvent => Some(SetBody(ev, t, op))
         case ResetEvent => Some(ResetBody(ev, answered, op))
         case WaitEvent(limit) => Some(WaitBody(ev, t, op, limit)))
      case Broadcasting =>
        Some(CallEffect(ev.(waiters := {}), Thread(op, Leaving(Success, FlagSeen)), true, [], {}, []))
      case Roused(limit, why) =>
        if ev.mutex == None then Some(Stays(ev.(mutex := Some(t)), op, Relocked(limit, why))) else None
      case Leaving(code, cause) => Some(Return(ev.(mutex := None), op, code, cause))
      case _ => None
  }

  function Stays(ev: Event, op: Op, phase: Phase): CallEffect {
    CallEffect(ev, Thread(op, phase), false, [], {}, [])
  }

  /** SetEvent under its mutex. A set made by a handler is recorded as an answer to that item. */
  function SetBody(ev: Event, t: Tid, op: Op): CallEffect {
    var answers := if op.Answering? then [Reply(op.m, t)] else [];
    if ev.hasEvent then CallEffect(ev, Thread(op, Leaving(Success, FlagSeen)), false, answers, {}, [])
    else CallEffect(ev.(hasEvent := true), Thread(op, Broadcasting), false, answers, {}, [])
  }

  /** ResetEvent under its mutex. A sender remembers how many answers there were when it reset its item. */
  function ResetBody(ev: Event, answered: nat, op: Op): CallEffect {
    if op.SendResetting? then
      CallEffect(ev.(hasEvent := false), Thread(SendResetting(op.m, op.limit, answered), Leaving(Success, FlagAbsent)),
                 false, [], {op.m}, [])
    else Stays(ev.(hasEvent := false), op, Leaving(Success, FlagAbsent))
  }

  function WaitBody(ev: Event, t: Tid, op: Op, limit: Option<int>): CallEffect {
    if ev.hasEvent then Stays(ev, op, Leaving(Success, FlagSeen))
    else if limit.Some? && limit.value <= 0 then Stays(ev, op, Leaving(Timeout, FlagAbsent))
    else FallAsleep(ev, t, op, limit)
  }

  function FallAsleep(ev: Event, t: Tid, op: Op, limit: Option<int>): CallEffect {
    Stays(ev.(mutex := None, waiters := ev.waiters + {t}), op, Asleep(limit))
  }

  function RelockedStep(ev: Event, t: Tid, op: Op, limit: Option<int>, why: Wake, choice: Choice): Option<CallEffect> {
    if !(choice.Go? || choice.TimeUp?) then None
    else if ev.hasEvent then Some(Stays(ev, op, Leaving(Success, FlagSeen)))
    else if why.Again? && choice.Go? then Some(FallAsleep(ev, t, op, limit))
    else if why.Again? && limit.None? then None
    else
      var code :=
        if why.Signalled? || why.Spurious? then Success
        else if why.Interrupted? then SignalInterrupt
        else Timeout;
      Some(Stays(ev, op, Leaving(code, Woken(why))))
  }

  /** What the caller of an event method does with its result. */
  function Return(ev: Event, op: Op, code: Code, cause: Cause): CallEffect {
    match op
    case PostSetting(m, after) => Stays(ev, PostUnlock(Posted, after), Outside)
    case SendResetting(m, limit, base) => Stays(ev, PostLock(Some(m), ThenWait(m, base, 0, limit)), Outside)
    case SendWaiting(m, base, at) =>
      CallEffect(ev, Thread(Idle, Outside), false, [], {}, [SendReturn(m, base, at, code.Success?, cause)])
    case GetResetting(mode) => Stays(ev, GetEmptied(mode), Outside)
    case GetWaiting(mode) => Stays(ev, if code.Success? then GetLock(mode) else Idle, Outside)
    case _ => Stays(ev, Idle, Outside)
  }

  /** A whole schedule; None when one of its steps cannot be made. */
  function Run(s: State, steps: seq<Step>): Option<State>
    decreases |steps|
  {
    if steps == [] then Some(s)
    else
      match Apply(s, steps[0])
      case None => None
      case Some(s1) => Run(s1, steps[1..])
  }
}
