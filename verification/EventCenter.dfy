/** The one-shot timers of the event loop: a list kept in deadline order, and the search for a free timer id. */
module EventCenter {
  import opened Basics
  import opened IdCounter

  const ALLOWED_MAX_TIMER_CNT := 512
  const TWO_TO_THE_64 := 0x1_0000_0000_0000_0000

  type uint64 = x: int | 0 <= x < TWO_TO_THE_64

  datatype Code = Success | NoMoreResource | OutOfRange | NotFound

  /** A timer in the list. The stamp counts earlier registrations; the program does not store it, the claims use it. */
  datatype Timer = Timer(id: uint32, timeout: uint32, start: uint64, stamp: nat)

  function Deadline(t: Timer): nat {
    t.start + t.timeout
  }

  // ---------- what the scanning loops compute ----------

  predicate HasId(ts: seq<Timer>, id: uint32) {
    exists i :: 0 <= i < |ts| && ts[i].id == id
  }

  function IndexOfId(ts: seq<Timer>, id: uint32): (i: nat)
    ensures i <= |ts|
    ensures i < |ts| ==> ts[i].id == id
    ensures forall j :: 0 <= j < i ==> ts[j].id != id
  {
    if ts == [] then 0 else if ts[0].id == id then 0 else 1 + IndexOfId(ts[1..], id)
  }

  /** The j-th id tried from c on, counting round at 32 bits. */
  function Candidate(c: uint32, j: nat): uint32 {
    Wrap32(c + j)
  }

  predicate Taken(ts: seq<Timer>, c: uint32, j: nat) {
    HasId(ts, Candidate(c, j))
  }

  lemma {:induction false} CandidatesDiffer(c: uint32, i: nat, j: nat)
    requires i < j < i + TWO_TO_THE_32
    ensures Candidate(c, i) != Candidate(c, j)
  {}

  lemma {:induction false} NextCandidate(c: uint32, j: nat)
    ensures Candidate(c, 0) == c
    ensures Wrap32(Candidate(c, j) + 1) == Candidate(c, j + 1)
  {
    WrapNext(c + j);
  }

  /** How many candidates from c on are taken before the first free one; at most 512. */
  function TakenFrom(ts: seq<Timer>, c: uint32, k: nat): (r: nat)
    requires k <= ALLOWED_MAX_TIMER_CNT
    ensures k <= r <= ALLOWED_MAX_TIMER_CNT
    ensures forall j :: k <= j < r ==> Taken(ts, c, j)
    ensures r < ALLOWED_MAX_TIMER_CNT ==> !Taken(ts, c, r)
    decreases ALLOWED_MAX_TIMER_CNT - k
  {
    if k == ALLOWED_MAX_TIMER_CNT || !Taken(ts, c, k) then k else TakenFrom(ts, c, k + 1)
  }

  /** The remaining time in the 64-bit arithmetic of RegisterTimer. */
  function LeftAt(t: Timer, now: uint64): uint32 {
    var elapsed := (now - t.start) % TWO_TO_THE_64;
    if t.timeout >= elapsed then t.timeout - elapsed else 0
  }

  /** Where a new timer goes: before the first timer with more time left. */
  function InsertPos(ts: seq<Timer>, timeout: uint32, now: uint64): (i: nat)
    ensures i <= |ts|
    ensures forall j :: 0 <= j < i ==> LeftAt(ts[j], now) <= timeout
    ensures i < |ts| ==> LeftAt(ts[i], now) > timeout
  {
    if ts == [] then 0 else if LeftAt(ts[0], now) > timeout then 0 else 1 + InsertPos(ts[1..], timeout, now)
  }

  /** The elapsed time as the wait and the expiry read it: cut to 32 bits. */
  function Elapsed32(t: Timer, now: uint64): uint32 {
    Wrap32(now - t.start)
  }

  predicate Expired(t: Timer, now: uint64) {
    Elapsed32(t, now) >= t.timeout
  }

  function FirstExpired(ts: seq<Timer>, now: uint64): (i: nat)
    ensures i <= |ts|
    ensures i < |ts| ==> Expired(ts[i], now)
    ensures forall j :: 0 <= j < i ==> !Expired(ts[j], now)
  {
    if ts == [] then 0 else if Expired(ts[0], now) then 0 else 1 + FirstExpired(ts[1..], now)
  }

  function RebaseOne(t: Timer, now: uint64): Timer {
    if t.start > now then t.(start := now) else t
  }

  function Rebase(ts: seq<Timer>, now: uint64): (r: seq<Timer>)
    ensures |r| == |ts| && forall i :: 0 <= i < |ts| ==> r[i] == RebaseOne(ts[i], now)
  {
    if ts == [] then [] else [RebaseOne(ts[0], now)] + Rebase(ts[1..], now)
  }

  // ---------- one call, as a function of the state ----------

  datatype State = State(timers: seq<Timer>, lastId: uint32, registered: nat)

  function NewId(s: State): uint32 {
    Candidate(NextId(s.lastId), TakenFrom(s.timers, NextId(s.lastId), 0))
  }

  function InsertAt(ts: seq<Timer>, i: nat, t: Timer): seq<Timer>
    requires i <= |ts|
  {
    ts[..i] + [t] + ts[i..]
  }

  function RemoveAt(ts: seq<Timer>, i: nat): seq<Timer>
    requires i < |ts|
  {
    ts[..i] + ts[i + 1..]
  }

  function AfterRegister(s: State, timeout: uint32, now: uint64): State {
    if |s.timers| >= ALLOWED_MAX_TIMER_CNT then s
    else
      var t := Timer(NewId(s), timeout, now, s.registered);
      State(InsertAt(s.timers, InsertPos(s.timers, timeout, now), t), t.id, s.registered + 1)
  }

  function AfterUnregister(s: State, id: uint32): State {
    var i := IndexOfId(s.timers, id);
    if i < |s.timers| then s.(timers := RemoveAt(s.timers, i)) else s
  }

  function AfterExpire(s: State, now: uint64): State {
    var i := FirstExpired(s.timers, now);
    if i < |s.timers| then s.(timers := RemoveAt(s.timers, i)) else s
  }

  function AfterWait(s: State, now: uint64): State {
    s.(timers := Rebase(s.timers, now))
  }

  function WaitOf(head: Timer, now: uint64): uint32 {
    if Expired(head, now) then 0 else head.timeout - Elapsed32(head, now)
  }

  // ---------- the program ----------

  class Center {
    var timers: seq<Timer>
    var lastId: uint32
    /** How many timers were ever registered; read by the claims only. */
    var registered: nat

    ghost function Abstract(): State
      reads this
    {
      State(timers, lastId, registered)
    }

    constructor ()
      ensures Abstract() == State([], 0, 0)
    {
      timers, lastId, registered := [], 0, 0;
    }

    /** Counts the last id up, looks for a free id from there on and inserts the timer by its remaining time. */
    method RegisterTimer(timeout: uint32, now: uint64) returns (code: Code, id: uint32)
      modifies this
      ensures Abstract() == AfterRegister(old(Abstract()), timeout, now)
      ensures code == if |old(timers)| >= 512 then NoMoreResource else Success
      ensures code == Success ==> id == NewId(old(Abstract())) && !HasId(old(timers), id)
    {
      if ALLOWED_MAX_TIMER_CNT <= |timers| {
        return NoMoreResource, 0;
      }
      ghost var s := Abstract();
      lastId := Wrap32(lastId + 1);
      code, id := FindFreeId(s.lastId);
      InsertByTimeLeft(Timer(id, timeout, now, registered));
      lastId := id;
      registered := registered + 1;
    }

    /** Tries ids from the counted-up last id on, and 1 instead of 0 at the start. */
    method FindFreeId(ghost last: uint32) returns (code: Code, id: uint32)
      requires |timers| < ALLOWED_MAX_TIMER_CNT && lastId == Wrap32(last + 1)
      ensures code == Success
      ensures id == Candidate(NextId(last), TakenFrom(timers, NextId(last), 0)) && !HasId(timers, id)
    {
      id := lastId;
      if id == 0 {
        id := 1;
      }
      ghost var c := id;
      ghost var k := 0;
      NextCandidate(c, 0);
      while true
        invariant 0 <= k <= |timers| && id == Candidate(c, k)
        invariant forall j :: 0 <= j < k ==> Taken(timers, c, j)
        decreases |timers| - k
      {
        var found := FindId(id);
        if !found {
          TakenFromIs(timers, c, k);
          return Success, id;
        }
        assert Taken(timers, c, k);
        TakenIdsFit(timers, c, k + 1);
        NextCandidate(c, k);
        id := Wrap32(id + 1);
        k := k + 1;
        NeverBackAtStart(last, k);
        if id == lastId {
          code := OutOfRange;
          assert false;
          return;
        }
      }
    }

    /** Inserts before the first timer that has more time left than the new one. */
    method InsertByTimeLeft(t: Timer)
      modifies this`timers
      ensures timers == InsertAt(old(timers), InsertPos(old(timers), t.timeout, t.start), t)
    {
      var i := 0;
      while i < |timers| && LeftAt(timers[i], t.start) <= t.timeout
        invariant i <= |timers| && timers == old(timers)
        invariant forall j :: 0 <= j < i ==> LeftAt(timers[j], t.start) <= t.timeout
      {
        i := i + 1;
      }
      InsertPosIs(timers, t.timeout, t.start, i);
      timers := timers[..i] + [t] + timers[i..];
    }

    method FindId(id: uint32) returns (found: bool)
      ensures found == HasId(timers, id)
    {
      var i := 0;
      while i < |timers|
        invariant i <= |timers|
        invariant forall j :: 0 <= j < i ==> timers[j].id != id
      {
        if timers[i].id == id {
          return true;
        }
        i := i + 1;
      }
      return false;
    }

    method UnregisterTimer(id: uint32) returns (code: Code)
      modifies this
      ensures Abstract() == AfterUnregister(old(Abstract()), id)
      ensures code == if HasId(old(timers), id) then Success else NotFound
    {
      var i := 0;
      while i < |timers|
        invariant i <= |timers| && timers == old(timers) && Abstract() == old(Abstract())
        invariant forall j :: 0 <= j < i ==> timers[j].id != id
      {
        if timers[i].id == id {
          timers := timers[..i] + timers[i + 1..];
          return Success;
        }
        i := i + 1;
      }
      return NotFound;
    }

    /** The timeout for select: rebases timers that start in the future, then looks at the head alone. */
    method GetMinTimerWaitTimeMs(now: uint64) returns (code: Code, wait: uint32)
      modifies this
      ensures Abstract() == AfterWait(old(Abstract()), now)
      ensures code == if timers == [] then NotFound else Success
      ensures timers != [] ==> wait == WaitOf(timers[0], now)
    {
      var i := 0;
      while i < |timers|
        invariant i <= |timers| == |old(timers)|
        invariant lastId == old(lastId) && registered == old(registered)
        invariant forall j :: 0 <= j < i ==> timers[j] == RebaseOne(old(timers)[j], now)
        invariant forall j :: i <= j < |timers| ==> timers[j] == old(timers)[j]
      {
        if timers[i].start > now {
          timers := timers[i := timers[i].(start := now)];
        }
        i := i + 1;
      }
      assert timers == Rebase(old(timers), now);
      if timers == [] {
        return NotFound, 0;
      }
      var elapsed := Wrap32(now - timers[0].start);
      if elapsed >= timers[0].timeout {
        wait := 0;
      } else {
        wait := timers[0].timeout - elapsed;
      }
      code := Success;
    }

    /** Hands out the first timer in the list that has expired. */
    method GetTimerMessage(now: uint64) returns (code: Code, id: uint32)
      modifies this
      ensures Abstract() == AfterExpire(old(Abstract()), now)
      ensures code == if FirstExpired(old(timers), now) < |old(timers)| then Success else NotFound
      ensures code == Success ==> id == old(timers)[FirstExpired(old(timers), now)].id
    {
      var i := 0;
      while i < |timers|
        invariant i <= |timers| && Abstract() == old(Abstract())
        invariant forall j :: 0 <= j < i ==> !Expired(timers[j], now)
      {
        var elapsed := Wrap32(now - timers[i].start);
        if elapsed >= timers[i].timeout {
          id := timers[i].id;
          timers := timers[..i] + timers[i + 1..];
          return Success, id;
        }
        i := i + 1;
      }
      return NotFound, 0;
    }
  }

  // ---------- ids ----------

  /** Pigeonhole: k consecutive ids can all be taken only by at least k timers. */
  lemma {:induction false} TakenIdsFit(ts: seq<Timer>, c: uint32, k: nat)
    requires k <= TWO_TO_THE_32
    requires forall j :: 0 <= j < k ==> Taken(ts, c, j)
    ensures k <= |ts|
    decreases k
  {
    if k > 0 {
      assert Taken(ts, c, k - 1);
      var i :| 0 <= i < |ts| && ts[i].id == Candidate(c, k - 1);
      var rest := RemoveAt(ts, i);
      forall j | 0 <= j < k - 1 ensures Taken(rest, c, j) {
        assert Taken(ts, c, j);
        var m :| 0 <= m < |ts| && ts[m].id == Candidate(c, j);
        CandidatesDiffer(c, j, k - 1);
        assert rest[if m < i then m else m - 1] == ts[m];
      }
      TakenIdsFit(rest, c, k - 1);
    }
  }

  /** The exit for a search that went all the way round is never taken. */
  lemma {:induction false} NeverBackAtStart(lastId: uint32, k: nat)
    requires 1 <= k <= ALLOWED_MAX_TIMER_CNT
    ensures Candidate(NextId(lastId), k) != Wrap32(lastId + 1)
  {}

  lemma {:induction false} TakenFromIs(ts: seq<Timer>, c: uint32, k: nat)
    requires k < ALLOWED_MAX_TIMER_CNT && !Taken(ts, c, k)
    requires forall j :: 0 <= j < k ==> Taken(ts, c, j)
    ensures TakenFrom(ts, c, 0) == k
  {
  }

  lemma {:induction false} InsertPosIs(ts: seq<Timer>, timeout: uint32, now: uint64, i: nat)
    requires i <= |ts| && (i < |ts| ==> LeftAt(ts[i], now) > timeout)
    requires forall j :: 0 <= j < i ==> LeftAt(ts[j], now) <= timeout
    ensures InsertPos(ts, timeout, now) == i
  {}

  /** With room for one more timer the search ends within as many probes as there are live timers, on a free id. */
  lemma {:induction false} NewIdIsFree(s: State)
    requires |s.timers| < ALLOWED_MAX_TIMER_CNT
    ensures TakenFrom(s.timers, NextId(s.lastId), 0) <= |s.timers|
    ensures !HasId(s.timers, NewId(s))
  {
    TakenIdsFit(s.timers, NextId(s.lastId), TakenFrom(s.timers, NextId(s.lastId), 0));
  }

  ghost predicate AllTakenFrom(ts: seq<Timer>, c: uint32) {
    forall id: uint32 :: c <= id ==> HasId(ts, id)
  }

  lemma {:induction false} TakenUpToEnd(ts: seq<Timer>, c: uint32, k: nat)
    requires c + k == TWO_TO_THE_32
    ensures (forall j :: 0 <= j < k ==> Taken(ts, c, j)) <==> AllTakenFrom(ts, c)
  {
    if forall j :: 0 <= j < k ==> Taken(ts, c, j) {
      forall id: uint32 | c <= id ensures HasId(ts, id) {
        assert Taken(ts, c, id - c) && Candidate(c, id - c) == id;
      }
    }
    if AllTakenFrom(ts, c) {
      forall j | 0 <= j < k ensures Taken(ts, c, j) {
        assert Candidate(c, j) == c + j && HasId(ts, c + j);
      }
    }
  }

  lemma {:induction false} CandidateIsZero(c: uint32, r: nat)
    requires 1 <= c && r < TWO_TO_THE_32
    ensures Candidate(c, r) == 0 <==> c + r == TWO_TO_THE_32
  {}

  lemma {:induction false} TakenToEndOnly(ts: seq<Timer>, c: uint32)
    requires 1 <= c && |ts| < ALLOWED_MAX_TIMER_CNT && AllTakenFrom(ts, c) && !HasId(ts, 0)
    ensures c + TakenFrom(ts, c, 0) == TWO_TO_THE_32
  {
    var k := TWO_TO_THE_32 - c;
    TakenUpToEnd(ts, c, k);
    TakenIdsFit(ts, c, k);
    CandidateIsZero(c, k);
    TakenFromIs(ts, c, k);
  }

  /**
   * Exactly when the new id is 0: the first candidate passes over 0 but the later ones do not, so it takes live timers
   * on all ids from there to the last one, and none on 0.
   */
  lemma {:induction false} NewIdIsZeroExactly(s: State)
    requires |s.timers| < ALLOWED_MAX_TIMER_CNT
    ensures NewId(s) == 0 <==> AllTakenFrom(s.timers, NextId(s.lastId)) && !HasId(s.timers, 0)
  {
    var ts, c := s.timers, NextId(s.lastId);
    var r := TakenFrom(ts, c, 0);
    NewIdIsFree(s);
    CandidateIsZero(c, r);
    if c + r == TWO_TO_THE_32 {
      TakenUpToEnd(ts, c, r);
    } else if AllTakenFrom(ts, c) && !HasId(ts, 0) {
      TakenToEndOnly(ts, c);
    }
  }

  // ---------- order ----------

  /** By deadline, and equal deadlines in the order of registration. */
  predicate Before(a: Timer, b: Timer) {
    Deadline(a) < Deadline(b) || (Deadline(a) == Deadline(b) && a.stamp < b.stamp)
  }

  ghost predicate Ordered(ts: seq<Timer>) {
    && (forall i, j :: 0 <= i < j < |ts| ==> Before(ts[i], ts[j]))
    && (forall i, j :: 0 <= i < j < |ts| ==> ts[i].id != ts[j].id)
  }

  /** The timers were all registered before now, and before that many registrations. */
  predicate MadeBefore(ts: seq<Timer>, now: uint64, registered: nat) {
    forall i :: 0 <= i < |ts| ==> ts[i].start <= now && ts[i].stamp < registered
  }

  /** What holds at time clock, after any number of calls. */
  ghost predicate Inv(s: State, clock: uint64) {
    && |s.timers| <= ALLOWED_MAX_TIMER_CNT
    && Ordered(s.timers)
    && MadeBefore(s.timers, clock, s.registered)
  }

  /** With a clock that did not step back, comparing the times left is comparing deadlines. */
  lemma {:induction false} LeftComparesDeadlines(t: Timer, timeout: uint32, now: uint64)
    requires t.start <= now
    ensures LeftAt(t, now) <= timeout <==> Deadline(t) <= now + timeout
  {}

  lemma {:induction false} InsertedAt(ts: seq<Timer>, p: nat, t: Timer, j: nat)
    requires p <= |ts| && j <= |ts|
    ensures InsertAt(ts, p, t)[j] == if j < p then ts[j] else if j == p then t else ts[j - 1]
  {}

  lemma {:induction false} InsertKeepsOrder(ts: seq<Timer>, p: nat, t: Timer)
    requires Ordered(ts) && p <= |ts|
    requires forall j :: 0 <= j < |ts| ==> ts[j].id != t.id && if j < p then Before(ts[j], t) else Before(t, ts[j])
    ensures Ordered(InsertAt(ts, p, t))
  {
  }

  /** Before the place of a new timer stand exactly those whose deadline is not later. */
  lemma {:induction false} PlacedByDeadline(ts: seq<Timer>, timeout: uint32, now: uint64, j: nat)
    requires Ordered(ts) && (forall i :: 0 <= i < |ts| ==> ts[i].start <= now) && j < |ts|
    ensures j < InsertPos(ts, timeout, now) <==> Deadline(ts[j]) <= now + timeout
  {
    var p := InsertPos(ts, timeout, now);
    LeftComparesDeadlines(ts[j], timeout, now);
    if p < |ts| {
      LeftComparesDeadlines(ts[p], timeout, now);
      assert p < j ==> Before(ts[p], ts[j]);
    }
  }

  lemma {:induction false} InsertedIsMade(ts: seq<Timer>, p: nat, t: Timer, now: uint64, registered: nat)
    requires p <= |ts| && MadeBefore(ts, now, registered) && t.start <= now && t.stamp == registered
    ensures MadeBefore(InsertAt(ts, p, t), now, registered + 1)
  {
    forall j | 0 <= j <= |ts|
      ensures InsertAt(ts, p, t)[j].start <= now && InsertAt(ts, p, t)[j].stamp < registered + 1
    {
      InsertedAt(ts, p, t, j);
    }
  }

  lemma {:induction false} RegisterKeepsInv(s: State, clock: uint64, timeout: uint32, now: uint64)
    requires Inv(s, clock) && clock <= now
    ensures Inv(AfterRegister(s, timeout, now), now)
  {
    if |s.timers| < ALLOWED_MAX_TIMER_CNT {
      NewIdIsFree(s);
      var p := InsertPos(s.timers, timeout, now);
      var t := Timer(NewId(s), timeout, now, s.registered);
      forall j | 0 <= j < |s.timers|
        ensures s.timers[j].id != t.id && if j < p then Before(s.timers[j], t) else Before(t, s.timers[j])
      {
        PlacedByDeadline(s.timers, timeout, now, j);
      }
      InsertKeepsOrder(s.timers, p, t);
      InsertedIsMade(s.timers, p, t, now, s.registered);
    }
  }

  lemma {:induction false} RemoveKeepsInv(s: State, clock: uint64, i: nat)
    requires Inv(s, clock) && i < |s.timers|
    ensures Inv(s.(timers := RemoveAt(s.timers, i)), clock)
  {
  }

  lemma {:induction false} RebaseChangesNothing(s: State, clock: uint64, now: uint64)
    requires Inv(s, clock) && clock <= now
    ensures AfterWait(s, now) == s
  {
  }

  // ---------- runs ----------

  datatype Call = Register(timeout: uint32) | Unregister(id: uint32) | Wait | Expire

  datatype Step = Step(call: Call, now: uint64)

  function After(s: State, step: Step): State {
    match step.call
    case Register(timeout) => AfterRegister(s, timeout, step.now)
    case Unregister(id) => AfterUnregister(s, id)
    case Wait => AfterWait(s, step.now)
    case Expire => AfterExpire(s, step.now)
  }

  function Run(s: State, steps: seq<Step>): State
    decreases |steps|
  {
    if steps == [] then s else Run(After(s, steps[0]), steps[1..])
  }

  lemma {:induction false} RunConcat(s: State, a: seq<Step>, b: seq<Step>)
    ensures Run(s, a + b) == Run(Run(s, a), b)
    decreases |a|
  {
    if a == [] {
      assert a + b == b;
    } else {
      assert (a + b)[1..] == a[1..] + b;
      RunConcat(After(s, a[0]), a[1..], b);
    }
  }

  lemma {:induction false} RunOne(s: State, step: Step)
    ensures Run(s, [step]) == After(s, step)
  {
    assert [step][1..] == [];
  }

  /** The clock never steps back. */
  predicate Monotone(clock: uint64, steps: seq<Step>)
    decreases |steps|
  {
    steps == [] || (clock <= steps[0].now && Monotone(steps[0].now, steps[1..]))
  }

  function LastTime(clock: uint64, steps: seq<Step>): uint64 {
    if steps == [] then clock else steps[|steps| - 1].now
  }

  lemma {:induction false} StepKeepsInv(s: State, clock: uint64, step: Step)
    requires Inv(s, clock) && clock <= step.now
    ensures Inv(After(s, step), step.now)
  {
    match step.call {
      case Register(timeout) => RegisterKeepsInv(s, clock, timeout, step.now);
      case Unregister(id) =>
        if IndexOfId(s.timers, id) < |s.timers| { RemoveKeepsInv(s, clock, IndexOfId(s.timers, id)); }
      case Wait => RebaseChangesNothing(s, clock, step.now);
      case Expire =>
        if FirstExpired(s.timers, step.now) < |s.timers| { RemoveKeepsInv(s, clock, FirstExpired(s.timers, step.now)); }
    }
  }

  lemma {:induction false} RunFirst(s: State, clock: uint64, steps: seq<Step>, next: State, rest: seq<Step>)
    requires steps != [] && next == After(s, steps[0]) && rest == steps[1..]
    ensures Run(s, steps) == Run(next, rest) && LastTime(clock, steps) == LastTime(steps[0].now, rest)
  {}

  /** Under any calls with a clock that does not step back the list stays in order and the ids stay distinct. */
  lemma {:induction false} RunKeepsInv(s: State, clock: uint64, steps: seq<Step>)
    requires Inv(s, clock) && Monotone(clock, steps)
    ensures Inv(Run(s, steps), LastTime(clock, steps))
    decreases |steps|
  {
    if steps != [] {
      var step := steps[0];
      StepKeepsInv(s, clock, step);
      RunKeepsInv(After(s, step), step.now, steps[1..]);
      RunFirst(s, clock, steps, After(s, step), steps[1..]);
    }
  }

  // ---------- every timer is accounted for ----------

  /** A registration: the id given, the timeout asked for, and its number. */
  datatype Registration = Registration(id: uint32, timeout: uint32, stamp: nat)

  /** How a timer left the list: handed out when expired, or unregistered by an id. */
  datatype Gone = HandedOut(timer: Registration) | Removed(timer: Registration, by_id: uint32)

  function Of(t: Timer): Registration {
    Registration(t.id, t.timeout, t.stamp)
  }

  function Listed(ts: seq<Timer>): seq<Registration> {
    if ts == [] then [] else [Of(ts[0])] + Listed(ts[1..])
  }

  function Leavers(gone: seq<Gone>): seq<Registration> {
    if gone == [] then [] else Leavers(gone[..|gone| - 1]) + [gone[|gone| - 1].timer]
  }

  /** What a call registers. */
  function MadeBy(s: State, step: Step): seq<Registration> {
    if step.call.Register? && |s.timers| < ALLOWED_MAX_TIMER_CNT
    then [Registration(NewId(s), step.call.timeout, s.registered)] else []
  }

  /** What a call hands out or unregisters. */
  function LeftBy(s: State, step: Step): seq<Gone> {
    match step.call
    case Unregister(id) =>
      var i := IndexOfId(s.timers, id);
      if i < |s.timers| then [Removed(Of(s.timers[i]), id)] else []
    case Expire =>
      var i := FirstExpired(s.timers, step.now);
      if i < |s.timers| then [HandedOut(Of(s.timers[i]))] else []
    case _ => []
  }

  function Made(s: State, steps: seq<Step>): seq<Registration> {
    if steps == [] then []
    else Made(s, steps[..|steps| - 1]) + MadeBy(Run(s, steps[..|steps| - 1]), steps[|steps| - 1])
  }

  function Left(s: State, steps: seq<Step>): seq<Gone> {
    if steps == [] then []
    else Left(s, steps[..|steps| - 1]) + LeftBy(Run(s, steps[..|steps| - 1]), steps[|steps| - 1])
  }

  lemma {:induction false} RunMore(s: State, steps: seq<Step>)
    requires steps != []
    ensures Run(s, steps) == After(Run(s, steps[..|steps| - 1]), steps[|steps| - 1])
  {
    var n := |steps| - 1;
    RunConcat(s, steps[..n], [steps[n]]);
    RunOne(Run(s, steps[..n]), steps[n]);
    assert steps[..n] + [steps[n]] == steps;
  }

  lemma {:induction false} ListedConcat(a: seq<Timer>, b: seq<Timer>)
    ensures Listed(a + b) == Listed(a) + Listed(b)
  {
    if a == [] {
      assert a + b == b;
    } else {
      assert (a + b)[1..] == a[1..] + b;
      ListedConcat(a[1..], b);
    }
  }

  lemma {:induction false} ListedOne(t: Timer)
    ensures Listed([t]) == [Of(t)]
  {
    assert [t][1..] == [];
  }

  lemma {:induction false} ListedAround(head: seq<Timer>, t: Timer, tail: seq<Timer>)
    ensures multiset(Listed(head + [t] + tail)) == multiset(Listed(head + tail)) + multiset{Of(t)}
  {
    ListedConcat(head + [t], tail);
    ListedConcat(head, [t]);
    ListedConcat(head, tail);
    ListedOne(t);
  }

  lemma {:induction false} ListedRemoved(ts: seq<Timer>, i: nat)
    requires i < |ts|
    ensures multiset(Listed(ts)) == multiset(Listed(RemoveAt(ts, i))) + multiset{Of(ts[i])}
  {
    ListedAround(ts[..i], ts[i], ts[i + 1..]);
    assert ts[..i] + [ts[i]] + ts[i + 1..] == ts;
  }

  lemma {:induction false} ListedInserted(ts: seq<Timer>, i: nat, t: Timer)
    requires i <= |ts|
    ensures multiset(Listed(InsertAt(ts, i, t))) == multiset(Listed(ts)) + multiset{Of(t)}
  {
    ListedAround(ts[..i], t, ts[i..]);
    assert ts[..i] + ts[i..] == ts;
  }

  lemma {:induction false} ListedRebased(ts: seq<Timer>, now: uint64)
    ensures Listed(Rebase(ts, now)) == Listed(ts)
  {
    if ts != [] {
      ListedRebased(ts[1..], now);
      assert Rebase(ts, now)[1..] == Rebase(ts[1..], now);
    }
  }

  lemma {:induction false} LeaversOne(g: Gone, gone: seq<Gone>)
    requires gone == [g]
    ensures Leavers(gone) == [g.timer]
  {
    assert gone[..0] == [];
  }

  lemma {:induction false} RemovalAccounts(ts: seq<Timer>, i: nat, gone: seq<Gone>)
    requires i < |ts| && |gone| == 1 && gone[0].timer == Of(ts[i])
    ensures multiset(Listed(ts)) == multiset(Listed(RemoveAt(ts, i))) + multiset(Leavers(gone))
  {
    ListedRemoved(ts, i);
    LeaversOne(gone[0], gone);
  }

  lemma {:induction false} RegisterAccounts(s: State, timeout: uint32, now: uint64)
    requires |s.timers| < ALLOWED_MAX_TIMER_CNT
    ensures multiset(Listed(AfterRegister(s, timeout, now).timers)) ==
            multiset(Listed(s.timers)) + multiset{Registration(NewId(s), timeout, s.registered)}
  {
    ListedInserted(s.timers, InsertPos(s.timers, timeout, now), Timer(NewId(s), timeout, now, s.registered));
  }

  /** One call takes out what leaves, puts in what it registers, and keeps every other timer. */
  lemma {:induction false} CallAccounts(s: State, step: Step)
    ensures After(s, step).registered == s.registered + |MadeBy(s, step)|
    ensures multiset(Listed(s.timers)) + multiset(MadeBy(s, step)) ==
            multiset(Listed(After(s, step).timers)) + multiset(Leavers(LeftBy(s, step)))
  {
    match step.call
    case Register(timeout) =>
      if |s.timers| < ALLOWED_MAX_TIMER_CNT {
        RegisterAccounts(s, timeout, step.now);
      }
    case Unregister(id) =>
      if IndexOfId(s.timers, id) < |s.timers| {
        RemovalAccounts(s.timers, IndexOfId(s.timers, id), LeftBy(s, step));
      }
    case Wait => ListedRebased(s.timers, step.now);
    case Expire =>
      if FirstExpired(s.timers, step.now) < |s.timers| {
        RemovalAccounts(s.timers, FirstExpired(s.timers, step.now), LeftBy(s, step));
      }
  }

  lemma {:induction false} LeaversConcat(a: seq<Gone>, b: seq<Gone>)
    ensures Leavers(a + b) == Leavers(a) + Leavers(b)
  {
    if b == [] {
      assert a + b == a;
    } else {
      var n := |b| - 1;
      LeaversConcat(a, b[..n]);
      assert (a + b)[..|a + b| - 1] == a + b[..n];
    }
  }

  lemma {:induction false} Balance<T>(made: seq<T>, more: seq<T>, before: seq<T>, after: seq<T>, gone: seq<T>,
                                       left: seq<T>)
    requires multiset(made) == multiset(before) + multiset(gone)
    requires multiset(before) + multiset(more) == multiset(after) + multiset(left)
    ensures multiset(made + more) == multiset(after) + multiset(gone + left)
  {
    calc {
      multiset(made + more);
      multiset(before) + multiset(gone) + multiset(more);
      multiset(before) + multiset(more) + multiset(gone);
      multiset(after) + multiset(left) + multiset(gone);
      multiset(after) + multiset(gone + left);
    }
  }

  /** Over any run, with any clock: the timers registered are exactly those listed and those gone, each once. */
  lemma {:induction false} TimersAreAccounted(s: State, steps: seq<Step>)
    requires s.timers == []
    ensures Run(s, steps).registered == s.registered + |Made(s, steps)|
    ensures multiset(Made(s, steps)) ==
            multiset(Listed(Run(s, steps).timers)) + multiset(Leavers(Left(s, steps)))
  {
    if steps != [] {
      var n := |steps| - 1;
      var before := Run(s, steps[..n]);
      TimersAreAccounted(s, steps[..n]);
      RunMore(s, steps);
      CallAccounts(before, steps[n]);
      LeaversConcat(Left(s, steps[..n]), LeftBy(before, steps[n]));
      Balance(Made(s, steps[..n]), MadeBy(before, steps[n]), Listed(before.timers), Listed(Run(s, steps).timers),
              Leavers(Left(s, steps[..n])), Leavers(LeftBy(before, steps[n])));
    }
  }

  lemma {:induction false} MadeInTurn(s: State, steps: seq<Step>, i: nat)
    requires s.timers == [] && i < |Made(s, steps)|
    ensures Made(s, steps)[i].stamp == s.registered + i
  {
    var n := |steps| - 1;
    if i < |Made(s, steps[..n])| {
      MadeInTurn(s, steps[..n], i);
    } else {
      TimersAreAccounted(s, steps[..n]);
    }
  }

  lemma {:induction false} LastIdMoves(s: State, step: Step, made: seq<Registration>)
    requires made == MadeBy(s, step)
    ensures |made| <= 1 && After(s, step).lastId == if made == [] then s.lastId else made[0].id
  {}

  /** The last id, from which the next search counts up, is that of the last registration. */
  lemma {:induction false} LastIdIsLastMade(s: State, steps: seq<Step>)
    ensures var made := Made(s, steps);
            Run(s, steps).lastId == if made == [] then s.lastId else made[|made| - 1].id
  {
    if steps != [] {
      var before := Run(s, steps[..|steps| - 1]);
      LastIdIsLastMade(s, steps[..|steps| - 1]);
      RunMore(s, steps);
      LastIdMoves(before, steps[|steps| - 1], MadeBy(before, steps[|steps| - 1]));
    }
  }

  lemma {:induction false} MadeOnce(s: State, steps: seq<Step>, r: Registration)
    requires s.timers == []
    ensures multiset(Made(s, steps))[r] <= 1
  {
    if steps != [] {
      var n := |steps| - 1;
      var more := MadeBy(Run(s, steps[..n]), steps[n]);
      MadeOnce(s, steps[..n], r);
      TimersAreAccounted(s, steps[..n]);
      if more == [r] && r in Made(s, steps[..n]) {
        var i :| 0 <= i < |Made(s, steps[..n])| && Made(s, steps[..n])[i] == r;
        MadeInTurn(s, steps[..n], i);
        assert false;
      }
    }
  }

  lemma {:induction false} TwiceCounts<T>(all: seq<T>, i: nat, j: nat)
    requires i < j < |all| && all[i] == all[j]
    ensures multiset(all)[all[i]] >= 2
  {
    assert all == all[..i] + [all[i]] + all[i + 1..j] + [all[j]] + all[j + 1..];
  }

  lemma {:induction false} LeaversAt(gone: seq<Gone>, i: nat)
    requires i < |gone|
    ensures |Leavers(gone)| == |gone| && Leavers(gone)[i] == gone[i].timer
  {
    var n := |gone| - 1;
    if n > 0 {
      LeaversAt(gone[..n], if i < n then i else 0);
    }
  }

  /** A timer leaves at most once, in one way, is not listed then, and is unregistered by its own id only. */
  lemma {:induction false} LeavesOnce(s: State, steps: seq<Step>, i: nat)
    requires s.timers == [] && i < |Left(s, steps)|
    ensures forall j :: 0 <= j < |Left(s, steps)| && j != i ==> Left(s, steps)[j].timer != Left(s, steps)[i].timer
    ensures Left(s, steps)[i].timer !in Listed(Run(s, steps).timers)
    ensures Left(s, steps)[i].Removed? ==> Left(s, steps)[i].timer.id == Left(s, steps)[i].by_id
  {
    var gone := Left(s, steps);
    var r := gone[i].timer;
    TimersAreAccounted(s, steps);
    MadeOnce(s, steps, r);
    LeaversAt(gone, i);
    assert r in Leavers(gone);
    forall j | 0 <= j < |gone| && j != i ensures gone[j].timer != r {
      LeaversAt(gone, j);
      if gone[j].timer == r {
        TwiceCounts(Leavers(gone), if i < j then i else j, if i < j then j else i);
        assert false;
      }
    }
    RemovedByOwnId(s, steps, i);
  }

  lemma {:induction false} RemovedByOwnId(s: State, steps: seq<Step>, i: nat)
    requires i < |Left(s, steps)|
    ensures Left(s, steps)[i].Removed? ==> Left(s, steps)[i].timer.id == Left(s, steps)[i].by_id
  {
    if i < |Left(s, steps[..|steps| - 1])| {
      RemovedByOwnId(s, steps[..|steps| - 1], i);
    }
  }

  /** d is the earliest deadline in the list. */
  ghost predicate IsEarliest(ts: seq<Timer>, d: nat) {
    (exists i :: 0 <= i < |ts| && Deadline(ts[i]) == d) && forall i :: 0 <= i < |ts| ==> d <= Deadline(ts[i])
  }

  /** The 32-bit elapsed time misses nothing: the timer is younger than 2^32 ms, or looks expired all the same. */
  predicate NotTooOld(t: Timer, now: uint64) {
    now - t.start < TWO_TO_THE_32 || Elapsed32(t, now) >= t.timeout
  }

  /**
   * The wait read off the head alone is the time to the earliest deadline of all timers, or 0 when that has passed -
   * exactly if the head is not too old for the 32-bit elapsed time.
   */
  lemma {:induction false} WaitIsToEarliestDeadline(steps: seq<Step>, now: uint64)
    requires Monotone(0, steps) && LastTime(0, steps) <= now
    requires Run(State([], 0, 0), steps).timers != []
    ensures var ts := Run(State([], 0, 0), steps).timers;
            var head := AfterWait(Run(State([], 0, 0), steps), now).timers[0];
            && IsEarliest(ts, Deadline(head))
            && (WaitOf(head, now) == (if Deadline(head) <= now then 0 else Deadline(head) - now)
                <==> NotTooOld(head, now))
  {
    var s := Run(State([], 0, 0), steps);
    RunKeepsInv(State([], 0, 0), 0, steps);
    RebaseChangesNothing(s, LastTime(0, steps), now);
    assert Deadline(s.timers[0]) == Deadline(AfterWait(s, now).timers[0]);
    ElapsedSmall(s.timers[0], now);
  }

  lemma {:induction false} ElapsedSmall(t: Timer, now: uint64)
    requires t.start <= now
    ensures now - t.start < TWO_TO_THE_32 ==> Elapsed32(t, now) == now - t.start
    ensures now - t.start >= TWO_TO_THE_32 ==> Deadline(t) < now
    ensures Elapsed32(t, now) <= now - t.start
  {}

  /**
   * The timer handed out is the one with the earliest deadline exactly if the head is not too old or nothing is
   * handed out; it has always expired, and when the head is not too old nothing is kept back that has expired.
   */
  lemma {:induction false} ExpiredTimerIsEarliest(steps: seq<Step>, now: uint64)
    requires Monotone(0, steps) && LastTime(0, steps) <= now
    ensures var ts := Run(State([], 0, 0), steps).timers;
            var i := FirstExpired(ts, now);
            && (i < |ts| ==> Deadline(ts[i]) <= now)
            && (ts != [] && NotTooOld(ts[0], now) ==> (i < |ts| <==> Deadline(ts[0]) <= now))
            && (i < |ts| ==> (i == 0 <==> NotTooOld(ts[0], now)))
            && (ts != [] ==> IsEarliest(ts, Deadline(ts[0])))
  {
    var s := Run(State([], 0, 0), steps);
    var ts := s.timers;
    RunKeepsInv(State([], 0, 0), 0, steps);
    forall i | 0 <= i < |ts| ensures Expired(ts[i], now) ==> Deadline(ts[i]) <= now {
      ElapsedSmall(ts[i], now);
    }
    if ts != [] {
      ElapsedSmall(ts[0], now);
      assert forall i :: 0 < i < |ts| ==> Before(ts[0], ts[i]);
    }
  }

  /** A head registered at time 0 with 5000 ms, and a timer registered 10 ms before 2^32 ms with 5 ms. */
  function TooOldHead(): (r: seq<Timer>) {
    [Timer(1, 5000, 0, 0), Timer(2, 5, TWO_TO_THE_32 - 10, 1)]
  }

  lemma {:induction false} TwoRegistered(init: State, first: Step, second: Step)
    requires init == State([], 0, 0)
    requires first == Step(Register(5000), 0) && second == Step(Register(5), TWO_TO_THE_32 - 10)
    ensures Run(init, [first, second]) == State(TooOldHead(), 2, 2)
  {
    var head := Timer(1, 5000, 0, 0);
    TakenFromIs([], 1, 0);
    assert After(init, first) == State([head], 1, 1);
    assert !HasId([head], 2);
    TakenFromIs([head], 2, 0);
    InsertPosIs([head], 5, TWO_TO_THE_32 - 10, 1);
    assert After(State([head], 1, 1), second) == State(TooOldHead(), 2, 2);
    RunOne(init, first);
    RunOne(State([head], 1, 1), second);
    RunConcat(init, [first], [second]);
    assert [first] + [second] == [first, second];
  }

  /**
   * A head that has been due for weeks: at time 2^32 the wait is its full 5000 ms again, and a later timer is handed
   * out in its place.
   */
  lemma {:induction false} OverdueHeadIsMissed(init: State, first: Step, second: Step)
    requires init == State([], 0, 0)
    requires first == Step(Register(5000), 0) && second == Step(Register(5), TWO_TO_THE_32 - 10)
    ensures Monotone(0, [first, second])
    ensures var ts, now := Run(init, [first, second]).timers, TWO_TO_THE_32;
            && |ts| == 2 && Deadline(ts[0]) < Deadline(ts[1]) < now
            && !NotTooOld(ts[0], now) && WaitOf(ts[0], now) == 5000 && FirstExpired(ts, now) == 1
  {
    TwoRegistered(init, first, second);
    var ts := TooOldHead();
    assert !Expired(ts[0], TWO_TO_THE_32) && Expired(ts[1], TWO_TO_THE_32);
    assert ts[1..][0] == ts[1];
    assert [first, second][1..] == [second] && [second][1..] == [];
  }

  // ---------- a clock that steps back ----------

  /**
   * A wait keeps every list in order exactly if the clock has not stepped back. Otherwise it rebases a timer to an
   * earlier deadline, and lets it overtake the one before it without moving it.
   */
  lemma {:induction false} WaitKeepsOrderExactly(clock: uint64, now: uint64)
    ensures (forall s: State :: Inv(s, clock) ==> Ordered(AfterWait(s, now).timers)) <==> clock <= now
  {
    if clock <= now {
      forall s: State | Inv(s, clock) ensures Ordered(AfterWait(s, now).timers) {
        RebaseChangesNothing(s, clock, now);
      }
    } else {
      var s := State([Timer(1, 1, now, 0), Timer(2, 0, clock, 1)], 2, 2);
      var after := AfterWait(s, now).timers;
      assert Inv(s, clock);
      assert after[0] == Timer(1, 1, now, 0) && after[1] == Timer(2, 0, now, 1);
      assert !Before(after[0], after[1]);
    }
  }

  /**
   * So does a registration: with a clock that has stepped back, a timer that starts in the future looks as if no time
   * were left, and the new one goes behind it whatever its deadline.
   */
  lemma {:induction false} RegisterKeepsOrderExactly(clock: uint64, now: uint64)
    ensures (forall s: State, timeout: uint32 :: Inv(s, clock) ==> Ordered(AfterRegister(s, timeout, now).timers)) <==>
            clock <= now
  {
    if clock <= now {
      forall s: State, timeout: uint32 | Inv(s, clock) ensures Ordered(AfterRegister(s, timeout, now).timers) {
        RegisterKeepsInv(s, clock, timeout, now);
      }
    } else {
      var early := Timer(7, 0, clock, 0);
      var s := State([early], 7, 1);
      var after := AfterRegister(s, 0, now).timers;
      assert Inv(s, clock) && LeftAt(early, now) == 0;
      InsertPosIs([early], 0, now, 1);
      InsertedAt([early], 1, Timer(NewId(s), 0, now, 1), 0);
      InsertedAt([early], 1, Timer(NewId(s), 0, now, 1), 1);
      assert after[0] == early && Deadline(after[1]) == now;
      assert !Before(after[0], after[1]);
    }
  }

  // ---------- a run to a state whose next id is 0 ----------

  predicate AllAtZero(steps: seq<Step>) {
    forall i :: 0 <= i < |steps| ==> steps[i].now == 0
  }

  lemma {:induction false} AllAtZeroIsMonotone(steps: seq<Step>)
    requires AllAtZero(steps)
    ensures Monotone(0, steps)
    decreases |steps|
  {
    if steps != [] {
      AllAtZeroIsMonotone(steps[1..]);
    }
  }

  lemma {:induction false} RemoveInserted(ts: seq<Timer>, p: nat, t: Timer, with: seq<Timer>)
    requires p <= |ts| && with == InsertAt(ts, p, t) && !HasId(ts, t.id)
    ensures IndexOfId(with, t.id) == p && RemoveAt(with, p) == ts
  {
    InsertedAt(ts, p, t, p);
    forall j | 0 <= j < p ensures with[j].id != t.id {
      InsertedAt(ts, p, t, j);
    }
  }

  /** A timer registered and unregistered at once leaves nothing behind but the last id. */
  lemma {:induction false} RegisterUnregister(s: State)
    requires |s.timers| < ALLOWED_MAX_TIMER_CNT && !HasId(s.timers, NextId(s.lastId))
    ensures AfterUnregister(AfterRegister(s, 0, 0), NextId(s.lastId)) ==
            State(s.timers, NextId(s.lastId), s.registered + 1)
  {
    var ts, id := s.timers, NextId(s.lastId);
    NextCandidate(id, 0);
    TakenFromIs(ts, id, 0);
    var p := InsertPos(ts, 0, 0);
    var t := Timer(id, 0, 0, s.registered);
    RemoveInserted(ts, p, t, InsertAt(ts, p, t));
  }

  ghost predicate NoneBetween(ts: seq<Timer>, low: uint32, high: uint32) {
    forall id: uint32 :: low < id <= high ==> !HasId(ts, id)
  }

  function Pair(id: uint32): seq<Step> {
    [Step(Register(0), 0), Step(Unregister(id), 0)]
  }

  lemma {:induction false} RunPair(s: State, id: uint32)
    requires |s.timers| < ALLOWED_MAX_TIMER_CNT && id == NextId(s.lastId) && !HasId(s.timers, id)
    ensures Run(s, Pair(id)) == State(s.timers, id, s.registered + 1)
  {
    var first, second := Step(Register(0), 0), Step(Unregister(id), 0);
    RegisterUnregister(s);
    RunConcat(s, [first], [second]);
    RunOne(s, first);
    RunOne(After(s, first), second);
    assert Pair(id) == [first] + [second];
  }

  /** Brings the last id up to any number, if no live timer stands in the way. */
  lemma {:induction false} CountUpTo(s: State, target: uint32) returns (steps: seq<Step>)
    requires |s.timers| < ALLOWED_MAX_TIMER_CNT && s.lastId <= target
    requires NoneBetween(s.timers, s.lastId, target)
    ensures AllAtZero(steps)
    ensures Run(s, steps).timers == s.timers && Run(s, steps).lastId == target
    decreases target - s.lastId
  {
    if s.lastId == target {
      steps := [];
    } else {
      var id := s.lastId + 1;
      RunPair(s, id);
      var s1 := State(s.timers, id, s.registered + 1);
      var more := CountUpTo(s1, target);
      RunConcat(s, Pair(id), more);
      steps := Pair(id) + more;
    }
  }

  const LAST_ID: uint32 := TWO_TO_THE_32 - 1

  /** From a start with no timers, the id counter can be brought to its end with a timer kept on the last id. */
  lemma {:induction false} LastIdKept(init: State) returns (steps: seq<Step>, s: State)
    requires init.timers == [] && init.lastId == 0
    ensures AllAtZero(steps) && Run(init, steps) == s
    ensures s.lastId == LAST_ID && |s.timers| == 1 && s.timers[0].id == LAST_ID
  {
    var begun := CountUpTo(init, LAST_ID - 1);
    var s0 := Run(init, begun);
    var last := Step(Register(0), 0);
    NextCandidate(LAST_ID, 0);
    TakenFromIs(s0.timers, LAST_ID, 0);
    RunOne(s0, last);
    RunConcat(init, begun, [last]);
    steps, s := begun + [last], After(s0, last);
  }

  /** The counter wraps round and comes up to the kept timer again. */
  lemma {:induction false} OnceRound(s: State) returns (steps: seq<Step>)
    requires s.lastId == LAST_ID && |s.timers| == 1 && s.timers[0].id == LAST_ID
    ensures AllAtZero(steps) && Run(s, steps).timers == s.timers && Run(s, steps).lastId == LAST_ID - 1
  {
    RunPair(s, 1);
    var more := CountUpTo(State(s.timers, 1, s.registered + 1), LAST_ID - 1);
    RunConcat(s, Pair(1), more);
    steps := Pair(1) + more;
  }

  /** The last timer id is taken, the counter is about to reach it, and the next id is 0. */
  lemma {:induction false} ZeroIsNext(s: State)
    requires s.lastId == LAST_ID - 1 && |s.timers| == 1 && s.timers[0].id == LAST_ID
    ensures NewId(s) == 0
  {
    assert HasId(s.timers, LAST_ID);
    NewIdIsZeroExactly(s);
  }

  /** Such a state occurs: from the start all ids are gone through once and then up to the last again. */
  lemma {:induction false} ZeroIdIsReached(init: State) returns (steps: seq<Step>)
    requires init == State([], 0, 0)
    ensures Monotone(0, steps)
    ensures |Run(init, steps).timers| == 1 && NewId(Run(init, steps)) == 0
  {
    var begun, kept := LastIdKept(init);
    var more := OnceRound(kept);
    RunConcat(init, begun, more);
    steps := begun + more;
    AllAtZeroIsMonotone(steps);
    ZeroIsNext(Run(kept, more));
  }
}
