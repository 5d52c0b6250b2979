/** The periodic timers: countdowns that one check brings up to date, restarting its scan after every callback. */
module GenericTimer {
  import opened Basics
  import opened IdCounter

  datatype Code = Success | InvalidParameter | NotFound

  class SyncTimer {
    const id: uint32
    const timeout: int32
    var left: int32
    var isChecked: bool

    constructor (id: uint32, timeout: int32)
      ensures this.id == id && this.timeout == timeout && left == timeout
    {
      this.id, this.timeout, left := id, timeout, timeout;
    }
  }

  /** The timer listener: given the ids fired so far in this check, the ids it unregisters. */
  type Callback = seq<uint32> -> seq<uint32>

  /** A listed timer and its remaining time. */
  datatype Slot = Slot(timer: SyncTimer, left: int32)

  datatype Swept = Swept(slots: seq<Slot>, fired: seq<SyncTimer>)

  function Ids(timers: seq<SyncTimer>): (r: seq<uint32>)
    ensures |r| == |timers|
  {
    if timers == [] then [] else Ids(timers[..|timers| - 1]) + [timers[|timers| - 1].id]
  }

  /** The countdown in the mixed 32- and 64-bit arithmetic of the program. */
  function Counted(left: int, elapsed: int): int32 {
    Signed32(left - elapsed)
  }

  function IndexOf(slots: seq<Slot>, id: uint32): (i: nat)
    ensures i <= |slots|
    ensures i < |slots| ==> slots[i].timer.id == id
    ensures forall j :: 0 <= j < i ==> slots[j].timer.id != id
  {
    if slots == [] then 0 else if slots[0].timer.id == id then 0 else 1 + IndexOf(slots[1..], id)
  }

  function Without(slots: seq<Slot>, i: nat): seq<Slot>
    requires i < |slots|
  {
    slots[..i] + slots[i + 1..]
  }

  /** Unregistering ids one after the other, with the border between checked and unchecked timers kept in place. */
  function Drop(slots: seq<Slot>, border: nat, ids: seq<uint32>): (r: (seq<Slot>, nat))
    requires border <= |slots|
    ensures r.1 <= |r.0| && |r.0| - r.1 <= |slots| - border
    decreases |ids|
  {
    if ids == [] then (slots, border)
    else
      var i := IndexOf(slots, ids[0]);
      if i == |slots| then Drop(slots, border, ids[1..])
      else Drop(Without(slots, i), if i < border then border - 1 else border, ids[1..])
  }

  /** One pass in list order: count each timer down; fire the due ones and start them afresh. */
  function Sweep(slots: seq<Slot>, border: nat, elapsed: int, fired: seq<SyncTimer>, cb: Callback): Swept
    requires border <= |slots|
    decreases |slots| - border
  {
    if border == |slots| then Swept(slots, fired)
    else
      var t := slots[border].timer;
      var left := Counted(slots[border].left, elapsed);
      if left > 0 then Sweep(slots[border := Slot(t, left)], border + 1, elapsed, fired, cb)
      else
        var after := Drop(slots[border := Slot(t, t.timeout)], border + 1, cb(Ids(fired + [t])));
        Sweep(after.0, after.1, elapsed, fired + [t], cb)
  }

  // ---------- the program ----------

  /** The slots of listed timers; the timer being fired counts as already started afresh. */
  ghost function SlotsOf(timers: seq<SyncTimer>, firing: SyncTimer?): (r: seq<Slot>)
    reads timers
    ensures |r| == |timers|
    ensures forall i :: 0 <= i < |r| ==>
              r[i] == Slot(timers[i], if timers[i] == firing then timers[i].timeout else timers[i].left)
  {
    seq(|timers|, i requires 0 <= i < |timers| reads timers =>
      Slot(timers[i], if timers[i] == firing then timers[i].timeout else timers[i].left))
  }

  class Timers {
    var timers: seq<SyncTimer>
    var timerId: uint32
    var prevCheckMs: nat
    var isChecking: bool

    ghost predicate Distinct()
      reads `timers
    {
      forall i, j :: 0 <= i < j < |timers| ==> timers[i] != timers[j]
    }

    ghost function Slots(): seq<Slot>
      reads `timers, timers
    {
      SlotsOf(timers, null)
    }

    /** The timers before the border are exactly the checked ones. */
    ghost predicate CheckedUpTo(border: nat)
      reads `timers, timers
    {
      forall i :: 0 <= i < |timers| ==> timers[i].isChecked == (i < border)
    }

    constructor ()
      ensures timers == [] && timerId == 0 && prevCheckMs == 0 && !isChecking
    {
      timers, timerId, prevCheckMs, isChecking := [], 0, 0, false;
    }

    /**
     * The search for a used id compares with the start of the list and never runs, so the id is just the next one but
     * 0.
     */
    method GetFreeTimerId() returns (id: uint32)
      modifies this`timerId
      ensures timerId == id == NextId(old(timerId))
    {
      timerId := Wrap32(timerId + 1);
      if timerId == 0 {
        timerId := Wrap32(timerId + 1);
      }
      id := timerId;
    }

    method RegisterTimer(listenerAlive: bool, timeout: int32) returns (code: Code, id: uint32)
      requires Distinct()
      modifies this`timers, this`timerId
      ensures Distinct()
      ensures code == if timeout < 0 || !listenerAlive then InvalidParameter else Success
      ensures code != Success ==> timers == old(timers) && timerId == old(timerId)
      ensures code == Success ==>
                && id == timerId == NextId(old(timerId))
                && |timers| == |old(timers)| + 1 && timers[..|old(timers)|] == old(timers)
                && fresh(timers[|old(timers)|])
                && timers[|old(timers)|].id == id && timers[|old(timers)|].timeout == timeout
                && Slots() == old(Slots()) + [Slot(timers[|old(timers)|], timeout)]
    {
      if 0 > timeout || !listenerAlive {
        return InvalidParameter, 0;
      }
      id := GetFreeTimerId();
      var t := new SyncTimer(id, timeout);
      timers := timers + [t];
      code := Success;
      assert Slots() == old(Slots()) + [Slot(t, timeout)];
    }

    method EraseAt(i: nat, ghost border: nat, ghost firing: SyncTimer?) returns (ghost border': nat)
      requires Distinct() && i < |timers| && border <= |timers|
      modifies this`timers
      ensures Distinct() && border' == (if i < border then border - 1 else border) <= |timers|
      ensures forall t :: t in timers ==> t in old(timers)
      ensures SlotsOf(timers, firing) == Without(old(SlotsOf(timers, firing)), i)
      ensures old(CheckedUpTo(border)) ==> CheckedUpTo(border')
    {
      timers := timers[..i] + timers[i + 1..];
      border' := if i < border then border - 1 else border;
    }

    /** Unlinks the first timer with the id. */
    method UnregisterTimer(id: uint32, ghost border: nat, ghost firing: SyncTimer?)
      returns (code: Code, ghost border': nat)
      requires Distinct() && border <= |timers|
      modifies this`timers
      ensures Distinct() && border' <= |timers|
      ensures forall t :: t in timers ==> t in old(timers)
      ensures (SlotsOf(timers, firing), border') == Drop(old(SlotsOf(timers, firing)), border, [id])
      ensures code == if exists i :: 0 <= i < |old(timers)| && old(timers)[i].id == id then Success else NotFound
      ensures old(CheckedUpTo(border)) ==> CheckedUpTo(border')
    {
      ghost var slots := SlotsOf(timers, firing);
      var i := 0;
      while i < |timers| && timers[i].id != id
        invariant i <= |timers|
        invariant forall j :: 0 <= j < i ==> timers[j].id != id
      {
        i := i + 1;
      }
      assert IndexOf(slots, id) == i;
      assert [id][1..] == [];
      if i < |timers| {
        border' := EraseAt(i, border, firing);
        code := Success;
      } else {
        border' := border;
        code := NotFound;
      }
    }

    /** What a callback does to the list: it unregisters ids one after the other while timer "firing" is handled. */
    method UnregisterAll(ids: seq<uint32>, ghost border: nat, ghost firing: SyncTimer?) returns (ghost border': nat)
      requires Distinct() && border <= |timers|
      modifies this`timers
      ensures Distinct() && border' <= |timers|
      ensures forall t :: t in timers ==> t in old(timers)
      ensures (SlotsOf(timers, firing), border') == Drop(old(SlotsOf(timers, firing)), border, ids)
      ensures old(CheckedUpTo(border)) ==> CheckedUpTo(border')
    {
      border' := border;
      var j := 0;
      while j < |ids|
        invariant j <= |ids| && border' <= |timers| && Distinct()
        invariant forall t :: t in timers ==> t in old(timers)
        invariant Drop(SlotsOf(timers, firing), border', ids[j..]) == Drop(old(SlotsOf(timers, firing)), border, ids)
        invariant old(CheckedUpTo(border)) ==> CheckedUpTo(border')
      {
        ghost var slots, b := SlotsOf(timers, firing), border';
        var code;
        code, border' := UnregisterTimer(ids[j], border', firing);
        DropFirst(slots, b, ids[j..]);
        assert ids[j..][1..] == ids[j + 1..];
        j := j + 1;
      }
    }

    /** Counts one timer down and says whether it is due. */
    method CountDown(k: nat, elapsed: int) returns (due: bool)
      requires Distinct() && k < |timers|
      modifies timers[k]
      ensures timers[k].isChecked
      ensures Slots() == old(Slots())[k := Slot(timers[k], timers[k].left)]
      ensures timers[k].left == Counted(old(timers[k].left), elapsed)
      ensures due == (timers[k].left <= 0)
    {
      var t := timers[k];
      t.isChecked := true;
      t.left := Counted(t.left, elapsed);
      due := 0 >= t.left;
      assert Slots() == old(Slots())[k := Slot(t, t.left)];
    }

    /** Calls the listener for a due timer and starts the timer afresh, whether or not it is still listed. */
    method Fire(t: SyncTimer, ids: seq<uint32>, ghost border: nat) returns (ghost border': nat)
      requires Distinct() && border < |timers| && timers[border] == t
      modifies this`timers, t`left
      ensures Distinct() && border' <= |timers|
      ensures forall t :: t in timers ==> t in old(timers)
      ensures (Slots(), border') == Drop(old(Slots())[border := Slot(t, t.timeout)], border + 1, ids)
      ensures old(CheckedUpTo(border + 1)) ==> CheckedUpTo(border')
    {
      assert SlotsOf(timers, t) == Slots()[border := Slot(t, t.timeout)];
      border' := UnregisterAll(ids, border + 1, t);
      ghost var before := SlotsOf(timers, t);
      t.left := t.timeout;
      assert Slots() == before;
    }

    /** Handles the unchecked timer at the border; a due one is fired, and the caller then scans from the start. */
    method CheckAt(border: nat, elapsed: int, fired: seq<SyncTimer>, cb: Callback)
      returns (due: bool, fired': seq<SyncTimer>, ghost border': nat)
      requires Distinct() && border < |timers| && CheckedUpTo(border)
      modifies this`timers, timers[border]
      ensures Distinct() && border' <= |timers| && CheckedUpTo(border')
      ensures forall t :: t in timers ==> t in old(timers)
      ensures |timers| - border' < |old(timers)| - border
      ensures Sweep(old(Slots()), border, elapsed, fired, cb) == Sweep(Slots(), border', elapsed, fired', cb)
      ensures !due ==> border' == border + 1 && timers == old(timers)
    {
      var t := timers[border];
      due := CountDown(border, elapsed);
      border' := border + 1;
      fired' := fired;
      SweepStep(old(Slots()), border, elapsed, fired, cb);
      if due {
        fired' := fired + [t];
        border' := Fire(t, cb(Ids(fired')), border);
      }
    }

    method ClearChecked()
      modifies timers`isChecked
      ensures CheckedUpTo(0)
    {
      var i := 0;
      while i < |timers|
        invariant i <= |timers|
        invariant forall j :: 0 <= j < i ==> !timers[j].isChecked
      {
        timers[i].isChecked := false;
        i := i + 1;
      }
    }

    /** The scan of one check, started again after every callback. */
    method Scan(elapsed: int, cb: Callback) returns (fired: seq<SyncTimer>)
      requires Distinct() && CheckedUpTo(0)
      modifies this`timers, timers
      ensures Distinct()
      ensures Swept(Slots(), fired) == Sweep(old(Slots()), 0, elapsed, [], cb)
    {
      fired := [];
      var k := 0;
      ghost var border := 0;
      while k < |timers|
        invariant k <= border <= |timers| && Distinct() && CheckedUpTo(border)
        invariant forall t :: t in timers ==> t in old(timers)
        invariant Sweep(old(Slots()), 0, elapsed, [], cb) == Sweep(Slots(), border, elapsed, fired, cb)
        decreases |timers| - border, |timers| - k
      {
        if !timers[k].isChecked {
          var due;
          assert timers[k] in timers && k == border;
          due, fired, border := CheckAt(k, elapsed, fired, cb);
          k := if due then 0 else k + 1;
        } else {
          k := k + 1;
        }
      }
    }

    method Check(elapsed: int, cb: Callback) returns (fired: seq<SyncTimer>)
      requires Distinct()
      modifies this`timers, timers
      ensures Distinct()
      ensures Swept(Slots(), fired) == Sweep(old(Slots()), 0, elapsed, [], cb)
    {
      ghost var start := Slots();
      ClearChecked();
      assert Slots() == start;
      fired := Scan(elapsed, cb);
    }

    /** One check at time now; a call from inside a callback returns at once. */
    method CheckAndTrig(now: nat, cb: Callback) returns (fired: seq<SyncTimer>)
      requires Distinct()
      modifies this`timers, this`prevCheckMs, this`isChecking, timers
      ensures Distinct()
      ensures old(isChecking) ==>
                && fired == [] && timers == old(timers) && Slots() == old(Slots())
                && prevCheckMs == old(prevCheckMs) && isChecking
      ensures !old(isChecking) ==>
                && Swept(Slots(), fired) == Sweep(old(Slots()), 0, now - PreviousCheck(old(prevCheckMs), now), [], cb)
                && prevCheckMs == now && !isChecking
    {
      if isChecking {
        return [];
      }
      ghost var start := Slots();
      isChecking := true;
      if prevCheckMs == 0 {
        prevCheckMs := now;
      }
      assert Slots() == start;
      fired := Check(now - prevCheckMs, cb);
      ghost var after := Slots();
      prevCheckMs := now;
      isChecking := false;
      assert Slots() == after;
    }

    /**
     * The wait until the next timer: -1 for ever, else the least remaining time. A negative one, which hides the wait
     * found before it, counts only at the end.
     */
    method GetNextTimeoutMs() returns (next: int32)
      ensures IsWait(Slots(), next)
    {
      next := -1;
      var i := 0;
      ghost var slots := Slots();
      while i < |timers|
        invariant i <= |timers| && IsWait(slots[..i], next)
      {
        WaitMore(slots[..i], slots[i], slots[..i + 1], next);
        if 0 > next {
          next := timers[i].left;
        } else if timers[i].left < next {
          next := timers[i].left;
        }
        i := i + 1;
      }
      assert slots[..i] == slots;
    }
  }

  /** The last timer with a negative remaining time, or -1. */
  ghost function LastNegative(slots: seq<Slot>): (p: int)
    ensures -1 <= p < |slots| && (p >= 0 ==> slots[p].left < 0)
    ensures forall j :: p < j < |slots| ==> slots[j].left >= 0
  {
    if slots == [] then -1
    else if slots[|slots| - 1].left < 0 then |slots| - 1
    else LastNegative(slots[..|slots| - 1])
  }

  /** The least remaining time from the n-th timer on. */
  ghost predicate IsLeastFrom(slots: seq<Slot>, n: nat, left: int32) {
    (exists j :: n <= j < |slots| && slots[j].left == left) && forall j :: n <= j < |slots| ==> left <= slots[j].left
  }

  /** -1 for no slots; the last remaining time if it is negative; else the least one behind the last negative one. */
  ghost predicate IsWait(slots: seq<Slot>, next: int32) {
    var p := LastNegative(slots);
    if p == |slots| - 1 then next == if slots == [] then -1 else slots[p].left
    else IsLeastFrom(slots, p + 1, next)
  }

  lemma {:induction false} LeastMore(slots: seq<Slot>, last: Slot, n: nat, left: int32)
    requires n <= |slots|
    ensures n == |slots| ==> IsLeastFrom(slots + [last], n, last.left)
    ensures IsLeastFrom(slots, n, left) ==>
              IsLeastFrom(slots + [last], n, if last.left < left then last.left else left)
  {
    var all := slots + [last];
    assert all[|slots|] == last;
    if IsLeastFrom(slots, n, left) {
      var j :| n <= j < |slots| && slots[j].left == left;
      assert all[j] == slots[j];
    }
  }

  lemma {:induction false} WaitMore(slots: seq<Slot>, last: Slot, all: seq<Slot>, next: int32)
    requires all == slots + [last] && IsWait(slots, next)
    ensures IsWait(all, if next < 0 || last.left < next then last.left else next)
  {
    assert all[..|all| - 1] == slots;
    LeastMore(slots, last, LastNegative(slots) + 1, next);
  }

  /** The check time that elapsed time counts from: 0 stands for "none yet". */
  function PreviousCheck(prev: nat, now: nat): nat {
    if prev == 0 then now else prev
  }

  lemma {:induction false} SweepStep(slots: seq<Slot>, border: nat, elapsed: int, fired: seq<SyncTimer>, cb: Callback)
    requires border < |slots|
    ensures var t := slots[border].timer;
            var left := Counted(slots[border].left, elapsed);
            var counted := slots[border := Slot(t, left)];
            var after := Drop(counted[border := Slot(t, t.timeout)], border + 1, cb(Ids(fired + [t])));
            Sweep(slots, border, elapsed, fired, cb) ==
            if left > 0 then Sweep(counted, border + 1, elapsed, fired, cb)
            else Sweep(after.0, after.1, elapsed, fired + [t], cb)
  {
    var t := slots[border].timer;
    var left := Counted(slots[border].left, elapsed);
    assert slots[border := Slot(t, left)][border := Slot(t, t.timeout)] == slots[border := Slot(t, t.timeout)];
  }

  lemma {:induction false} DropFirst(slots: seq<Slot>, border: nat, ids: seq<uint32>)
    requires border <= |slots| && ids != []
    ensures var one := Drop(slots, border, [ids[0]]);
            Drop(slots, border, ids) == Drop(one.0, one.1, ids[1..])
  {
  }
}
