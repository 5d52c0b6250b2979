/** What one check and whole runs of the periodic timers guarantee. */
module GenericTimerTheorems {
  import opened Basics
  import opened GenericTimer
  import opened IdCounter

  // ---------- one countdown ----------

  /** Whether the 32-bit countdown tells "due" from "not due" correctly. */
  predicate OnTime(left: int32, elapsed: int) {
    if elapsed < left then 1 <= (left - elapsed) % TWO_TO_THE_32 < TWO_TO_THE_31
    else (elapsed - left) % TWO_TO_THE_32 <= TWO_TO_THE_31
  }

  lemma {:induction false} CountdownExact(left: int32, elapsed: int)
    ensures (Counted(left, elapsed) <= 0 <==> left <= elapsed) <==> OnTime(left, elapsed)
  {
  }

  /** A check more than 24 days late can miss a due timer. */
  lemma {:induction false} LateCheckMissesTimer()
    ensures Counted(10, TWO_TO_THE_31 + 11) == TWO_TO_THE_31 - 1
    ensures !OnTime(10, TWO_TO_THE_31 + 11)
  {
  }

  function Restarted(slot: Slot, elapsed: int): int32 {
    if Counted(slot.left, elapsed) > 0 then Counted(slot.left, elapsed) else slot.timer.timeout
  }

  predicate InRange(slot: Slot) {
    0 <= slot.left <= slot.timer.timeout && (slot.timer.timeout > 0 ==> slot.left > 0)
  }

  /** The exact gaps between checks that keep a remaining time within its timeout. */
  predicate GapAllows(slot: Slot, elapsed: int) {
    var w := elapsed % TWO_TO_THE_32;
    w <= slot.left + TWO_TO_THE_31 || w >= slot.left + TWO_TO_THE_32 - slot.timer.timeout
  }

  lemma {:induction false} RestartedInRange(slot: Slot, elapsed: int)
    requires InRange(slot)
    ensures InRange(Slot(slot.timer, Restarted(slot, elapsed))) <==> GapAllows(slot, elapsed)
  {
  }

  // ---------- one check ----------

  predicate Increasing(at: seq<nat>, n: nat) {
    && (forall i :: 0 <= i < |at| ==> at[i] < n)
    && (forall i, j :: 0 <= i < j < |at| ==> at[i] < at[j])
  }

  ghost predicate Distinct(slots: seq<Slot>) {
    forall i, j :: 0 <= i < j < |slots| ==> slots[i].timer != slots[j].timer
  }

  ghost predicate Listed(slots: seq<Slot>, t: SyncTimer) {
    exists i :: 0 <= i < |slots| && slots[i].timer == t
  }

  /** Some callback of this check unregistered the id. */
  ghost predicate Dropped(id: uint32, fired: seq<SyncTimer>, cb: Callback) {
    exists j :: 1 <= j <= |fired| && id in cb(Ids(fired[..j]))
  }

  /** The list is what positions "kept" of the earlier list hold, in the same order. */
  ghost predicate Embeds(start: seq<Slot>, slots: seq<Slot>, kept: seq<nat>) {
    && |kept| == |slots| && Increasing(kept, |start|)
    && forall i :: 0 <= i < |kept| ==> slots[i].timer == start[kept[i]].timer
  }

  /** Timers before the border are counted down, the others are as they were. */
  ghost predicate CountedTo(start: seq<Slot>, slots: seq<Slot>, border: nat, elapsed: int, kept: seq<nat>)
    requires Embeds(start, slots, kept)
  {
    forall i :: 0 <= i < |slots| ==>
      slots[i].left == if i < border then Restarted(start[kept[i]], elapsed) else start[kept[i]].left
  }

  predicate Due(slot: Slot, elapsed: int) {
    Counted(slot.left, elapsed) <= 0
  }

  /** The timers fired are due ones, each once, in list order. */
  ghost predicate FiredInOrder(start: seq<Slot>, elapsed: int, fired: seq<SyncTimer>, firedAt: seq<nat>) {
    && |firedAt| == |fired| && Increasing(firedAt, |start|)
    && forall j :: 0 <= j < |fired| ==> fired[j] == start[firedAt[j]].timer && Due(start[firedAt[j]], elapsed)
  }

  predicate AllBelow(at: seq<nat>, n: nat) {
    forall j :: 0 <= j < |at| ==> at[j] < n
  }

  /** Nothing was fired at or after the border, everything due before it was. */
  ghost predicate FiredTo(start: seq<Slot>, slots: seq<Slot>, border: nat, elapsed: int, kept: seq<nat>,
                          firedAt: seq<nat>)
    requires Embeds(start, slots, kept)
  {
    && (forall i :: border <= i < |kept| ==> AllBelow(firedAt, kept[i]))
    && (forall i :: 0 <= i < border && i < |kept| && Due(start[kept[i]], elapsed) ==> kept[i] in firedAt)
  }

  predicate KeptAt(kept: seq<nat>, q: nat) {
    q in kept
  }

  /** Every timer gone from the list was unregistered by a callback. */
  ghost predicate OthersDropped(start: seq<Slot>, kept: seq<nat>, fired: seq<SyncTimer>, cb: Callback) {
    forall q: nat | q < |start| :: KeptAt(kept, q) || Dropped(start[q].timer.id, fired, cb)
  }

  /** Where a check stands: "start" is the list at its beginning. */
  ghost predicate Accounted(start: seq<Slot>, slots: seq<Slot>, border: nat, elapsed: int, fired: seq<SyncTimer>,
                            cb: Callback, kept: seq<nat>, firedAt: seq<nat>)
  {
    && border <= |slots|
    && Embeds(start, slots, kept) && CountedTo(start, slots, border, elapsed, kept)
    && FiredInOrder(start, elapsed, fired, firedAt) && FiredTo(start, slots, border, elapsed, kept, firedAt)
    && OthersDropped(start, kept, fired, cb)
  }

  // ---------- dropping ----------

  /** Positions in a list, given positions in the list without its element number "at". */
  function Widened(rest: seq<nat>, at: nat): (r: seq<nat>)
    ensures |r| == |rest|
    ensures forall i :: 0 <= i < |r| ==> r[i] == if rest[i] < at then rest[i] else rest[i] + 1
  {
    seq(|rest|, i requires 0 <= i < |rest| => if rest[i] < at then rest[i] else rest[i] + 1)
  }

  /** The positions that survive unregistering the ids. */
  ghost function DropPositions(slots: seq<Slot>, ids: seq<uint32>): seq<nat>
    decreases |ids|
  {
    if ids == [] then seq(|slots|, i => i)
    else
      var at := IndexOf(slots, ids[0]);
      if at == |slots| then DropPositions(slots, ids[1..])
      else Widened(DropPositions(Without(slots, at), ids[1..]), at)
  }

  ghost predicate DropFits(slots: seq<Slot>, border: nat, after: (seq<Slot>, nat), keep: seq<nat>) {
    && |keep| == |after.0| && Increasing(keep, |slots|)
    && forall i :: 0 <= i < |keep| ==> after.0[i] == slots[keep[i]] && (i < after.1 <==> keep[i] < border)
  }

  /** Dropping keeps the other slots, in order, on their side of the border. */
  lemma {:induction false} DropKeeps(slots: seq<Slot>, border: nat, ids: seq<uint32>)
    requires border <= |slots|
    ensures DropFits(slots, border, Drop(slots, border, ids), DropPositions(slots, ids))
    decreases |ids|
  {
    if ids != [] {
      var at := IndexOf(slots, ids[0]);
      if at == |slots| {
        DropKeeps(slots, border, ids[1..]);
      } else {
        var border1 := if at < border then border - 1 else border;
        DropKeeps(Without(slots, at), border1, ids[1..]);
        WidenedFits(slots, border, at, Drop(Without(slots, at), border1, ids[1..]),
                    DropPositions(Without(slots, at), ids[1..]));
      }
    }
  }

  lemma {:induction false} WidenedFits(slots: seq<Slot>, border: nat, at: nat, after: (seq<Slot>, nat), keep: seq<nat>)
    requires at < |slots| && DropFits(Without(slots, at), if at < border then border - 1 else border, after, keep)
    ensures DropFits(slots, border, after, Widened(keep, at))
  {
  }

  lemma {:induction false} DropRemovesOnly(slots: seq<Slot>, ids: seq<uint32>, q: nat)
    requires q < |slots|
    ensures KeptAt(DropPositions(slots, ids), q) || slots[q].timer.id in ids
    decreases |ids|
  {
    if ids == [] {
      assert DropPositions(slots, ids)[q] == q;
    } else {
      var at := IndexOf(slots, ids[0]);
      if at == |slots| {
        DropRemovesOnly(slots, ids[1..], q);
      } else if q != at {
        var p := if q < at then q else q - 1;
        DropRemovesOnly(Without(slots, at), ids[1..], p);
        var rest := DropPositions(Without(slots, at), ids[1..]);
        if KeptAt(rest, p) {
          var i :| 0 <= i < |rest| && rest[i] == p;
          assert Widened(rest, at)[i] == q;
        }
      }
    }
  }

  // ---------- one check ----------

  /**
   * One check: the timers left keep their order; each was counted down exactly once; a due one was fired,
   * and no timer was fired that was not due, or twice, or out of order; whatever is gone was unregistered.
   */
  lemma {:induction false} SweepAccounts(start: seq<Slot>, elapsed: int, cb: Callback)
    returns (kept: seq<nat>, firedAt: seq<nat>)
    ensures var r := Sweep(start, 0, elapsed, [], cb);
            Accounted(start, r.slots, |r.slots|, elapsed, r.fired, cb, kept, firedAt)
  {
    kept := seq(|start|, i => i);
    forall q: nat | q < |start| ensures KeptAt(kept, q) {
      assert kept[q] == q;
    }
    kept, firedAt := SweepFrom(start, start, 0, elapsed, [], cb, kept, []);
  }

  lemma {:induction false} SweepFrom(start: seq<Slot>, slots: seq<Slot>, border: nat, elapsed: int,
                                     fired: seq<SyncTimer>, cb: Callback, kept: seq<nat>, firedAt: seq<nat>)
    returns (kept': seq<nat>, firedAt': seq<nat>)
    requires Accounted(start, slots, border, elapsed, fired, cb, kept, firedAt)
    ensures var r := Sweep(slots, border, elapsed, fired, cb);
            Accounted(start, r.slots, |r.slots|, elapsed, r.fired, cb, kept', firedAt')
    decreases |slots| - border
  {
    if border == |slots| {
      return kept, firedAt;
    }
    var t := slots[border].timer;
    var left := Counted(slots[border].left, elapsed);
    if left > 0 {
      NotDueAccounts(start, slots, border, elapsed, fired, cb, kept, firedAt);
      kept', firedAt' := SweepFrom(start, slots[border := Slot(t, left)], border + 1, elapsed, fired, cb, kept,
                                   firedAt);
    } else {
      FireAccounts(start, slots, border, elapsed, fired, cb, kept, firedAt);
      var fired2, firedAt2 := fired + [t], firedAt + [kept[border]];
      var restarted := slots[border := Slot(t, t.timeout)];
      var kept2 := DropAccounts(start, restarted, border + 1, elapsed, fired2, cb, kept, firedAt2);
      var after := Drop(restarted, border + 1, cb(Ids(fired2)));
      kept', firedAt' := SweepFrom(start, after.0, after.1, elapsed, fired2, cb, kept2, firedAt2);
    }
  }

  lemma {:induction false} NotDueAccounts(start: seq<Slot>, slots: seq<Slot>, border: nat, elapsed: int,
                                          fired: seq<SyncTimer>, cb: Callback, kept: seq<nat>, firedAt: seq<nat>)
    requires Accounted(start, slots, border, elapsed, fired, cb, kept, firedAt)
    requires border < |slots| && !Due(slots[border], elapsed)
    ensures var counted := Slot(slots[border].timer, Counted(slots[border].left, elapsed));
            Accounted(start, slots[border := counted], border + 1, elapsed, fired, cb, kept, firedAt)
  {
  }

  lemma {:induction false} FireAccounts(start: seq<Slot>, slots: seq<Slot>, border: nat, elapsed: int,
                                        fired: seq<SyncTimer>, cb: Callback, kept: seq<nat>, firedAt: seq<nat>)
    requires Accounted(start, slots, border, elapsed, fired, cb, kept, firedAt)
    requires border < |slots| && Due(slots[border], elapsed)
    ensures var t := slots[border].timer;
            Accounted(start, slots[border := Slot(t, t.timeout)], border + 1, elapsed, fired + [t], cb,
                      kept, firedAt + [kept[border]])
  {
    var t := slots[border].timer;
    var firedAt' := firedAt + [kept[border]];
    assert firedAt'[|firedAt|] == kept[border];
    assert FiredTo(start, slots, border + 1, elapsed, kept, firedAt') by {
      forall i | border + 1 <= i < |kept| ensures AllBelow(firedAt', kept[i]) {
        assert AllBelow(firedAt, kept[i]);
      }
    }
    assert FiredInOrder(start, elapsed, fired + [t], firedAt') by {
      assert AllBelow(firedAt, kept[border]);
    }
    MoreFired(start, kept, fired, cb, t);
  }

  lemma {:induction false} MoreFired(start: seq<Slot>, kept: seq<nat>, fired: seq<SyncTimer>, cb: Callback,
                                     t: SyncTimer)
    requires OthersDropped(start, kept, fired, cb)
    ensures OthersDropped(start, kept, fired + [t], cb)
  {
    forall q: nat | q < |start| && !KeptAt(kept, q) ensures Dropped(start[q].timer.id, fired + [t], cb) {
      var j :| 1 <= j <= |fired| && start[q].timer.id in cb(Ids(fired[..j]));
      assert (fired + [t])[..j] == fired[..j];
    }
  }

  function Composed(outer: seq<nat>, inner: seq<nat>): (r: seq<nat>)
    requires forall i :: 0 <= i < |inner| ==> inner[i] < |outer|
    ensures |r| == |inner| && forall i :: 0 <= i < |r| ==> r[i] == outer[inner[i]]
  {
    seq(|inner|, i requires 0 <= i < |inner| => outer[inner[i]])
  }

  lemma {:induction false} DropAccounts(start: seq<Slot>, slots: seq<Slot>, border: nat, elapsed: int,
                                        fired: seq<SyncTimer>, cb: Callback, kept: seq<nat>, firedAt: seq<nat>)
    returns (kept': seq<nat>)
    requires Accounted(start, slots, border, elapsed, fired, cb, kept, firedAt) && fired != []
    ensures var after := Drop(slots, border, cb(Ids(fired)));
            Accounted(start, after.0, after.1, elapsed, fired, cb, kept', firedAt)
  {
    var ids := cb(Ids(fired));
    var keep := DropPositions(slots, ids);
    DropKeeps(slots, border, ids);
    kept' := Composed(kept, keep);
    OthersStillDropped(start, slots, fired, cb, kept);
  }

  lemma {:induction false} OthersStillDropped(start: seq<Slot>, slots: seq<Slot>, fired: seq<SyncTimer>, cb: Callback,
                                              kept: seq<nat>)
    requires Embeds(start, slots, kept) && OthersDropped(start, kept, fired, cb) && fired != []
    ensures var keep := DropPositions(slots, cb(Ids(fired)));
            Increasing(keep, |slots|) && OthersDropped(start, Composed(kept, keep), fired, cb)
  {
    var ids := cb(Ids(fired));
    var keep := DropPositions(slots, ids);
    DropKeeps(slots, 0, ids);
    forall q: nat | q < |start| && KeptAt(kept, q)
      ensures KeptAt(Composed(kept, keep), q) || Dropped(start[q].timer.id, fired, cb)
    {
      var p :| 0 <= p < |kept| && kept[p] == q;
      DropRemovesOnly(slots, ids, p);
      if KeptAt(keep, p) {
        var i :| 0 <= i < |keep| && keep[i] == p;
        assert Composed(kept, keep)[i] == q;
      } else {
        assert fired[..|fired|] == fired;
      }
    }
  }

  /** Seen from one timer that is still listed: counted down once, fired exactly when due, and then only once. */
  lemma {:induction false} SweepTimer(start: seq<Slot>, elapsed: int, cb: Callback, t: SyncTimer, left: int32)
    requires Distinct(start) && Slot(t, left) in start
    ensures var r := Sweep(start, 0, elapsed, [], cb);
            && Distinct(r.slots)
            && (forall s :: s in r.fired ==> multiset(r.fired)[s] == 1)
            && (Listed(r.slots, t) ==>
                  && Slot(t, Restarted(Slot(t, left), elapsed)) in r.slots
                  && (t in r.fired <==> Due(Slot(t, left), elapsed)))
            && (!Listed(r.slots, t) ==> Dropped(t.id, r.fired, cb))
            && (t in r.fired ==> Due(Slot(t, left), elapsed))
  {
    var r := Sweep(start, 0, elapsed, [], cb);
    var kept, firedAt := SweepAccounts(start, elapsed, cb);
    EmbedsDistinct(start, r.slots, kept);
    FiredOnce(start, elapsed, r.fired, firedAt);
    var q :| 0 <= q < |start| && start[q] == Slot(t, left);
    if Listed(r.slots, t) {
      var i :| 0 <= i < |r.slots| && r.slots[i].timer == t;
      assert kept[i] == q;
      if Due(start[q], elapsed) {
        var j :| 0 <= j < |firedAt| && firedAt[j] == q;
        assert r.fired[j] == t;
      }
    }
    if KeptAt(kept, q) {
      KeptListed(start, r.slots, kept, q);
    }
    if t in r.fired {
      var j :| 0 <= j < |r.fired| && r.fired[j] == t;
      assert firedAt[j] == q;
    }
  }

  lemma {:induction false} KeptListed(start: seq<Slot>, slots: seq<Slot>, kept: seq<nat>, q: nat)
    requires Embeds(start, slots, kept) && q < |start| && KeptAt(kept, q)
    ensures Listed(slots, start[q].timer)
  {
  }

  lemma {:induction false} EmbedsDistinct(start: seq<Slot>, slots: seq<Slot>, kept: seq<nat>)
    requires Distinct(start) && Embeds(start, slots, kept)
    ensures Distinct(slots)
    ensures forall t :: Listed(slots, t) ==> Listed(start, t)
  {
  }

  lemma {:induction false} FiredOnce(start: seq<Slot>, elapsed: int, fired: seq<SyncTimer>, firedAt: seq<nat>)
    requires Distinct(start) && FiredInOrder(start, elapsed, fired, firedAt)
    ensures forall s :: s in fired ==> multiset(fired)[s] == 1
  {
    if fired != [] {
      var n := |fired| - 1;
      FiredOnce(start, elapsed, fired[..n], firedAt[..n]);
      assert fired == fired[..n] + [fired[n]];
      assert fired[n] !in fired[..n];
    }
  }

  // ---------- one check, with the ids all different ----------

  ghost predicate UniqueIds(slots: seq<Slot>) {
    forall i, j :: 0 <= i < j < |slots| ==> slots[i].timer.id != slots[j].timer.id
  }

  ghost predicate NoneDropped(slots: seq<Slot>, fired: seq<SyncTimer>, cb: Callback) {
    forall i :: 0 <= i < |slots| ==> !Dropped(slots[i].timer.id, fired, cb)
  }

  lemma {:induction false} DropKeepsIds(slots: seq<Slot>, ids: seq<uint32>, border: nat)
    requires border <= |slots| && UniqueIds(slots)
    ensures var after := Drop(slots, border, ids).0;
            && UniqueIds(after)
            && (forall i :: 0 <= i < |after| ==> after[i] in slots && after[i].timer.id !in ids)
    decreases |ids|
  {
    if ids != [] {
      var at := IndexOf(slots, ids[0]);
      if at == |slots| {
        DropKeepsIds(slots, ids[1..], border);
      } else {
        var rest := Without(slots, at);
        forall i | 0 <= i < |rest| ensures rest[i] in slots && rest[i].timer.id != ids[0] {
          assert rest[i] == slots[if i < at then i else i + 1];
        }
        DropKeepsIds(rest, ids[1..], if at < border then border - 1 else border);
      }
    }
  }

  lemma {:induction false} DroppedMore(id: uint32, fired: seq<SyncTimer>, t: SyncTimer, cb: Callback)
    ensures Dropped(id, fired + [t], cb) <==> Dropped(id, fired, cb) || id in cb(Ids(fired + [t]))
  {
    var more := fired + [t];
    assert more[..|more|] == more;
    assert forall j :: 1 <= j <= |fired| ==> more[..j] == fired[..j];
    if Dropped(id, fired, cb) {
      var j :| 1 <= j <= |fired| && id in cb(Ids(fired[..j]));
      assert id in cb(Ids(more[..j]));
    }
  }

  lemma {:induction false} DropLeavesNone(slots: seq<Slot>, border: nat, fired: seq<SyncTimer>, t: SyncTimer,
                                          cb: Callback)
    requires border <= |slots| && UniqueIds(slots) && NoneDropped(slots, fired, cb)
    ensures var after := Drop(slots, border, cb(Ids(fired + [t]))).0;
            UniqueIds(after) && NoneDropped(after, fired + [t], cb)
  {
    var ids := cb(Ids(fired + [t]));
    DropKeepsIds(slots, ids, border);
    var after := Drop(slots, border, ids).0;
    forall i | 0 <= i < |after| ensures !Dropped(after[i].timer.id, fired + [t], cb) {
      DroppedMore(after[i].timer.id, fired, t, cb);
    }
  }

  lemma {:induction false} SweepLeavesNone(slots: seq<Slot>, border: nat, elapsed: int, fired: seq<SyncTimer>,
                                           cb: Callback)
    requires border <= |slots| && UniqueIds(slots) && NoneDropped(slots, fired, cb)
    ensures var r := Sweep(slots, border, elapsed, fired, cb);
            NoneDropped(r.slots, r.fired, cb)
    decreases |slots| - border
  {
    if border < |slots| {
      var t := slots[border].timer;
      var left := Counted(slots[border].left, elapsed);
      if left > 0 {
        SweepLeavesNone(slots[border := Slot(t, left)], border + 1, elapsed, fired, cb);
      } else {
        var restarted := slots[border := Slot(t, t.timeout)];
        DropLeavesNone(restarted, border + 1, fired, t, cb);
        var after := Drop(restarted, border + 1, cb(Ids(fired + [t])));
        SweepLeavesNone(after.0, after.1, elapsed, fired + [t], cb);
      }
    }
  }

  /** With different ids a timer stays listed exactly if no callback of the check unregistered its id. */
  lemma {:induction false} StaysUnlessDropped(start: seq<Slot>, elapsed: int, cb: Callback, t: SyncTimer, left: int32)
    requires UniqueIds(start) && Slot(t, left) in start
    ensures var r := Sweep(start, 0, elapsed, [], cb);
            Listed(r.slots, t) <==> !Dropped(t.id, r.fired, cb)
  {
    var r := Sweep(start, 0, elapsed, [], cb);
    SweepLeavesNone(start, 0, elapsed, [], cb);
    SweepTimer(start, elapsed, cb, t, left);
  }

  // ---------- runs ----------

  datatype Event = Registered(timer: SyncTimer) | Unregistered(id: uint32) | Checked(now: nat, cb: Callback)

  /** The list, the time of the last check and what the last event fired. */
  datatype Clocked = Clocked(slots: seq<Slot>, prev: nat, fired: seq<SyncTimer>)

  /** A timer object is listed when it is created, so never a second time. */
  ghost function Next(c: Clocked, e: Event): Clocked {
    match e
    case Registered(t) => Clocked(if Listed(c.slots, t) then c.slots else c.slots + [Slot(t, t.timeout)], c.prev, [])
    case Unregistered(id) => Clocked(Drop(c.slots, 0, [id]).0, c.prev, [])
    case Checked(now, cb) =>
      var r := Sweep(c.slots, 0, now - PreviousCheck(c.prev, now), [], cb);
      Clocked(r.slots, now, r.fired)
  }

  ghost function Run(c: Clocked, events: seq<Event>): Clocked {
    if events == [] then c else Next(Run(c, events[..|events| - 1]), events[|events| - 1])
  }

  /** How many timers have been registered. */
  function Registrations(events: seq<Event>): nat {
    if events == [] then 0
    else Registrations(events[..|events| - 1]) + if events[|events| - 1].Registered? then 1 else 0
  }

  /** Every new timer has the next id of the counter, which stood at start. */
  predicate Numbered(events: seq<Event>, start: uint32) {
    forall i :: 0 <= i < |events| && events[i].Registered? ==>
      events[i].timer.id == IdAfter(start, Registrations(events[..i]) + 1)
  }

  /** Timer t was registered as the n-th. */
  ghost predicate RegisteredAs(events: seq<Event>, t: SyncTimer, n: nat) {
    exists k :: 0 <= k < |events| && events[k] == Registered(t) && Registrations(events[..k]) + 1 == n
  }

  lemma {:induction false} StillRegistered(events: seq<Event>, n: nat, t: SyncTimer, num: nat)
    requires n <= |events| && RegisteredAs(events[..n], t, num)
    ensures RegisteredAs(events, t, num)
  {
    var k :| 0 <= k < n && events[..n][k] == Registered(t) && Registrations(events[..n][..k]) + 1 == num;
    assert events[..n][..k] == events[..k];
    assert events[k] == Registered(t);
  }

  /** The timers in the list, in order of registration; nums says which registration each was. */
  ghost predicate InOrder(slots: seq<Slot>, nums: seq<nat>, start: uint32, events: seq<Event>) {
    && |nums| == |slots|
    && (forall i :: 0 <= i < |nums| ==> FromCounter(slots[i].timer, nums[i], start, events))
    && (forall i, j :: 0 <= i < j < |nums| ==> nums[i] < nums[j])
  }

  ghost predicate FromCounter(t: SyncTimer, num: nat, start: uint32, events: seq<Event>) {
    1 <= num <= Registrations(events) && RegisteredAs(events, t, num) && t.id == IdAfter(start, num)
  }

  lemma {:induction false} EmbeddedInOrder(start: seq<Slot>, slots: seq<Slot>, kept: seq<nat>, nums: seq<nat>,
                                           first: uint32, events: seq<Event>) returns (left: seq<nat>)
    requires Embeds(start, slots, kept) && InOrder(start, nums, first, events)
    ensures InOrder(slots, left, first, events)
  {
    left := seq(|kept|, i requires 0 <= i < |kept| => nums[kept[i]]);
  }

  lemma {:induction false} MoreEventsInOrder(slots: seq<Slot>, nums: seq<nat>, start: uint32, events: seq<Event>)
    requires events != [] && InOrder(slots, nums, start, events[..|events| - 1])
    ensures InOrder(slots, nums, start, events)
  {
    forall i | 0 <= i < |nums| ensures FromCounter(slots[i].timer, nums[i], start, events) {
      assert FromCounter(slots[i].timer, nums[i], start, events[..|events| - 1]);
      StillRegistered(events, |events| - 1, slots[i].timer, nums[i]);
    }
  }

  lemma {:induction false} NewInOrder(slots: seq<Slot>, nums: seq<nat>, t: SyncTimer, start: uint32, events: seq<Event>)
    requires events != [] && events[|events| - 1] == Registered(t)
    requires InOrder(slots, nums, start, events[..|events| - 1]) && t.id == IdAfter(start, Registrations(events))
    ensures InOrder(slots + [Slot(t, t.timeout)], nums + [Registrations(events)], start, events)
  {
    MoreEventsInOrder(slots, nums, start, events);
    assert RegisteredAs(events, t, Registrations(events));
    forall i | 0 <= i < |nums| ensures nums[i] < Registrations(events) {
      assert FromCounter(slots[i].timer, nums[i], start, events[..|events| - 1]);
    }
  }

  lemma {:induction false} SweepEmbeds(slots: seq<Slot>, elapsed: int, cb: Callback, after: seq<Slot>)
    returns (kept: seq<nat>)
    requires after == Sweep(slots, 0, elapsed, [], cb).slots
    ensures Embeds(slots, after, kept)
  {
    var firedAt;
    kept, firedAt := SweepAccounts(slots, elapsed, cb);
  }

  lemma {:induction false} DropEmbeds(slots: seq<Slot>, id: uint32, after: seq<Slot>) returns (kept: seq<nat>)
    requires after == Drop(slots, 0, [id]).0
    ensures Embeds(slots, after, kept)
  {
    DropKeeps(slots, 0, [id]);
    kept := DropPositions(slots, [id]);
  }

  /** An event that registers no timer leaves some of the listed ones, in their order. */
  lemma {:induction false} StepEmbeds(c: Clocked, e: Event) returns (kept: seq<nat>)
    requires !e.Registered?
    ensures Embeds(c.slots, Next(c, e).slots, kept)
  {
    match e
    case Unregistered(id) => kept := DropEmbeds(c.slots, id, Next(c, e).slots);
    case Checked(now, cb) => kept := SweepEmbeds(c.slots, now - PreviousCheck(c.prev, now), cb, Next(c, e).slots);
  }

  lemma {:induction false} RegisteredInOrder(c: Clocked, events: seq<Event>, t: SyncTimer, nums: seq<nat>,
                                             start: uint32)
    returns (more: seq<nat>)
    requires events != [] && events[|events| - 1] == Registered(t)
    requires InOrder(c.slots, nums, start, events[..|events| - 1]) && Numbered(events, start)
    ensures InOrder(Next(c, Registered(t)).slots, more, start, events)
  {
    if Listed(c.slots, t) {
      MoreEventsInOrder(c.slots, nums, start, events);
      more := nums;
    } else {
      NewInOrder(c.slots, nums, t, start, events);
      more := nums + [Registrations(events)];
    }
  }

  lemma {:induction false} StepInOrder(c: Clocked, events: seq<Event>, e: Event, nums: seq<nat>, start: uint32)
    returns (more: seq<nat>)
    requires events != [] && e == events[|events| - 1]
    requires InOrder(c.slots, nums, start, events[..|events| - 1]) && Numbered(events, start)
    ensures InOrder(Next(c, e).slots, more, start, events)
  {
    if e.Registered? {
      more := RegisteredInOrder(c, events, e.timer, nums, start);
    } else {
      MoreEventsInOrder(c.slots, nums, start, events);
      var kept := StepEmbeds(c, e);
      more := EmbeddedInOrder(c.slots, Next(c, e).slots, kept, nums, start, events);
    }
  }

  /** After any run from an empty list its timers stand in order of registration, with the ids the counter gave. */
  lemma {:induction false} RunInOrder(c: Clocked, events: seq<Event>, start: uint32) returns (nums: seq<nat>)
    requires c.slots == [] && Numbered(events, start)
    ensures InOrder(Run(c, events).slots, nums, start, events)
  {
    if events == [] {
      nums := [];
    } else {
      var n := |events| - 1;
      NumberedPrefix(events, start);
      var before := RunInOrder(c, events[..n], start);
      nums := StepInOrder(Run(c, events[..n]), events, events[n], before, start);
    }
  }

  lemma {:induction false} NumberedPrefix(events: seq<Event>, start: uint32)
    requires events != [] && Numbered(events, start)
    ensures Numbered(events[..|events| - 1], start)
  {
    var n := |events| - 1;
    forall i | 0 <= i < n ensures events[..n][..i] == events[..i] {}
  }

  /** No timer before the j-th was registered a multiple of 2^32 - 1 registrations earlier. */
  predicate NoneApart(nums: seq<nat>, j: nat)
    requires j < |nums|
  {
    forall i :: 0 <= i < j ==> (nums[j] - nums[i]) % (TWO_TO_THE_32 - 1) != 0
  }

  /**
   * Unregistering the id of a listed timer takes that timer exactly if none before it in the list was registered a
   * multiple of 2^32 - 1 registrations earlier; otherwise the first such timer goes in its place.
   */
  lemma {:induction false} UnregisterTakesOwnExactly(c: Clocked, events: seq<Event>, start: uint32, j: nat)
    returns (nums: seq<nat>)
    requires c.slots == [] && Numbered(events, start) && j < |Run(c, events).slots|
    ensures var slots := Run(c, events).slots;
            var i := IndexOf(slots, slots[j].timer.id);
            && InOrder(slots, nums, start, events)
            && i <= j && Drop(slots, 0, [slots[j].timer.id]).0 == Without(slots, i)
            && (i == j <==> NoneApart(nums, j))
            && (nums[j] - nums[i]) % (TWO_TO_THE_32 - 1) == 0
  {
    nums := RunInOrder(c, events, start);
    var slots := Run(c, events).slots;
    forall i | 0 <= i <= j
      ensures slots[i].timer.id == slots[j].timer.id <==> (nums[j] - nums[i]) % (TWO_TO_THE_32 - 1) == 0
    {
      assert FromCounter(slots[i].timer, nums[i], start, events);
      assert FromCounter(slots[j].timer, nums[j], start, events);
      IdsRepeatExactly(start, nums[i], nums[j]);
    }
    DropOne(slots, slots[j].timer.id);
  }

  lemma {:induction false} DropOne(slots: seq<Slot>, id: uint32)
    requires IndexOf(slots, id) < |slots|
    ensures Drop(slots, 0, [id]).0 == Without(slots, IndexOf(slots, id))
  {
    assert [id][1..] == [];
  }

  /** The gap to a check is one that the 32-bit countdown handles. */
  predicate Steady(prev: nat, e: Event) {
    e.Checked? ==> (e.now - PreviousCheck(prev, e.now)) % TWO_TO_THE_32 <= TWO_TO_THE_31
  }

  ghost predicate AllInRange(slots: seq<Slot>) {
    forall i :: 0 <= i < |slots| ==> InRange(slots[i])
  }

  /** Between checks every timer with a positive timeout has remaining time in (0, timeout]. */
  lemma {:induction false} RunKeepsRange(c: Clocked, events: seq<Event>)
    requires AllInRange(c.slots)
    requires forall i :: 0 <= i < |events| ==> Steady(Run(c, events[..i]).prev, events[i])
    requires forall i :: 0 <= i < |events| && events[i].Registered? ==> events[i].timer.timeout >= 0
    ensures AllInRange(Run(c, events).slots)
  {
    if events != [] {
      var n := |events| - 1;
      forall i | 0 <= i < n ensures Steady(Run(c, events[..n][..i]).prev, events[..n][i]) {
        assert events[..n][..i] == events[..i];
      }
      RunKeepsRange(c, events[..n]);
      StepKeepsRange(Run(c, events[..n]), events[n]);
    }
  }

  lemma {:induction false} SweepKeepsRange(slots: seq<Slot>, elapsed: int, cb: Callback)
    requires AllInRange(slots) && elapsed % TWO_TO_THE_32 <= TWO_TO_THE_31
    ensures AllInRange(Sweep(slots, 0, elapsed, [], cb).slots)
  {
    var kept, firedAt := SweepAccounts(slots, elapsed, cb);
    var after := Sweep(slots, 0, elapsed, [], cb).slots;
    forall i | 0 <= i < |after| ensures InRange(after[i]) {
      assert GapAllows(slots[kept[i]], elapsed);
      RestartedInRange(slots[kept[i]], elapsed);
    }
  }

  lemma {:induction false} StepKeepsRange(c: Clocked, e: Event)
    requires AllInRange(c.slots) && Steady(c.prev, e) && (e.Registered? ==> e.timer.timeout >= 0)
    ensures AllInRange(Next(c, e).slots)
  {
    match e
    case Registered(t) =>
    case Unregistered(id) => DropKeeps(c.slots, 0, [id]);
    case Checked(now, cb) => SweepKeepsRange(c.slots, now - PreviousCheck(c.prev, now), cb);
  }

  ghost predicate Has(slots: seq<Slot>, t: SyncTimer, left: int) {
    exists i :: 0 <= i < |slots| && slots[i].timer == t && slots[i].left == left
  }

  lemma {:induction false} ListedBefore(c: Clocked, e: Event, t: SyncTimer)
    requires Distinct(c.slots) && e != Registered(t) && Listed(Next(c, e).slots, t)
    ensures Listed(c.slots, t)
  {
    if !e.Registered? {
      var kept := StepEmbeds(c, e);
      EmbedsDistinct(c.slots, Next(c, e).slots, kept);
    }
  }

  /** What one event does to a timer that stays listed. */
  lemma {:induction false} StepTimer(c: Clocked, e: Event, t: SyncTimer, left: int32)
    requires Distinct(c.slots) && e != Registered(t) && Has(c.slots, t, left) && Listed(Next(c, e).slots, t)
    ensures var c' := Next(c, e);
            if e.Checked? then
              var elapsed := e.now - PreviousCheck(c.prev, e.now);
              && Has(c'.slots, t, Restarted(Slot(t, left), elapsed))
              && (t in c'.fired <==> Due(Slot(t, left), elapsed))
            else Has(c'.slots, t, left) && c'.fired == []
  {
    var i :| 0 <= i < |c.slots| && c.slots[i].timer == t && c.slots[i].left == left;
    assert c.slots[i] == Slot(t, left);
    match e
    case Registered(u) => assert Next(c, e).slots[i] == Slot(t, left);
    case Unregistered(id) => DropStep(c, id, t, left);
    case Checked(now, cb) => SweepTimer(c.slots, now - PreviousCheck(c.prev, now), cb, t, left);
  }

  /** The first check counts nothing down: it only starts the clock. */
  lemma {:induction false} FirstCheckCountsNothing(c: Clocked, now: nat, cb: Callback, t: SyncTimer, left: int32)
    requires c.prev == 0 && Distinct(c.slots) && Has(c.slots, t, left)
    ensures var c' := Next(c, Checked(now, cb));
            && c'.prev == now
            && (t in c'.fired ==> left <= 0)
            && (left > 0 && Listed(c'.slots, t) ==> Has(c'.slots, t, left))
  {
    var i :| 0 <= i < |c.slots| && c.slots[i].timer == t && c.slots[i].left == left;
    assert c.slots[i] == Slot(t, left);
    SweepTimer(c.slots, 0, cb, t, left);
    assert now - PreviousCheck(c.prev, now) == 0;
  }

  lemma {:induction false} DropStep(c: Clocked, id: uint32, t: SyncTimer, left: int32)
    requires Distinct(c.slots) && Slot(t, left) in c.slots && Listed(Drop(c.slots, 0, [id]).0, t)
    ensures Has(Drop(c.slots, 0, [id]).0, t, left)
  {
    DropKeeps(c.slots, 0, [id]);
    var after := Drop(c.slots, 0, [id]).0;
    var i :| 0 <= i < |after| && after[i].timer == t;
    assert after[i] == c.slots[DropPositions(c.slots, [id])[i]];
  }

  /** The clock does not step back and checks are less than 2^31 ms apart. */
  ghost predicate Regular(c: Clocked, events: seq<Event>) {
    forall i :: 0 <= i < |events| && events[i].Checked? ==>
      0 <= events[i].now - Run(c, events[..i]).prev <= TWO_TO_THE_31
  }

  /** While every check is less than its timeout away from time c.prev, a timer just started is not fired. */
  lemma {:induction false} NotYetFired(c: Clocked, events: seq<Event>, t: SyncTimer)
    requires c.prev > 0 && Distinct(c.slots) && Has(c.slots, t, t.timeout)
    requires Regular(c, events) && Registered(t) !in events && Listed(Run(c, events).slots, t)
    requires forall e :: e in events && e.Checked? ==> e.now - c.prev < t.timeout
    ensures var c' := Run(c, events);
            && Distinct(c'.slots) && c'.prev >= c.prev
            && Has(c'.slots, t, t.timeout - (c'.prev - c.prev))
            && (c'.prev > c.prev ==> c'.prev - c.prev < t.timeout)
            && (events != [] ==> t !in c'.fired)
  {
    if events != [] {
      var n := |events| - 1;
      var before := Run(c, events[..n]);
      RegularPrefix(c, events);
      RunKeepsDistinct(c, events[..n]);
      RunKeepsDistinct(c, events);
      ListedBefore(before, events[n], t);
      NotYetFired(c, events[..n], t);
      assert events[n] in events;
      NotFiredByStep(before, events[n], t, t.timeout - (before.prev - c.prev));
    }
  }

  lemma {:induction false} NotFiredByStep(c: Clocked, e: Event, t: SyncTimer, left: int32)
    requires c.prev > 0 && Distinct(c.slots) && e != Registered(t)
    requires Has(c.slots, t, left) && Listed(Next(c, e).slots, t)
    requires e.Checked? ==> 0 <= e.now - c.prev <= TWO_TO_THE_31 && e.now - c.prev < left
    ensures var c' := Next(c, e);
            && t !in c'.fired
            && Has(c'.slots, t, if e.Checked? then left - (e.now - c.prev) else left)
  {
    StepTimer(c, e, t, left);
    if e.Checked? {
      assert Counted(left, e.now - c.prev) == left - (e.now - c.prev);
    }
  }

  lemma {:induction false} RegularPrefix(c: Clocked, events: seq<Event>)
    requires Regular(c, events) && events != []
    ensures Regular(c, events[..|events| - 1])
  {
    var n := |events| - 1;
    forall i | 0 <= i < n ensures events[..n][..i] == events[..i] {}
  }

  lemma {:induction false} RunKeepsDistinct(c: Clocked, events: seq<Event>)
    requires Distinct(c.slots)
    ensures Distinct(Run(c, events).slots)
  {
    if events != [] {
      var n := |events| - 1;
      RunKeepsDistinct(c, events[..n]);
      StepKeepsDistinct(Run(c, events[..n]), events[n]);
    }
  }

  lemma {:induction false} StepKeepsDistinct(c: Clocked, e: Event)
    requires Distinct(c.slots)
    ensures Distinct(Next(c, e).slots)
  {
    if !e.Registered? {
      var kept := StepEmbeds(c, e);
      EmbedsDistinct(c.slots, Next(c, e).slots, kept);
    }
  }

  /**
   * From the check at time c.prev that started it afresh, a timer that stays listed next fires at the first
   * later check at least its timeout away. A timer registered since then fires by the same clock, so early.
   */
  lemma {:induction false} NextFiring(c: Clocked, events: seq<Event>, last: Event, t: SyncTimer)
    requires c.prev > 0 && Distinct(c.slots) && Has(c.slots, t, t.timeout)
    requires t.timeout >= 0 && last.Checked? && Regular(c, events + [last])
    requires Registered(t) !in events && Listed(Run(c, events + [last]).slots, t)
    requires forall e :: e in events && e.Checked? ==> e.now - c.prev < t.timeout
    ensures events != [] ==> t !in Run(c, events).fired
    ensures t in Run(c, events + [last]).fired <==> last.now - c.prev >= t.timeout
  {
    var all := events + [last];
    assert all[..|all| - 1] == events && all[|events|] == last;
    var before := Run(c, events);
    RegularPrefix(c, all);
    RunKeepsDistinct(c, events);
    ListedBefore(before, last, t);
    NotYetFired(c, events, t);
    FiringStep(before, last, t, t.timeout - (before.prev - c.prev));
  }

  lemma {:induction false} FiringStep(c: Clocked, e: Event, t: SyncTimer, left: int32)
    requires c.prev > 0 && Distinct(c.slots) && e.Checked? && 0 <= e.now - c.prev <= TWO_TO_THE_31
    requires left >= 0 && Has(c.slots, t, left) && Listed(Next(c, e).slots, t)
    ensures t in Next(c, e).fired <==> e.now - c.prev >= left
  {
    StepTimer(c, e, t, left);
    CountdownExact(left, e.now - c.prev);
  }
}
