/** The per-thread dictionary: a list of records searched front to back, which refines a map keyed by (thread, key). */
module ThreadDictionary {
  import opened Basics
  import opened LinkedList

  type Tid = nat
  type Key = uint32
  type Data = int

  datatype Code = Success | NotFound | NotInitialized

  // ---------- the records as values ----------

  datatype Entry = Entry(owner: Tid, key: Key, data: Data)

  predicate Matches(e: Entry, t: Tid, k: Key) {
    e.owner == t && e.key == k
  }

  /** The index of the first record of thread t for key k; |es| when there is none. */
  function Find(es: seq<Entry>, t: Tid, k: Key): (i: nat)
    ensures i <= |es|
    ensures i < |es| ==> Matches(es[i], t, k)
    ensures forall j :: 0 <= j < i ==> !Matches(es[j], t, k)
  {
    if es == [] then 0 else if Matches(es[0], t, k) then 0 else 1 + Find(es[1..], t, k)
  }

  function SetIn(es: seq<Entry>, t: Tid, k: Key, v: Data): seq<Entry> {
    var i := Find(es, t, k);
    if i < |es| then es[i := Entry(t, k, v)] else es + [Entry(t, k, v)]
  }

  function ReleaseIn(es: seq<Entry>, t: Tid, k: Key): seq<Entry> {
    var i := Find(es, t, k);
    if i < |es| then es[..i] + es[i + 1..] else es
  }

  /** At most one record per thread and key. */
  ghost predicate Unique(es: seq<Entry>) {
    forall i, j :: 0 <= i < j < |es| ==> !(es[i].owner == es[j].owner && es[i].key == es[j].key)
  }

  ghost function AsMap(es: seq<Entry>): map<(Tid, Key), Data> {
    if es == [] then map[] else map[(es[0].owner, es[0].key) := es[0].data] + AsMap(es[1..])
  }

  lemma {:induction false} AsMapAt(es: seq<Entry>, t: Tid, k: Key)
    requires Unique(es)
    ensures (t, k) in AsMap(es) <==> Find(es, t, k) < |es|
    ensures (t, k) in AsMap(es) ==> AsMap(es)[(t, k)] == es[Find(es, t, k)].data
  {
    if es != [] {
      AsMapAt(es[1..], t, k);
    }
  }

  lemma {:induction false} FindIsTheOnlyOne(es: seq<Entry>, t: Tid, k: Key, i: nat)
    requires Unique(es) && i < |es| && Matches(es[i], t, k)
    ensures Find(es, t, k) == i
  {}

  lemma {:induction false} SetKeepsUnique(es: seq<Entry>, t: Tid, k: Key, v: Data)
    requires Unique(es)
    ensures Unique(SetIn(es, t, k, v))
  {}

  lemma {:induction false} ReleaseKeepsUnique(es: seq<Entry>, t: Tid, k: Key)
    requires Unique(es)
    ensures Unique(ReleaseIn(es, t, k))
  {}

  /** Setting refines map update and keeps records unique. */
  lemma {:induction false} SetRefinesUpdate(es: seq<Entry>, t: Tid, k: Key, v: Data)
    requires Unique(es)
    ensures Unique(SetIn(es, t, k, v))
    ensures AsMap(SetIn(es, t, k, v)) == AsMap(es)[(t, k) := v]
  {
    var es' := SetIn(es, t, k, v);
    assert Unique(es');
    var m := AsMap(es)[(t, k) := v];
    forall p: (Tid, Key) ensures p in AsMap(es') <==> p in m
                         ensures p in m ==> AsMap(es')[p] == m[p] {
      AsMapAt(es, p.0, p.1);
      AsMapAt(es', p.0, p.1);
      SetFind(es, t, k, v, p.0, p.1);
    }
  }

  lemma {:induction false} SetFind(es: seq<Entry>, t: Tid, k: Key, v: Data, u: Tid, j: Key)
    requires Unique(es) && Unique(SetIn(es, t, k, v))
    ensures var es' := SetIn(es, t, k, v);
            if u == t && j == k then Find(es', u, j) < |es'| && es'[Find(es', u, j)].data == v
            else (Find(es', u, j) < |es'| <==> Find(es, u, j) < |es|)
                 && (Find(es, u, j) < |es| ==> es'[Find(es', u, j)] == es[Find(es, u, j)])
  {
    var es' := SetIn(es, t, k, v);
    if u == t && j == k {
      var i := Find(es, t, k);
      assert Matches(es'[i], t, k);
      FindIsTheOnlyOne(es', t, k, i);
    } else if Find(es, u, j) < |es| {
      assert Matches(es'[Find(es, u, j)], u, j);
      FindIsTheOnlyOne(es', u, j, Find(es, u, j));
    }
  }

  /** Releasing refines map removal and keeps records unique. */
  lemma {:induction false} ReleaseRefinesRemoval(es: seq<Entry>, t: Tid, k: Key)
    requires Unique(es)
    ensures Unique(ReleaseIn(es, t, k))
    ensures AsMap(ReleaseIn(es, t, k)) == AsMap(es) - {(t, k)}
  {
    var es' := ReleaseIn(es, t, k);
    var m := AsMap(es) - {(t, k)};
    forall p: (Tid, Key) ensures p in AsMap(es') <==> p in m
                         ensures p in m ==> AsMap(es')[p] == m[p] {
      AsMapAt(es, p.0, p.1);
      AsMapAt(es', p.0, p.1);
      ReleaseFind(es, t, k, p.0, p.1);
    }
  }

  lemma {:induction false} ReleaseFind(es: seq<Entry>, t: Tid, k: Key, u: Tid, j: Key)
    requires Unique(es) && Unique(ReleaseIn(es, t, k))
    ensures var es' := ReleaseIn(es, t, k);
            if u == t && j == k then Find(es', u, j) == |es'|
            else (Find(es', u, j) < |es'| <==> Find(es, u, j) < |es|)
                 && (Find(es, u, j) < |es| ==> es'[Find(es', u, j)] == es[Find(es, u, j)])
  {
    var es' := ReleaseIn(es, t, k);
    var i := Find(es, t, k);
    if i < |es| {
      if (u != t || j != k) && Find(es, u, j) < |es| {
        var g := Find(es, u, j);
        assert es'[if g < i then g else g - 1] == es[g];
      }
      var f := Find(es', u, j);
      if f < |es'| {
        var f0 := if f < i then f else f + 1;
        assert es'[f] == es[f0];
        FindIsTheOnlyOne(es, u, j, f0);
      }
    }
  }

  // ---------- histories ----------

  /** What the threads do to the dictionary, each under the dictionary's mutex. */
  datatype Op = SetValue(t: Tid, k: Key, v: Data) | Release(t: Tid, k: Key)

  function Do(es: seq<Entry>, op: Op): seq<Entry> {
    match op
    case SetValue(t, k, v) => SetIn(es, t, k, v)
    case Release(t, k) => ReleaseIn(es, t, k)
  }

  function DoAll(es: seq<Entry>, ops: seq<Op>): seq<Entry> {
    if ops == [] then es else Do(DoAll(es, ops[..|ops| - 1]), ops[|ops| - 1])
  }

  /** What get has to answer, read off the history alone: the last value set and not released since. */
  function LastSet(ops: seq<Op>, t: Tid, k: Key): Option<Data> {
    if ops == [] then None
    else
      match ops[|ops| - 1]
      case SetValue(t1, k1, v) => if t1 == t && k1 == k then Some(v) else LastSet(ops[..|ops| - 1], t, k)
      case Release(t1, k1) => if t1 == t && k1 == k then None else LastSet(ops[..|ops| - 1], t, k)
  }

  /** What getValueFromKey reads. */
  function Get(es: seq<Entry>, t: Tid, k: Key): Option<Data> {
    var i := Find(es, t, k);
    if i < |es| then Some(es[i].data) else None
  }

  lemma {:induction false} HistoryKeepsUnique(ops: seq<Op>)
    ensures Unique(DoAll([], ops))
  {
    if ops != [] {
      var before := DoAll([], ops[..|ops| - 1]);
      HistoryKeepsUnique(ops[..|ops| - 1]);
      match ops[|ops| - 1]
      case SetValue(t, k, v) => SetRefinesUpdate(before, t, k, v);
      case Release(t, k) => ReleaseRefinesRemoval(before, t, k);
    }
  }

  /** After any history, get answers the last value that this thread set for this key and did not release since. */
  lemma {:induction false} GetReadsLastSet(ops: seq<Op>, t: Tid, k: Key)
    ensures Get(DoAll([], ops), t, k) == LastSet(ops, t, k)
  {
    if ops != [] {
      var rest := ops[..|ops| - 1];
      var before := DoAll([], rest);
      HistoryKeepsUnique(rest);
      GetReadsLastSet(rest, t, k);
      match ops[|ops| - 1]
      case SetValue(t1, k1, v) =>
        SetRefinesUpdate(before, t1, k1, v);
        SetFind(before, t1, k1, v, t, k);
      case Release(t1, k1) =>
        ReleaseRefinesRemoval(before, t1, k1);
        ReleaseFind(before, t1, k1, t, k);
    }
  }

  function Owner(op: Op): Tid {
    op.t
  }

  /** The operations of thread t, in order. */
  function OwnOps(ops: seq<Op>, t: Tid): seq<Op> {
    if ops == [] then []
    else OwnOps(ops[..|ops| - 1], t) + (if Owner(ops[|ops| - 1]) == t then [ops[|ops| - 1]] else [])
  }

  /** Nothing another thread does changes what thread t reads. */
  lemma {:induction false} ThreadsAreIsolated(ops: seq<Op>, t: Tid, k: Key)
    ensures Get(DoAll([], ops), t, k) == Get(DoAll([], OwnOps(ops, t)), t, k)
  {
    GetReadsLastSet(ops, t, k);
    GetReadsLastSet(OwnOps(ops, t), t, k);
    LastSetOfOwn(ops, t, k);
  }

  lemma {:induction false} LastSetOfOwn(ops: seq<Op>, t: Tid, k: Key)
    ensures LastSet(OwnOps(ops, t), t, k) == LastSet(ops, t, k)
  {
    if ops != [] {
      LastSetOfOwn(ops[..|ops| - 1], t, k);
      var own := OwnOps(ops[..|ops| - 1], t);
      if Owner(ops[|ops| - 1]) == t {
        var all := own + [ops[|ops| - 1]];
        assert OwnOps(ops, t) == all && all[..|all| - 1] == own;
      } else {
        assert OwnOps(ops, t) == own;
      }
    }
  }

  // ---------- the dictionary on the heap ----------

  class ThreadRecord {
    const owner: Tid
    const key: Key
    var data: Data

    constructor (owner: Tid, key: Key, data: Data)
      ensures this.owner == owner && this.key == key && this.data == data
    {
      this.owner, this.key, this.data := owner, key, data;
    }
  }

  ghost function EntriesOf(records: seq<ThreadRecord>): (es: seq<Entry>)
    reads records
    ensures |es| == |records|
    ensures forall i :: 0 <= i < |es| ==> es[i] == Entry(records[i].owner, records[i].key, records[i].data)
  {
    seq(|records|, i requires 0 <= i < |records| reads records =>
      Entry(records[i].owner, records[i].key, records[i].data))
  }

  lemma {:induction false} EntriesRemoved(records: seq<ThreadRecord>, i: nat, rest: seq<ThreadRecord>)
    requires i < |records| && rest == records[..i] + records[i + 1..]
    ensures EntriesOf(rest) == EntriesOf(records)[..i] + EntriesOf(records)[i + 1..]
  {}

  /** The list holds the records, as untyped data. */
  ghost predicate Same(contents: seq<object>, records: seq<ThreadRecord>) {
    |contents| == |records| && forall i :: 0 <= i < |records| ==> contents[i] == records[i]
  }

  lemma {:induction false} SameRemoved(contents: seq<object>, records: seq<ThreadRecord>, i: nat)
    requires Same(contents, records) && i < |records|
    ensures Same(contents[..i] + contents[i + 1..], records[..i] + records[i + 1..])
  {}

  class Dictionary {
    var initialized: bool
    var list: List
    ghost var records: seq<ThreadRecord>

    ghost predicate Valid()
      reads this, list, list.items, records
    {
      Consistent() && (!initialized ==> records == [])
    }

    ghost predicate Consistent()
      reads this`list, this`records, list, list.items, records
    {
      Linked() && Unique(Entries())
    }

    /** The list is sound and holds the records. */
    ghost predicate Linked()
      reads this`list, this`records, list, list.items
    {
      list.Valid() && Same(list.Contents(), records)
    }

    ghost function Entries(): seq<Entry>
      reads this`records, records
    {
      EntriesOf(records)
    }

    constructor ()
      ensures Valid() && !initialized && Entries() == []
    {
      initialized := false;
      list := new List();
      records := [];
    }

    method Init()
      requires Valid()
      modifies this`initialized
      ensures Valid() && initialized && Entries() == old(Entries())
    {
      assert Consistent();
      initialized := true;
    }

    /** The search loop that all three operations share: the position of the record, null when there is none. */
    method Search(self: Tid, key: Key) returns (pos: ListItem?, record: ThreadRecord?, ghost i: nat)
      requires Consistent()
      ensures i == Find(Entries(), self, key)
      ensures i < |records| ==> pos == list.items[i] && record == records[i]
      ensures i == |records| ==> record == null
    {
      var next := list.GetHeadPosition();
      i := 0;
      pos, record := null, null;
      while next != null
        invariant 0 <= i <= |records| && next == list.At(i)
        invariant forall j :: 0 <= j < i ==> !Matches(Entries()[j], self, key)
        invariant record == null
        decreases |records| - i
      {
        pos := next;
        var data;
        data, next := list.GetNext(pos, i);
        var found: object := data;
        var r := found as ThreadRecord;
        if r.owner == self && r.key == key {
          record := r;
          FindIsTheOnlyOne(Entries(), self, key, i);
          return;
        }
        i := i + 1;
      }
    }

    method Overwrite(record: ThreadRecord, ghost i: nat, data: Data)
      requires Consistent() && i < |records| && record == records[i]
      modifies record
      ensures Consistent()
      ensures Entries() == old(Entries())[i := Entry(record.owner, record.key, data)]
    {
      ghost var before := Entries();
      record.data := data;
      assert Entries() == before[i := Entry(record.owner, record.key, data)];
    }

    method Append(record: ThreadRecord)
      requires Consistent() && record !in records
      requires Unique(Entries() + [Entry(record.owner, record.key, record.data)])
      modifies this`records, list, list.items
      ensures Consistent()
      ensures Entries() == old(Entries()) + [Entry(record.owner, record.key, record.data)]
    {
      ghost var before := Entries();
      var pos := list.AddTail(record);
      records := records + [record];
      assert Entries() == before + [Entry(record.owner, record.key, record.data)];
    }

    method Detach(pos: ListItem, ghost i: nat, ghost rest: seq<ThreadRecord>)
      requires Linked() && i < |records| && pos == list.items[i]
      requires rest == records[..i] + records[i + 1..]
      modifies this`records, list, list.items
      ensures Linked() && records == rest
    {
      SameRemoved(list.Contents(), records, i);
      list.RemoveAt(pos, i);
      records := rest;
    }

    method Unlink(pos: ListItem, ghost i: nat, ghost target: seq<Entry>)
      requires Linked() && i < |records| && pos == list.items[i]
      requires target == Entries()[..i] + Entries()[i + 1..] && Unique(target)
      modifies this`records, list, list.items
      ensures Consistent() && Entries() == target
    {
      ghost var rest := records[..i] + records[i + 1..];
      EntriesRemoved(records, i, rest);
      assert EntriesOf(rest) == target;
      Detach(pos, i, rest);
      assert Entries() == EntriesOf(rest);
    }

    /** Overwrites the thread's record for the key, or appends a new one. */
    method SetKeyValue(self: Tid, key: Key, data: Data) returns (code: Code)
      requires Valid()
      modifies this`initialized, this`records, list, list.items, records
      ensures Valid() && initialized && code == Success
      ensures Entries() == SetIn(old(Entries()), self, key, data)
    {
      Init();
      Store(self, key, data);
      return Success;
    }

    method Store(self: Tid, key: Key, data: Data)
      requires Consistent()
      modifies this`records, list, list.items, records
      ensures Consistent()
      ensures Entries() == SetIn(old(Entries()), self, key, data)
    {
      ghost var target := SetIn(Entries(), self, key, data);
      var pos, record, i := Search(self, key);
      if record != null {
        assert target == Entries()[i := Entry(record.owner, record.key, data)];
        Overwrite(record, i, data);
        assert Entries() == target;
      } else {
        assert Unique(target) && target == Entries() + [Entry(self, key, data)] by {
          SetKeepsUnique(Entries(), self, key, data);
        }
        record := new ThreadRecord(self, key, data);
        Append(record);
        assert Entries() == target;
      }
    }

    method GetValueFromKey(self: Tid, key: Key) returns (code: Code, data: Option<Data>)
      requires Valid()
      modifies this`initialized
      ensures Valid() && initialized && Entries() == old(Entries())
      ensures data == Get(Entries(), self, key)
      ensures code == if data.Some? then Success else NotFound
    {
      Init();
      var pos, record, i := Search(self, key);
      if record != null {
        return Success, Some(record.data);
      }
      return NotFound, None;
    }

    /** Unlinks the thread's record for the key. */
    method ReleaseKey(self: Tid, key: Key) returns (code: Code)
      requires Valid()
      modifies this`records, list, list.items
      ensures Valid() && initialized == old(initialized)
      ensures Entries() == ReleaseIn(old(Entries()), self, key)
      ensures code == if !old(initialized) then NotInitialized
                      else if Find(old(Entries()), self, key) < |old(Entries())| then Success else NotFound
    {
      if !initialized {
        return NotInitialized;
      }
      code := Drop(self, key);
    }

    method Drop(self: Tid, key: Key) returns (code: Code)
      requires Consistent()
      modifies this`records, list, list.items
      ensures Consistent()
      ensures Entries() == ReleaseIn(old(Entries()), self, key)
      ensures code == if Find(old(Entries()), self, key) < |old(Entries())| then Success else NotFound
    {
      ghost var target := ReleaseIn(Entries(), self, key);
      var pos, record, i := Search(self, key);
      if record == null {
        assert Entries() == target;
        return NotFound;
      }
      assert Unique(target) && target == Entries()[..i] + Entries()[i + 1..] by {
        ReleaseKeepsUnique(Entries(), self, key);
      }
      Unlink(pos, i, target);
      return Success;
    }
  }
}
