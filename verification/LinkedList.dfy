/** The doubly linked list of untyped data, as a heap structure that refines a sequence. */
module LinkedList {

  class ListItem {
    /** Set when the item is made and never changed. */
    const data: object
    var prev: ListItem?
    var next: ListItem?

    constructor (data: object)
      ensures this.data == data && prev == null && next == null
    {
      this.data := data;
      prev, next := null, null;
    }
  }

  ghost function DataOf(items: seq<ListItem>): (s: seq<object>)
    ensures |s| == |items| && forall i :: 0 <= i < |s| ==> s[i] == items[i].data
  {
    seq(|items|, i requires 0 <= i < |items| => items[i].data)
  }

  lemma {:induction false} DataOfRemoved(items: seq<ListItem>, i: nat, rest: seq<ListItem>)
    requires i < |items| && rest == items[..i] + items[i + 1..]
    ensures DataOf(rest) == DataOf(items)[..i] + DataOf(items)[i + 1..]
  {}

  /** The item at an index, null outside the list. */
  ghost function ItemAt(items: seq<ListItem>, i: int): ListItem? {
    if 0 <= i < |items| then items[i] else null
  }

  /** The i-th item points back to its predecessor and on to its successor. */
  ghost predicate Linked(items: seq<ListItem>, i: int)
    requires 0 <= i < |items|
    reads items
  {
    items[i].prev == ItemAt(items, i - 1) && items[i].next == ItemAt(items, i + 1)
  }

  /** The k-th item points past the i-th one. */
  ghost predicate Skips(items: seq<ListItem>, k: int, i: int)
    requires 0 <= k < |items|
    reads items
  {
    && items[k].prev == ItemAt(items, if k == i + 1 then i - 1 else k - 1)
    && items[k].next == ItemAt(items, if k == i - 1 then i + 1 else k + 1)
  }

  ghost predicate NoRepeats(items: seq<ListItem>) {
    forall i, j :: 0 <= i < j < |items| ==> items[i] != items[j]
  }

  lemma {:induction false} NoRepeatsLeft(items: seq<ListItem>, i: nat, rest: seq<ListItem>)
    requires i < |items| && rest == items[..i] + items[i + 1..] && NoRepeats(items)
    ensures NoRepeats(rest)
  {}

  lemma {:induction false} RemovedLinked(items: seq<ListItem>, i: nat, rest: seq<ListItem>, k: nat)
    requires i < |items| && rest == items[..i] + items[i + 1..] && k < |rest|
    requires Skips(items, if k < i then k else k + 1, i)
    ensures Linked(rest, k)
  {}

  class List {
    var head: ListItem?
    var tail: ListItem?
    var itemCount: int
    /** The items in list order; a position of the caller is one of them. */
    ghost var items: seq<ListItem>

    ghost predicate Valid()
      reads this, items
    {
      && NoRepeats(items)
      && (forall i :: 0 <= i < |items| ==> Linked(items, i))
      && head == At(0)
      && tail == At(|items| - 1)
      && itemCount == |items|
    }

    /** The item at an index, null outside the list. */
    ghost function At(i: int): ListItem?
      reads this
    {
      ItemAt(items, i)
    }

    /** The abstract value: the data pointers in list order. */
    ghost function Contents(): (s: seq<object>)
      reads this
      ensures |s| == |items| && forall i :: 0 <= i < |s| ==> s[i] == items[i].data
    {
      DataOf(items)
    }

    constructor ()
      ensures Valid() && items == [] && Contents() == []
    {
      head, tail, itemCount, items := null, null, 0, [];
    }

    /** Walks to the last item and hangs the new one behind it. A null pointer is refused. */
    method AddTail(data: object?) returns (pos: ListItem?)
      requires Valid()
      modifies this, items
      ensures Valid()
      ensures data == null ==> pos == null && items == old(items) && Contents() == old(Contents())
      ensures data != null ==> pos != null && fresh(pos) && pos == tail
                               && items == old(items) + [pos] && Contents() == old(Contents()) + [data]
    {
      if data == null {
        return null;
      }
      var item := new ListItem(data);
      ghost var n := |items|;
      if head != null {
        var last := head;
        ghost var i := 0;
        while last.next != null
          invariant 0 <= i < n && last == items[i]
          decreases n - i
        {
          assert Linked(items, i);
          last := last.next;
          i := i + 1;
        }
        assert Linked(items, i) && i == n - 1;
        item.prev := last;
        last.next := item;
      } else {
        item.prev := null;
        head := item;
      }
      tail := item;
      itemCount := itemCount + 1;
      items := items + [item];
      pos := tail;
      forall k | 0 <= k <= n ensures Linked(items, k) {
        if k < n {
          assert old(Linked(items, k));
          assert items[k] == old(items)[k];
        }
      }
    }

    method GetItemCount() returns (n: int)
      requires Valid()
      ensures n == |Contents()|
    {
      n := itemCount;
    }

    /** Unlinks everything, item by item. */
    method RemoveAll()
      requires Valid()
      modifies this
      ensures Valid() && items == [] && Contents() == []
    {
      if head != null {
        var cur := head;
        ghost var i := 0;
        while cur != null
          invariant 0 <= i <= |items| && cur == At(i)
          invariant items == old(items) && Valid()
          decreases |items| - i
        {
          assert Linked(items, i);
          cur := cur.next;
          i := i + 1;
        }
        head := null;
        tail := null;
      }
      itemCount := 0;
      items := [];
    }

    method GetHeadPosition() returns (pos: ListItem?)
      requires Valid()
      ensures pos == At(0)
    {
      pos := head;
    }

    method GetTailPosition() returns (pos: ListItem?)
      requires Valid()
      ensures pos == At(|items| - 1)
    {
      pos := tail;
    }

    /** The data at a position, and the position after it. */
    method GetNext(pos: ListItem?, ghost i: nat) returns (data: object?, next: ListItem?)
      requires Valid()
      requires pos != null ==> i < |items| && pos == items[i]
      ensures pos == null ==> data == null && next == null
      ensures pos != null ==> data == Contents()[i] && next == At(i + 1)
    {
      if pos == null {
        return null, null;
      }
      assert Linked(items, i);
      data := pos.data;
      next := pos.next;
    }

    method GetAt(pos: ListItem?) returns (data: object?)
      requires Valid()
      requires pos != null ==> pos in items
      ensures pos == null ==> data == null
      ensures forall i :: 0 <= i < |items| && pos == items[i] ==> data == Contents()[i]
    {
      data := if pos == null then null else pos.data;
    }

    /** Lets the neighbours of the item at a held position, or head and tail, point past it. */
    method PointPast(pos: ListItem, ghost i: nat)
      requires Valid() && i < |items| && pos == items[i]
      modifies this`head, this`tail, items
      ensures forall k :: 0 <= k < |items| && k != i ==> Skips(items, k, i)
      ensures head == At(if i == 0 then 1 else 0)
      ensures tail == At(if i == |items| - 1 then i - 1 else |items| - 1)
    {
      assert Linked(items, i);
      assert i > 0 ==> Linked(items, i - 1) && items[i - 1] != items[i];
      assert i + 1 < |items| ==> Linked(items, i + 1);
      if pos == head {
        head := pos.next;
      } else {
        pos.prev.next := pos.next;
      }
      if pos == tail {
        tail := pos.prev;
      } else {
        pos.next.prev := pos.prev;
      }
      forall k | 0 <= k < |items| && k != i ensures Skips(items, k, i) {
        assert old(Linked(items, k));
      }
    }

    /** Unlinks the item at a held position; every other position keeps its place in the order. */
    method RemoveAt(pos: ListItem?, ghost i: nat)
      requires Valid()
      requires pos != null ==> i < |items| && pos == items[i]
      modifies this, items
      ensures Valid()
      ensures pos == null ==> items == old(items) && Contents() == old(Contents())
      ensures pos != null ==> items == old(items)[..i] + old(items)[i + 1..]
                              && Contents() == old(Contents())[..i] + old(Contents())[i + 1..]
    {
      if pos == null {
        return;
      }
      PointPast(pos, i);
      ghost var before := items;
      itemCount := itemCount - 1;
      items := before[..i] + before[i + 1..];
      DataOfRemoved(before, i, items);
      NoRepeatsLeft(before, i, items);
      forall k | 0 <= k < |items| ensures Linked(items, k) {
        assert Skips(before, if k < i then k else k + 1, i);
        RemovedLinked(before, i, items, k);
      }
    }

    /** A GetNext walk from the head, comparing pointers. */
    method ExistTargetData(data: object?) returns (exist: bool)
      requires Valid()
      ensures exist <==> data != null && data in Contents()
    {
      var pos := GetHeadPosition();
      ghost var i := 0;
      exist := false;
      while pos != null
        invariant 0 <= i <= |items| && pos == At(i)
        invariant !exist && data !in Contents()[..i]
        decreases |items| - i
      {
        var cur;
        cur, pos := GetNext(pos, i);
        if data == cur {
          exist := true;
          return;
        }
        i := i + 1;
      }
    }
  }
}
