/**
 The circular doubly linked lists that are threaded through libusb's objects: a head and the
 links of the entries form one ring.
 */
module IntrusiveList {
  import opened Usb

  /** struct list_head */
  class Link {
    var prev: Link?
    var next: Link?

    constructor ()
    {
      prev, next := null, null;
    }
  }

  /** The i-th station of the ring, with the head before the first and after the last link. */
  ghost function Station(head: Link, s: seq<Link>, i: nat): Link
    requires i <= |s| + 1
  {
    if 1 <= i <= |s| then s[i - 1] else head
  }

  /** From `head` the next pointers visit exactly `s` and come back, the prev pointers likewise. */
  ghost predicate Ring(head: Link, s: seq<Link>)
    reads head, s
  {
    && head !in s
    && (forall i, j :: 0 <= i < j < |s| ==> s[i] != s[j])
    && (forall i :: 0 <= i <= |s| ==> Station(head, s, i).next == Station(head, s, i + 1))
    && (forall i :: 0 <= i <= |s| ==> Station(head, s, i + 1).prev == Station(head, s, i))
  }

  method ListInit(entry: Link)
    modifies entry
    ensures Ring(entry, [])
  {
    entry.prev, entry.next := entry, entry;
  }

  method ListEmpty(head: Link, ghost s: seq<Link>) returns (empty: bool)
    requires Ring(head, s)
    ensures empty <==> s == []
  {
    assert Station(head, s, 0).next == Station(head, s, 1);
    empty := head.next == head;
  }

  /** list_add: `entry` goes right after `at`, which is station k of the ring. */
  method ListAdd(entry: Link, at: Link, ghost head: Link, ghost s: seq<Link>, ghost k: nat)
    requires Ring(head, s) && entry != head && entry !in s
    requires k <= |s| && at == Station(head, s, k)
    modifies entry, head, s
    ensures Ring(head, Inserted(s, k, entry))
  {
    ghost var after := Station(head, s, k + 1);
    assert at.next == after;
    entry.next := at.next;
    entry.prev := at;
    at.next.prev := entry;
    at.next := entry;
    RingAfterInsert(head, s, k, entry);
  }

  /** list_add_tail: `entry` goes right before `at`, which is station k + 1 of the ring. */
  method ListAddTail(entry: Link, at: Link, ghost head: Link, ghost s: seq<Link>, ghost k: nat)
    requires Ring(head, s) && entry != head && entry !in s
    requires k <= |s| && at == Station(head, s, k + 1)
    modifies entry, head, s
    ensures Ring(head, Inserted(s, k, entry))
  {
    ghost var before := Station(head, s, k);
    assert at.prev == before;
    entry.next := at;
    entry.prev := at.prev;
    at.prev.next := entry;
    at.prev := entry;
    RingAfterInsert(head, s, k, entry);
  }

  /** The pointers around a freshly linked entry make a ring again. */
  lemma RingAfterInsert(head: Link, s: seq<Link>, k: nat, entry: Link)
    requires k <= |s| && entry != head && entry !in s && head !in s
    requires forall i, j :: 0 <= i < j < |s| ==> s[i] != s[j]
    requires entry.next == Station(head, s, k + 1) && entry.prev == Station(head, s, k)
    requires Station(head, s, k).next == entry && Station(head, s, k + 1).prev == entry
    requires forall i :: 0 <= i <= |s| && i != k ==> Station(head, s, i).next == Station(head, s, i + 1)
    requires forall i :: 0 <= i <= |s| && i != k ==> Station(head, s, i + 1).prev == Station(head, s, i)
    ensures Ring(head, Inserted(s, k, entry))
  {
    var r := Inserted(s, k, entry);
    forall i | 0 <= i <= |s| + 2
      ensures Station(head, r, i) == if i <= k then Station(head, s, i)
                                     else if i == k + 1 then entry else Station(head, s, i - 1)
    {
    }
    forall i | 0 <= i <= |r|
      ensures Station(head, r, i).next == Station(head, r, i + 1)
      ensures Station(head, r, i + 1).prev == Station(head, r, i)
    {
      if i < k {
        assert Station(head, s, i).next == Station(head, s, i + 1);
      } else if i > k + 1 {
        assert Station(head, s, i - 1).next == Station(head, s, i - 1 + 1);
      }
    }
  }

  /** list_del */
  method ListDel(entry: Link, ghost head: Link, ghost s: seq<Link>, ghost k: nat)
    requires Ring(head, s) && k < |s| && s[k] == entry
    modifies head, s
    ensures Ring(head, Without(s, k))
    ensures entry.next == null && entry.prev == null
  {
    assert Station(head, s, k).next == Station(head, s, k + 1) == entry;
    assert Station(head, s, k + 1).next == Station(head, s, k + 2);
    entry.next.prev := entry.prev;
    entry.prev.next := entry.next;
    entry.next, entry.prev := null, null;
    RingAfterDelete(head, s, k);
  }

  lemma RingAfterDelete(head: Link, s: seq<Link>, k: nat)
    requires k < |s| && head !in s
    requires forall i, j :: 0 <= i < j < |s| ==> s[i] != s[j]
    requires Station(head, s, k).next == Station(head, s, k + 2)
    requires Station(head, s, k + 2).prev == Station(head, s, k)
    requires forall i :: 0 <= i <= |s| && i != k && i != k + 1 ==> Station(head, s, i).next == Station(head, s, i + 1)
    requires forall i :: 0 <= i <= |s| && i != k && i != k + 1 ==> Station(head, s, i + 1).prev == Station(head, s, i)
    ensures Ring(head, Without(s, k))
  {
    var r := Without(s, k);
    forall i | 0 <= i <= |s|
      ensures Station(head, r, i) == if i <= k then Station(head, s, i) else Station(head, s, i + 1)
    {
    }
    forall i | 0 <= i <= |r|
      ensures Station(head, r, i).next == Station(head, r, i + 1)
      ensures Station(head, r, i + 1).prev == Station(head, r, i)
    {
      if i < k {
        assert Station(head, s, i).next == Station(head, s, i + 1);
      } else if i > k {
        assert Station(head, s, i + 1).next == Station(head, s, i + 1 + 1);
      }
    }
  }
}
