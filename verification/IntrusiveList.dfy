/**
 The intrusive doubly linked list of src/list.c.  A node is embedded in the
 structure it links: `item` stands for that enclosing structure.
 */
module IntrusiveList {

  /** `s` without the first occurrence of `x`. */
  ghost function Without<T>(s: seq<T>, x: T): (r: seq<T>)
    ensures forall y :: y in r ==> y in s
  {
    if s == [] then []
    else if s[0] == x then s[1..]
    else [s[0]] + Without(s[1..], x)
  }

  ghost predicate Distinct<T>(s: seq<T>) {
    forall i, j :: 0 <= i < j < |s| ==> s[i] != s[j]
  }

  lemma {:induction false} WithoutAt<T>(s: seq<T>, k: nat)
    requires Distinct(s) && k < |s|
    ensures Without(s, s[k]) == s[..k] + s[k+1..]
  {
    if k > 0 {
      WithoutAt(s[1..], k - 1);
      assert s[1..][..k-1] == s[1..k];
      assert [s[0]] + s[1..k] == s[..k];
    }
  }

  class ListNode<T> {
    var next: ListNode?<T>
    var prev: ListNode?<T>
    var head: ListHead?<T>
    const item: T

    // A node fresh from malloc: its links hold nothing a list could rely on.
    constructor (item: T)
      ensures this.item == item
    {
      this.item := item;
      next, prev, head := null, null, null;
    }
  }

  class ListHead<T> {
    var first: ListNode?<T>
    var last: ListNode?<T>
    ghost var nodes: seq<ListNode<T>>

    ghost predicate Valid()
      reads this, nodes
    {
      && Distinct(nodes)
      && first == (if nodes == [] then null else nodes[0])
      && last == (if nodes == [] then null else nodes[|nodes|-1])
      && (forall i {:trigger nodes[i].head} :: 0 <= i < |nodes| ==> nodes[i].head == this)
      && (forall i {:trigger nodes[i].prev} :: 0 <= i < |nodes| ==>
            nodes[i].prev == (if i == 0 then null else nodes[i-1]))
      && (forall i {:trigger nodes[i].next} :: 0 <= i < |nodes| ==>
            nodes[i].next == (if i == |nodes| - 1 then null else nodes[i+1]))
    }

    constructor ()
      ensures Valid() && nodes == []
    {
      first, last := null, null;
      nodes := [];
    }

    /** Append `entry`, whatever its three link fields held before. */
    method Add(entry: ListNode<T>)
      requires Valid() && entry !in nodes
      modifies this, nodes, entry
      ensures Valid() && nodes == old(nodes) + [entry]
    {
      entry.head := this;
      entry.next := null;
      entry.prev := last;
      last := entry;
      if entry.prev != null {
        entry.prev.next := entry;
      } else {
        first := entry;
      }
      nodes := nodes + [entry];
    }

    function First(): (n: ListNode?<T>)
      requires Valid()
      reads this, nodes
      ensures n == if nodes == [] then null else nodes[0]
    {
      first
    }
  }

  /** A list none of whose nodes was touched is as it was, whatever happened to others. */
  twostate lemma Undisturbed<T>(l: ListHead<T>)
    requires old(l.Valid()) && unchanged(l)
    requires forall n :: n in l.nodes ==> n.next == old(n.next) && n.prev == old(n.prev) && n.head == old(n.head)
    ensures l.Valid()
  {
    forall i {:trigger l.nodes[i].head} {:trigger l.nodes[i].prev} {:trigger l.nodes[i].next} | 0 <= i < |l.nodes|
      ensures l.nodes[i].head == old(l.nodes[i].head)
      ensures l.nodes[i].prev == old(l.nodes[i].prev) && l.nodes[i].next == old(l.nodes[i].next)
    {
      assert l.nodes[i] in l.nodes;
    }
  }

  // Position `k` of `node` in the list it is linked into.
  ghost predicate LinkedAt<T>(node: ListNode<T>, k: nat)
    reads node, node.head, if node.head == null then [] else node.head.nodes
  {
    node.head != null && node.head.Valid() && k < |node.head.nodes| && node.head.nodes[k] == node
  }

  function Next<T>(node: ListNode<T>, ghost k: nat): (n: ListNode?<T>)
    requires LinkedAt(node, k)
    reads node, node.head, if node.head == null then [] else node.head.nodes
    ensures n == if k + 1 == |node.head.nodes| then null else node.head.nodes[k+1]
  {
    node.next
  }

  lemma HeadLinked<T>(l: ListHead<T>)
    requires l.Valid() && l.nodes != []
    ensures l.nodes[0].head == l && Distinct(l.nodes) && Without(l.nodes, l.nodes[0]) == l.nodes[1..]
  {
  }

  // `s` without position `k`.
  ghost function Cut<T>(s: seq<T>, k: nat): (r: seq<T>)
    requires k < |s|
    ensures |r| == |s| - 1
    ensures forall i {:trigger r[i]} :: 0 <= i < |r| ==> r[i] == if i < k then s[i] else s[i+1]
  {
    s[..k] + s[k+1..]
  }

  lemma CutDistinct<T>(s: seq<T>, k: nat)
    requires k < |s| && Distinct(s)
    ensures Distinct(Cut(s, k))
    ensures s[k] !in Cut(s, k)
  {
  }

  /** Unlink `entry` from the list its back-pointer names; its own links are left stale. */
  method Remove<T>(entry: ListNode<T>)
    requires entry.head != null && entry.head.Valid() && entry in entry.head.nodes
    modifies entry.head, entry.head.nodes
    ensures entry.head == old(entry.head) && entry.next == old(entry.next) && entry.prev == old(entry.prev)
    ensures entry.head.Valid()
    ensures entry.head.nodes == Without(old(entry.head.nodes), entry)
    ensures entry !in entry.head.nodes
  {
    var h := entry.head;
    ghost var k :| 0 <= k < |h.nodes| && h.nodes[k] == entry;
    assert Cut(h.nodes, k) == Without(h.nodes, entry) by { WithoutAt(h.nodes, k); }
    CutDistinct(h.nodes, k);
    Unlink(entry, k);
  }

  method Unlink<T>(entry: ListNode<T>, ghost k: nat)
    requires entry.head != null && entry.head.Valid()
    requires k < |entry.head.nodes| && entry.head.nodes[k] == entry
    modifies entry.head, entry.head.nodes
    ensures entry.head == old(entry.head) && entry.next == old(entry.next) && entry.prev == old(entry.prev)
    ensures entry.head.Valid()
    ensures entry.head.nodes == Cut(old(entry.head.nodes), k)
  {
    CutDistinct(entry.head.nodes, k);
    if entry.prev != null {
      entry.prev.next := entry.next;
    } else {
      entry.head.first := entry.next;
    }
    if entry.next != null {
      entry.next.prev := entry.prev;
    } else {
      entry.head.last := entry.prev;
    }
    entry.head.nodes := Cut(entry.head.nodes, k);
  }
}
