/**
 The id-to-pointer table of src/hash.c: a map kept in an intrusive list that is
 scanned from the front.
 */
module StreamHash {
  import opened Bytes
  import opened IntrusiveList
  import opened Status

  // struct hashnode, filled in right after its allocation and never changed.
  datatype Entry<P> = Entry(id: uint32, ptr: P)

  /** The table a sequence of hash nodes stands for. */
  ghost function Table<P>(es: seq<Entry<P>>): map<uint32, P> {
    if es == [] then map[]
    else var e := es[|es|-1]; Table(es[..|es|-1])[e.id := e.ptr]
  }

  ghost predicate OneNodePerId<P>(es: seq<Entry<P>>) {
    forall i, j :: 0 <= i < j < |es| ==> es[i].id != es[j].id
  }

  lemma {:induction false} TableHit<P>(es: seq<Entry<P>>, k: nat)
    requires OneNodePerId(es) && k < |es|
    ensures es[k].id in Table(es) && Table(es)[es[k].id] == es[k].ptr
  {
    if k < |es| - 1 {
      TableHit(es[..|es|-1], k);
    }
  }

  lemma {:induction false} TableMiss<P>(es: seq<Entry<P>>, id: uint32)
    requires forall i :: 0 <= i < |es| ==> es[i].id != id
    ensures id !in Table(es)
  {
    if es != [] {
      TableMiss(es[..|es|-1], id);
    }
  }

  lemma {:induction false} TableCut<P>(es: seq<Entry<P>>, k: nat)
    requires OneNodePerId(es) && k < |es|
    ensures Table(Cut(es, k)) == Table(es) - {es[k].id}
  {
    var last := |es| - 1;
    if k == last {
      assert Cut(es, k) == es[..last];
      TableMiss(es[..last], es[k].id);
    } else {
      TableCut(es[..last], k);
      assert Cut(es, k)[..last-1] == Cut(es[..last], k);
    }
  }

  /** At most one node per id means as many nodes as ids. */
  lemma {:induction false} TableSize<P>(es: seq<Entry<P>>)
    requires OneNodePerId(es)
    ensures |Table(es)| == |es|
  {
    if es != [] {
      var init, e := es[..|es|-1], es[|es|-1];
      TableSize(init);
      TableMiss(init, e.id);
      assert Table(es).Keys == Table(init).Keys + {e.id};
    }
  }

  ghost function Entries<P>(nodes: seq<ListNode<Entry<P>>>): (es: seq<Entry<P>>)
    ensures |es| == |nodes|
    ensures forall i {:trigger es[i]} :: 0 <= i < |es| ==> es[i] == nodes[i].item
  {
    seq(|nodes|, i requires 0 <= i < |nodes| => nodes[i].item)
  }

  lemma NodeIsLinked<T>(l: ListHead<T>, k: nat)
    requires l.Valid() && k < |l.nodes|
    ensures l.nodes[k].head == l && Without(l.nodes, l.nodes[k]) == Cut(l.nodes, k)
  {
    WithoutAt(l.nodes, k);
  }

  class Hash<P> {
    const lhead: ListHead<Entry<P>>

    ghost predicate Valid()
      reads this, lhead, lhead.nodes
    {
      lhead.Valid() && OneNodePerId(Entries(lhead.nodes))
    }

    ghost function Contents(): map<uint32, P>
      reads lhead
    {
      Table(Entries(lhead.nodes))
    }

    constructor ()
      ensures Valid() && Contents() == map[]
      ensures fresh(lhead) && lhead.nodes == []
    {
      lhead := new ListHead<Entry<P>>();
    }

    /** Lookup: the node that holds `id`, or null; `k` is where the scan stopped. */
    method Get(id: uint32) returns (n: ListNode?<Entry<P>>, ghost k: nat)
      requires Valid()
      requires id != 0
      ensures n != null <==> id in Contents()
      ensures n != null ==> k < |lhead.nodes| && n == lhead.nodes[k] && n.item == Entry(id, Contents()[id])
      ensures n == null ==> forall i :: 0 <= i < |lhead.nodes| ==> Entries(lhead.nodes)[i].id != id
    {
      ghost var es := Entries(lhead.nodes);
      n := lhead.First();
      k := 0;
      while n != null
        invariant k <= |lhead.nodes|
        invariant n == (if k == |lhead.nodes| then null else lhead.nodes[k])
        invariant forall i :: 0 <= i < k ==> es[i].id != id
        decreases |lhead.nodes| - k
      {
        if n.item.id == id {
          assert es[k].id == id;
          TableHit(es, k);
          return;
        }
        n := Next(n, k);
        k := k + 1;
      }
      TableMiss(es, id);
    }

    /** Insert if absent: an id that is already there keeps its pointer. */
    method Store(id: uint32, ptr: P) returns (rc: Code)
      requires Valid()
      requires id != 0
      modifies lhead, lhead.nodes
      ensures Valid() && (forall n :: n in lhead.nodes ==> n in old(lhead.nodes) || fresh(n))
      ensures rc == if id in old(Contents()) then Inval else Ok
      ensures Contents() == if id in old(Contents()) then old(Contents()) else old(Contents())[id := ptr]
    {
      ghost var es := Entries(lhead.nodes);
      var n, _ := Get(id);
      if n != null {
        return Inval;
      }
      n := new ListNode(Entry(id, ptr));
      lhead.Add(n);
      assert Entries(lhead.nodes) == es + [n.item];
      assert (es + [n.item])[..|es|] == es;
      return Ok;
    }

    /** Delete. */
    method Remove(id: uint32) returns (rc: Code)
      requires Valid()
      requires id != 0
      modifies lhead, lhead.nodes
      ensures Valid() && (forall n :: n in lhead.nodes ==> n in old(lhead.nodes))
      ensures rc == if id in old(Contents()) then Ok else Inval
      ensures Contents() == old(Contents()) - {id}
    {
      hide Table, Without, ListHead.Valid;
      ghost var es, was := Entries(lhead.nodes), lhead.nodes;
      var n, k := Get(id);
      if n == null {
        return Inval;
      }
      NodeIsLinked(lhead, k);
      IntrusiveList.Remove(n);
      assert lhead.nodes == Cut(was, k);
      assert Entries(lhead.nodes) == Cut(es, k);
      TableCut(es, k);
      return Ok;
    }

    /** Clear: every node is unlinked, each successor having been read first. */
    method Destroy() returns (rc: Code)
      requires Valid()
      modifies lhead, lhead.nodes
      ensures Valid() && lhead.nodes == [] && Contents() == map[]
      ensures rc == Ok
    {
      ghost var all := lhead.nodes;
      var n := lhead.First();
      while n != null
        invariant lhead.Valid()
        invariant n == (if lhead.nodes == [] then null else lhead.nodes[0])
        invariant lhead.nodes == all[|all| - |lhead.nodes|..]
        decreases |lhead.nodes|
      {
        assert n.head == lhead;
        var f := Next(n, 0);
        IntrusiveList.Remove(n);
        n := f;
      }
      return Ok;
    }
  }
}
