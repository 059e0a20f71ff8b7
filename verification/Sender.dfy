/**
 The sending half of struct spindly_phys: 64 buffers that move between the
 pending list, the outgoing queue and the hands of the application.
 */
module Sender {
  import opened Bytes
  import opened Status
  import opened IntrusiveList
  import opened FrameFormat
  import opened FrameParsers
  import opened Endpoint

  // struct spindly_outdata, without its unused fields; `packet` is what the buffer was packed from.
  class OutData {
    const buffer: array<byte>
    var len: nat
    ghost var packet: Packet

    constructor ()
      ensures fresh(buffer) && buffer.Length == OUTBUFSIZE
    {
      buffer := new byte[OUTBUFSIZE];
      len := 0;
      packet := Packet(BLANK, []);
    }

    ghost predicate Holds()
      reads this, buffer
    {
      len <= buffer.Length && buffer[..len] == PacketBytes(packet)
    }
  }

  type Node = ListNode<OutData>

  ghost function Packets(nodes: seq<Node>): (ks: seq<Packet>)
    reads set n | n in nodes :: n.item
    ensures |ks| == |nodes|
  {
    if nodes == [] then [] else [nodes[0].item.packet] + Packets(nodes[1..])
  }

  // Queued packets stay what they are while their buffers are not repacked.
  twostate lemma {:induction false} PacketsStay(nodes: seq<Node>)
    requires forall n :: n in nodes ==> n.item.packet == old(n.item.packet)
    ensures Packets(nodes) == old(Packets(nodes))
  {
    if nodes != [] {
      PacketsStay(nodes[1..]);
    }
  }

  lemma {:induction false} PacketsAppend(nodes: seq<Node>, n: Node)
    ensures Packets(nodes + [n]) == Packets(nodes) + [n.item.packet]
  {
    if nodes != [] {
      assert (nodes + [n])[1..] == nodes[1..] + [n];
      PacketsAppend(nodes[1..], n);
    }
  }

  /**
   Every buffer of the pool is in one place, and there is nothing else in any;
   that none is twice in one list is part of the list's own validity.
   */
  ghost predicate Partition(pool: set<Node>, pending: seq<Node>, queued: seq<Node>, out: seq<Node>, lost: set<Node>) {
    && (forall n :: n in pool ==> n in pending || n in queued || n in out || n in lost)
    && (forall n :: n in pending ==> n in pool && n !in queued && n !in out && n !in lost)
    && (forall n :: n in queued ==> n in pool && n !in out && n !in lost)
    && (forall n :: n in out ==> n in pool && n !in lost)
    && lost <= pool
  }

  lemma Apart(pool: set<Node>, pending: seq<Node>, queued: seq<Node>, out: seq<Node>, lost: set<Node>)
    requires Partition(pool, pending, queued, out, lost)
    ensures forall n :: n in pending ==> n !in queued
    ensures forall n :: n in pending + queued + out ==> n in pool
  {
  }

  lemma PartitionAdd(pool: set<Node>, pending: seq<Node>, queued: seq<Node>, out: seq<Node>, lost: set<Node>, n: Node)
    requires Partition(pool, pending, queued, out, lost) && n !in pool
    ensures Partition(pool + {n}, pending + [n], queued, out, lost)
  {
    assert n in pending + [n];
  }

  // No two of the pool's nodes share a buffer.
  ghost predicate Separate(pool: set<Node>) {
    && (forall n :: n in pool ==> n.item.buffer.Length == OUTBUFSIZE)
    && (forall m, n :: m in pool && n in pool && m != n ==> m.item != n.item && m.item.buffer != n.item.buffer)
  }

  ghost predicate AllHold(nodes: seq<Node>)
    reads set n | n in nodes :: n.item, set n | n in nodes :: n.item.buffer
  {
    forall n :: n in nodes ==> n.item.Holds()
  }

  twostate lemma HoldStay(nodes: seq<Node>)
    requires old(AllHold(nodes))
    requires forall n :: n in nodes ==>
               && n.item.packet == old(n.item.packet) && n.item.len == old(n.item.len)
               && n.item.buffer[..] == old(n.item.buffer[..])
    ensures AllHold(nodes)
  {
    forall n | n in nodes ensures n.item.Holds() {
      assert old(n.item.Holds());
      assert n.item.buffer[..n.item.len] == n.item.buffer[..][..n.item.len];
    }
  }

  class Sender {
    const pendq: ListHead<OutData>
    const outq: ListHead<OutData>
    var outgoing: ListNode?<OutData>
    var tosend: nat
    ghost var pool: set<Node>   // the buffers allocated at the start
    ghost var lost: set<Node>   // those a failed pack left in no list
    ghost var Repr: set<object>

    ghost function HandedOut(): seq<Node>
      reads this
    {
      if outgoing == null then [] else [outgoing]
    }

    ghost predicate Valid()
      reads this, Repr
    {
      && this in Repr && pendq in Repr && outq in Repr && pendq != outq
      && (forall n :: n in pool ==> n in Repr && n.item in Repr && n.item.buffer in Repr)
      && Partition(pool, pendq.nodes, outq.nodes, HandedOut(), lost) && Separate(pool)
      && (forall n :: n in pendq.nodes + outq.nodes + HandedOut() ==> n in pool)
      && pendq.Valid() && outq.Valid()
      && AllHold(outq.nodes + HandedOut())
      && (outgoing == null ==> tosend == 0)
    }

    ghost function View(): Out
      requires Valid()
      reads this, Repr
    {
      Out(|pendq.nodes|, Packets(outq.nodes), Packets(HandedOut()), tosend, |lost|)
    }

    // All the bytes of the buffer the application is sending from.
    ghost function HandedBytes(): seq<byte>
      requires Valid()
      reads this, Repr
    {
      if outgoing == null then [] else outgoing.item.buffer[..]
    }

    // The lists of spindly_phys_init, still empty.
    constructor ()
      ensures Valid() && View() == Out(0, [], [], 0, 0) && pool == {} && fresh(Repr)
    {
      pendq := new ListHead<OutData>();
      outq := new ListHead<OutData>();
      outgoing, tosend := null, 0;
      pool, lost := {}, {};
      new;
      hide ListHead.Valid, Packets, Separate, AllHold, Partition;
      NothingYet();
      assert [] + HandedOut() == [];
      Repr := {this, pendq, outq};
    }

    /** The loop of spindly_phys_init that allocates the buffers, all of them pending. */
    method Fill()
      requires Valid() && View() == Out(0, [], [], 0, 0) && pool == {}
      modifies Repr
      ensures Valid() && View() == Init(Client).out && |pool| == NUM_OUTDATA
      ensures fresh(Repr - old(Repr))
    {
      hide Valid, View;
      for i := 0 to NUM_OUTDATA
        invariant Valid() && View() == Out(i, [], [], 0, 0) && |pool| == i
        invariant fresh(Repr - old(Repr))
      {
        var od := new OutData();
        var n := new ListNode(od);
        AddBuffer(n);
      }
    }

    method AddBuffer(n: Node)
      requires Valid() && n !in Repr && n.item !in Repr && n.item.buffer !in Repr
      requires n.item.buffer.Length == OUTBUFSIZE
      modifies Repr, n
      ensures Valid() && View() == old(View()).(pending := old(View()).pending + 1)
      ensures |pool| == old(|pool|) + 1 && Repr == old(Repr) + {n, n.item, n.item.buffer}
    {
      hide ListHead.Valid, Distinct, PacketBytes, Packets, Separate, AllHold, Partition;
      Apart(pool, pendq.nodes, outq.nodes, HandedOut(), lost);
      assert n !in pool && Separate(pool + {n}) by { SeparateAdd(pool, n); }
      ghost var pending := pendq.nodes;
      assert n !in pendq.nodes;
      pendq.Add(n);
      PartitionAdd(pool, pending, outq.nodes, HandedOut(), lost, n);
      pool := pool + {n};
      Repr := Repr + {n, n.item, n.item.buffer};
      PacketsStay(outq.nodes);
      PacketsStay(HandedOut());
      HoldStay(outq.nodes + HandedOut());
      Undisturbed(outq);
    }

    // The first pending buffer leaves its list, to join no other yet.
    method TakePending() returns (n: ListNode?<OutData>)
      requires Valid()
      modifies this, pendq, pool
      ensures Valid() && Repr == old(Repr) && pool == old(pool) && outgoing == old(outgoing)
      ensures n == null <==> old(View()).pending == 0
      ensures n == null ==> View() == old(View())
      ensures n != null ==>
                && n in lost && n in pool
                && View() == old(View()).(pending := old(View()).pending - 1, lost := old(View()).lost + 1)
    {
      hide ListHead.Valid, Distinct, PacketBytes, Packets, Separate, AllHold, Partition, Without;
      Apart(pool, pendq.nodes, outq.nodes, HandedOut(), lost);
      n := pendq.First();
      if n != null {
        ghost var pending := pendq.nodes;
        HeadLinked(pendq);
        PartitionLose(pool, pending, outq.nodes, HandedOut(), lost);
        Remove(n);
        lost := lost + {n};
        PacketsStay(outq.nodes);
        PacketsStay(HandedOut());
        HoldStay(outq.nodes + HandedOut());
        Undisturbed(outq);
      }
    }

    // A packed buffer that is in no list joins the queue.
    method Queue(n: Node, len: nat, ghost k: Packet)
      requires Valid() && n in lost && len <= n.item.buffer.Length && n.item.buffer[..len] == PacketBytes(k)
      modifies Repr
      ensures Valid() && Repr == old(Repr) && pool == old(pool) && outgoing == old(outgoing)
      ensures HandedBytes() == old(HandedBytes())
      ensures View() == old(View()).(outq := old(View()).outq + [k], lost := old(View()).lost - 1)
    {
      hide ListHead.Valid, Distinct, PacketBytes, Packets, Separate, AllHold, Partition, Without;
      Apart(pool, pendq.nodes, outq.nodes, HandedOut(), lost);
      PartitionQueue(pool, pendq.nodes, outq.nodes, HandedOut(), lost, n);
      ghost var queued := outq.nodes;
      SeparateFrom(pool, n);
      n.item.len := len;
      n.item.packet := k;
      outq.Add(n);
      lost := lost - {n};
      PacketsStay(queued);
      PacketsStay(HandedOut());
      PacketsAppend(queued, n);
      HoldStay(queued + HandedOut());
      HoldMore(queued, HandedOut(), n);
      Undisturbed(pendq);
    }

    /**
     The part of _spindly_stream_init and stream_acknack that packs a control
     frame into the first pending buffer and queues it.  What was handed out
     and is not yet reported sent keeps its buffer, and that its bytes.
     */
    method Pack(frame: ControlFrame, z: Deflate) returns (rc: Code)
      requires Valid() && frame !in Repr && BodyOfKind(frame.View())
      requires (frame.kind == SYN_STREAM || frame.kind == SYN_REPLY) && frame.length == 10
      requires z.DeflateError? ==> z.rc != Ok && z.rc != Abort
      modifies Repr
      ensures Valid() && Repr == old(Repr) && pool == old(pool)
      ensures (rc, View()) == Endpoint.Pack(old(View()), frame.View(), z)
      ensures outgoing == old(outgoing)
      ensures HandedBytes() == old(HandedBytes())
    {
      hide View, Packed, ListHead.Valid, Distinct, Packets, Separate, AllHold, Partition;
      var n := TakePending();
      if n == null {
        return Abort;
      }
      var len;
      rc, len := PackInto(n, frame, z);
      if rc == Ok {
        Queue(n, len, Packet(frame.View(), z.bytes));
      }
    }

    // Writing to a buffer that is in no list disturbs none that is.
    method PackInto(n: Node, frame: ControlFrame, z: Deflate) returns (rc: Code, len: nat)
      requires Valid() && n in lost && frame !in Repr && BodyOfKind(frame.View())
      requires (frame.kind == SYN_STREAM || frame.kind == SYN_REPLY) && frame.length == 10
      requires z.DeflateError? ==> z.rc != Ok
      modifies n.item.buffer
      ensures Valid() && View() == old(View())
      ensures HandedBytes() == old(HandedBytes())
      ensures rc == match z
                    case DeflateError(e) => e
                    case Deflated(bytes) => if 18 + |bytes| > OUTBUFSIZE then SmallBuffer else Ok
      ensures rc == Ok ==>
                len <= n.item.buffer.Length && n.item.buffer[..len] == Packed(frame.View(), z.bytes)
    {
      hide ListHead.Valid, Distinct, Packets, Separate, AllHold, Partition, Packed, BodyFields;
      BodySizes(frame.body);
      NotInUse(pool, pendq.nodes, outq.nodes, HandedOut(), lost, n);
      rc, len := frame.Pack(n.item.buffer, 0, OUTBUFSIZE, z);
      assert rc == Ok ==> n.item.buffer[..len] == n.item.buffer[..][..len];
      PacketsStay(outq.nodes);
      PacketsStay(HandedOut());
      HoldStay(outq.nodes + HandedOut());
    }

    /** spindly_phys_outgoing: the front buffer and how many bytes of it to send. */
    method HandOut() returns (rc: Code, data: array?<byte>, len: nat)
      requires Valid()
      modifies Repr
      ensures Valid() && Repr == old(Repr) && pool == old(pool)
      ensures var (c, got, out) := Outgoing(old(View()));
              rc == c && View() == out
      ensures rc == if old(outgoing) != null then Inval else Ok
      ensures data != null <==> old(outgoing) == null && old(View()).outq != []
      ensures data != null ==>
                && outgoing != null && data == outgoing.item.buffer && len <= data.Length
                && data[..len] == PacketBytes(old(View()).outq[0]) && tosend == len
      ensures data == null ==> len == 0 && View() == old(View())
      ensures rc != Ok ==> outgoing == old(outgoing) && HandedBytes() == old(HandedBytes())
    {
      hide ListHead.Valid, Distinct, PacketBytes, Separate, AllHold, Partition, Without;
      if outgoing != null {
        return Inval, null, 0;
      }
      var n := outq.First();
      if n == null {
        return Ok, null, 0;
      }
      Detach(n);
      return Ok, n.item.buffer, n.item.len;
    }

    // The front of the queue goes to the application.
    method Detach(n: Node)
      requires Valid() && outgoing == null && outq.nodes != [] && n == outq.nodes[0]
      modifies this, outq, pool
      ensures Valid() && Repr == old(Repr) && pool == old(pool) && outgoing == n
      ensures n.item.len == old(n.item.len) && n.item.Holds()
      ensures old(View()).outq != [] && n.item.packet == old(View()).outq[0]
      ensures var o := old(View());
              View() == o.(outq := o.outq[1..], outgoing := [o.outq[0]], tosend := n.item.len)
    {
      hide ListHead.Valid, Distinct, PacketBytes, Separate, AllHold, Partition, Without;
      Apart(pool, pendq.nodes, outq.nodes, HandedOut(), lost);
      ghost var queued := outq.nodes;
      assert queued + HandedOut() == queued;
      HeadLinked(outq);
      PartitionHandOut(pool, pendq.nodes, queued, lost);
      Remove(n);
      outgoing := n;
      tosend := n.item.len;
      PacketsStay(queued);
      HoldStay(queued);
      Undisturbed(pendq);
      HoldHead(queued);
      assert queued[1..] + [n] == outq.nodes + HandedOut();
    }

    // All of it sent: the buffer goes back to the end of the pending list.
    method Return(n: Node)
      requires Valid() && outgoing == n
      modifies this, pendq, pool
      ensures Valid() && Repr == old(Repr) && pool == old(pool)
      ensures View() == old(View()).(tosend := 0, outgoing := [], pending := old(View()).pending + 1)
    {
      hide ListHead.Valid, Distinct, PacketBytes, Packets, Separate, AllHold, Partition, Without;
      Apart(pool, pendq.nodes, outq.nodes, HandedOut(), lost);
      PartitionReturn(pool, pendq.nodes, outq.nodes, n, lost);
      HoldFront(outq.nodes, [n]);
      outgoing, tosend := null, 0;
      pendq.Add(n);
      PacketsStay(outq.nodes);
      HoldStay(outq.nodes);
      Undisturbed(outq);
      NothingYet();
      assert outq.nodes + HandedOut() == outq.nodes;
    }

    /** spindly_phys_sent. */
    method Sent(len: nat) returns (rc: Code)
      requires Valid()
      modifies Repr
      ensures Valid() && Repr == old(Repr) && pool == old(pool)
      ensures (rc, View()) == Endpoint.Sent(old(View()), len)
      ensures old(outgoing) != null ==>
                && rc == (if len <= old(tosend) then Ok else Inval)
                && tosend == old(tosend) - (if rc == Ok then len else 0)
                && (outgoing == null <==> len == old(tosend))
      ensures outgoing != null ==> outgoing == old(outgoing) && HandedBytes() == old(HandedBytes())
    {
      hide ListHead.Valid, Distinct, PacketBytes, Packets, Separate, AllHold, Partition, Without;
      if len > tosend {
        return Inval;
      }
      if outgoing == null {
        return Abort;  // adding the node of a null buffer to the pending list
      }
      tosend := tosend - len;
      PacketsStay(outq.nodes);
      PacketsStay(HandedOut());
      HoldStay(outq.nodes + HandedOut());
      if tosend == 0 {
        Return(outgoing);
      }
      return Ok;
    }
  }

  lemma NotInUse(pool: set<Node>, pending: seq<Node>, queued: seq<Node>, out: seq<Node>, lost: set<Node>, n: Node)
    requires Partition(pool, pending, queued, out, lost) && Separate(pool) && n in lost
    ensures n.item.buffer.Length == OUTBUFSIZE
    ensures forall m :: m in queued + out ==> m in pool && m.item.buffer != n.item.buffer
  {
  }

  lemma PartitionHandOut(pool: set<Node>, pending: seq<Node>, queued: seq<Node>, lost: set<Node>)
    requires Partition(pool, pending, queued, [], lost) && queued != [] && Distinct(queued)
    ensures Partition(pool, pending, queued[1..], [queued[0]], lost)
  {
    assert queued == [queued[0]] + queued[1..];
  }

  lemma PartitionReturn(pool: set<Node>, pending: seq<Node>, queued: seq<Node>, n: Node, lost: set<Node>)
    requires Partition(pool, pending, queued, [n], lost)
    ensures Partition(pool, pending + [n], queued, [], lost)
    ensures n in pool && n !in pending && n !in queued
  {
    assert n in [n];
  }

  lemma HoldHead(queued: seq<Node>)
    requires AllHold(queued) && queued != []
    ensures queued[0].item.Holds() && AllHold(queued[1..] + [queued[0]])
  {
    assert forall m :: m in queued[1..] + [queued[0]] ==> m in queued;
  }

  lemma HoldFront(queued: seq<Node>, out: seq<Node>)
    requires AllHold(queued + out)
    ensures AllHold(queued)
  {
    assert forall m :: m in queued ==> m in queued + out;
  }

  lemma NothingYet()
    ensures Partition({}, [], [], [], {}) && Separate({}) && AllHold([]) && Packets([]) == []
  {
  }

  lemma PartitionQueue(pool: set<Node>, pending: seq<Node>, queued: seq<Node>, out: seq<Node>, lost: set<Node>, n: Node)
    requires Partition(pool, pending, queued, out, lost) && n in lost
    ensures Partition(pool, pending, queued + [n], out, lost - {n})
    ensures n in pool && n !in pending + queued + out
  {
    assert forall m :: m in queued + [n] <==> m in queued || m == n;
  }

  lemma SeparateFrom(pool: set<Node>, n: Node)
    requires Separate(pool) && n in pool
    ensures forall m :: m in pool && m != n ==> m.item != n.item && m.item.buffer != n.item.buffer
    ensures n.item.buffer.Length == OUTBUFSIZE
  {
  }

  lemma HoldMore(queued: seq<Node>, out: seq<Node>, n: Node)
    requires AllHold(queued + out) && n.item.Holds()
    ensures AllHold(queued + [n] + out)
  {
    assert forall m :: m in queued + [n] + out <==> m in queued + out || m == n;
  }

  lemma PartitionLose(pool: set<Node>, pending: seq<Node>, queued: seq<Node>, out: seq<Node>, lost: set<Node>)
    requires Partition(pool, pending, queued, out, lost) && pending != [] && Distinct(pending)
    ensures pending[0] !in lost
    ensures Partition(pool, pending[1..], queued, out, lost + {pending[0]})
  {
    assert pending == [pending[0]] + pending[1..];
  }

  lemma SeparateAdd(pool: set<Node>, n: Node)
    requires Separate(pool) && n.item.buffer.Length == OUTBUFSIZE
    requires forall m :: m in pool ==> m.item != n.item && m.item.buffer != n.item.buffer
    ensures Separate(pool + {n})
  {
  }
}
