/** One end of a connection: the calls of src/spindly_phys.c and src/spindly_stream.c on its objects. */
module Connection {
  import opened Bytes
  import opened Status
  import opened IntrusiveList
  import opened StreamHash
  import opened FrameFormat
  import opened FrameParsers
  import opened Endpoint
  import opened Sender
  import opened Streams

  class Phys {
    const side: Side
    var streamid: uint32   // the next id to ask for
    const sender: Sender
    const registry: Registry

    ghost predicate Valid()
      reads this, sender, registry, sender.Repr, registry.Repr
    {
      && sender.Valid() && registry.Valid()
      && sender in sender.Repr && registry in registry.Repr && sender.Repr !! registry.Repr
      && this !in sender.Repr && this !in registry.Repr
    }

    ghost function View(): End
      requires Valid()
      reads this, sender, registry, sender.Repr, registry.Repr
    {
      End(side, streamid, sender.View(), registry.List(), registry.ids)
    }

    /** spindly_phys_init. */
    constructor (side: Side)
      ensures Valid() && View() == Init(side)
      ensures View() == End(side, if side == Client then 1 else 2, Out(64, [], [], 0, 0), [], map[])
      ensures fresh(sender.Repr) && fresh(registry.Repr)
    {
      this.side := side;
      streamid := if side == Client then 1 else 2;
      sender := new Sender();
      registry := new Registry();
      new;
      sender.Fill();
    }

    // What both ways of making a stream end with.
    method AddStream(s: SpindlyStream, id: uint32)
      requires Valid() && s !in registry.Repr && s !in sender.Repr && s.key == id != 0
      modifies registry.Repr, s
      ensures Valid() && fresh(registry.Repr - old(registry.Repr) - {s}) && sender.Repr == old(sender.Repr)
      ensures View() == Endpoint.AddStream(old(View()), s.Row()) && s.Row() == old(s.Row())
      ensures registry.all == old(registry.all) + [s] && streamid == old(streamid)
      ensures sender.outgoing == old(sender.outgoing) && sender.HandedBytes() == old(sender.HandedBytes())
    {
      hide Sender.Valid, Sender.View, Sender.HandedBytes, Finds;
      ghost var rows := Rows(registry.all);
      registry.AddStream(s);
      registry.Register(id, s, |registry.all| - 1);
      assert Rows(registry.all) == rows + [s.Row()];
    }

    /** spindly_stream_new: queue a SYN_STREAM, then list the stream and enter its id. */
    method NewStream(prio: nat, z: Deflate) returns (rc: Code, s: SpindlyStream?)
      requires Valid() && (z.DeflateError? ==> z.rc != Ok && z.rc != Abort)
      modifies this, sender.Repr, registry.Repr
      ensures Valid() && fresh(registry.Repr - old(registry.Repr)) && sender.Repr == old(sender.Repr)
      ensures (rc, View()) == Endpoint.NewStream(old(View()), prio, z)
      ensures rc == Ok ==>
                s != null && registry.all == old(registry.all) + [s] && s.Row() == Stream(0, old(streamid), prio, New)
      ensures sender.outgoing == old(sender.outgoing) && sender.HandedBytes() == old(sender.HandedBytes())
    {
      hide Sender.Valid, Sender.View, Sender.HandedBytes, Registry.Valid, Registry.List, Endpoint.Pack;
      s := null;
      if prio > PRIO_MAX {
        return Inval, null;
      }
      var stream := new SpindlyStream(0, prio, streamid);
      var frame := new ControlFrame();
      var _ := frame.MakeSynStream(streamid, 0, prio);
      rc := sender.Pack(frame, z);
      if rc != Ok {
        return;
      }
      if streamid == 0 {
        return Abort, null;
      }
      AddStream(stream, streamid);
      streamid := (streamid + 2) % 0x1_0000_0000;
      return Ok, stream;
    }

    /** spindly_stream_ack on the `i`th stream: queue a SYN_REPLY with its streamid. */
    method AckStream(s: SpindlyStream, ghost i: nat, z: Deflate) returns (rc: Code)
      requires Valid() && (z.DeflateError? ==> z.rc != Ok && z.rc != Abort)
      requires i < |registry.all| && registry.all[i] == s
      modifies sender.Repr, s
      ensures Valid() && registry.Repr == old(registry.Repr) && sender.Repr == old(sender.Repr)
      ensures (rc, View()) == Endpoint.AckStream(old(View()), i, z)
      ensures sender.outgoing == old(sender.outgoing) && sender.HandedBytes() == old(sender.HandedBytes())
    {
      hide Sender.Valid, Sender.View, Sender.HandedBytes, Endpoint.Pack;
      hide Distinct, Items, Finds, ListHead.Valid, Hash.Contents;
      assert registry.List()[i] == s.Row();
      if s.state != New {
        return Inval;
      }
      var frame := new ControlFrame();
      var _ := frame.MakeSynReply(s.streamid);
      rc := sender.Pack(frame, z);
      if rc != Ok {
        return;
      }
      registry.SetState(s, Acked, i);
    }

    /**
     What spindly_phys_demux does with a parsed SYN_STREAM: a stream the peer
     made.  `stackType` is what the control frame on the stack holds for a type.
     */
    method Requested(id: uint32, assoc: uint32, prio: nat, stackType: uint16) returns (rc: Code, s: SpindlyStream?)
      requires Valid() && id != 0
      modifies registry.Repr
      ensures Valid() && fresh(registry.Repr - old(registry.Repr)) && sender.Repr == old(sender.Repr)
      ensures (rc, View()) == DispatchedAsWritten(old(View()), Syn(id, assoc, prio), stackType)
      ensures rc == Ok ==> s != null && registry.all == old(registry.all) + [s] && s.Row() == Stream(id, id, prio, New)
      ensures sender.outgoing == old(sender.outgoing) && sender.HandedBytes() == old(sender.HandedBytes())
    {
      hide Sender.Valid, Sender.View, Sender.HandedBytes, Registry.Valid, Registry.List;
      if prio > PRIO_MAX {
        return Inval, null;
      }
      var stream := new SpindlyStream(id, prio, id);
      AddStream(stream, id);
      if stackType == SYN_STREAM {
        return Abort, null;  // its name/value block is freed
      }
      return Ok, stream;
    }

    /** What spindly_phys_demux does with a parsed SYN_REPLY. */
    method Replied(id: uint32) returns (rc: Code, s: SpindlyStream?)
      requires Valid()
      modifies registry.Repr
      ensures Valid() && registry.Repr == old(registry.Repr) && sender.Repr == old(sender.Repr)
      ensures (rc, View()) == Dispatched(old(View()), Reply(id))
      ensures registry.all == old(registry.all) && registry.ids == old(registry.ids)
      ensures rc == Ok <==> id != 0 && id in registry.ids
      ensures rc == Ok ==> s != null && s == registry.all[registry.ids[id]] && s.state == Acked
    {
      hide Sender.Valid, Sender.View, Distinct, Items, ListHead.Valid, Hash.Contents;
      if id == 0 {
        return Abort, null;
      }
      s := registry.Find(id);
      if s == null {
        return Protocol, null;
      }
      registry.SetState(s, Acked, registry.ids[id]);
      return Ok, s;
    }

    /** What spindly_phys_demux makes of a control frame, and returns: the code of a failed dispatch is dropped. */
    method Dispatch(body: Body, stackType: uint16) returns (rc: Code, dx: Dx, s: SpindlyStream?)
      requires Valid() && (body.Syn? ==> body.id != 0)
      modifies registry.Repr
      ensures Valid() && fresh(registry.Repr - old(registry.Repr)) && sender.Repr == old(sender.Repr)
      ensures (rc, dx, View()) == Told(old(View()), body, stackType)
      ensures dx == DxStreamReq <==> rc == Ok && body.Syn? && body.prio <= 7
      ensures dx == DxStreamReq ==>
                && s != null && registry.all == old(registry.all) + [s]
                && s.Row() == Stream(body.id, body.id, body.prio, New)
      ensures dx == DxStreamAck <==> rc == Ok && body.Reply? && body.id in old(registry.ids)
      ensures dx == DxStreamAck ==>
                && s != null && registry.all == old(registry.all) && registry.ids == old(registry.ids)
                && s == registry.all[registry.ids[body.id]] && s.state == Acked
    {
      hide Sender.Valid, Sender.View, Registry.Valid, Registry.List, Sender.HandedBytes;
      rc, dx, s := Ok, DxNone, null;
      match body {
        case NoBody => return Abort, DxNone, null;
        case Syn(id, assoc, prio) =>
          rc, s := Requested(id, assoc, prio, stackType);
          dx := if rc == Ok then DxStreamReq else DxNone;
        case Reply(id) =>
          rc, s := Replied(id);
          dx := if rc == Ok then DxStreamAck else DxNone;
      }
      if rc != Abort {
        rc := Ok;
      }
    }
  }
}
