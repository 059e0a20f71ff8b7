/**
 One end of a connection, on values: the pool of out-buffers, the streams, the
 id table and the calls that change them (src/spindly_phys.c,
 src/spindly_stream.c).
 */
module Endpoint {
  import opened Bytes
  import opened Status
  import opened FrameFormat

  datatype Side = Client | Server

  datatype StreamState = New | Acked | Closed

  // `streamid` is 0 for a stream made here; `key`, its id in the table, is not kept in the stream.
  datatype Stream = Stream(streamid: uint32, key: uint32, prio: nat, state: StreamState)

  datatype Packet = Packet(frame: Control, z: seq<byte>)

  function PacketBytes(k: Packet): seq<byte> { Packed(k.frame, k.z) }

  // The buffers: how many are pending, the packets queued and handed out, and how many are in no list.
  datatype Out = Out(pending: nat, outq: seq<Packet>, outgoing: seq<Packet>, tosend: nat, lost: nat)

  datatype End = End(side: Side, nextId: uint32, out: Out, streams: seq<Stream>, ids: map<uint32, nat>)

  const NUM_OUTDATA: nat := 64
  const OUTBUFSIZE: nat := 128
  const PRIO_MAX: nat := 7

  function Init(side: Side): End {
    End(side, if side == Client then 1 else 2, Out(NUM_OUTDATA, [], [], 0, 0), [], map[])
  }

  // A buffer leaves the pending list; if packing fails it joins no other.
  function Pack(o: Out, f: Control, z: Deflate): (Code, Out) {
    if o.pending == 0 then (Abort, o)
    else
      var d := o.(pending := o.pending - 1);
      match z
      case DeflateError(rc) => (rc, d.(lost := d.lost + 1))
      case Deflated(bytes) =>
        if 18 + |bytes| > OUTBUFSIZE then (SmallBuffer, d.(lost := d.lost + 1))
        else (Ok, d.(outq := d.outq + [Packet(f, bytes)]))
  }

  // The list of streams always grows; the table refuses an id it holds, and nobody looks.
  function AddStream(e: End, s: Stream): End {
    e.(streams := e.streams + [s], ids := if s.key in e.ids then e.ids else e.ids[s.key := |e.streams|])
  }

  /** spindly_stream_new. */
  function NewStream(e: End, prio: nat, z: Deflate): (Code, End) {
    if prio > PRIO_MAX then (Inval, e)
    else
      var (rc, out) := Pack(e.out, MkSynStream(e.nextId, 0, prio), z);
      var d := e.(out := out);
      if rc != Ok then (rc, d)
      else if e.nextId == 0 then (Abort, d)
      else (Ok, AddStream(d, Stream(0, e.nextId, prio, New)).(nextId := (e.nextId + 2) % 0x1_0000_0000))
  }

  function SetState(e: End, i: nat, state: StreamState): End
    requires i < |e.streams|
  {
    e.(streams := e.streams[i := e.streams[i].(state := state)])
  }

  /** spindly_stream_ack on the `i`th stream of the list. */
  function AckStream(e: End, i: nat, z: Deflate): (Code, End)
    requires i < |e.streams|
  {
    if e.streams[i].state != New then (Inval, e)
    else
      var (rc, out) := Pack(e.out, MkSynReply(e.streams[i].streamid), z);
      var d := e.(out := out);
      if rc != Ok then (rc, d) else (Ok, SetState(d, i, Acked))
  }

  /** spindly_phys_outgoing. */
  function Outgoing(o: Out): (Code, seq<Packet>, Out) {
    if o.outgoing != [] then (Inval, [], o)
    else if o.outq == [] then (Ok, [], o)
    else (Ok, [o.outq[0]], o.(outq := o.outq[1..], outgoing := [o.outq[0]], tosend := |PacketBytes(o.outq[0])|))
  }

  /** spindly_phys_sent; a buffer done with returns to the pending list, through a null pointer if there is none. */
  function Sent(o: Out, len: nat): (Code, Out) {
    if len > o.tosend then (Inval, o)
    else
      var left := o.tosend - len;
      if left > 0 then (Ok, o.(tosend := left))
      else if o.outgoing == [] then (Abort, o)
      else (Ok, o.(tosend := 0, outgoing := [], pending := o.pending + 1))
  }

  // What spindly_phys_demux does with a parsed SYN_STREAM or SYN_REPLY.
  function Dispatched(e: End, b: Body): (Code, End) {
    match b
    case NoBody => (Abort, e)
    case Syn(id, _, prio) => if prio > PRIO_MAX then (Inval, e) else (Ok, AddStream(e, Stream(id, id, prio, New)))
    case Reply(id) =>
      if id == 0 then (Abort, e)
      else if id !in e.ids then (Protocol, e)
      else if e.ids[id] >= |e.streams| then (Abort, e)
      else (Ok, SetState(e, e.ids[id], Acked))
  }

  /**
   The same as it stands: a request accepted is followed by clearing a control
   frame on the stack whose type nobody assigned, and if that happens to be
   SYN_STREAM, through pointers nobody assigned.
   */
  function DispatchedAsWritten(e: End, b: Body, stackType: uint16): (Code, End) {
    var (rc, d) := Dispatched(e, b);
    if b.Syn? && rc == Ok && stackType == SYN_STREAM then (Abort, d) else (rc, d)
  }

  // enum spindly_dx
  datatype Dx = DxNone | DxStreamReq | DxStreamAck

  /** What spindly_phys_demux tells the application of it: the code is set, and then OK is returned. */
  function Told(e: End, b: Body, stackType: uint16): (Code, Dx, End) {
    var (rc, d) := DispatchedAsWritten(e, b, stackType);
    if rc == Abort then (Abort, DxNone, d)
    else (Ok, if rc != Ok then DxNone else if b.Syn? then DxStreamReq else DxStreamAck, d)
  }

  const BLANK := Control(false, 0, 0, 0, 0, NoBody)

  /** The bytes of one packet, parsed against the id table and dispatched. */
  function Receive(e: End, w: seq<byte>): (Code, End) {
    var r := ParseControl(Env(e.ids.Keys, Ok, Abort, 0), BLANK, w);
    if r.rc != Ok then (r.rc, e)
    else if r.frame.kind == SYN_STREAM || r.frame.kind == SYN_REPLY then Dispatched(e, r.frame.body)
    else (Abort, e)
  }
}
