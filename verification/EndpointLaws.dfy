/** What every run of one end keeps. */
module EndpointLaws {
  import opened Bytes
  import opened Status
  import opened FrameFormat
  import opened FrameLaws
  import opened Endpoint

  // ----- runs

  datatype Op =
    | OpNew(prio: nat, z: Deflate)
    | OpAck(i: nat, z: Deflate)
    | OpReceive(w: seq<byte>)
    | OpOutgoing
    | OpSent(len: nat)

  // What the sources demand of a caller before the call.
  predicate Allowed(e: End, op: Op) {
    match op
    case OpAck(i, z) => i < |e.streams| && (z.DeflateError? ==> z.rc != Ok)
    case OpNew(_, z) => z.DeflateError? ==> z.rc != Ok
    case _ => true
  }

  function Effect(e: End, op: Op): (Code, End)
    requires Allowed(e, op)
  {
    match op
    case OpNew(prio, z) => NewStream(e, prio, z)
    case OpAck(i, z) => AckStream(e, i, z)
    case OpReceive(w) => Receive(e, w)
    case OpOutgoing => var (rc, _, out) := Outgoing(e.out); (rc, e.(out := out))
    case OpSent(len) => var (rc, out) := Sent(e.out, len); (rc, e.(out := out))
  }

  // The frame a call means to send, once its arguments are accepted.
  datatype Wish = NoWish | Wish(frame: Control, z: Deflate)

  function Wishes(e: End, op: Op): Wish {
    match op
    case OpNew(prio, z) => if prio <= PRIO_MAX then Wish(MkSynStream(e.nextId, 0, prio), z) else NoWish
    case OpAck(i, z) =>
      if i < |e.streams| && e.streams[i].state == New then Wish(MkSynReply(e.streams[i].streamid), z) else NoWish
    case _ => NoWish
  }

  // 18 bytes of header and fixed part go before the block in a buffer of 128.
  predicate SmallBlock(z: Deflate) { z.Deflated? && |z.bytes| <= 110 }

  // With a buffer to take, the frame is packed if its block fits, and otherwise the buffer was taken in vain.
  function Queued(o: Out, wish: Wish): seq<Packet> {
    if wish.Wish? && o.pending > 0 && SmallBlock(wish.z) then [Packet(wish.frame, wish.z.bytes)] else []
  }

  function Wasted(o: Out, wish: Wish): nat {
    if wish.Wish? && o.pending > 0 && !SmallBlock(wish.z) then 1 else 0
  }

  // With nothing outstanding, the front of the queue is handed out.
  function GivenBy(o: Out, op: Op): seq<Packet> {
    if op.OpOutgoing? && o.outgoing == [] && o.outq != [] then [o.outq[0]] else []
  }

  // With a packet outstanding, any report of no more than is left counts.
  function ReportedBy(o: Out, op: Op): nat {
    if op.OpSent? && o.outgoing != [] && op.len <= o.tosend then op.len else 0
  }

  /**
   A history: every packet that fitted its buffer, in order; every packet handed
   out; bytes reported sent; and the calls whose block did not fit.
   */
  datatype History = History(end: End, made: seq<Packet>, given: seq<Packet>, sent: nat, failed: nat, rc: Code)

  function Apply(h: History, op: Op): History
    requires Allowed(h.end, op)
  {
    var (rc, d) := Effect(h.end, op);
    var o, wish := h.end.out, Wishes(h.end, op);
    History(d, h.made + Queued(o, wish), h.given + GivenBy(o, op), h.sent + ReportedBy(o, op),
            h.failed + Wasted(o, wish), rc)
  }

  function Start(side: Side): History { History(Init(side), [], [], 0, 0, Ok) }

  /**
   Every run: calls a caller may not make do not happen, and an `assert` that
   stops the program ends the run.
   */
  function After(side: Side, ops: seq<Op>): History {
    if ops == [] then Start(side)
    else
      var h := After(side, ops[..|ops|-1]);
      if h.rc == Abort || !Allowed(h.end, ops[|ops|-1]) then h else Apply(h, ops[|ops|-1])
  }

  function AllBytes(ks: seq<Packet>): seq<byte> {
    if ks == [] then [] else PacketBytes(ks[0]) + AllBytes(ks[1..])
  }

  lemma {:induction false} AllBytesAppend(ks: seq<Packet>, ls: seq<Packet>)
    ensures AllBytes(ks + ls) == AllBytes(ks) + AllBytes(ls)
  {
    if ks == [] {
      assert ks + ls == ls;
    } else {
      assert (ks + ls)[1..] == ks[1..] + ls;
      AllBytesAppend(ks[1..], ls);
    }
  }

  // ----- the pool and the bytes handed out

  predicate Faithful(o: Out, made: seq<Packet>, given: seq<Packet>, sent: nat, failed: nat) {
    && made == given + o.outq
    && |o.outgoing| <= 1
    && (o.outgoing == [] ==> o.tosend == 0)
    && (o.outgoing != [] ==>
          given != [] && o.outgoing[0] == given[|given|-1] && 0 < o.tosend <= |PacketBytes(o.outgoing[0])|)
    && |AllBytes(given)| == sent + o.tosend
    && o.pending + |o.outq| + |o.outgoing| + o.lost == NUM_OUTDATA
    && o.lost == failed
  }

  predicate FaithfulHistory(h: History) { Faithful(h.end.out, h.made, h.given, h.sent, h.failed) }

  lemma PackFaithful(o: Out, made: seq<Packet>, given: seq<Packet>, sent: nat, failed: nat, f: Control, z: Deflate)
    requires Faithful(o, made, given, sent, failed) && (z.DeflateError? ==> z.rc != Ok)
    ensures Faithful(Pack(o, f, z).1, made + Queued(o, Wish(f, z)), given, sent, failed + Wasted(o, Wish(f, z)))
  {
    hide PacketBytes, AllBytes;
    assert made + [] == made;
  }

  lemma GivenGrows(ks: seq<Packet>, k: Packet)
    ensures |AllBytes(ks + [k])| == |AllBytes(ks)| + |PacketBytes(k)| && |PacketBytes(k)| > 0
  {
    AllBytesAppend(ks, [k]);
    assert AllBytes([k]) == PacketBytes(k) + AllBytes([]);
  }

  lemma OutgoingFaithful(o: Out, made: seq<Packet>, given: seq<Packet>, sent: nat, failed: nat)
    requires Faithful(o, made, given, sent, failed)
    ensures Faithful(Outgoing(o).2, made, given + GivenBy(o, OpOutgoing), sent, failed)
  {
    hide PacketBytes, AllBytes;
    if o.outgoing == [] && o.outq != [] {
      GivenGrows(given, o.outq[0]);
      assert given + o.outq == given + [o.outq[0]] + o.outq[1..];
    } else {
      assert given + [] == given;
    }
  }

  lemma SentFaithful(o: Out, made: seq<Packet>, given: seq<Packet>, sent: nat, failed: nat, len: nat)
    requires Faithful(o, made, given, sent, failed)
    ensures Faithful(Sent(o, len).1, made, given, sent + ReportedBy(o, OpSent(len)), failed)
  {
    hide PacketBytes, AllBytes;
  }

  // What each call does to the buffers.
  lemma EffectOnBuffers(e: End, op: Op)
    requires Allowed(e, op)
    ensures Effect(e, op).1.out ==
            match op
            case OpOutgoing => Outgoing(e.out).2
            case OpSent(len) => Sent(e.out, len).1
            case _ => var wish := Wishes(e, op); if wish.Wish? then Pack(e.out, wish.frame, wish.z).1 else e.out
  {
    hide Pack, ParseControl;
  }

  lemma StepFaithful(h: History, op: Op)
    requires FaithfulHistory(h) && Allowed(h.end, op)
    ensures FaithfulHistory(Apply(h, op))
  {
    hide Faithful, Pack, Effect, Outgoing, Sent;
    EffectOnBuffers(h.end, op);
    var o, wish := h.end.out, Wishes(h.end, op);
    assert h.made + [] == h.made && h.given + [] == h.given;
    match op
    case OpOutgoing => OutgoingFaithful(o, h.made, h.given, h.sent, h.failed);
    case OpSent(len) => SentFaithful(o, h.made, h.given, h.sent, h.failed, len);
    case OpReceive(_) =>
    case OpNew(_, _) => if wish.Wish? { PackFaithful(o, h.made, h.given, h.sent, h.failed, wish.frame, wish.z); }
    case OpAck(_, _) => if wish.Wish? { PackFaithful(o, h.made, h.given, h.sent, h.failed, wish.frame, wish.z); }
  }

  lemma {:induction false} RunFaithful(side: Side, ops: seq<Op>)
    ensures FaithfulHistory(After(side, ops))
  {
    hide Apply, Allowed, FaithfulHistory;
    if ops == [] {
      assert FaithfulHistory(Start(side)) by { StartFaithful(side); }
    } else {
      var h := After(side, ops[..|ops|-1]);
      RunFaithful(side, ops[..|ops|-1]);
      if h.rc != Abort && Allowed(h.end, ops[|ops|-1]) {
        StepFaithful(h, ops[|ops|-1]);
      }
    }
  }

  lemma StartFaithful(side: Side)
    ensures FaithfulHistory(Start(side))
  {
  }

  /**
   Over every run the bytes handed out are a prefix of all that was packed, in
   the order it was packed; each is reported sent or still outstanding; and the
   buffers short of 64 are just the calls whose deflated block did not fit.
   */
  lemma OutgoingFidelity(side: Side, ops: seq<Op>)
    ensures var h := After(side, ops);
            && AllBytes(h.given) <= AllBytes(h.made)
            && |AllBytes(h.given)| == h.sent + h.end.out.tosend
            && h.end.out.pending + |h.end.out.outq| + |h.end.out.outgoing| == 64 - h.failed
  {
    hide AllBytes, Apply;
    RunFaithful(side, ops);
    var h := After(side, ops);
    AllBytesAppend(h.given, h.end.out.outq);
  }

  predicate SmallBlocks(ops: seq<Op>) {
    forall op :: op in ops ==> (op.OpNew? ==> SmallBlock(op.z)) && (op.OpAck? ==> SmallBlock(op.z))
  }

  lemma {:induction false} NothingWasted(side: Side, ops: seq<Op>)
    requires SmallBlocks(ops)
    ensures After(side, ops).failed == 0
  {
    hide Effect, SmallBlock;
    if ops != [] {
      NothingWasted(side, ops[..|ops|-1]);
      assert ops[|ops|-1] in ops;
    }
  }

  /** As long as every deflated block has at most 110 bytes, no buffer is ever lost. */
  lemma NoBufferLost(side: Side, ops: seq<Op>)
    requires SmallBlocks(ops)
    ensures var o := After(side, ops).end.out;
            o.pending + |o.outq| + |o.outgoing| == 64 && o.lost == 0
  {
    hide AllBytes, PacketBytes, After;
    NothingWasted(side, ops);
    RunFaithful(side, ops);
  }

  // ----- handing out

  /** The front of the queue and its size, or nothing of an empty one; refused exactly while a packet is outstanding. */
  lemma HandsOutFront(o: Out)
    ensures var (rc, got, p) := Outgoing(o);
            && (rc == Inval <==> o.outgoing != []) && (rc == Ok <==> o.outgoing == [])
            && (|got| == 1 <==> o.outgoing == [] && o.outq != []) && |got| <= 1
            && (got != [] ==>
                  && [got[0]] + p.outq == o.outq && p.outgoing == got && p.tosend == |PacketBytes(got[0])|
                  && p.pending == o.pending && p.lost == o.lost)
            && (got == [] ==> p == o)
  {
    hide PacketBytes;
  }

  // Handing out a packet and reporting all of it, `n` times.
  function Rounds(h: History, n: nat): History
    decreases n
  {
    if n == 0 then h
    else
      var g := Apply(h, OpOutgoing);
      Rounds(Apply(g, OpSent(g.end.out.tosend)), n - 1)
  }

  lemma OneRound(h: History)
    requires FaithfulHistory(h) && h.end.out.outgoing == [] && h.end.out.outq != []
    ensures var g := Apply(h, OpOutgoing);
            var k := Apply(g, OpSent(g.end.out.tosend));
            && FaithfulHistory(k) && k.made == h.made && k.end.out.outgoing == []
            && h.end.out.outq == [h.end.out.outq[0]] + k.end.out.outq && k.end.out.pending == h.end.out.pending + 1
  {
    hide PacketBytes, AllBytes, Faithful;
    var g := Apply(h, OpOutgoing);
    StepFaithful(h, OpOutgoing);
    StepFaithful(g, OpSent(g.end.out.tosend));
    assert h.made + [] == h.made;
    assert |PacketBytes(h.end.out.outq[0])| > 0 by { GivenGrows([], h.end.out.outq[0]); }
  }

  lemma {:induction false} RoundsEmpty(h: History, n: nat)
    requires FaithfulHistory(h) && h.end.out.outgoing == [] && n == |h.end.out.outq|
    ensures var g := Rounds(h, n);
            && FaithfulHistory(g) && g.made == h.made && g.end.out.outq == [] && g.end.out.outgoing == []
            && g.end.out.pending == h.end.out.pending + n
    decreases n
  {
    hide FaithfulHistory, Apply;
    if n > 0 {
      OneRound(h);
      var g := Apply(h, OpOutgoing);
      RoundsEmpty(Apply(g, OpSent(g.end.out.tosend)), n - 1);
    }
  }

  /**
   No packet is kept back: after any run with nothing outstanding, as many rounds
   as there are packets queued hand out every packet that was ever packed, and
   return every buffer.
   */
  lemma EverythingIsHandedOut(side: Side, ops: seq<Op>)
    requires After(side, ops).end.out.outgoing == []
    ensures var h := After(side, ops);
            var g := Rounds(h, |h.end.out.outq|);
            && g.given == g.made == h.made && g.end.out.outq == [] && g.sent == |AllBytes(h.made)|
            && g.end.out.pending == 64 - h.failed
  {
    hide After, Rounds, AllBytes, PacketBytes;
    RunFaithful(side, ops);
    var h := After(side, ops);
    RoundsEmpty(h, |h.end.out.outq|);
    var g := Rounds(h, |h.end.out.outq|);
    assert g.given + [] == g.given;
  }

  // ----- reporting

  /** In every run: what a report of what is outstanding answers, and leaves. */
  lemma ReportIff(side: Side, ops: seq<Op>, len: nat)
    requires After(side, ops).end.out.outgoing != []
    ensures var o := After(side, ops).end.out;
            var (rc, p) := Sent(o, len);
            && (rc == Ok <==> len <= o.tosend) && (rc == Inval <==> len > o.tosend)
            && (rc != Ok ==> p == o)
            && (rc == Ok ==>
                  && p.tosend == o.tosend - len && p.outq == o.outq && p.lost == o.lost
                  && (if len < o.tosend then p.outgoing == o.outgoing && p.pending == o.pending
                      else p.outgoing == [] && p.pending == o.pending + 1))
  {
    hide AllBytes, PacketBytes, After;
    RunFaithful(side, ops);
  }

  function Sum(lens: seq<nat>): nat {
    if lens == [] then 0 else Sum(lens[..|lens|-1]) + lens[|lens|-1]
  }

  // The answers to a list of reports, and what they leave.
  function Reports(o: Out, lens: seq<nat>): (seq<Code>, Out) {
    if lens == [] then ([], o)
    else
      var (rcs, p) := Reports(o, lens[..|lens|-1]);
      var (rc, q) := Sent(p, lens[|lens|-1]);
      (rcs + [rc], q)
  }

  lemma {:induction false} PartReports(o: Out, lens: seq<nat>)
    requires o.outgoing != [] && Sum(lens) < o.tosend
    ensures var (rcs, p) := Reports(o, lens);
            (forall rc :: rc in rcs ==> rc == Ok) && p == o.(tosend := o.tosend - Sum(lens))
  {
    if lens != [] {
      PartReports(o, lens[..|lens|-1]);
    }
  }

  /**
   However the sending of a packet is reported: parts that add up to it, the last
   of them not 0, are all accepted, and the last frees the buffer, not one before it.
   */
  lemma AnyPartsWillDo(o: Out, lens: seq<nat>)
    requires o.outgoing != [] && lens != [] && lens[|lens|-1] > 0 && Sum(lens) == o.tosend
    ensures var (rcs, p) := Reports(o, lens);
            (forall rc :: rc in rcs ==> rc == Ok) && p == o.(tosend := 0, outgoing := [], pending := o.pending + 1)
    ensures Reports(o, lens[..|lens|-1]).1.outgoing == o.outgoing
  {
    PartReports(o, lens[..|lens|-1]);
  }

  /** Reporting stops the program exactly when nothing is outstanding and nothing is reported. */
  lemma ReportStopsIff(side: Side, ops: seq<Op>, len: nat)
    ensures var o := After(side, ops).end.out;
            Sent(o, len).0 == Abort <==> o.outgoing == [] && len == 0
  {
    hide AllBytes, PacketBytes, After;
    RunFaithful(side, ops);
  }

  // ----- the order in which packets are handed out

  // The other requests waiting are no more urgent; 0 is the most urgent.
  predicate NoneMoreUrgent(k: Packet, waiting: seq<Packet>) {
    k.frame.body.Syn? ==>
      forall l :: l in waiting && l.frame.body.Syn? ==> k.frame.body.prio <= l.frame.body.prio
  }

  /** Handing out and reporting all of it, until the queue is empty: is each request as urgent as those that wait? */
  predicate UrgentFirst(o: Out)
    requires o.outgoing == []
    decreases |o.outq|
  {
    var (_, got, p) := Outgoing(o);
    got == [] || (NoneMoreUrgent(got[0], p.outq) && UrgentFirst(Sent(p, p.tosend).1))
  }

  predicate QueuedByPrio(ks: seq<Packet>) {
    forall i, j :: 0 <= i < j < |ks| && ks[i].frame.body.Syn? && ks[j].frame.body.Syn? ==>
      ks[i].frame.body.prio <= ks[j].frame.body.prio
  }

  /** The manual page promises priority order: so it is handed out exactly when streams were made in that order. */
  lemma {:induction false} UrgentFirstIff(o: Out)
    requires o.outgoing == []
    ensures UrgentFirst(o) <==> QueuedByPrio(o.outq)
    decreases |o.outq|
  {
    assert QueuedByPrio([]);
    hide PacketBytes, NoneMoreUrgent, QueuedByPrio;
    if o.outq != [] {
      var p := Outgoing(o).2;
      UrgentFirstIff(Sent(p, p.tosend).1);
      FirstByPrio(o.outq);
    }
  }

  lemma FirstByPrio(ks: seq<Packet>)
    requires ks != []
    ensures QueuedByPrio(ks) <==> NoneMoreUrgent(ks[0], ks[1..]) && QueuedByPrio(ks[1..])
  {
    var rest := ks[1..];
    assert forall i :: 0 <= i < |rest| ==> rest[i] == ks[i + 1];
    if QueuedByPrio(ks) {
      assert NoneMoreUrgent(ks[0], rest);
    } else {
      var i, j :| 0 <= i < j < |ks| && ks[i].frame.body.Syn? && ks[j].frame.body.Syn?
                  && ks[i].frame.body.prio > ks[j].frame.body.prio;
      assert rest[j - 1] == ks[j];
      assert i > 0 ==> rest[i - 1] == ks[i];
    }
  }

  // Runs of one and two calls.
  lemma AfterTwo(side: Side, a: Op, b: Op)
    ensures After(side, [a]) == if Allowed(Init(side), a) then Apply(Start(side), a) else Start(side)
    ensures var h := After(side, [a]);
            After(side, [a, b]) == if h.rc == Abort || !Allowed(h.end, b) then h else Apply(h, b)
  {
    hide Apply, Allowed;
    assert [a][..0] == [] && [a, b][..1] == [a];
  }

  lemma NewQueues(e: End, prio: nat, z: Deflate)
    requires prio <= PRIO_MAX && e.out.pending > 0 && SmallBlock(z) && e.nextId != 0
    ensures var (rc, d) := NewStream(e, prio, z);
            && rc == Ok && d.nextId == (e.nextId + 2) % 0x1_0000_0000
            && d.out == e.out.(pending := e.out.pending - 1,
                               outq := e.out.outq + [Packet(MkSynStream(e.nextId, 0, prio), z.bytes)])
  {
  }

  /** The least urgent stream first, then the most urgent: they are handed out that way round. */
  lemma UrgentStreamWaits(side: Side, z: Deflate)
    requires SmallBlock(z)
    ensures var o := After(side, [OpNew(7, z), OpNew(0, z)]).end.out;
            && o.outgoing == [] && |o.outq| == 2
            && o.outq[0].frame.body.Syn? && o.outq[0].frame.body.prio == 7
            && o.outq[1].frame.body.Syn? && o.outq[1].frame.body.prio == 0
            && !UrgentFirst(o)
  {
    AfterTwo(side, OpNew(7, z), OpNew(0, z));
    NewQueues(Init(side), 7, z);
    var e := NewStream(Init(side), 7, z).1;
    NewQueues(e, 0, z);
    hide After, UrgentFirst, PacketBytes, NewStream, Queued, Wasted;
    var o := After(side, [OpNew(7, z), OpNew(0, z)]).end.out;
    UrgentFirstIff(o);
  }

  // ----- making and acknowledging a stream

  /**
   spindly_stream_new in all its outcomes: what it answers, which bytes it
   queues, and that nothing but a buffer is lost where it fails after taking one.
   */
  lemma NewStreamOutcomes(e: End, prio: nat, z: Deflate)
    requires z.DeflateError? ==> z.rc != Ok
    ensures var (rc, d) := NewStream(e, prio, z);
            var o := e.out;
            if prio > 7 then rc == Inval && d == e
            else if o.pending == 0 then rc == Abort && d == e
            else if z.DeflateError? then rc == z.rc && d == e.(out := BufferGone(o))
            else if |z.bytes| > 110 then rc == SmallBuffer && d == e.(out := BufferGone(o))
            else if e.nextId == 0 then rc == Abort
            else
              && rc == Ok && d.side == e.side && d.nextId == (e.nextId + 2) % 0x1_0000_0000
              && d.streams == e.streams + [Stream(0, e.nextId, prio, New)]
              && d.ids == (if e.nextId in e.ids then e.ids else e.ids[e.nextId := |e.streams|])
              && QueuesBytes(o, d.out, [0x80, 2, 0, 1, 0, 0, 0, 10] + Store32(e.nextId) + [0, 0, 0, 0] +
                                       [prio % 4 * 0x40, 0] + z.bytes)
  {
    hide Store32, Packed;
    if z.Deflated? {
      MadeBytes(e.nextId, 0, prio, z.bytes);
      Store32OfZero();
    }
  }

  /** spindly_stream_ack likewise. */
  lemma AckStreamOutcomes(e: End, i: nat, z: Deflate)
    requires i < |e.streams| && (z.DeflateError? ==> z.rc != Ok)
    ensures var (rc, d) := AckStream(e, i, z);
            var o, s := e.out, e.streams[i];
            if s.state != New then rc == Inval && d == e
            else if o.pending == 0 then rc == Abort && d == e
            else if z.DeflateError? then rc == z.rc && d == e.(out := BufferGone(o))
            else if |z.bytes| > 110 then rc == SmallBuffer && d == e.(out := BufferGone(o))
            else
              && rc == Ok && d.side == e.side && d.nextId == e.nextId && d.ids == e.ids
              && d.streams == e.streams[i := s.(state := Acked)]
              && QueuesBytes(o, d.out, [0x80, 2, 0, 2, 0, 0, 0, 10] + Store32(s.streamid) + [0, 0] + z.bytes)
  {
    hide Store32, Packed;
    if z.Deflated? {
      MadeBytes(e.streams[i].streamid, 0, 0, z.bytes);
    }
  }

  // One buffer has left the pending list for good.
  function BufferGone(o: Out): Out
    requires o.pending > 0
  {
    o.(pending := o.pending - 1, lost := o.lost + 1)
  }

  // One buffer has left the pending list for the end of the queue, with these bytes.
  predicate QueuesBytes(o: Out, p: Out, bytes: seq<byte>) {
    && |p.outq| == |o.outq| + 1 && p.outq[..|o.outq|] == o.outq && PacketBytes(p.outq[|o.outq|]) == bytes
    && o.pending > 0 && p.pending == o.pending - 1
    && p.outgoing == o.outgoing && p.tosend == o.tosend && p.lost == o.lost
  }

  lemma Store32OfZero()
    ensures Store32(0) == [0, 0, 0, 0]
  {
  }

  // ----- what the application is told

  /**
   The application sees no code for a dispatch that failed, only that there is
   nothing: exactly when no request and no known id was in the frame.
   */
  lemma DispatchErrorUnseen(e: End, b: Body, stackType: uint16)
    requires DispatchedAsWritten(e, b, stackType).0 != Abort
    ensures var (code, dx, d) := Told(e, b, stackType);
            && code == Ok && d == Dispatched(e, b).1
            && (dx == DxNone <==> Dispatched(e, b).0 != Ok)
            && (Dispatched(e, b).0 != Ok <==> if b.Syn? then b.prio > PRIO_MAX else b.id !in e.ids)
  {
  }

  /**
   When the dispatch goes on, and then what the application is told and what
   became of the streams: a request made the last one, a reply acknowledged one.
   */
  lemma ToldIff(e: End, b: Body, stackType: uint16)
    requires Registry(e)
    ensures var (code, dx, d) := Told(e, b, stackType);
            && (code == Abort <==>
                  || b.NoBody? || (b.Syn? && b.prio <= 7 && stackType == 1) || (b.Reply? && b.id == 0))
            && (code != Abort ==>
                  && code == Ok
                  && (dx == DxStreamReq <==> b.Syn? && b.prio <= 7)
                  && (dx == DxStreamAck <==> b.Reply? && b.id in e.ids)
                  && (dx == DxNone ==> d == e))
            && (dx == DxStreamReq ==>
                  && d.streams == e.streams + [Stream(b.id, b.id, b.prio, New)]
                  && d.ids == if b.id in e.ids then e.ids else e.ids[b.id := |e.streams|])
            && (dx == DxStreamAck ==>
                  var i := e.ids[b.id];
                  && e.streams[i].key == b.id && d.ids == e.ids
                  && d.streams == e.streams[i := e.streams[i].(state := Acked)])
  {
  }

  /** A SYN_REPLY for an id nobody opened: a protocol error is found, and the application told that all is well. */
  lemma UnknownIdUnseen(e: End, id: uint32, z: seq<byte>, stackType: uint16)
    requires 0 < id < 0x8000_0000 && id !in e.ids && |z| >= 4
    ensures Receive(e, PacketBytes(Packet(MkSynReply(id), z))) == (Protocol, e)
    ensures Told(e, Reply(id), stackType) == (Ok, DxNone, e)
  {
    hide ParseControl, Packed;
    assert Packed(MkSynReply(id), z) + [] == Packed(MkSynReply(id), z);
    SynReplyCarried(Env(e.ids.Keys, Ok, Abort, 0), BLANK, id, z, []);
  }

  /** A dispatch does what is meant exactly when the unassigned type is not SYN_STREAM, or no request is accepted. */
  lemma UnassignedTypeIff(e: End, b: Body, stackType: uint16)
    ensures DispatchedAsWritten(e, b, stackType) == Dispatched(e, b)
       <==> stackType != SYN_STREAM || !b.Syn? || b.prio > PRIO_MAX
  {
  }

  // ----- the registry

  /** The table and the list of streams are inverse to each other, and a peer's stream knows its id. */
  predicate Registry(e: End) {
    && (forall i {:trigger e.streams[i]} :: 0 <= i < |e.streams| ==>
          && e.streams[i].key in e.ids && e.ids[e.streams[i].key] == i
          && (e.streams[i].streamid != 0 ==> e.streams[i].streamid == e.streams[i].key))
    && (forall id :: id in e.ids ==> e.ids[id] < |e.streams| && e.streams[e.ids[id]].key == id)
  }

  lemma RegistrySize(e: End)
    requires Registry(e)
    ensures |e.ids| == |e.streams|
  {
    KeysBelow(e, |e.streams|);
    assert e.ids.Keys == Below(e, |e.streams|);
  }

  function Below(e: End, n: nat): set<uint32> {
    set id | id in e.ids && e.ids[id] < n
  }

  lemma {:induction false} KeysBelow(e: End, n: nat)
    requires Registry(e) && n <= |e.streams|
    ensures |Below(e, n)| == n
  {
    if n > 0 {
      KeysBelow(e, n - 1);
      var k := e.streams[n - 1].key;
      assert Below(e, n) == Below(e, n - 1) + {k};
      assert k !in Below(e, n - 1);
    } else {
      assert Below(e, n) == {};
    }
  }

  /** Registering a stream keeps them so exactly when its id is new: the table's refusal goes unnoticed. */
  lemma RegistryIff(e: End, s: Stream)
    requires Registry(e) && s.streamid in {0, s.key}
    ensures Registry(AddStream(e, s)) <==> s.key !in e.ids
  {
    var d := AddStream(e, s);
    assert d.streams[|e.streams|] == s;
    if s.key !in e.ids {
      assert forall i :: 0 <= i < |e.streams| ==> d.streams[i] == e.streams[i];
    }
  }

  predicate Mine(side: Side, id: uint32) {
    id % 2 == if side == Client then 1 else 0
  }

  // A peer that opens only streams of its own parity.
  predicate FairPeer(side: Side, op: Op) {
    op.OpReceive? ==>
      var r := ParseControl(Env({}, Ok, Abort, 0), BLANK, op.w);
      r.frame.body.Syn? ==> !Mine(side, r.frame.body.id)
  }

  /**
   The registry, and the ids given out here: own parity, below the counter, each
   larger than those before it; the peer's are of the other parity.
   */
  predicate Registered(e: End) {
    && Registry(e) && Mine(e.side, e.nextId)
    && (forall i {:trigger e.streams[i]} :: 0 <= i < |e.streams| ==>
          var s := e.streams[i];
          if s.streamid == 0 then Mine(e.side, s.key) && s.key < e.nextId else !Mine(e.side, s.key))
    && OwnIdsRise(e.streams)
  }

  predicate OwnIdsRise(ss: seq<Stream>) {
    forall i, j :: 0 <= i < j < |ss| && ss[i].streamid == 0 && ss[j].streamid == 0 ==> ss[i].key < ss[j].key
  }

  lemma OneMoreRises(ss: seq<Stream>, s: Stream)
    requires OwnIdsRise(ss) && (s.streamid == 0 ==> forall t :: t in ss && t.streamid == 0 ==> t.key < s.key)
    ensures OwnIdsRise(ss + [s])
  {
  }

  lemma StateKeepsOrder(ss: seq<Stream>, i: nat, state: StreamState)
    requires OwnIdsRise(ss) && i < |ss|
    ensures OwnIdsRise(ss[i := ss[i].(state := state)])
  {
  }

  lemma BuffersOnly(e: End, d: End)
    requires Registered(e) && d.side == e.side && d.nextId == e.nextId && d.streams == e.streams && d.ids == e.ids
    ensures Registered(d)
  {
  }

  lemma OwnRegistered(e: End, prio: nat)
    requires Registered(e) && e.nextId < 0x8000_0000
    ensures e.nextId !in e.ids
    ensures var d := AddStream(e, Stream(0, e.nextId, prio, New)).(nextId := e.nextId + 2);
            Registered(d) && d.side == e.side && e.nextId in d.ids
  {
    hide OwnIdsRise;
    var s := Stream(0, e.nextId, prio, New);
    RegistryIff(e, s);
    OneMoreRises(e.streams, s);
    hide Registry;
  }

  lemma NewRegistered(e: End, prio: nat, z: Deflate)
    requires Registered(e) && e.nextId < 0x8000_0000
    ensures var (rc, d) := NewStream(e, prio, z);
            && Registered(d) && d.side == e.side
            && (rc == Ok ==> d.nextId == e.nextId + 2 && e.nextId !in e.ids && e.nextId in d.ids)
            && (rc != Ok ==> d.nextId == e.nextId)
  {
    hide Pack, Registered, AddStream;
    var out := Pack(e.out, MkSynStream(e.nextId, 0, prio), z).1;
    BuffersOnly(e, e.(out := out));
    OwnRegistered(e.(out := out), prio);
    AddedNext(e.(out := out), Stream(0, e.nextId, prio, New));
  }

  lemma AddedNext(e: End, s: Stream)
    ensures AddStream(e, s).nextId == e.nextId
  {
  }

  lemma AckRegistered(e: End, i: nat, z: Deflate)
    requires Registered(e) && i < |e.streams|
    ensures var d := AckStream(e, i, z).1; Registered(d) && d.side == e.side && d.nextId == e.nextId
  {
    hide Pack, OwnIdsRise;
    StateKeepsOrder(e.streams, i, Acked);
  }

  // The parser takes no id the table holds, whatever else it finds.
  lemma ReceivedIdIsNew(e: End, w: seq<byte>)
    ensures var r := ParseControl(Env(e.ids.Keys, Ok, Abort, 0), BLANK, w);
            && (r.rc == Ok && r.frame.kind == SYN_STREAM ==>
                  r.frame.body.Syn? && r.frame.body.id != 0 && r.frame.body.id !in e.ids)
            && (r.rc == Ok && r.frame.kind == SYN_REPLY ==> r.frame.body.Reply?)
            && r.frame.body == ParseControl(Env({}, Ok, Abort, 0), BLANK, w).frame.body
  {
    hide Load32, Load16;
  }

  lemma PeerRegistered(e: End, s: Stream)
    requires Registered(e) && s.streamid == s.key != 0 && !Mine(e.side, s.key) && s.key !in e.ids
    ensures var d := AddStream(e, s); Registered(d) && d.side == e.side && d.nextId == e.nextId
  {
    hide OwnIdsRise;
    RegistryIff(e, s);
    OneMoreRises(e.streams, s);
    hide Registry;
  }

  lemma ReceiveRegistered(e: End, w: seq<byte>)
    requires Registered(e) && FairPeer(e.side, OpReceive(w))
    ensures var d := Receive(e, w).1; Registered(d) && d.side == e.side && d.nextId == e.nextId
  {
    hide ParseControl, Registry, OwnIdsRise;
    ReceivedIdIsNew(e, w);
    var r := ParseControl(Env(e.ids.Keys, Ok, Abort, 0), BLANK, w);
    if r.rc == Ok && r.frame.body.Syn? {
      var s := Stream(r.frame.body.id, r.frame.body.id, r.frame.body.prio, New);
      assert r.frame.kind == SYN_REPLY ==> false;
      if r.frame.kind == SYN_STREAM {
        PeerRegistered(e, s);
      }
    } else if r.rc == Ok && r.frame.body.Reply? && r.frame.body.id in e.ids {
      var i := e.ids[r.frame.body.id];
      StateKeepsRegistry(e, i);
      if i < |e.streams| {
        StateKeepsOrder(e.streams, i, Acked);
      }
    }
  }

  lemma StateKeepsRegistry(e: End, i: nat)
    requires Registry(e)
    ensures i < |e.streams| ==> Registry(SetState(e, i, Acked))
  {
  }

  function Creates(ops: seq<Op>): nat {
    if ops == [] then 0 else Creates(ops[..|ops|-1]) + if ops[|ops|-1].OpNew? then 1 else 0
  }

  /**
   Over every run with a fair peer, and few enough creations for the counter to
   stay in 31 bits, the table and the list agree; ids given out here have this
   side's parity and each is larger than those before it.
   */
  lemma {:induction false} RunRegistered(side: Side, ops: seq<Op>)
    requires (forall op :: op in ops ==> FairPeer(side, op)) && 2 + 2 * Creates(ops) < 0x8000_0000
    ensures var e := After(side, ops).end;
            Registered(e) && e.side == side && e.nextId <= 2 + 2 * Creates(ops) && |e.ids| == |e.streams|
  {
    hide NewStream, AckStream, Receive, FairPeer, Registered, Registry;
    if ops == [] {
      StartRegistered(side);
    } else {
      var front, op := ops[..|ops|-1], ops[|ops|-1];
      RunRegistered(side, front);
      var e := After(side, front).end;
      assert op in ops;
      match op
      case OpNew(prio, z) => NewRegistered(e, prio, z);
      case OpAck(i, z) => if i < |e.streams| { AckRegistered(e, i, z); }
      case OpReceive(w) => ReceiveRegistered(e, w);
      case OpOutgoing => BuffersOnly(e, e.(out := Outgoing(e.out).2));
      case OpSent(len) => BuffersOnly(e, e.(out := Sent(e.out, len).1));
    }
    RegisteredSize(After(side, ops).end);
  }

  lemma StartRegistered(side: Side)
    ensures Registered(Init(side)) && Init(side).side == side
  {
  }

  lemma RegisteredSize(e: End)
    ensures Registered(e) ==> |e.ids| == |e.streams|
  {
    if Registered(e) {
      RegistrySize(e);
    }
  }

  /** A peer that opens the id this side is about to use leaves a stream that no id finds. */
  lemma UnfairPeer(z: seq<byte>)
    requires 2 <= |z| <= 110
    ensures var request := PacketBytes(Packet(MkSynStream(1, 0, 0), z));
            var h := After(Client, [OpReceive(request), OpNew(0, Deflated(z))]);
            h.rc == Ok && !Registry(h.end) && |h.end.streams| == 2 && |h.end.ids| == 1
  {
    var request := PacketBytes(Packet(MkSynStream(1, 0, 0), z));
    hide After, Receive, PacketBytes;
    AfterTwo(Client, OpReceive(request), OpNew(0, Deflated(z)));
    FirstIdTaken(z);
    var e := AddStream(Init(Client), Stream(1, 1, 0, New));
    assert e.ids == map[1 := 0];
    var d := NewStream(e, 0, Deflated(z)).1;
    assert d.streams[1].key == 1 && d.ids[1] == 0;
  }

  lemma FirstIdTaken(z: seq<byte>)
    requires 2 <= |z|
    ensures Receive(Init(Client), PacketBytes(Packet(MkSynStream(1, 0, 0), z)))
         == (Ok, AddStream(Init(Client), Stream(1, 1, 0, New)))
  {
    hide ParseControl, Packed;
    assert Packed(MkSynStream(1, 0, 0), z) + [] == Packed(MkSynStream(1, 0, 0), z);
    SynStreamCarried(Env({}, Ok, Abort, 0), BLANK, 1, 0, 0, z, []);
    assert Init(Client).ids.Keys == {};
  }
}
