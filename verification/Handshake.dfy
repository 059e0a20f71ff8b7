/**
 Two ends joined by a channel of packets in each direction: the SYN_STREAM /
 SYN_REPLY handshake over every run.
 */
module Handshake {
  import opened Bytes
  import opened Status
  import opened FrameFormat
  import opened FrameLaws
  import opened Endpoint
  import opened EndpointLaws

  // `ab` are the packets a handed out that b has not received, oldest first; `ba` likewise.
  datatype Net = Net(a: End, b: End, ab: seq<Packet>, ba: seq<Packet>)

  function Flip(n: Net): Net { Net(n.b, n.a, n.ba, n.ab) }

  const BEGIN := Net(Init(Client), Init(Server), [], [])

  datatype Step = Create(prio: nat, z: Deflate) | Acknowledge(i: nat, z: Deflate) | HandOut | Report(len: nat) | Deliver

  // A deflated block has at least its two-byte header and its dictionary id.
  predicate Plausible(z: Deflate) {
    match z
    case Deflated(bytes) => |bytes| >= 4
    case DeflateError(rc) => rc != Ok
  }

  /** What the application at `a` may do: ids stay in 31 bits, and only streams the peer asked for are acknowledged. */
  predicate Enabled(n: Net, st: Step) {
    match st
    case Create(_, z) => Plausible(z) && n.a.nextId < 0x8000_0000
    case Acknowledge(i, z) => Plausible(z) && i < |n.a.streams| && n.a.streams[i].streamid != 0
    case HandOut => true
    case Report(_) => true
    case Deliver => n.ba != []
  }

  function StepA(n: Net, st: Step): (Code, Net)
    requires Enabled(n, st)
  {
    match st
    case Create(prio, z) => var (rc, d) := NewStream(n.a, prio, z); (rc, n.(a := d))
    case Acknowledge(i, z) => var (rc, d) := AckStream(n.a, i, z); (rc, n.(a := d))
    case HandOut => var (rc, got, out) := Outgoing(n.a.out); (rc, n.(a := n.a.(out := out), ab := n.ab + got))
    case Report(len) => var (rc, out) := Sent(n.a.out, len); (rc, n.(a := n.a.(out := out)))
    case Deliver => var (rc, d) := Receive(n.a, PacketBytes(n.ba[0])); (rc, n.(a := d, ba := n.ba[1..]))
  }

  // A step by either end; a call that would stop the program is not made.
  function Move(n: Net, byA: bool, st: Step): Net {
    var m := if byA then n else Flip(n);
    if !Enabled(m, st) || StepA(m, st).0 == Abort then n
    else
      var d := StepA(m, st).1;
      if byA then d else Flip(d)
  }

  function AfterMoves(moves: seq<(bool, Step)>): Net {
    if moves == [] then BEGIN
    else Move(AfterMoves(moves[..|moves|-1]), moves[|moves|-1].0, moves[|moves|-1].1)
  }

  // ----- where an id stands

  // The packets on their way from one end: those in the channel, then those queued.
  function Wire(e: End, channel: seq<Packet>): seq<Packet> { channel + e.out.outq }

  function Syns(ks: seq<Packet>): multiset<uint32> {
    if ks == [] then multiset{}
    else (match ks[0].frame.body case Syn(id, _, _) => multiset{id} case _ => multiset{}) + Syns(ks[1..])
  }

  function Replies(ks: seq<Packet>): multiset<uint32> {
    if ks == [] then multiset{}
    else (match ks[0].frame.body case Reply(id) => multiset{id} case _ => multiset{}) + Replies(ks[1..])
  }

  lemma {:induction false} CountsAppend(ks: seq<Packet>, ls: seq<Packet>)
    ensures Syns(ks + ls) == Syns(ks) + Syns(ls) && Replies(ks + ls) == Replies(ks) + Replies(ls)
  {
    if ks == [] {
      assert ks + ls == ls;
    } else {
      assert (ks + ls)[1..] == ks[1..] + ls;
      CountsAppend(ks[1..], ls);
    }
  }

  datatype Known = Absent | Has(state: StreamState)

  function Lookup(e: End, id: uint32): Known {
    if id in e.ids && e.ids[id] < |e.streams| then Has(e.streams[e.ids[id]].state) else Absent
  }

  datatype Phase = Unopened | Requested | Pending | Replied | Open | Broken

  /**
   The one phase an id is in, from what its opener and the peer know of it and
   the SYN_STREAMs and SYN_REPLYs under way; anything else is Broken.
   */
  function PhaseOf(opener: Known, peer: Known, syns: nat, replies: nat): Phase {
    if opener == Absent && peer == Absent && syns == 0 && replies == 0 then Unopened
    else if opener == Has(New) && peer == Absent && syns == 1 && replies == 0 then Requested
    else if opener == Has(New) && peer == Has(New) && syns == 0 && replies == 0 then Pending
    else if opener == Has(New) && peer == Has(Acked) && syns == 0 && replies == 1 then Replied
    else if opener == Has(Acked) && peer == Has(Acked) && syns == 0 && replies == 0 then Open
    else Broken
  }

  function Where(o: End, p: End, op: seq<Packet>, po: seq<Packet>, id: uint32): Phase {
    PhaseOf(Lookup(o, id), Lookup(p, id), Syns(op)[id], Replies(po)[id])
  }

  predicate GoodPacket(sender: Side, k: Packet) {
    && |k.z| >= 4
    && match k.frame.body
       case NoBody => false
       case Syn(id, assoc, prio) =>
         0 < id < 0x8000_0000 && Mine(sender, id) && assoc == 0 && k.frame == MkSynStream(id, 0, prio)
       case Reply(id) => 0 < id < 0x8000_0000 && !Mine(sender, id) && k.frame == MkSynReply(id)
  }

  // One direction: the ids `o` opens, and the packets it sends.
  predicate Half(o: End, p: End, op: seq<Packet>, po: seq<Packet>) {
    && (forall id: uint32 :: Mine(o.side, id) ==> Where(o, p, op, po, id) != Broken)
    && (forall k :: k in op ==> GoodPacket(o.side, k))
  }

  predicate Fits(e: End) {
    forall id :: id in e.ids ==> 0 < id < 0x8000_0000
  }

  predicate Inv(n: Net) {
    && n.a.side != n.b.side && Registered(n.a) && Registered(n.b) && Fits(n.a) && Fits(n.b)
    && Half(n.a, n.b, Wire(n.a, n.ab), Wire(n.b, n.ba))
    && Half(n.b, n.a, Wire(n.b, n.ba), Wire(n.a, n.ab))
  }

  // ----- how the table changes

  lemma LookupAdded(e: End, s: Stream, id: uint32)
    requires Registry(e) && s.key !in e.ids
    ensures Lookup(AddStream(e, s), id) == if id == s.key then Has(s.state) else Lookup(e, id)
  {
  }

  lemma LookupSet(e: End, i: nat, state: StreamState, id: uint32)
    requires Registry(e) && i < |e.streams|
    ensures Lookup(SetState(e, i, state), id) == if id == e.streams[i].key then Has(state) else Lookup(e, id)
  {
  }

  // ----- one step at `a`

  // Only `id` changes its standing at `o`, and the wires gain or lose packets about it alone.
  lemma HalfMoves(o: End, p: End, op: seq<Packet>, po: seq<Packet>,
                  o': End, p': End, op': seq<Packet>, po': seq<Packet>, id: uint32)
    requires Half(o, p, op, po) && o'.side == o.side
    requires forall x :: x != id ==> Lookup(o', x) == Lookup(o, x) && Lookup(p', x) == Lookup(p, x)
    requires forall x :: x != id ==> Syns(op')[x] == Syns(op)[x] && Replies(po')[x] == Replies(po)[x]
    requires Mine(o.side, id) ==> Where(o', p', op', po', id) != Broken
    requires forall k :: k in op' ==> GoodPacket(o.side, k)
    ensures Half(o', p', op', po')
  {
    forall x: uint32 | Mine(o.side, x)
      ensures Where(o', p', op', po', x) != Broken
    {
      if x != id {
        assert Where(o', p', op', po', x) == Where(o, p, op, po, x);
      }
    }
  }

  // Buffers moved, but no packet, stream or id: nothing about the handshake changed.
  lemma SameStanding(n: Net, d: End, ab: seq<Packet>)
    requires Inv(n) && Registered(d) && d.side == n.a.side && d.streams == n.a.streams && d.ids == n.a.ids
    requires Wire(d, ab) == Wire(n.a, n.ab)
    ensures Inv(n.(a := d, ab := ab))
  {
    hide Registered, PhaseOf, GoodPacket;
    var w, v := Wire(n.a, n.ab), Wire(n.b, n.ba);
    assert forall x :: Lookup(d, x) == Lookup(n.a, x);
    HalfMoves(n.a, n.b, w, v, d, n.b, w, v, 0);
    HalfMoves(n.b, n.a, v, w, n.b, d, v, w, 0);
  }

  // The parts of a pack that succeeds, or fails.
  lemma PackOutcome(e: End, f: Control, z: Deflate)
    requires Plausible(z)
    ensures var (rc, out) := Pack(e.out, f, z);
            && (rc == Ok ==> z.Deflated? && out.outq == e.out.outq + [Packet(f, z.bytes)])
            && (rc != Ok ==> out.outq == e.out.outq)
  {
  }

  lemma WireGrows(e: End, d: End, channel: seq<Packet>, k: Packet)
    requires d.out.outq == e.out.outq + [k]
    ensures Wire(d, channel) == Wire(e, channel) + [k]
    ensures Syns(Wire(d, channel)) == Syns(Wire(e, channel)) + Syns([k])
    ensures Replies(Wire(d, channel)) == Replies(Wire(e, channel)) + Replies([k])
  {
    assert Wire(d, channel) == Wire(e, channel) + [k];
    CountsAppend(Wire(e, channel), [k]);
  }

  lemma CountsOfOne(k: Packet)
    ensures Syns([k]) == (if k.frame.body.Syn? then multiset{k.frame.body.id} else multiset{})
    ensures Replies([k]) == (if k.frame.body.Reply? then multiset{k.frame.body.id} else multiset{})
  {
    assert [k][1..] == [];
    assert Syns([]) == multiset{} && Replies([]) == multiset{};
  }

  lemma CreateKeeps(n: Net, prio: nat, z: Deflate)
    requires Inv(n) && Enabled(n, Create(prio, z))
    ensures var (rc, d) := NewStream(n.a, prio, z); rc != Abort ==> Inv(n.(a := d))
  {
    hide Registry, PhaseOf, Lookup, Pack, Half, Wire;
    var e := n.a;
    var (rc, d) := NewStream(e, prio, z);
    NewRegistered(e, prio, z);
    PackOutcome(e, MkSynStream(e.nextId, 0, prio), z);
    if rc == Ok {
      Opened(n, d, Packet(MkSynStream(e.nextId, 0, prio), z.bytes), prio);
    } else if rc != Abort {
      assert Wire(d, n.ab) == Wire(e, n.ab) by { WireOf(e, d, n.ab); }
      SameStanding(n, d, n.ab);
    }
  }

  lemma WireOf(e: End, d: End, channel: seq<Packet>)
    requires d.out.outq == e.out.outq
    ensures Wire(d, channel) == Wire(e, channel)
  {
  }

  // Unopened becomes Requested.
  lemma Opened(n: Net, d: End, k: Packet, prio: nat)
    requires Inv(n) && Registered(d) && d.side == n.a.side && n.a.nextId !in n.a.ids && 0 < n.a.nextId < 0x8000_0000
    requires k.frame == MkSynStream(n.a.nextId, 0, prio) && |k.z| >= 4 && d.out.outq == n.a.out.outq + [k]
    requires var g := AddStream(n.a, Stream(0, n.a.nextId, prio, New)); d.streams == g.streams && d.ids == g.ids
    ensures Inv(n.(a := d))
  {
    hide Registry, Lookup, Wire, Half, AddStream;
    var e, id := n.a, n.a.nextId;
    var s := Stream(0, id, prio, New);
    assert Mine(e.side, id) && Registry(e);
    AddedFits(e, s);
    LookupAbsent(e, id);
    forall x ensures Lookup(d, x) == if x == id then Has(New) else Lookup(e, x) {
      LookupAdded(e, s, x);
      LookupFrom(d, AddStream(e, s), x);
    }
    Sends(n, d, id, New, k);
  }

  // A packet about an id is queued, and the id moves on at this end.
  lemma Sends(n: Net, d: End, id: uint32, state: StreamState, k: Packet)
    requires Inv(n) && Registered(d) && Fits(d) && d.side == n.a.side
    requires d.out.outq == n.a.out.outq + [k] && GoodPacket(d.side, k)
    requires if state == New then k.frame.body.Syn? && Lookup(n.a, id) == Absent
             else state == Acked && k.frame.body.Reply? && Lookup(n.a, id) == Has(New)
    requires k.frame.body.id == id && forall x :: Lookup(d, x) == if x == id then Has(state) else Lookup(n.a, x)
    ensures Inv(n.(a := d))
  {
    hide Wire, Lookup, Registered, PhaseOf, GoodPacket, Mine, Half, Syns, Replies;
    PhaseTold(n, id, state, k);
    GoodPhases();
    var w, v, w' := Wire(n.a, n.ab), Wire(n.b, n.ba), Wire(d, n.ab);
    GoodFrom(n.a, n.b, w, v);
    GoodFrom(n.b, n.a, v, w);
    WireGrows(n.a, d, n.ab, k);
    CountsOfOne(k);
    HalfMoves(n.a, n.b, w, v, d, n.b, w', v, id);
    HalfMoves(n.b, n.a, v, w, n.b, d, v, w', id);
  }

  // What one end knows of an id can tell its phase.
  lemma PhaseTold(n: Net, id: uint32, state: StreamState, k: Packet)
    requires Inv(n) && GoodPacket(n.a.side, k) && k.frame.body.id == id
    requires if state == New then k.frame.body.Syn? && Lookup(n.a, id) == Absent
             else state == Acked && k.frame.body.Reply? && Lookup(n.a, id) == Has(New)
    ensures (Mine(n.a.side, id) <==> state == New) && (Mine(n.b.side, id) <==> state == Acked)
    ensures var w, v := Wire(n.a, n.ab), Wire(n.b, n.ba);
            if state == New then Lookup(n.b, id) == Absent && Syns(w)[id] == 0 && Replies(v)[id] == 0
            else Lookup(n.b, id) == Has(New) && Syns(v)[id] == 0 && Replies(w)[id] == 0
  {
    hide Wire, Lookup, Registered;
    var w, v := Wire(n.a, n.ab), Wire(n.b, n.ba);
    if state == New {
      assert Where(n.a, n.b, w, v, id) != Broken;
    } else {
      assert Where(n.b, n.a, v, w, id) != Broken;
    }
  }

  lemma GoodPhases()
    ensures PhaseOf(Has(New), Absent, 1, 0) == Requested && PhaseOf(Has(New), Has(New), 0, 0) == Pending
    ensures PhaseOf(Has(New), Has(Acked), 0, 1) == Replied && PhaseOf(Has(Acked), Has(Acked), 0, 0) == Open
  {
  }

  lemma GoodFrom(o: End, p: End, op: seq<Packet>, po: seq<Packet>)
    requires Half(o, p, op, po)
    ensures forall k :: k in op ==> GoodPacket(o.side, k)
  {
  }

  lemma AddedFits(e: End, s: Stream)
    requires Fits(e) && 0 < s.key < 0x8000_0000
    ensures Fits(AddStream(e, s))
  {
  }

  lemma LookupFrom(e: End, d: End, id: uint32)
    requires e.streams == d.streams && e.ids == d.ids
    ensures Lookup(e, id) == Lookup(d, id)
  {
  }

  lemma LookupAbsent(e: End, id: uint32)
    requires id !in e.ids
    ensures Lookup(e, id) == Absent
  {
  }

  lemma AckKeeps(n: Net, i: nat, z: Deflate)
    requires Inv(n) && Enabled(n, Acknowledge(i, z))
    ensures var (rc, d) := AckStream(n.a, i, z); rc != Abort ==> Inv(n.(a := d))
  {
    hide Registry, PhaseOf, Lookup, Pack, Half, Wire;
    var e, f := n.a, MkSynReply(n.a.streams[i].streamid);
    var (rc, d) := AckStream(e, i, z);
    AckRegistered(e, i, z);
    PackOutcome(e, f, z);
    if rc == Ok {
      Answered(n, d, i, Packet(f, z.bytes));
    } else if rc != Abort {
      assert Wire(d, n.ab) == Wire(e, n.ab) by { WireOf(e, d, n.ab); }
      SameStanding(n, d, n.ab);
    }
  }

  lemma PeersStream(n: Net, i: nat)
    requires Inv(n) && i < |n.a.streams| && n.a.streams[i].streamid != 0
    ensures var s := n.a.streams[i];
            && s.key == s.streamid && Lookup(n.a, s.key) == Has(s.state)
            && !Mine(n.a.side, s.key) && 0 < s.key < 0x8000_0000
            && Registry(n.a)
  {
    hide Half;
  }

  // Pending becomes Replied.
  lemma Answered(n: Net, d: End, i: nat, k: Packet)
    requires Inv(n) && Registered(d) && d.side == n.a.side && i < |n.a.streams|
    requires n.a.streams[i].streamid != 0 && n.a.streams[i].state == New
    requires k.frame == MkSynReply(n.a.streams[i].streamid) && |k.z| >= 4 && d.out.outq == n.a.out.outq + [k]
    requires var g := SetState(n.a, i, Acked); d.streams == g.streams && d.ids == g.ids
    requires d.ids == n.a.ids
    ensures Inv(n.(a := d))
  {
    hide Wire, Registry, Lookup, SetState, Registered, Half;
    var e, id := n.a, n.a.streams[i].streamid;
    PeersStream(n, i);
    forall x ensures Lookup(d, x) == if x == id then Has(Acked) else Lookup(e, x) {
      LookupSet(e, i, Acked, x);
      LookupFrom(d, SetState(e, i, Acked), x);
    }
    Sends(n, d, id, Acked, k);
  }

  lemma HandOutKeeps(n: Net)
    requires Inv(n)
    ensures var (rc, got, out) := Outgoing(n.a.out); Inv(n.(a := n.a.(out := out), ab := n.ab + got))
  {
    hide PhaseOf, Lookup, Half, Registry;
    var (rc, got, out) := Outgoing(n.a.out);
    var d := n.a.(out := out);
    BuffersOnly(n.a, d);
    if got == [] {
      assert n.ab + got == n.ab;
    } else {
      assert n.ab + [n.a.out.outq[0]] + n.a.out.outq[1..] == n.ab + n.a.out.outq;
    }
    SameStanding(n, d, n.ab + got);
  }

  lemma ReportKeeps(n: Net, len: nat)
    requires Inv(n) && Enabled(n, Report(len))
    ensures Inv(n.(a := n.a.(out := Sent(n.a.out, len).1)))
  {
    hide PhaseOf, Lookup, Half, Registry;
    var d := n.a.(out := Sent(n.a.out, len).1);
    BuffersOnly(n.a, d);
    SameStanding(n, d, n.ab);
  }

  lemma WireShrinks(e: End, channel: seq<Packet>)
    requires channel != []
    ensures Wire(e, channel) == [channel[0]] + Wire(e, channel[1..])
    ensures channel[0] in Wire(e, channel)
    ensures forall k :: k in Wire(e, channel[1..]) ==> k in Wire(e, channel)
    ensures Syns(Wire(e, channel)) == Syns([channel[0]]) + Syns(Wire(e, channel[1..]))
    ensures Replies(Wire(e, channel)) == Replies([channel[0]]) + Replies(Wire(e, channel[1..]))
  {
    assert Wire(e, channel) == [channel[0]] + Wire(e, channel[1..]);
    CountsAppend([channel[0]], Wire(e, channel[1..]));
  }

  // With the front packet gone, it alone is no longer counted.
  lemma FrontTaken(e: End, channel: seq<Packet>)
    requires channel != []
    ensures forall k :: k in Wire(e, channel[1..]) ==> k in Wire(e, channel)
    ensures var body, v, v' := channel[0].frame.body, Wire(e, channel), Wire(e, channel[1..]);
            && (forall x :: Syns(v)[x] == Syns(v')[x] + if body.Syn? && body.id == x then 1 else 0)
            && (forall x :: Replies(v)[x] == Replies(v')[x] + if body.Reply? && body.id == x then 1 else 0)
  {
    WireShrinks(e, channel);
    CountsOfOne(channel[0]);
  }

  // What the parser makes of a packet on the wire.
  lemma PacketReceived(e: End, sender: Side, k: Packet)
    requires GoodPacket(sender, k)
    ensures k.frame.body.Syn? && k.frame.body.id !in e.ids ==>
              Receive(e, PacketBytes(k)) ==
              (Ok, AddStream(e, Stream(k.frame.body.id, k.frame.body.id, k.frame.body.prio % 4, New)))
    ensures k.frame.body.Reply? && k.frame.body.id in e.ids && e.ids[k.frame.body.id] < |e.streams| ==>
              Receive(e, PacketBytes(k)) == (Ok, SetState(e, e.ids[k.frame.body.id], Acked))
  {
    hide ParseControl, Packed;
    var env := Env(e.ids.Keys, Ok, Abort, 0);
    assert PacketBytes(k) + [] == PacketBytes(k);
    match k.frame.body
    case Syn(id, assoc, prio) =>
      if id !in e.ids {
        SynStreamCarried(env, BLANK, id, 0, prio, k.z, []);
      }
    case Reply(id) => SynReplyCarried(env, BLANK, id, k.z, []);
  }

  // The packet at the front of the channel tells the phase its id is in.
  lemma RequestPhase(n: Net, id: uint32)
    requires Inv(n) && n.ba != [] && n.ba[0].frame.body.Syn? && n.ba[0].frame.body.id == id
    ensures Mine(n.b.side, id) && !Mine(n.a.side, id) && 0 < id < 0x8000_0000
    ensures Lookup(n.b, id) == Has(New) && Lookup(n.a, id) == Absent
    ensures Syns(Wire(n.b, n.ba))[id] == 1 && Replies(Wire(n.a, n.ab))[id] == 0
    ensures id !in n.a.ids
  {
    hide Wire;
    WireShrinks(n.b, n.ba);
    assert GoodPacket(n.b.side, n.ba[0]);
    CountsOfOne(n.ba[0]);
    assert Where(n.b, n.a, Wire(n.b, n.ba), Wire(n.a, n.ab), id) == Requested;
  }

  lemma ReplyPhase(n: Net, id: uint32)
    requires Inv(n) && n.ba != [] && n.ba[0].frame.body.Reply? && n.ba[0].frame.body.id == id
    ensures Mine(n.a.side, id) && !Mine(n.b.side, id)
    ensures Lookup(n.a, id) == Has(New) && Lookup(n.b, id) == Has(Acked)
    ensures Syns(Wire(n.a, n.ab))[id] == 0 && Replies(Wire(n.b, n.ba))[id] == 1
    ensures id in n.a.ids && n.a.ids[id] < |n.a.streams| && n.a.streams[n.a.ids[id]].key == id
  {
    hide Wire;
    WireShrinks(n.b, n.ba);
    assert GoodPacket(n.b.side, n.ba[0]);
    CountsOfOne(n.ba[0]);
    assert Where(n.a, n.b, Wire(n.a, n.ab), Wire(n.b, n.ba), id) == Replied;
  }

  // Requested becomes Pending.
  lemma RequestArrives(n: Net, id: uint32, prio: nat)
    requires Inv(n) && n.ba != [] && n.ba[0].frame.body.Syn? && n.ba[0].frame.body.id == id && prio < 4
    ensures id !in n.a.ids
    ensures var d := AddStream(n.a, Stream(id, id, prio, New)); Inv(n.(a := d, ba := n.ba[1..]))
  {
    hide Wire, Registry, Lookup, Registered, Half, AddStream;
    RequestPhase(n, id);
    var e, s := n.a, Stream(id, id, prio, New);
    var d := AddStream(e, s);
    PeerRegistered(e, s);
    AddedFits(e, s);
    RegistryOf(e);
    AddedOut(e, s);
    WireOf(e, d, n.ab);
    forall x ensures Lookup(d, x) == if x == id then Has(New) else Lookup(e, x) {
      LookupAdded(e, s, x);
    }
    Settles(n, d, id, New);
  }

  // The front packet is taken, and its id moves on at this end.
  lemma Settles(n: Net, d: End, id: uint32, state: StreamState)
    requires Inv(n) && n.ba != [] && Registered(d) && Fits(d) && d.side == n.a.side && Wire(d, n.ab) == Wire(n.a, n.ab)
    requires var body := n.ba[0].frame.body;
             if state == New then body.Syn? && body.id == id else state == Acked && body.Reply? && body.id == id
    requires forall x :: Lookup(d, x) == if x == id then Has(state) else Lookup(n.a, x)
    ensures Inv(n.(a := d, ba := n.ba[1..]))
  {
    hide Wire, Lookup, Registered, PhaseOf, GoodPacket, Mine, Half, Syns, Replies;
    if state == New {
      RequestPhase(n, id);
    } else {
      ReplyPhase(n, id);
    }
    GoodPhases();
    GoodFrom(n.b, n.a, Wire(n.b, n.ba), Wire(n.a, n.ab));
    GoodFrom(n.a, n.b, Wire(n.a, n.ab), Wire(n.b, n.ba));
    FrontTaken(n.b, n.ba);
    var w, v, v' := Wire(n.a, n.ab), Wire(n.b, n.ba), Wire(n.b, n.ba[1..]);
    HalfMoves(n.a, n.b, w, v, d, n.b, w, v', id);
    HalfMoves(n.b, n.a, v, w, n.b, d, v', w, id);
  }

  lemma RegistryOf(e: End)
    requires Registered(e)
    ensures Registry(e)
  {
  }

  lemma AddedOut(e: End, s: Stream)
    ensures AddStream(e, s).out == e.out && AddStream(e, s).side == e.side
  {
  }

  // Replied becomes Open.
  lemma ReplyArrives(n: Net, id: uint32)
    requires Inv(n) && n.ba != [] && n.ba[0].frame.body.Reply? && n.ba[0].frame.body.id == id
    ensures id in n.a.ids && n.a.ids[id] < |n.a.streams|
    ensures var d := SetState(n.a, n.a.ids[id], Acked); Inv(n.(a := d, ba := n.ba[1..]))
  {
    hide Wire, Registry, Lookup, Registered, PhaseOf, Half;
    ReplyPhase(n, id);
    var e := n.a;
    var i := e.ids[id];
    var d := SetState(e, i, Acked);
    StateKeepsRegistered(e, i);
    assert Registry(e) by { RegistryOf(e); }
    WireOf(e, d, n.ab);
    forall x ensures Lookup(d, x) == if x == id then Has(Acked) else Lookup(e, x) {
      LookupSet(e, i, Acked, x);
    }
    hide SetState;
    Settles(n, d, id, Acked);
  }

  lemma StateKeepsRegistered(e: End, i: nat)
    requires Registered(e) && i < |e.streams|
    ensures var d := SetState(e, i, Acked);
            Registered(d) && d.side == e.side && d.nextId == e.nextId && d.ids == e.ids && d.out.outq == e.out.outq
  {
  }

  /** What arrives is never refused: the id of a request is new, the id of a reply is known. */
  lemma Delivered(n: Net)
    requires Inv(n) && n.ba != []
    ensures var (rc, d) := Receive(n.a, PacketBytes(n.ba[0]));
            rc == Ok && Inv(n.(a := d, ba := n.ba[1..]))
  {
    hide Registry, Lookup, Wire, Receive, PacketBytes, PhaseOf;
    var k := n.ba[0];
    WireShrinks(n.b, n.ba);
    assert GoodPacket(n.b.side, k);
    CountsOfOne(k);
    PacketReceived(n.a, n.b.side, k);
    match k.frame.body
    case Syn(id, _, prio) => RequestArrives(n, id, prio % 4);
    case Reply(id) => ReplyArrives(n, id);
  }

  // ----- every run

  lemma StepKeeps(n: Net, st: Step)
    requires Inv(n) && Enabled(n, st)
    ensures StepA(n, st).0 != Abort ==> Inv(StepA(n, st).1)
  {
    hide Inv, NewStream, AckStream, Receive;
    match st
    case Create(prio, z) => CreateKeeps(n, prio, z);
    case Acknowledge(i, z) => AckKeeps(n, i, z);
    case HandOut => HandOutKeeps(n);
    case Report(len) => ReportKeeps(n, len);
    case Deliver => Delivered(n);
  }

  lemma FlipKeeps(n: Net)
    ensures Inv(Flip(n)) <==> Inv(n)
  {
    hide Half, Registered;
  }

  lemma BeginHolds()
    ensures Inv(BEGIN)
  {
    assert Wire(BEGIN.a, []) == [] && Wire(BEGIN.b, []) == [];
    StartRegistered(Client);
    StartRegistered(Server);
  }

  /**
   The handshake.  After any moves of both ends, in any order: every id of
   either parity is in exactly one phase, for its opener and its peer together.
   */
  lemma {:induction false} HandshakeRun(moves: seq<(bool, Step)>)
    ensures Inv(AfterMoves(moves))
  {
    hide Inv, StepA;
    if moves == [] {
      BeginHolds();
    } else {
      var (byA, st) := moves[|moves|-1];
      var n := AfterMoves(moves[..|moves|-1]);
      HandshakeRun(moves[..|moves|-1]);
      var m := if byA then n else Flip(n);
      FlipKeeps(n);
      if Enabled(m, st) {
        StepKeeps(m, st);
        FlipKeeps(StepA(m, st).1);
      }
    }
  }

  /** An opener's stream is acknowledged only if the peer acknowledged the same id; then nothing of it is under way. */
  lemma AckedMeansAcked(moves: seq<(bool, Step)>, atA: bool, id: uint32)
    requires var n := if atA then AfterMoves(moves) else Flip(AfterMoves(moves));
             Mine(n.a.side, id) && Lookup(n.a, id) == Has(Acked)
    ensures var n := if atA then AfterMoves(moves) else Flip(AfterMoves(moves));
            && Lookup(n.b, id) == Has(Acked)
            && Syns(Wire(n.a, n.ab))[id] == 0 && Replies(Wire(n.b, n.ba))[id] == 0
  {
    hide Lookup, Wire, Registered, AfterMoves;
    HandshakeRun(moves);
    FlipKeeps(AfterMoves(moves));
    var n := if atA then AfterMoves(moves) else Flip(AfterMoves(moves));
    assert Where(n.a, n.b, Wire(n.a, n.ab), Wire(n.b, n.ba), id) != Broken;
  }

  /** In no run is a packet that arrives refused: neither the unknown-id nor the duplicate-id error occurs. */
  lemma NothingRefused(moves: seq<(bool, Step)>, atA: bool)
    requires var n := AfterMoves(moves); (if atA then n else Flip(n)).ba != []
    ensures var m := if atA then AfterMoves(moves) else Flip(AfterMoves(moves));
            Receive(m.a, PacketBytes(m.ba[0])).0 == Ok
  {
    hide Inv, Receive, AfterMoves;
    HandshakeRun(moves);
    FlipKeeps(AfterMoves(moves));
    Delivered(if atA then AfterMoves(moves) else Flip(AfterMoves(moves)));
  }

  // ----- what each application is told

  // Ids of the requests and of the acknowledgements an application was told of.
  datatype Heard = Heard(requests: multiset<uint32>, acks: multiset<uint32>)

  function BodyOf(e: End, k: Packet): Body {
    ParseControl(Env(e.ids.Keys, Ok, Abort, 0), BLANK, PacketBytes(k)).frame.body
  }

  function Plus(h: Heard, b: Body, dx: Dx): Heard {
    if b.NoBody? then h
    else
      match dx
      case DxStreamReq => h.(requests := h.requests + multiset{b.id})
      case DxStreamAck => h.(acks := h.acks + multiset{b.id})
      case DxNone => h
  }

  // A step by the application at `a`, which hears something only of what arrives.
  function HearStep(n: Net, st: Step, h: Heard): Heard
    requires Enabled(n, st)
  {
    if !st.Deliver? then h
    else
      var b := BodyOf(n.a, n.ba[0]);
      Plus(h, b, Told(n.a, b, 0).1)
  }

  function HeardBy(moves: seq<(bool, Step)>, atA: bool): Heard {
    if moves == [] then Heard(multiset{}, multiset{})
    else
      var (byA, st) := moves[|moves|-1];
      var h, n := HeardBy(moves[..|moves|-1], atA), AfterMoves(moves[..|moves|-1]);
      var m := if byA then n else Flip(n);
      if byA != atA || !Enabled(m, st) || StepA(m, st).0 == Abort then h else HearStep(m, st, h)
  }

  // Each of the peer's streams known here was told once, and each acknowledgement of a stream made here.
  predicate Heeds(e: End, h: Heard) {
    forall id: uint32 ::
      && h.requests[id] == (if !Mine(e.side, id) && Lookup(e, id) != Absent then 1 else 0)
      && h.acks[id] == if Mine(e.side, id) && Lookup(e, id) == Has(Acked) then 1 else 0
  }

  // Only `id` changes its standing, in a way nobody has to be told of.
  lemma HeedsStill(e: End, d: End, h: Heard, id: uint32)
    requires Heeds(e, h) && d.side == e.side
    requires forall x :: x != id ==> Lookup(d, x) == Lookup(e, x)
    requires if Mine(e.side, id) then Lookup(d, id) != Has(Acked) && Lookup(e, id) != Has(Acked)
             else Lookup(d, id) == Absent <==> Lookup(e, id) == Absent
    ensures Heeds(d, h)
  {
    hide Lookup, Mine;
  }

  lemma CreateHeeds(n: Net, prio: nat, z: Deflate, h: Heard)
    requires Inv(n) && Enabled(n, Create(prio, z)) && Heeds(n.a, h)
    ensures Heeds(NewStream(n.a, prio, z).1, h)
  {
    hide Pack, Half, PhaseOf, Wire, Heeds;
    var e := n.a;
    var (rc, d) := NewStream(e, prio, z);
    if rc == Ok {
      NewRegistered(e, prio, z);
      var s := Stream(0, e.nextId, prio, New);
      forall x ensures Lookup(d, x) == if x == e.nextId then Has(New) else Lookup(e, x) {
        LookupAdded(e, s, x);
        LookupFrom(d, AddStream(e, s), x);
      }
      HeedsStill(e, d, h, e.nextId);
    } else {
      forall x ensures Lookup(d, x) == Lookup(e, x) { LookupFrom(d, e, x); }
      HeedsStill(e, d, h, e.nextId);
    }
  }

  lemma AcknowledgeHeeds(n: Net, i: nat, z: Deflate, h: Heard)
    requires Inv(n) && Enabled(n, Acknowledge(i, z)) && Heeds(n.a, h)
    ensures Heeds(AckStream(n.a, i, z).1, h)
  {
    hide Pack, Half, PhaseOf, Wire, Heeds;
    var e := n.a;
    var (rc, d) := AckStream(e, i, z);
    PeersStream(n, i);
    if rc == Ok {
      forall x ensures Lookup(d, x) == if x == e.streams[i].key then Has(Acked) else Lookup(e, x) {
        LookupSet(e, i, Acked, x);
        LookupFrom(d, SetState(e, i, Acked), x);
      }
    } else {
      forall x ensures Lookup(d, x) == Lookup(e, x) { LookupFrom(d, e, x); }
    }
    HeedsStill(e, d, h, e.streams[i].key);
  }

  // What arrives is told as what it is.
  lemma ArrivalTold(n: Net)
    requires Inv(n) && n.ba != []
    ensures var b, body := BodyOf(n.a, n.ba[0]), n.ba[0].frame.body;
            && (body.Syn? ==> b.Syn? && b.id == body.id && Told(n.a, b, 0).1 == DxStreamReq)
            && (body.Reply? ==> b == body && Told(n.a, b, 0).1 == DxStreamAck)
  {
    hide Half, PhaseOf, Wire, ParseControl, Packed, Lookup, Told, Registered;
    var k := n.ba[0];
    assert GoodPacket(n.b.side, k) by {
      WireShrinks(n.b, n.ba);
      GoodFrom(n.b, n.a, Wire(n.b, n.ba), Wire(n.a, n.ab));
    }
    var env := Env(n.a.ids.Keys, Ok, Abort, 0);
    assert PacketBytes(k) + [] == PacketBytes(k);
    match k.frame.body
    case Syn(id, assoc, prio) =>
      RequestPhase(n, id);
      SynStreamCarried(env, BLANK, id, 0, prio, k.z, []);
      RequestTold(n.a, Syn(id, 0, prio % 4));
    case Reply(id) =>
      ReplyPhase(n, id);
      SynReplyCarried(env, BLANK, id, k.z, []);
      ReplyTold(n.a, id);
  }

  lemma RequestTold(e: End, b: Body)
    requires b.Syn? && b.prio < 4
    ensures Told(e, b, 0).1 == DxStreamReq
  {
  }

  lemma ReplyTold(e: End, id: uint32)
    requires id != 0 && id in e.ids && e.ids[id] < |e.streams|
    ensures Told(e, Reply(id), 0).1 == DxStreamAck
  {
  }

  lemma ArrivalHeeds(n: Net, h: Heard)
    requires Inv(n) && n.ba != [] && Heeds(n.a, h)
    ensures Heeds(StepA(n, Deliver).1.a, HearStep(n, Deliver, h))
  {
    hide Half, PhaseOf, Wire, ParseControl, Packed, Receive;
    ArrivalTold(n);
    var k, e := n.ba[0], n.a;
    assert GoodPacket(n.b.side, k) by {
      WireShrinks(n.b, n.ba);
      GoodFrom(n.b, n.a, Wire(n.b, n.ba), Wire(n.a, n.ab));
    }
    var id := k.frame.body.id;
    PacketReceived(e, n.b.side, k);
    var d := StepA(n, Deliver).1.a;
    match k.frame.body
    case Syn(_, _, prio) =>
      RequestPhase(n, id);
      forall x ensures Lookup(d, x) == if x == id then Has(New) else Lookup(e, x) {
        LookupAdded(e, Stream(id, id, prio % 4, New), x);
      }
      OneMoreTold(e, d, h, id, HearStep(n, Deliver, h));
    case Reply(_) =>
      ReplyPhase(n, id);
      forall x ensures Lookup(d, x) == if x == id then Has(Acked) else Lookup(e, x) {
        LookupSet(e, e.ids[id], Acked, x);
      }
      OneMoreTold(e, d, h, id, HearStep(n, Deliver, h));
  }

  // Exactly one more was told, of the one id whose standing changed.
  lemma OneMoreTold(e: End, d: End, h: Heard, id: uint32, g: Heard)
    requires Heeds(e, h) && d.side == e.side && forall x :: x != id ==> Lookup(d, x) == Lookup(e, x)
    requires if Mine(e.side, id) then Lookup(e, id) == Has(New) && Lookup(d, id) == Has(Acked)
             else Lookup(e, id) == Absent && Lookup(d, id) == Has(New)
    requires g == if Mine(e.side, id) then h.(acks := h.acks + multiset{id})
                  else h.(requests := h.requests + multiset{id})
    ensures Heeds(d, g)
  {
    hide Lookup, Mine;
  }

  lemma StepHeeds(n: Net, st: Step, h: Heard)
    requires Inv(n) && Enabled(n, st) && Heeds(n.a, h)
    ensures Heeds(StepA(n, st).1.a, HearStep(n, st, h))
  {
    hide Inv, Heeds, NewStream, AckStream, Receive, BodyOf, Told;
    match st
    case Create(prio, z) => CreateHeeds(n, prio, z, h);
    case Acknowledge(i, z) => AcknowledgeHeeds(n, i, z, h);
    case HandOut => SameHeeds(n.a, StepA(n, st).1.a, h);
    case Report(len) => SameHeeds(n.a, StepA(n, st).1.a, h);
    case Deliver => ArrivalHeeds(n, h);
  }

  lemma SameHeeds(e: End, d: End, h: Heard)
    requires Heeds(e, h) && d.side == e.side && d.streams == e.streams && d.ids == e.ids
    ensures Heeds(d, h)
  {
  }

  lemma {:induction false} HeardRun(moves: seq<(bool, Step)>, atA: bool)
    ensures Heeds((if atA then AfterMoves(moves) else Flip(AfterMoves(moves))).a, HeardBy(moves, atA))
  {
    hide Inv, Heeds, StepA, HearStep;
    if moves == [] {
      NothingHeard(atA);
    } else {
      var (byA, st) := moves[|moves|-1];
      var front := moves[..|moves|-1];
      var n := AfterMoves(front);
      HeardRun(front, atA);
      HandshakeRun(front);
      FlipKeeps(n);
      var m := if byA then n else Flip(n);
      if Enabled(m, st) {
        if byA == atA {
          StepHeeds(m, st, HeardBy(front, atA));
        } else {
          OtherEnd(m, st);
        }
      }
    }
  }

  lemma NothingHeard(atA: bool)
    ensures Heeds((if atA then BEGIN else Flip(BEGIN)).a, Heard(multiset{}, multiset{}))
  {
  }

  lemma OtherEnd(n: Net, st: Step)
    requires Enabled(n, st)
    ensures StepA(n, st).1.b == n.b
  {
  }

  /**
   What the applications are told, at either end and after any moves: a request
   once for each stream the peer opened whose SYN_STREAM is no longer under way,
   and an acknowledgement once for each stream the peer acknowledged whose
   SYN_REPLY is no longer under way; of nothing else.
   */
  lemma ToldOnce(moves: seq<(bool, Step)>, atA: bool, id: uint32)
    ensures var n := if atA then AfterMoves(moves) else Flip(AfterMoves(moves));
            var h, wire := HeardBy(moves, atA), Wire(n.b, n.ba);
            && (Mine(n.b.side, id) ==>
                  && h.acks[id] == 0
                  && h.requests[id] + Syns(wire)[id] == if Lookup(n.b, id) != Absent then 1 else 0)
            && (Mine(n.a.side, id) ==>
                  && h.requests[id] == 0
                  && h.acks[id] + Replies(wire)[id] == if Lookup(n.b, id) == Has(Acked) then 1 else 0)
  {
    hide AfterMoves, HeardBy, Lookup, Wire, Registered, Syns, Replies;
    HandshakeRun(moves);
    HeardRun(moves, atA);
    FlipKeeps(AfterMoves(moves));
    var n := if atA then AfterMoves(moves) else Flip(AfterMoves(moves));
    var w, v := Wire(n.a, n.ab), Wire(n.b, n.ba);
    if Mine(n.b.side, id) {
      assert Where(n.b, n.a, v, w, id) != Broken;
    } else {
      assert Mine(n.a.side, id) ==> Where(n.a, n.b, w, v, id) != Broken;
    }
  }

  /** Acknowledging keeps the handshake exactly when the stream came from the peer, which the program does not check. */
  lemma AckIff(n: Net, i: nat, z: Deflate)
    requires Inv(n) && Plausible(z) && i < |n.a.streams| && AckStream(n.a, i, z).0 == Ok
    ensures Inv(n.(a := AckStream(n.a, i, z).1)) <==> n.a.streams[i].streamid != 0
  {
    hide Registered, Lookup;
    if n.a.streams[i].streamid != 0 {
      AckKeeps(n, i, z);
    } else {
      var d := AckStream(n.a, i, z).1;
      PackOutcome(n.a, MkSynReply(0), z);
      var k := Packet(MkSynReply(0), z.bytes);
      assert d.out.outq[|n.a.out.outq|] == k;
      assert k in Wire(d, n.ab);
      assert !GoodPacket(d.side, k);
    }
  }

  /** The reply such a call sends carries id 0, and the peer's table stops the program on it. */
  lemma ZeroReplyStops(e: End, z: seq<byte>)
    requires |z| >= 4
    ensures Receive(e, PacketBytes(Packet(MkSynReply(0), z))).0 == Abort
  {
    hide ParseControl, Packed;
    assert Packed(MkSynReply(0), z) + [] == Packed(MkSynReply(0), z);
    SynReplyCarried(Env(e.ids.Keys, Ok, Abort, 0), BLANK, 0, z, []);
  }
}
