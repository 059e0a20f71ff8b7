/**
 Demultiplexing a byte stream that arrives in chunks (spindly_phys_incoming and
 spindly_phys_demux), on values, with the corrections README.md lists.
 */
module Reassembly {
  import opened Bytes
  import opened Status
  import opened FrameFormat

  // ----- the receiving half of a connection

  datatype Recv = Recv(frame: Frame, unread: seq<byte>, queue: seq<seq<byte>>)

  // `got` holds the one frame that was completed, or nothing.
  datatype Answer = Answer(rc: Code, got: seq<Frame>, next: Recv)

  const BLANK_FRAME := Frame(false, DataKind, Control(false, 0, 0, 0, 0, NoBody), Data(0, 0, 0, NoPayload))

  const START := Recv(BLANK_FRAME, [], [])

  // A payload parser can leave the cursor past the end; nothing is unread then.
  function Tail(w: seq<byte>, used: nat): seq<byte> {
    if used <= |w| then w[used..] else []
  }

  /** One call of spindly_phys_demux: parse, and on too little data merge with the next chunk and parse again. */
  function Demux(env: Env, s: Recv): Answer
    decreases |s.queue|
  {
    if s.unread == [] then
      if s.queue == [] then Answer(Ok, [], s)
      else Demux(env, s.(unread := s.queue[0], queue := s.queue[1..]))
    else
      var r := ParseFrame(env, s.frame, s.unread);
      var left := Tail(s.unread, r.used);
      if r.rc == Ok then Answer(Ok, [r.frame], Recv(Reset(r.frame), left, s.queue))
      else if r.rc != Insuff then Answer(r.rc, [], Recv(r.frame, left, s.queue))
      else if s.queue == [] then Answer(Ok, [], Recv(r.frame, left, []))
      else Demux(env, Recv(r.frame, left + s.queue[0], s.queue[1..]))
  }

  lemma {:induction false} AtMostOne(env: Env, s: Recv)
    ensures |Demux(env, s).got| <= 1
    decreases |s.queue|
  {
    hide ParseFrame;
    if s.unread == [] {
      if s.queue != [] {
        AtMostOne(env, s.(unread := s.queue[0], queue := s.queue[1..]));
      }
    } else if s.queue != [] {
      var r := ParseFrame(env, s.frame, s.unread);
      AtMostOne(env, Recv(r.frame, Tail(s.unread, r.used) + s.queue[0], s.queue[1..]));
    }
  }

  // ----- what was sent, independent of any receiver

  /** A data frame as bytes. */
  function HeaderWire(d: Data): (s: seq<byte>)
    ensures |s| == HEADER
  {
    Store32(d.streamId) + [d.flags] + Store24(d.length)
  }

  function Wire(d: Data): seq<byte> {
    HeaderWire(d) + match d.payload case NoPayload => [] case Payload(bytes) => bytes
  }

  predicate Whole(d: Data) {
    0 < d.streamId < 0x8000_0000 && d.payload.Payload? && |d.payload.bytes| == d.length < 0x100_0000
  }

  function WireAll(ds: seq<Data>): seq<byte> {
    if ds == [] then [] else Wire(ds[0]) + WireAll(ds[1..])
  }

  function FrameLength(w: seq<byte>): nat
    requires |w| >= HEADER
  {
    HEADER + LengthOf(w)
  }

  /** The reference: every complete frame of a byte stream, from one reading of all of it. */
  function Messages(w: seq<byte>): seq<Data> {
    if |w| < HEADER || |w| < FrameLength(w) then []
    else
      var n := FrameLength(w);
      [Data(StreamIdOf(w), w[4], LengthOf(w), Payload(w[HEADER..n]))] + Messages(w[n..])
  }

  /** Every frame boundary of the stream starts a data frame whose stream id is not 0. */
  predicate DataStream(w: seq<byte>) {
    w != [] ==>
      && w[0] < 0x80
      && (|w| >= HEADER ==> StreamIdOf(w) != 0 && (|w| >= FrameLength(w) ==> DataStream(w[FrameLength(w)..])))
  }

  // ----- laws of the wire format

  lemma HeaderFields(d: Data, x: seq<byte>)
    requires 0 < d.streamId < 0x8000_0000 && d.length < 0x100_0000
    ensures var w := HeaderWire(d) + x;
            && Load32(w) == d.streamId && w[0] < 0x80 && w[4] == d.flags
            && FrameLength(w) == HEADER + d.length && w[HEADER..] == x
            && Load32(w[4..]) % 0x100_0000 == d.length
  {
    hide Store32, Store24, Load32, Load24;
    var a, c := Store32(d.streamId), Store24(d.length);
    var w := HeaderWire(d) + x;
    assert w == a + ([d.flags] + c + x) && w[5..] == c + x && w[5..8] == c;
    assert w[4..][1..] == w[5..];
    LoadsFront(a, [d.flags] + c + x);
    LoadsFront(c, x);
    LoadStore(d.streamId);
    LoadStore(d.length);
    Load32Split(w[4..]);
    Load32Split(w);
  }

  lemma FirstMessage(d: Data, x: seq<byte>)
    requires Whole(d)
    ensures Messages(Wire(d) + x) == [d] + Messages(x)
    ensures DataStream(Wire(d) + x) <==> DataStream(x)
  {
    hide Load32, Load24, HeaderWire;
    var p := d.payload.bytes;
    assert Wire(d) + x == HeaderWire(d) + (p + x);
    HeaderFields(d, p + x);
    var w, n := Wire(d) + x, HEADER + d.length;
    assert w[n..] == x && w[HEADER..n] == p;
  }

  lemma {:induction false} FirstMessages(ds: seq<Data>, x: seq<byte>)
    requires forall d :: d in ds ==> Whole(d)
    ensures Messages(WireAll(ds) + x) == ds + Messages(x)
    ensures DataStream(WireAll(ds) + x) <==> DataStream(x)
  {
    hide Wire, Whole, Messages, DataStream;
    if ds == [] {
      assert WireAll(ds) + x == x && ds + Messages(x) == Messages(x);
    } else {
      assert WireAll(ds) + x == Wire(ds[0]) + (WireAll(ds[1..]) + x);
      FirstMessage(ds[0], WireAll(ds[1..]) + x);
      FirstMessages(ds[1..], x);
      assert [ds[0]] + (ds[1..] + Messages(x)) == ds + Messages(x);
    }
  }

  lemma {:induction false} WireAppend(ds: seq<Data>, d: Data)
    requires Whole(d) && forall e :: e in ds ==> Whole(e)
    ensures WireAll(ds + [d]) == WireAll(ds) + Wire(d)
  {
    if ds != [] {
      assert (ds + [d])[1..] == ds[1..] + [d];
      WireAppend(ds[1..], d);
    }
  }

  // ----- one step of the parser loses no byte

  // A header that was read and used up, as the bytes it came from.
  function Held(f: Frame): seq<byte> {
    if f.headerParsed && f.data.streamId != 0 then HeaderWire(f.data) else []
  }

  // A frame under way is a data frame, and once its header is held it waits for some payload.
  predicate MidStream(f: Frame) {
    f.headerParsed ==>
      f.kind == DataKind && (f.data.streamId != 0 ==> f.data.streamId < 0x8000_0000 && 0 < f.data.length < 0x100_0000)
  }

  // The header read from the front of a data stream is the bytes it was read from.
  lemma HeaderRead(d: Data, w: seq<byte>)
    requires d.streamId == 0 && |w| >= HEADER && w[0] < 0x80
    ensures var h := DataHeader(d, w).frame;
            && h.streamId == Load32(w) && h.length + HEADER == FrameLength(w) && h.payload == NoPayload
            && h.length < 0x100_0000 && HeaderWire(h) == w[..HEADER]
  {
    StoreLoad(w[..4]);
    StoreLoad(w[5..8]);
    assert Load32(w) == Load32(w[..4]);
    Undigits(w[0], w[1], w[2], w[3]);
    Load32Split(w[4..]);
    assert Load24(w[4..][1..]) == Load24(w[5..8]);
    assert w[..HEADER] == w[..4] + [w[4]] + w[5..8];
  }

  // What one parser step keeps.
  predicate Conserves(f: Frame, w: seq<byte>, r: Step<Frame>) {
    && r.used <= |w|
    && (r.rc == Ok || r.rc == Insuff)
    && (r.rc == Ok ==> r.frame.kind == DataKind && Whole(r.frame.data) && Held(f) + w[..r.used] == Wire(r.frame.data))
    && (r.rc == Insuff ==>
          MidStream(r.frame) && Held(f) + w[..r.used] == Held(r.frame) && Messages(Held(r.frame) + w[r.used..]) == [])
  }

  lemma StepInHeader(env: Env, f: Frame, w: seq<byte>)
    requires MidStream(f) && Held(f) == [] && w != [] && w[0] < 0x80
    requires |w| >= HEADER ==> StreamIdOf(w) != 0
    ensures Conserves(f, w, ParseFrame(env, f, w))
  {
    hide Load32, Load24, HeaderWire, Wire, Whole;
    var r := ParseFrame(env, f, w);
    var d := f.data.(streamId := 0);
    assert w[0..] == w && [] + w == w;
    assert r.used <= |w| ==> Held(f) + w[..r.used] == w[..r.used];
    if |w| >= HEADER {
      HeaderRead(d, w);
      var h, rest := DataHeader(d, w).frame, w[HEADER..];
      AfterHeader(h, rest);
      if r.rc == Ok {
        assert w[..r.used] == w[..HEADER] + rest[..h.length];
      }
    }
  }

  lemma StepInPayload(env: Env, f: Frame, w: seq<byte>)
    requires MidStream(f) && Held(f) != []
    ensures Conserves(f, w, ParseFrame(env, f, w))
  {
    hide Load32, Load24, HeaderWire, Messages, Wire, Whole;
    AfterHeader(f.data, w);
    assert w[0..] == w && w[..0] == [];
  }

  /** Mid-stream, on any bytes of a data stream: either a frame is completed or its part so far is kept. */
  lemma StepConserves(env: Env, f: Frame, w: seq<byte>, x: seq<byte>)
    requires MidStream(f) && w != [] && DataStream(Held(f) + w + x)
    ensures Conserves(f, w, ParseFrame(env, f, w))
  {
    hide Load24, HeaderWire, Messages, Conserves, ParseFrame;
    if Held(f) == [] {
      assert Held(f) + w + x == w + x;
      StepInHeader(env, f, w);
    } else {
      StepInPayload(env, f, w);
    }
  }

  // With the header held, the payload is all there or the stream has no further message.
  lemma AfterHeader(d: Data, w: seq<byte>)
    requires 0 < d.streamId < 0x8000_0000 && d.length < 0x100_0000
    ensures |w| < d.length ==> Messages(HeaderWire(d) + w) == []
    ensures d.length <= |w| ==> Whole(d.(payload := Payload(w[..d.length])))
    ensures d.length <= |w| ==> Wire(d.(payload := Payload(w[..d.length]))) == HeaderWire(d) + w[..d.length]
  {
    hide Load32, Load24;
    HeaderFields(d, w);
  }

  // ----- one call

  function Concat(chunks: seq<seq<byte>>): seq<byte> {
    if chunks == [] then [] else chunks[0] + Concat(chunks[1..])
  }

  lemma {:induction false} ConcatAppend(chunks: seq<seq<byte>>, c: seq<byte>)
    ensures Concat(chunks + [c]) == Concat(chunks) + c
  {
    if chunks != [] {
      assert (chunks + [c])[1..] == chunks[1..] + [c];
      ConcatAppend(chunks[1..], c);
    }
  }

  /** The bytes fed that no delivered message accounts for. */
  function Rest(s: Recv): seq<byte> {
    Held(s.frame) + s.unread + Concat(s.queue)
  }

  // A completed frame and what is left account for the bytes there were.
  lemma Completed(s: Recv, r: Step<Frame>)
    requires Conserves(s.frame, s.unread, r) && r.rc == Ok
    ensures var next := Recv(Reset(r.frame), s.unread[r.used..], s.queue);
            MidStream(next.frame) && Wire(r.frame.data) + Rest(next) == Rest(s)
  {
    hide HeaderWire, Wire, Whole, Messages;
    var left, x := s.unread[r.used..], Concat(s.queue);
    assert s.unread == s.unread[..r.used] + left;
    assert Held(s.frame) + s.unread + x == Held(s.frame) + s.unread[..r.used] + (left + x);
    assert [] + left + x == left + x;
  }

  // A frame interrupted keeps them all, with the next chunk merged or not.
  lemma Interrupted(s: Recv, r: Step<Frame>)
    requires Conserves(s.frame, s.unread, r) && r.rc == Insuff
    ensures var left := s.unread[r.used..];
            && MidStream(r.frame)
            && Rest(Recv(r.frame, left, s.queue)) == Rest(s)
            && (s.queue == [] ==> Messages(Rest(s)) == [])
            && (s.queue != [] ==> Rest(Recv(r.frame, left + s.queue[0], s.queue[1..])) == Rest(s))
  {
    hide HeaderWire, Wire, Whole, Messages, MidStream, Held;
    var left, x := s.unread[r.used..], Concat(s.queue);
    assert s.unread == s.unread[..r.used] + left;
    assert Held(s.frame) + s.unread + x == Held(s.frame) + s.unread[..r.used] + (left + x);
    assert Held(r.frame) + left + x == Held(r.frame) + (left + x);
    if s.queue == [] {
      assert Rest(s) == Held(r.frame) + left;
    } else {
      assert left + s.queue[0] + Concat(s.queue[1..]) == left + x;
    }
  }

  /**
   One call on a data stream: it delivers a frame and accounts for exactly its
   bytes, or it delivers nothing, keeps every byte, and there was nothing to deliver.
   */
  lemma {:induction false} DemuxConserves(env: Env, s: Recv)
    requires MidStream(s.frame) && DataStream(Rest(s))
    ensures var a := Demux(env, s);
            && a.rc == Ok && MidStream(a.next.frame) && |a.got| <= 1
            && (a.got == [] ==> Rest(a.next) == Rest(s) && Messages(Rest(s)) == [])
            && (a.got != [] ==>
                  && a.got[0].kind == DataKind && Whole(a.got[0].data)
                  && Wire(a.got[0].data) + Rest(a.next) == Rest(s))
    decreases |s.queue|
  {
    hide ParseFrame, Wire, Whole, Messages, DataStream, MidStream, Held, Rest;
    if s.unread == [] && s.queue == [] {
      assert Rest(s) == Held(s.frame) by { RestOf(s); }
      NothingHeld(s.frame);
    } else if s.unread == [] {
      var next := s.(unread := s.queue[0], queue := s.queue[1..]);
      assert Rest(next) == Rest(s) by { RestOf(s); RestOf(next); }
      DemuxConserves(env, next);
    } else {
      RestOf(s);
      StepConserves(env, s.frame, s.unread, Concat(s.queue));
      var r := ParseFrame(env, s.frame, s.unread);
      if r.rc == Ok {
        Completed(s, r);
      } else {
        Interrupted(s, r);
        if s.queue != [] {
          DemuxConserves(env, Recv(r.frame, s.unread[r.used..] + s.queue[0], s.queue[1..]));
        }
      }
    }
  }

  lemma RestOf(s: Recv)
    ensures Rest(s) == Held(s.frame) + s.unread + Concat(s.queue)
    ensures s.unread == [] && s.queue == [] ==> Rest(s) == Held(s.frame)
    ensures s.unread == [] && s.queue != [] ==> Rest(s) == Held(s.frame) + s.queue[0] + Concat(s.queue[1..])
  {
  }

  lemma NothingHeld(f: Frame)
    requires MidStream(f)
    ensures Messages(Held(f)) == []
  {
    if Held(f) != [] {
      AfterHeader(f.data, []);
      assert HeaderWire(f.data) + [] == HeaderWire(f.data);
    }
  }

  // ----- every run

  datatype Event = Incoming(chunk: seq<byte>) | DemuxCall(env: Env)

  // `idle`: the last event was a call that found no message.
  datatype Log = Log(state: Recv, got: seq<Frame>, fed: seq<byte>, rc: Code, idle: bool)

  // One more event.
  function WithChunk(l: Log, c: seq<byte>): Log {
    l.(state := l.state.(queue := l.state.queue + [c]), fed := l.fed + c, idle := false)
  }

  function WithCall(l: Log, env: Env): Log {
    var a := Demux(env, l.state);
    Log(a.next, l.got + a.got, l.fed, a.rc, a.got == [])
  }

  /** Any interleaving of feeding chunks and asking for messages. */
  function Run(es: seq<Event>): Log {
    if es == [] then Log(START, [], [], Ok, true)
    else
      var l := Run(es[..|es|-1]);
      match es[|es|-1]
      case Incoming(c) => WithChunk(l, c)
      case DemuxCall(env) => WithCall(l, env)
  }

  function Payloads(fs: seq<Frame>): (ds: seq<Data>)
    ensures |ds| == |fs|
  {
    seq(|fs|, i requires 0 <= i < |fs| => fs[i].data)
  }

  lemma {:induction false} DataStreamPrefix(w: seq<byte>, x: seq<byte>)
    requires DataStream(w + x)
    ensures DataStream(w)
    decreases |w|
  {
    if w != [] {
      assert (w + x)[0] == w[0];
      if |w| >= HEADER {
        assert Load32(w + x) == Load32(w) && FrameLength(w + x) == FrameLength(w);
        if |w| >= FrameLength(w) {
          assert (w + x)[FrameLength(w)..] == w[FrameLength(w)..] + x;
          DataStreamPrefix(w[FrameLength(w)..], x);
        }
      }
    }
  }

  // What holds after every event of a run.
  predicate Accounted(l: Log) {
    && l.rc == Ok && MidStream(l.state.frame)
    && (forall f :: f in l.got ==> f.kind == DataKind)
    && (forall d :: d in Payloads(l.got) ==> Whole(d))
    && WireAll(Payloads(l.got)) + Rest(l.state) == l.fed
    && (l.idle ==> Messages(Rest(l.state)) == [])
  }

  lemma ChunkAccounts(l: Log, c: seq<byte>)
    requires Accounted(l)
    ensures Accounted(WithChunk(l, c))
  {
    hide Wire, WireAll, Whole, MidStream, Messages, Held;
    ConcatAppend(l.state.queue, c);
    assert Rest(WithChunk(l, c).state) == Rest(l.state) + c;
    assert WireAll(Payloads(l.got)) + (Rest(l.state) + c) == WireAll(Payloads(l.got)) + Rest(l.state) + c;
  }

  lemma CallAccounts(l: Log, env: Env)
    requires Accounted(l) && DataStream(l.fed)
    ensures Accounted(WithCall(l, env))
  {
    hide Demux, Wire, WireAll, Whole, DataStream, MidStream, Messages, Rest;
    FirstMessages(Payloads(l.got), Rest(l.state));
    DemuxConserves(env, l.state);
    var a := Demux(env, l.state);
    if a.got == [] {
      assert l.got + a.got == l.got;
    } else {
      Delivered(l, a);
    }
  }

  lemma {:induction false} RunAccounts(es: seq<Event>)
    requires DataStream(Run(es).fed)
    ensures Accounted(Run(es))
  {
    hide Demux, DataStream, Accounted;
    if es == [] {
      assert Accounted(Run([])) by { Blank(); }
    } else {
      var l := Run(es[..|es|-1]);
      match es[|es|-1]
      case Incoming(c) =>
        DataStreamPrefix(l.fed, c);
        RunAccounts(es[..|es|-1]);
        ChunkAccounts(l, c);
      case DemuxCall(env) =>
        RunAccounts(es[..|es|-1]);
        CallAccounts(l, env);
    }
  }

  lemma Blank()
    ensures MidStream(BLANK_FRAME) && Messages([]) == [] && Accounted(Run([]))
  {
    assert WireAll(Payloads([])) == [] && Rest(START) == [];
  }

  lemma Delivered(l: Log, a: Answer)
    requires Accounted(l) && |a.got| <= 1 && a.got != []
    requires a.got[0].kind == DataKind && Whole(a.got[0].data) && Wire(a.got[0].data) + Rest(a.next) == Rest(l.state)
    ensures var got := l.got + a.got;
            && (forall f :: f in got ==> f.kind == DataKind)
            && (forall d :: d in Payloads(got) ==> Whole(d))
            && WireAll(Payloads(got)) + Rest(a.next) == l.fed
  {
    hide Wire, Whole, Rest, Messages, MidStream;
    assert Payloads(l.got + a.got) == Payloads(l.got) + [a.got[0].data];
    WireAppend(Payloads(l.got), a.got[0].data);
  }

  /**
   Reassembly.  However a data stream is cut into chunks and however feeding and
   asking interleave, the messages delivered are the first of those that one
   reading of all the bytes finds; and when a call finds none, they are all of them.
   */
  lemma Reassembly(es: seq<Event>)
    requires DataStream(Run(es).fed)
    ensures var l := Run(es);
            && l.rc == Ok
            && Payloads(l.got) <= Messages(l.fed)
            && (l.idle ==> Payloads(l.got) == Messages(l.fed))
            && WireAll(Payloads(l.got)) + Rest(l.state) == l.fed
  {
    hide Messages, Whole, WireAll, Rest;
    RunAccounts(es);
    var l := Run(es);
    FirstMessages(Payloads(l.got), Rest(l.state));
  }

  /** The same, seen from the sender: what was sent as frames arrives as those frames. */
  lemma SentIsDelivered(ds: seq<Data>, es: seq<Event>)
    requires (forall d :: d in ds ==> Whole(d)) && Run(es).fed == WireAll(ds) && Run(es).idle
    ensures Run(es).rc == Ok && Payloads(Run(es).got) == ds
  {
    hide Whole;
    assert WireAll(ds) + [] == WireAll(ds);
    FirstMessages(ds, []);
    Blank();
    Reassembly(es);
  }

  // ----- asking often enough

  // `n` further calls after the events `es`.
  function Asking(es: seq<Event>, env: Env, n: nat): seq<Event> {
    if n == 0 then es else Asking(es, env, n - 1) + [DemuxCall(env)]
  }

  lemma {:induction false} AskingDelivers(es: seq<Event>, env: Env, n: nat)
    requires DataStream(Run(es).fed)
    ensures var l := Run(Asking(es, env, n));
            && l.fed == Run(es).fed
            && (|l.got| >= |Run(es).got| + n || Payloads(l.got) == Messages(l.fed))
  {
    hide Messages, DataStream, Demux;
    if n > 0 {
      var front := Asking(es, env, n - 1);
      var all := front + [DemuxCall(env)];
      AskingDelivers(es, env, n - 1);
      assert all[..|all|-1] == front;
      Reassembly(front);
      Reassembly(all);
    }
  }

  /** No message is held back: as many calls as there are messages deliver every one of them. */
  lemma EverythingIsDelivered(es: seq<Event>, env: Env)
    requires DataStream(Run(es).fed)
    ensures var l := Run(Asking(es, env, |Messages(Run(es).fed)|));
            Payloads(l.got) == Messages(Run(es).fed)
  {
    hide Messages, DataStream, Run;
    var n := |Messages(Run(es).fed)|;
    AskingDelivers(es, env, n);
    Reassembly(Asking(es, env, n));
  }
}
