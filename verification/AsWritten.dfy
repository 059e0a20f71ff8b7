/**
 spindly_phys_demux exactly as it stands, on values, and exactly when it does
 what it is meant to do.
 */
module AsWritten {
  import opened Bytes
  import opened Status
  import opened FrameFormat
  import opened Reassembly

  /**
   A queued chunk.  `mine`: the library copied the bytes and has to free them.
   `copied`: the flag that is to say so, which spindly_phys_incoming never
   assigns, so that it holds whatever the allocated memory held.
   */
  datatype Chunk = Chunk(bytes: seq<byte>, mine: bool, copied: bool)

  function Texts(q: seq<Chunk>): (cs: seq<seq<byte>>)
    ensures |cs| == |q|
  {
    seq(|q|, i requires 0 <= i < |q| => q[i].bytes)
  }

  /**
   The first queued chunk stays queued while the window reads it.  The last
   components are not in the program: `nodes` counts list nodes, and `leaked`
   copied chunks, that were dropped without being freed, `stale` says that
   `frame` still describes a message already delivered, `eaten` that the first
   chunk was used up in the middle of a frame and is still queued.
   */
  datatype Conn =
    Conn(frame: Frame, unread: seq<byte>, queue: seq<Chunk>, nodes: nat, leaked: nat, stale: bool, eaten: bool)

  // Fault: the program dereferences a null or never-assigned pointer, or frees a buffer that is the application's.
  datatype Shown = Delivered(frame: Frame) | Nothing | Failed(rc: Code) | Fault

  // remove_inqnode frees the bytes if the flag is set, and the node never.
  predicate FreesForeign(c: Chunk) { c.copied && !c.mine }

  predicate Leaks(c: Chunk) { c.mine && !c.copied }

  function Dropped(s: Conn): Conn
    requires s.queue != []
  {
    s.(queue := s.queue[1..], nodes := s.nodes + 1, leaked := s.leaked + if Leaks(s.queue[0]) then 1 else 0)
  }

  function DemuxAsWritten(env: Env, s: Conn): (Shown, Conn) {
    if s.queue == [] then (Fault, s)  // in->data with no chunk queued
    else
      var w := if s.unread == [] then s.queue[0].bytes else s.unread;
      if w == [] && !s.frame.headerParsed then (Fault, s)  // cursor[0] of an empty chunk
      else
        var r := ParseFrame(env, s.frame, w);
        if r.rc == Ok then
          // the frame is not re-initialised
          var next := s.(frame := r.frame, unread := Tail(w, r.used), stale := true, eaten := false);
          if r.used != |w| then (Delivered(r.frame), next)
          else if FreesForeign(s.queue[0]) then (Fault, s)
          else (Delivered(r.frame), Dropped(next))
        else if r.rc == Insuff then
          if |s.queue| > 1 then (Fault, s)  // parse_append writes through phys->parse, which is never assigned
          else (Nothing, s.(frame := r.frame, unread := Tail(w, r.used), eaten := Tail(w, r.used) == []))
        else (Failed(r.rc), s.(frame := r.frame, unread := Tail(w, r.used), eaten := false))
  }

  // The state that should have been reached: a finished frame forgotten, a used-up chunk gone.
  function Meant(s: Conn): Recv {
    var q := Texts(s.queue);
    Recv(if s.stale then Reset(s.frame) else s.frame,
         s.unread,
         if q != [] && (s.unread != [] || s.eaten) then q[1..] else q)
  }

  /** The call answers, and leaves the connection, as the corrected one does, and frees each copied chunk it drops. */
  predicate Agrees(env: Env, s: Conn) {
    var (shown, next) := DemuxAsWritten(env, s);
    && next.leaked == s.leaked
    && match shown
       case Fault => false
       case Delivered(f) => Demux(env, Meant(s)) == Answer(Ok, [f], Meant(next))
       case Nothing => Demux(env, Meant(s)) == Answer(Ok, [], Meant(next))
       case Failed(rc) => Demux(env, Meant(s)) == Answer(rc, [], Meant(next))
  }

  // What every state of the program on a data stream of non-empty chunks looks like.
  predicate Shaped(s: Conn) {
    && (forall c :: c in s.queue ==> c.bytes != [])
    && (s.unread != [] ==> s.queue != [])
    && (s.eaten ==> !s.stale && s.unread == [] && s.queue != [] && Held(s.frame) != [])
    && (s.stale ==> s.frame.headerParsed && s.frame.kind == DataKind && Whole(s.frame.data))
    && (!s.stale ==> MidStream(s.frame))
  }

  // As long as it has done what was meant, what is left starts at a frame boundary.
  predicate Reachable(s: Conn) {
    Shaped(s) && DataStream(Rest(Meant(s)))
  }

  function Window(s: Conn): seq<byte> {
    if s.unread != [] || s.queue == [] then s.unread else s.queue[0].bytes
  }

  // The frame at hand ends just where the chunk does, which is then done with.
  predicate EndsChunk(s: Conn) {
    var w := Held(s.frame) + Window(s);
    |w| >= HEADER && |w| == FrameLength(w)
  }

  /**
   What can be seen before the call: first message, an unread chunk, no merge
   called for, and a chunk that is done with has its flag right.
   */
  predicate NothingInTheWay(s: Conn) {
    && s.queue != [] && !s.stale && !s.eaten
    && (Messages(Held(s.frame) + Window(s)) != [] || |s.queue| == 1)
    && (EndsChunk(s) ==> s.queue[0].copied == s.queue[0].mine)
  }

  // A chunk taken up does not change the bytes still to be accounted for.
  lemma TakeUp(env: Env, s: Conn)
    requires s.queue != [] && s.unread == [] && !s.eaten
    ensures var q := Texts(s.queue);
            && Demux(env, Meant(s)) == Demux(env, Recv(Meant(s).frame, q[0], q[1..]))
            && Rest(Meant(s)) == Held(Meant(s).frame) + q[0] + Concat(q[1..])
  {
    hide ParseFrame, Held;
  }

  lemma TextsTail(q: seq<Chunk>)
    requires q != []
    ensures Texts(q)[1..] == Texts(q[1..]) && Texts(q)[0] == q[0].bytes
  {
  }

  lemma FirstParse(env: Env, s: Conn)
    requires Reachable(s) && s.queue != [] && !s.stale && !s.eaten
    ensures var w := Window(s);
            && w != [] && Conserves(s.frame, w, ParseFrame(env, s.frame, w))
            && (ParseFrame(env, s.frame, w).rc == Ok <==> Messages(Held(s.frame) + w) != [])
            && (ParseFrame(env, s.frame, w).rc == Ok && ParseFrame(env, s.frame, w).used == |w| <==> EndsChunk(s))
  {
    hide ParseFrame, HeaderWire, Wire, Whole, Messages, DataStream, Demux, Held, MidStream, FrameLength;
    var w, x := Window(s), Concat(Texts(s.queue)[1..]);
    assert s.queue[0] in s.queue;
    assert Rest(Meant(s)) == Held(s.frame) + w + x;
    StepConserves(env, s.frame, w, x);
    var r := ParseFrame(env, s.frame, w);
    var all := Held(s.frame) + w;
    assert all == Held(s.frame) + w[..r.used] + w[r.used..];
    if r.rc == Ok {
      FirstMessage(r.frame.data, w[r.used..]);
      WireLength(r.frame.data, w[r.used..]);
    } else {
      NoMessage(all);
    }
  }

  lemma WireLength(d: Data, x: seq<byte>)
    requires Whole(d)
    ensures |Wire(d)| >= HEADER && FrameLength(Wire(d) + x) == |Wire(d)|
  {
    hide HeaderWire, LengthOf;
    var p := d.payload.bytes;
    assert Wire(d) + x == HeaderWire(d) + (p + x);
    HeaderFields(d, p + x);
  }

  lemma NoMessage(w: seq<byte>)
    requires Messages(w) == []
    ensures |w| >= HEADER ==> |w| < FrameLength(w)
  {
  }

  // Where no leftover is in the way, the calls agree unless a merge is called for or a flag is wrong.
  lemma FreshCall(env: Env, s: Conn)
    requires Reachable(s) && s.queue != [] && !s.stale && !s.eaten
    ensures Agrees(env, s) <==> NothingInTheWay(s)
  {
    hide ParseFrame, HeaderWire, Wire, Whole, Messages, DataStream, MidStream, Held, EndsChunk, Texts;
    FirstParse(env, s);
    TextsTail(s.queue);
    if s.unread == [] {
      TakeUp(env, s);
    }
    assert |s.queue| == 1 ==> Texts(s.queue)[1..] == [];
  }

  // With a held or leftover header, the next bytes are taken for payload.
  lemma HeaderSkipped(env: Env, f: Frame, w: seq<byte>)
    requires f.headerParsed && f.kind == DataKind && f.data.streamId != 0
    ensures var r, n := ParseFrame(env, f, w), f.data.length;
            if n <= |w| then r.rc == Ok && r.used == n && r.frame == f.(data := f.data.(payload := Payload(w[..n])))
            else r.rc == Insuff && r.used == 0 && r.frame == f
  {
    assert w[0..] == w;
  }

  // A delivery that agreed would have to account for bytes that are not there.
  lemma LengthsClash(env: Env, s: Conn, next: Conn)
    requires Reachable(s) && (s.stale || s.eaten) && s.queue != []
    requires DemuxAsWritten(env, s) == (Delivered(next.frame), next)
    ensures !Agrees(env, s)
  {
    hide HeaderWire, Messages, DataStream, Demux, ParseFrame, Texts, Rest;
    var w := if s.unread == [] then s.queue[0].bytes else s.unread;
    assert s.queue[0] in s.queue;
    HeaderSkipped(env, s.frame, w);
    DemuxConserves(env, Meant(s));
    var n := |Concat(Texts(s.queue[1..]))|;
    LeftoverLength(s);
    assert |Rest(Meant(next))| == |w| - s.frame.data.length + n by { NextLength(env, s, w, next); }
  }

  // The bytes still to be accounted for, with a leftover frame or a chunk used up in mid-frame.
  lemma LeftoverLength(s: Conn)
    requires s.queue != [] && s.stale != s.eaten && (s.eaten ==> Held(s.frame) != [] && s.unread == [])
    ensures |Rest(Meant(s))| == |Concat(Texts(s.queue[1..]))|
         + if s.eaten then HEADER else if s.unread == [] then |s.queue[0].bytes| else |s.unread|
  {
    hide HeaderWire, Texts;
    TextsTail(s.queue);
  }

  lemma NextLength(env: Env, s: Conn, w: seq<byte>, next: Conn)
    requires s.queue != [] && w != [] && w == if s.unread == [] then s.queue[0].bytes else s.unread
    requires s.frame.headerParsed && s.frame.kind == DataKind && s.frame.data.streamId != 0
    requires DemuxAsWritten(env, s) == (Delivered(next.frame), next)
    ensures |Rest(Meant(next))| == |w| - s.frame.data.length + |Concat(Texts(s.queue[1..]))|
  {
    hide HeaderWire, ParseFrame, Texts;
    HeaderSkipped(env, s.frame, w);
    TextsTail(s.queue);
  }

  lemma LeftoverCall(env: Env, s: Conn)
    requires Reachable(s) && (s.stale || s.eaten) && s.queue != []
    ensures !Agrees(env, s)
  {
    hide HeaderWire, Messages, DataStream, ParseFrame, Wire, Texts;
    assert s.queue[0] in s.queue;
    TextsTail(s.queue);
    var w := if s.unread == [] then s.queue[0].bytes else s.unread;
    HeaderSkipped(env, s.frame, w);
    var (shown, next) := DemuxAsWritten(env, s);
    if shown.Delivered? {
      LengthsClash(env, s, next);
    } else if s.stale && |s.queue| == 1 {
      // the corrected call has begun a frame; the program still holds the old one
      assert !Meant(next).frame.headerParsed;
      var m := Recv(Reset(s.frame), w, []);
      assert Texts(s.queue)[1..] == [];
      assert Demux(env, Meant(s)) == Demux(env, m);
      assert Demux(env, m).got == [] ==> Demux(env, m).next.frame.headerParsed;
    }
  }

  /** One call, exactly. */
  lemma CallIff(env: Env, s: Conn)
    requires Reachable(s)
    ensures Agrees(env, s) <==> NothingInTheWay(s)
  {
    hide Agrees, Reachable, Messages, Held, Window, EndsChunk;
    if s.queue == [] {
      assert !Agrees(env, s) by { Starved(env, s); }
    } else if s.stale || s.eaten {
      LeftoverCall(env, s);
    } else {
      FreshCall(env, s);
    }
  }

  lemma Starved(env: Env, s: Conn)
    requires s.queue == []
    ensures !Agrees(env, s)
  {
  }

  // ----- every run

  const FRESH := Conn(BLANK_FRAME, [], [], 0, 0, false, false)

  datatype Call = Feed(chunk: Chunk) | Ask(env: Env)

  function StateAfter(es: seq<Call>): Conn {
    if es == [] then FRESH
    else
      var s := StateAfter(es[..|es|-1]);
      match es[|es|-1]
      case Feed(c) => s.(queue := s.queue + [c])
      case Ask(env) => DemuxAsWritten(env, s).1
  }

  /** The same calls, made on the corrected receiver. */
  function Corrected(es: seq<Call>): (cs: seq<Event>)
    ensures |cs| == |es|
  {
    seq(|es|, i requires 0 <= i < |es| => match es[i] case Feed(c) => Incoming(c.bytes) case Ask(env) => DemuxCall(env))
  }

  lemma CorrectedFront(es: seq<Call>)
    requires es != []
    ensures Corrected(es)[..|es|-1] == Corrected(es[..|es|-1])
  {
  }

  predicate AllAgree(es: seq<Call>) {
    es == [] ||
    (AllAgree(es[..|es|-1]) && (es[|es|-1].Ask? ==> Agrees(es[|es|-1].env, StateAfter(es[..|es|-1]))))
  }

  predicate AllClear(es: seq<Call>) {
    es == [] ||
    (AllClear(es[..|es|-1]) && (es[|es|-1].Ask? ==> NothingInTheWay(StateAfter(es[..|es|-1]))))
  }

  predicate FullChunks(es: seq<Call>) {
    forall e :: e in es && e.Feed? ==> e.chunk.bytes != []
  }

  lemma CallKeepsShape(env: Env, s: Conn)
    requires Reachable(s) && NothingInTheWay(s)
    ensures Shaped(DemuxAsWritten(env, s).1)
  {
    hide ParseFrame, HeaderWire, Wire, Whole, Messages, DataStream, MidStream, Held, Rest, EndsChunk, Texts;
    FirstParse(env, s);
    var w, next := Window(s), DemuxAsWritten(env, s).1;
    var r := ParseFrame(env, s.frame, w);
    assert forall c :: c in s.queue[1..] ==> c in s.queue;
    if r.rc == Insuff && next.unread == [] {
      assert |Held(r.frame)| == |Held(s.frame)| + |w[..r.used]| > 0;
    }
  }

  lemma StillAligned(l: Log)
    requires Accounted(l) && DataStream(l.fed)
    ensures DataStream(Rest(l.state))
  {
    FirstMessages(Payloads(l.got), Rest(l.state));
  }

  lemma ChunkKeepsShape(s: Conn, c: Chunk)
    requires Shaped(s) && c.bytes != []
    ensures var next := s.(queue := s.queue + [c]);
            Shaped(next) && Meant(next) == Meant(s).(queue := Meant(s).queue + [c.bytes])
  {
    var q := Texts(s.queue);
    assert Texts(s.queue + [c]) == q + [c.bytes];
    if q != [] {
      assert (q + [c.bytes])[1..] == q[1..] + [c.bytes];
    }
  }

  // As long as every call agreed, the program is where the corrected one is.
  lemma {:induction false} AgreeingState(es: seq<Call>)
    requires FullChunks(es) && DataStream(Run(Corrected(es)).fed) && AllAgree(es)
    ensures Meant(StateAfter(es)) == Run(Corrected(es)).state && Reachable(StateAfter(es))
  {
    hide DataStream, Held, Whole, Rest, MidStream, ParseFrame, Corrected, Agrees, NothingInTheWay, Shaped, Meant;
    RunAccounts(Corrected(es));
    StillAligned(Run(Corrected(es)));
    if es == [] {
      FreshState();
    } else {
      var front, e := es[..|es|-1], es[|es|-1];
      var s := StateAfter(front);
      CorrectedFront(es);
      LastEvent(es);
      match e
      case Feed(c) =>
        DataStreamPrefix(Run(Corrected(front)).fed, c.bytes);
        AgreeingState(front);
        assert e in es;
        ChunkKeepsShape(s, c);
      case Ask(env) =>
        AgreeingState(front);
        CallIff(env, s);
        CallKeepsShape(env, s);
        AgreedState(env, s);
    }
  }

  lemma FreshState()
    ensures Meant(FRESH) == START && Shaped(FRESH)
  {
  }

  lemma LastEvent(es: seq<Call>)
    requires es != []
    ensures Corrected(es)[|es|-1] ==
            match es[|es|-1] case Feed(c) => Incoming(c.bytes) case Ask(env) => DemuxCall(env)
  {
  }

  lemma AgreedState(env: Env, s: Conn)
    requires Agrees(env, s)
    ensures Meant(DemuxAsWritten(env, s).1) == Demux(env, Meant(s)).next
  {
    hide DemuxAsWritten, Demux;
  }

  /**
   The program as it stands does what is meant throughout a run exactly when
   every call finds a chunk queued, no message delivered before, no chunk used
   up in mid-frame, either a whole frame at hand or nothing to merge with, and,
   where that frame ends the chunk, a flag that happens to be right.
   */
  lemma {:induction false} AsWrittenIff(es: seq<Call>)
    requires FullChunks(es) && DataStream(Run(Corrected(es)).fed)
    ensures AllAgree(es) <==> AllClear(es)
  {
    hide DataStream, Agrees, NothingInTheWay, Demux, Reachable, Corrected;
    if es != [] {
      var front, e := es[..|es|-1], es[|es|-1];
      CorrectedFront(es);
      LastEvent(es);
      if e.Feed? {
        DataStreamPrefix(Run(Corrected(front)).fed, e.chunk.bytes);
      }
      AsWrittenIff(front);
      if AllAgree(front) {
        AgreeingState(front);
        if e.Ask? {
          CallIff(e.env, StateAfter(front));
        }
      }
    }
  }

  // ----- the list nodes

  /** A call that does what is meant loses a list node exactly when it is done with a chunk. */
  lemma NodeLostIff(env: Env, s: Conn)
    requires Reachable(s) && NothingInTheWay(s)
    ensures DemuxAsWritten(env, s).1.nodes == s.nodes + if EndsChunk(s) then 1 else 0
  {
    hide ParseFrame, HeaderWire, Wire, Whole, Messages, DataStream, MidStream, Held, EndsChunk, Conserves;
    FirstParse(env, s);
  }

  function Feeds(es: seq<Call>): nat {
    if es == [] then 0 else Feeds(es[..|es|-1]) + if es[|es|-1].Feed? then 1 else 0
  }

  /** In every run, whatever it does: each chunk that was fed is still queued, or its node is lost. */
  lemma {:induction false} EveryNodeIsLost(es: seq<Call>)
    ensures var s := StateAfter(es); s.nodes + |s.queue| == Feeds(es)
  {
    hide ParseFrame;
    if es != [] {
      EveryNodeIsLost(es[..|es|-1]);
    }
  }

  // ----- inputs on which the program goes wrong

  const ONE := Data(1, 0, 0, Payload([]))
  const THREE := Data(3, 0, 0, Payload([]))
  const BYTES1: seq<byte> := [0, 0, 0, 1, 0, 0, 0, 0]
  const BYTES3: seq<byte> := [0, 0, 0, 3, 0, 0, 0, 0]

  lemma ExampleMessages()
    ensures Messages(BYTES1 + BYTES3) == [ONE, THREE] && DataStream(BYTES1 + BYTES3)
    ensures Messages(BYTES3) == [THREE] && DataStream(BYTES3)
  {
    assert (BYTES1 + BYTES3)[8..] == BYTES3 && BYTES3[8..] == [];
    assert BYTES3[5..8] == [0, 0, 0] && (BYTES1 + BYTES3)[5..8] == [0, 0, 0];
    assert FrameLength(BYTES3) == 8 && FrameLength(BYTES1 + BYTES3) == 8;
    assert (BYTES1 + BYTES3)[8..8] == [] && BYTES3[8..8] == [];
    assert Messages(BYTES3) == [THREE] + Messages([]);
  }

  // A header not yet read, and no payload: the whole first frame in one step.
  lemma FirstOfTwo(env: Env)
    ensures var r := ParseFrame(env, BLANK_FRAME, BYTES1 + BYTES3);
            && r.rc == Ok && r.used == 8 && r.frame.data == ONE
            && r.frame.headerParsed && r.frame.kind == DataKind
  {
    var w := BYTES1 + BYTES3;
    assert w[4..][..4] == [0, 0, 0, 0] && w[8..][..0] == [];
    assert w[8..] == BYTES3;
  }

  /** Two whole frames in one chunk: the second call delivers the first frame again. */
  lemma SecondMessageLost(env: Env, c: Chunk)
    requires c.bytes == BYTES1 + BYTES3
    ensures Messages(BYTES1 + BYTES3) == [ONE, THREE]
    ensures var (a, s1) := DemuxAsWritten(env, FRESH.(queue := [c]));
            var (b, s2) := DemuxAsWritten(env, s1);
            a.Delivered? && a.frame.data == ONE && b.Delivered? && b.frame.data == ONE
  {
    hide ParseFrame;
    ExampleMessages();
    FirstOfTwo(env);
    assert (BYTES1 + BYTES3)[8..] == BYTES3;
    HeaderSkipped(env, ParseFrame(env, BLANK_FRAME, BYTES1 + BYTES3).frame, BYTES3);
    assert BYTES3[..0] == [];
  }

  /** One frame in two chunks: the merge writes through a pointer that was never assigned. */
  lemma SplitFrameFaults(env: Env, a: Chunk, b: Chunk)
    requires a.bytes == BYTES1[..5] && b.bytes == BYTES1[5..]
    ensures DemuxAsWritten(env, FRESH.(queue := [a, b])).0 == Fault
  {
  }

  /**
   One whole frame in one chunk, as simple an input as there is: whether it is
   delivered, at the cost of the list node alone or of the copied bytes too, or a
   buffer of the application is freed, depends on a bit nobody assigned.
   */
  lemma FlagDecides(env: Env, c: Chunk)
    requires c.bytes == BYTES3
    ensures var s := FRESH.(queue := [c]);
            var (shown, next) := DemuxAsWritten(env, s);
            && Reachable(s) && EndsChunk(s)
            && (shown == Fault <==> c.copied && !c.mine)
            && (shown != Fault ==>
                  shown.Delivered? && shown.frame.data == THREE && next.queue == [] && next.nodes == 1)
            && (next.leaked == 1 <==> c.mine && !c.copied)
            && (Agrees(env, s) <==> c.copied == c.mine)
  {
    hide ParseFrame, Agrees, Reachable, Held, Messages, FrameLength;
    var s := FRESH.(queue := [c]);
    OneChunk(c);
    OnlyFrame(env);
    assert Held(BLANK_FRAME) + Window(s) == BYTES3 by { BlankHolds(BYTES3); }
    CallIff(env, s);
  }

  lemma OneChunk(c: Chunk)
    requires c.bytes == BYTES3
    ensures Reachable(FRESH.(queue := [c]))
  {
    hide DataStream, Shaped, Meant, Held, Messages;
    ExampleMessages();
    FreshState();
    ChunkKeepsShape(FRESH, c);
    var s := FRESH.(queue := [c]);
    assert s.queue == FRESH.queue + [c];
    assert [] + [BYTES3] == [BYTES3];
    assert Meant(s) == Recv(BLANK_FRAME, [], [BYTES3]);
    assert Concat([BYTES3]) == BYTES3 + Concat([]) == BYTES3;
    BlankHolds(BYTES3);
  }

  lemma BlankHolds(w: seq<byte>)
    ensures Held(BLANK_FRAME) + w == w == Held(BLANK_FRAME) + [] + w
  {
  }

  lemma OnlyFrame(env: Env)
    ensures var r := ParseFrame(env, BLANK_FRAME, BYTES3);
            r.rc == Ok && r.used == 8 && r.frame.data == THREE
    ensures FrameLength(BYTES3) == 8
  {
    assert BYTES3[4..][..4] == [0, 0, 0, 0] && BYTES3[8..][..0] == [] && BYTES3[5..8] == [0, 0, 0];
  }
}
