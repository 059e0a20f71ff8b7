/**
 Demultiplexing a stream in which data frames, SYN_STREAMs and SYN_REPLYs
 follow each other in any order: what is delivered does not depend on the chunks.
 */
module Interleaved {
  import opened Bytes
  import opened Status
  import opened FrameFormat
  import opened ResumeLaws
  import opened Reassembly

  // ----- what was sent, independent of any receiver

  datatype Message = OfData(data: Data) | OfControl(control: Control)

  function Seen(f: Frame): Message {
    if f.kind == DataKind then OfData(f.data) else OfControl(f.control)
  }

  function Max(m: nat, n: nat): nat { if m < n then n else m }

  // How many bytes there must be before a frame is delivered: the payload parsers insist on a few.
  function Wanted(w: seq<byte>): nat
    requires |w| >= HEADER
  {
    HEADER + if w[0] < 0x80 then LengthOf(w) else Max(LengthOf(w), if Load16(w[2..]) == SYN_STREAM then 12 else 8)
  }

  predicate There(w: seq<byte>) {
    |w| >= HEADER && |w| >= Wanted(w)
  }

  function Decoded(w: seq<byte>): Message
    requires There(w)
  {
    var n := LengthOf(w);
    if w[0] < 0x80 then OfData(Data(StreamIdOf(w), w[4], n, Payload(w[HEADER..HEADER + n])))
    else
      var kind := Load16(w[2..]);
      OfControl(Control(true, Load16(w) % 0x8000, kind, w[4], n,
                        if kind == SYN_STREAM then ReadSynFields(w[HEADER..]) else ReadReplyFields(w[HEADER..])))
  }

  /** The reference: every frame of the stream, from one reading of all of it. */
  function AllMessages(w: seq<byte>): seq<Message> {
    if !There(w) then [] else [Decoded(w)] + AllMessages(w[HEADER + LengthOf(w)..])
  }

  // A header of a stream that is not refused: ids are not 0, and a declared length covers the fixed part.
  predicate ProperHeader(w: seq<byte>)
    requires |w| >= HEADER
  {
    if w[0] < 0x80 then StreamIdOf(w) != 0
    else if Load16(w[2..]) == SYN_STREAM then LengthOf(w) >= 10 && (There(w) ==> ReadSynFields(w[HEADER..]).id != 0)
    else Load16(w[2..]) == SYN_REPLY && LengthOf(w) >= 6
  }

  /** Every frame of the stream is a data frame, a SYN_STREAM or a SYN_REPLY with such a header. */
  predicate Proper(w: seq<byte>) {
    |w| >= HEADER ==> ProperHeader(w) && (There(w) ==> Proper(w[HEADER + LengthOf(w)..]))
  }

  // A frame with all its declared bytes, at the end of what was fed.
  predicate WholeFrame(w: seq<byte>) {
    |w| >= HEADER && |w| == HEADER + LengthOf(w) && ProperHeader(w)
  }

  /**
   Such a frame waits for bytes of the next one exactly when it is a SYN_STREAM
   that declares fewer than 12 bytes, or a SYN_REPLY that declares fewer than 8.
   */
  lemma WholeFrameWaitsIff(w: seq<byte>)
    requires WholeFrame(w)
    ensures AllMessages(w) == [] <==> w[0] >= 0x80 && LengthOf(w) < if Load16(w[2..]) == SYN_STREAM then 12 else 8
  {
    hide LengthOf, Load16, Decoded;
  }

  /** As long as a frame is not there, its parser asks for what is missing: of the header, the frame, the minimum. */
  lemma NeededIsShortfall(env: Env, f: Frame, w: seq<byte>)
    requires !f.headerParsed && w != [] && !There(w)
    requires |w| >= HEADER && w[0] >= 0x80 ==> Load16(w[2..]) in {SYN_STREAM, SYN_REPLY}
    ensures var r := ParseFrame(env, f, w);
            && r.rc == Insuff
            && r.used == (if |w| < HEADER then 0 else HEADER)
            && |w| + r.needed == if |w| < HEADER then HEADER
                                 else if |w| < HEADER + LengthOf(w) then HEADER + LengthOf(w)
                                 else Wanted(w)
  {
    hide Load32, Load16, Load24;
  }

  // ----- one reading, by the parser, of all bytes still to come

  // Blocks inflate, and no id is taken.
  const PLAIN := Env({}, Ok, Abort, 0)

  predicate Covered(f: Frame) {
    f.kind == ControlKind ==>
      || (f.control.kind == SYN_STREAM && f.control.length >= 10 && f.control.body.Syn?)
      || (f.control.kind == SYN_REPLY && f.control.length >= 6 && f.control.body.Reply?)
  }

  predicate Delivers(f: Frame, w: seq<byte>, r: Step<Frame>) {
    r.rc == Ok && r.used <= |w| && (r.used > 0 || f.headerParsed)
  }

  function Reading(f: Frame, w: seq<byte>): seq<Message>
    decreases |w|, f.headerParsed
  {
    if w == [] then []
    else
      var r := ParseFrame(PLAIN, f, w);
      if Delivers(f, w, r) then [Seen(r.frame)] + Reading(Reset(r.frame), w[r.used..]) else []
  }

  predicate Readable(f: Frame, w: seq<byte>)
    decreases |w|, f.headerParsed
  {
    w != [] ==>
      var r := ParseFrame(PLAIN, f, w);
      && NonZero(f, w) && !Mistakes(PLAIN, f, w)
      && (r.rc == Insuff || (Delivers(f, w, r) && Covered(r.frame) && Readable(Reset(r.frame), w[r.used..])))
  }

  // A frame that is delivered lies within the bytes it was read from.
  lemma CoveredFits(f: Frame, w: seq<byte>)
    requires !f.headerParsed ==> w != []
    requires ParseFrame(PLAIN, f, w).rc == Ok && Covered(ParseFrame(PLAIN, f, w).frame)
    ensures ParseFrame(PLAIN, f, w).used <= |w|
  {
    hide Load32, Load16, ReadSynFields, ReadReplyFields;
  }

  // With `u` at hand and `x` to come, one parser step on `u` takes the reading forward.
  lemma StepReads(f: Frame, u: seq<byte>, x: seq<byte>)
    requires u != [] && Readable(f, u + x)
    ensures var r := ParseFrame(PLAIN, f, u);
            && (r.rc == Ok || r.rc == Insuff) && r.used <= |u| && !Mistakes(PLAIN, f, u)
            && (r.rc == Ok ==>
                  && Covered(r.frame) && Readable(Reset(r.frame), u[r.used..] + x)
                  && Reading(f, u + x) == [Seen(r.frame)] + Reading(Reset(r.frame), u[r.used..] + x))
            && (r.rc == Insuff ==>
                  && Readable(r.frame, u[r.used..] + x)
                  && Reading(f, u + x) == Reading(r.frame, u[r.used..] + x)
                  && Reading(r.frame, u[r.used..]) == [])
  {
    hide ParseFrame, NonZero, Covered, Dispatch, Mistakes;
    var w := u + x;
    assert w[..|u|] == u;
    if Mistakes(PLAIN, f, u) {
      MistakesLonger(PLAIN, f, w, |u|);
    }
    Resume(PLAIN, f, w, |u|);
    var r := ParseFrame(PLAIN, f, u);
    if r.rc == Ok {
      CoveredFits(f, u);
    }
    assert w[r.used..] == u[r.used..] + x;
    NonZeroPrefix(f, w, |u|);
    assert u[..|u|] == u;
    Resume(PLAIN, f, u, |u|);
  }

  // ----- one call

  predicate Suits(env: Env, ms: seq<Message>) {
    && env.inflate == Ok
    && forall m :: m in ms && m.OfControl? && m.control.body.Syn? ==> m.control.body.id !in env.taken
  }

  lemma SameInEveryEnv(env: Env, f: Frame, w: seq<byte>)
    requires (!f.headerParsed ==> w != []) && env.inflate == Ok
    requires var r := ParseFrame(PLAIN, f, w);
             || (r.rc == Insuff && !Mistakes(PLAIN, f, w))
             || (r.rc == Ok && Covered(r.frame) && Suits(env, [Seen(r.frame)]))
    ensures ParseFrame(env, f, w) == ParseFrame(PLAIN, f, w)
  {
    hide Load32, Load16, ReadReplyFields;
    var r := ParseFrame(PLAIN, f, w);
    assert Seen(r.frame) in [Seen(r.frame)];
  }

  function Pending(s: Recv): seq<byte> { s.unread + Concat(s.queue) }

  function SeenAll(fs: seq<Frame>): (ms: seq<Message>)
    ensures |ms| == |fs|
  {
    seq(|fs|, i requires 0 <= i < |fs| => Seen(fs[i]))
  }

  /** One call, with `y` not fed yet: it delivers the next message of the reading, or there is none in what it has. */
  lemma {:induction false} CallReads(env: Env, s: Recv, y: seq<byte>)
    requires Readable(s.frame, Pending(s) + y) && Suits(env, Reading(s.frame, Pending(s) + y))
    ensures var a := Demux(env, s);
            && a.rc == Ok && Readable(a.next.frame, Pending(a.next) + y)
            && Reading(s.frame, Pending(s) + y) == SeenAll(a.got) + Reading(a.next.frame, Pending(a.next) + y)
            && (a.got == [] ==> Reading(a.next.frame, Pending(a.next)) == [])
    decreases |s.queue|
  {
    hide ParseFrame, Reading, Readable, Covered, Mistakes;
    var ms := Reading(s.frame, Pending(s) + y);
    assert SeenAll([]) == [] && [] + ms == ms;
    if s.unread == [] && s.queue == [] {
      assert Reading(s.frame, Pending(s)) == [] by { assert Pending(s) == []; NothingToRead(s.frame); }
    } else if s.unread == [] {
      var next := s.(unread := s.queue[0], queue := s.queue[1..]);
      assert Pending(next) == Pending(s);
      CallReads(env, next, y);
    } else {
      var x := Concat(s.queue) + y;
      assert Pending(s) + y == s.unread + x;
      StepReads(s.frame, s.unread, x);
      var r := ParseFrame(PLAIN, s.frame, s.unread);
      SameInEveryEnv(env, s.frame, s.unread);
      var left := s.unread[r.used..];
      assert left + x == left + Concat(s.queue) + y;
      if r.rc == Ok {
        assert SeenAll([r.frame]) == [Seen(r.frame)];
      } else if s.queue == [] {
        assert left + Concat(s.queue) == left;
      } else {
        var next := Recv(r.frame, left + s.queue[0], s.queue[1..]);
        assert Pending(next) == left + Concat(s.queue);
        CallReads(env, next, y);
      }
    }
  }

  lemma NothingToRead(f: Frame)
    ensures Reading(f, []) == []
  {
  }

  // ----- every run

  /** Every call finds that blocks inflate and that the ids of requests still to come are not taken. */
  predicate AllSuit(es: seq<Event>, ms: seq<Message>) {
    es == [] ||
    var front := es[..|es|-1];
    && AllSuit(front, ms)
    && (es[|es|-1].DemuxCall? ==>
          |Run(front).got| <= |ms| && Suits(es[|es|-1].env, ms[|Run(front).got|..]))
  }

  lemma {:induction false} RunReads(es: seq<Event>, y: seq<byte>, ms: seq<Message>)
    requires Readable(BLANK_FRAME, Run(es).fed + y) && ms == Reading(BLANK_FRAME, Run(es).fed + y) && AllSuit(es, ms)
    ensures var l := Run(es);
            && l.rc == Ok && Readable(l.state.frame, Pending(l.state) + y)
            && SeenAll(l.got) + Reading(l.state.frame, Pending(l.state) + y) == ms
            && (l.idle ==> Reading(l.state.frame, Pending(l.state)) == [])
  {
    hide Demux, Readable, Reading, Suits;
    if es == [] {
      assert Pending(START) == [] && SeenAll([]) == [];
      NothingToRead(BLANK_FRAME);
    } else {
      var front := es[..|es|-1];
      var l := Run(front);
      match es[|es|-1]
      case Incoming(c) =>
        assert l.fed + c + y == l.fed + (c + y);
        RunReads(front, c + y, ms);
        ConcatAppend(l.state.queue, c);
        assert Pending(Run(es).state) + y == Pending(l.state) + (c + y);
      case DemuxCall(env) =>
        RunReads(front, y, ms);
        assert ms[|l.got|..] == Reading(l.state.frame, Pending(l.state) + y);
        CallReads(env, l.state, y);
        assert SeenAll(l.got + Demux(env, l.state).got) == SeenAll(l.got) + SeenAll(Demux(env, l.state).got);
    }
  }

  // ----- the parser's reading is the reference

  lemma AtBoundary(f: Frame, w: seq<byte>)
    requires !f.headerParsed && w != [] && Proper(w)
    ensures NonZero(f, w) && !Mistakes(PLAIN, f, w)
    ensures var r := ParseFrame(PLAIN, f, w);
            if There(w) then
              r.rc == Ok && r.used == HEADER + LengthOf(w) && Seen(r.frame) == Decoded(w) && Covered(r.frame)
            else r.rc == Insuff
  {
    hide Load32, Load16, Load24, ReadSynFields, ReadReplyFields;
    if There(w) {
      var n := LengthOf(w);
      if w[0] < 0x80 {
        assert w[HEADER..][..n] == w[HEADER..HEADER + n];
      } else {
        assert 10 <= n ==> Minus32(n, 10) == n - 10;
        assert Minus32(n, 6) == n - 6;
      }
    }
  }

  lemma {:induction false} ReadingIsReference(f: Frame, w: seq<byte>)
    requires !f.headerParsed && Proper(w)
    ensures Readable(f, w) && Reading(f, w) == AllMessages(w)
    decreases |w|
  {
    hide ParseFrame, NonZero, Mistakes, Covered, Decoded, ProperHeader;
    if w != [] {
      AtBoundary(f, w);
      if There(w) {
        ReadingIsReference(Reset(ParseFrame(PLAIN, f, w).frame), w[HEADER + LengthOf(w)..]);
      }
    }
  }

  function AsMessages(ds: seq<Data>): (ms: seq<Message>)
    ensures |ms| == |ds|
  {
    seq(|ds|, i requires 0 <= i < |ds| => OfData(ds[i]))
  }

  /** On a stream of data frames alone the reference is the one Reassembly uses. */
  lemma {:induction false} DataMessages(w: seq<byte>)
    requires DataStream(w)
    ensures Proper(w) && AllMessages(w) == AsMessages(Messages(w))
    decreases |w|
  {
    hide StreamIdOf, LengthOf;
    if There(w) {
      var d, x := Decoded(w).data, w[FrameLength(w)..];
      DataMessages(x);
      assert AsMessages([d] + Messages(x)) == [OfData(d)] + AsMessages(Messages(x));
    }
  }

  // ----- one call, whatever the stream holds

  /**
   A call answers as one parser call on everything fed and not used would: with a
   message, with the fault of the frame at hand, or with nothing yet.
   */
  lemma {:induction false} CallIsOneParse(env: Env, s: Recv)
    requires Pending(s) != [] && NonZero(s.frame, Pending(s)) && !Mistakes(env, s.frame, Pending(s))
    ensures var r, a := ParseFrame(env, s.frame, Pending(s)), Demux(env, s);
            && a.rc == (if r.rc == Insuff then Ok else r.rc)
            && a.got == (if r.rc == Ok then [r.frame] else [])
            && a.next.frame == (if r.rc == Ok then Reset(r.frame) else r.frame)
    decreases |s.queue|
  {
    hide ParseFrame, NonZero, Mistakes;
    var p := Pending(s);
    if s.unread == [] {
      var next := s.(unread := s.queue[0], queue := s.queue[1..]);
      assert Pending(next) == p;
      CallIsOneParse(env, next);
    } else {
      var n := |s.unread|;
      assert p[..n] == s.unread;
      if Mistakes(env, s.frame, p[..n]) {
        MistakesLonger(env, s.frame, p, n);
      }
      Resume(env, s.frame, p, n);
      var r := ParseFrame(env, s.frame, s.unread);
      if r.rc == Insuff && s.queue == [] {
        assert p == s.unread;
      } else if r.rc == Insuff {
        var next := Recv(r.frame, s.unread[r.used..] + s.queue[0], s.queue[1..]);
        assert Pending(next) == p[r.used..];
        if Pending(next) == [] {
          assert p == s.unread;
          NothingPending(env, next);
        } else {
          CallIsOneParse(env, next);
        }
      }
    }
  }

  /**
   After a message or a fault, the window is what the parser left of it: where the
   cursor went past the end, nothing, with the queue untouched.
   */
  lemma WindowAfter(env: Env, s: Recv)
    requires s.unread != [] && ParseFrame(env, s.frame, s.unread).rc != Insuff
    ensures var r, next := ParseFrame(env, s.frame, s.unread), Demux(env, s).next;
            && next.queue == s.queue
            && (r.used <= |s.unread| ==> s.unread == s.unread[..r.used] + next.unread)
            && (r.used > |s.unread| ==> next.unread == [])
  {
    hide ParseFrame;
  }

  lemma {:induction false} NothingPending(env: Env, s: Recv)
    requires Pending(s) == []
    ensures var a := Demux(env, s); a.rc == Ok && a.got == [] && a.next.frame == s.frame
    decreases |s.queue|
  {
    hide ParseFrame;
    if s.queue != [] {
      assert |s.unread| == 0 && |s.queue[0]| == 0;
      NothingPending(env, s.(unread := s.queue[0], queue := s.queue[1..]));
    }
  }

  /**
   However the stream is cut into chunks and however feeding and asking
   interleave, the messages delivered, of either kind, are the first of those
   that one reading of all the bytes finds; and when a call finds none, all of them.
   */
  lemma MixedReassembly(es: seq<Event>)
    requires Proper(Run(es).fed) && AllSuit(es, AllMessages(Run(es).fed))
    ensures var l := Run(es);
            && l.rc == Ok
            && SeenAll(l.got) <= AllMessages(l.fed)
            && (l.idle ==> SeenAll(l.got) == AllMessages(l.fed))
  {
    hide Proper, AllMessages, Readable, Reading, AllSuit, Run;
    var l := Run(es);
    ReadingIsReference(BLANK_FRAME, l.fed);
    assert l.fed + [] == l.fed && Pending(l.state) + [] == Pending(l.state);
    RunReads(es, [], AllMessages(l.fed));
  }

  lemma {:induction false} AskingAgain(es: seq<Event>, env: Env, n: nat)
    requires Proper(Run(es).fed) && AllSuit(Asking(es, env, n), AllMessages(Run(es).fed))
    ensures var l := Run(Asking(es, env, n));
            && l.fed == Run(es).fed
            && (|l.got| >= |Run(es).got| + n || SeenAll(l.got) == AllMessages(l.fed))
  {
    hide Proper, AllMessages, Demux, Suits;
    if n > 0 {
      var front := Asking(es, env, n - 1);
      var all := front + [DemuxCall(env)];
      assert all[..|all|-1] == front;
      AskingAgain(es, env, n - 1);
      MixedReassembly(front);
      MixedReassembly(all);
    }
  }

  /** No message is held back: as many further calls as there are messages deliver every one of them. */
  lemma AllAreDelivered(es: seq<Event>, env: Env)
    requires var ms := AllMessages(Run(es).fed);
             Proper(Run(es).fed) && AllSuit(Asking(es, env, |ms|), ms)
    ensures var ms := AllMessages(Run(es).fed);
            SeenAll(Run(Asking(es, env, |ms|)).got) == ms
  {
    hide Proper, AllMessages, Run, AllSuit;
    var n := |AllMessages(Run(es).fed)|;
    AskingAgain(es, env, n);
    MixedReassembly(Asking(es, env, n));
  }
}
