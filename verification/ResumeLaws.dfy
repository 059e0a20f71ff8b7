/**
 Frames that arrive in pieces.  A caller keeps the bytes a parser did not use,
 adds the next piece and calls again; the answer does not depend on the pieces.
 */
module ResumeLaws {
  import opened Bytes
  import opened Status
  import opened FrameFormat

  function Shift<F>(n: nat, r: Step<F>): Step<F> { r.(used := n + r.used) }

  lemma HeaderOfPrefix(w: seq<byte>, c: nat)
    requires HEADER <= c <= |w|
    ensures StreamIdOf(w[..c]) == StreamIdOf(w) && LengthOf(w[..c]) == LengthOf(w)
    ensures Load16(w[..c]) == Load16(w) && Load16(w[..c][2..]) == Load16(w[2..])
    ensures w[..c][4] == w[4]
  {
    assert w[..c][4..][..4] == w[4..][..4];
  }

  // ----- data frames

  // Whether resuming is meant to work: the id that marks the header as read is not 0.
  predicate NonZeroId(f: Data, w: seq<byte>) {
    f.streamId != 0 || |w| < HEADER || StreamIdOf(w) != 0
  }

  /** What a caller sees who stops at `c` and goes on with all of `w`. */
  function ResumeDataAt(f: Data, w: seq<byte>, c: nat): Step<Data>
    requires c <= |w|
  {
    var r := ParseData(f, w[..c]);
    if r.rc == Insuff then Shift(r.used, ParseData(r.frame, w[r.used..])) else r
  }

  lemma DataHeaderCut(f: Data, w: seq<byte>, c: nat)
    requires c <= |w|
    ensures DataHeader(f, w[..c]) ==
            if f.streamId == 0 && c < HEADER then Step(Insuff, f, 0, HEADER - c) else DataHeader(f, w)
  {
    if c >= HEADER {
      HeaderOfPrefix(w, c);
    }
  }

  lemma ResumeData(f: Data, w: seq<byte>, c: nat)
    requires c <= |w| && NonZeroId(f, w)
    ensures ResumeDataAt(f, w, c) == ParseData(f, w)
    ensures NonZeroId(ParseData(f, w[..c]).frame, w[ParseData(f, w[..c]).used..])
  {
    hide Load32;
    DataHeaderCut(f, w, c);
    assert w[0..] == w;
    var h := DataHeader(f, w[..c]);
    if h.rc == Ok {
      assert w[..c][h.used..] == w[h.used..][..c - h.used];
      var n := h.frame.length;
      if n <= c - h.used {
        assert w[..c][h.used..][..n] == w[h.used..][..n];
      }
    }
  }

  /**
   Exactly when a complete data frame may be interrupted at `c`: before its
   header, after its end, or anywhere if its stream id is not 0.
   */
  lemma ResumeDataIff(f: Data, w: seq<byte>, c: nat)
    requires f.streamId == 0 && ParseData(f, w).rc == Ok && c <= |w|
    ensures ResumeDataAt(f, w, c) == ParseData(f, w)
       <==> c < HEADER || c >= ParseData(f, w).used || StreamIdOf(w) != 0
  {
    if StreamIdOf(w) != 0 {
      ResumeData(f, w, c);
    } else {
      hide Load32;
      DataHeaderCut(f, w, c);
      assert w[0..] == w;
      if c >= HEADER {
        assert w[..c][HEADER..] == w[HEADER..][..c - HEADER];
        var n := LengthOf(w);
        if n <= c - HEADER {
          assert w[..c][HEADER..][..n] == w[HEADER..][..n];
        }
      }
    }
  }

  // ----- control frames

  lemma ControlHeaderCut(f: Control, w: seq<byte>, c: nat)
    requires c <= |w|
    ensures ControlHeader(f, w[..c]) ==
            if !f.headerParsed && c < HEADER then Step(Insuff, f, 0, HEADER - c) else ControlHeader(f, w)
  {
    if c >= HEADER {
      HeaderOfPrefix(w, c);
    }
  }

  /**
   The guards of the control parser up to the point where a payload parser
   inflates the name/value block.  By then it has moved past the fixed part.
   */
  predicate Inflates(env: Env, f: Control, w: seq<byte>) {
    var h := ControlHeader(f, w);
    h.rc == Ok &&
    var rest := w[h.used..];
    |rest| >= h.frame.length &&
    if h.frame.kind == SYN_STREAM then |rest| >= 12 && ReadSynFields(rest).id !in env.taken + {0}
    else h.frame.kind == SYN_REPLY && |rest| >= 8
  }

  // The bytes handed to the inflater start after the fixed part, and are as many as the whole frame declares.
  function HandedEnd(f: Control): nat {
    HEADER + (if f.kind == SYN_STREAM then 10 else 6) + f.length
  }

  /** They lie in the window exactly when as many bytes as the fixed part has follow the frame. */
  lemma HandedInWindowIff(env: Env, f: Control, w: seq<byte>, x: seq<byte>)
    requires !f.headerParsed && |w| >= HEADER && |w| == HEADER + LengthOf(w) && Inflates(env, f, w + x)
    ensures var g := ControlHeader(f, w + x).frame;
            HandedEnd(g) <= |w + x| <==> |x| >= if g.kind == SYN_STREAM then 10 else 6
  {
    hide Load32, Load16, Inflates;
    assert (w + x)[..|w|] == w;
    HeaderOfPrefix(w + x, |w|);
  }

  // A block that is itself too short is reported just as a window that is too short.
  predicate Mistaken(env: Env, f: Control, w: seq<byte>) {
    Inflates(env, f, w) && InflateParse(env, ControlHeader(f, w).frame.length) == Insuff
  }

  // Short of that, a payload parser that wants more has used nothing; any other answer stands when more bytes follow.
  lemma PayloadCut(env: Env, f: Control, w: seq<byte>, c: nat)
    requires c <= |w| && f.headerParsed && f.length <= c && !Mistaken(env, f, w[..c])
    ensures var r := ParsePayload(env, f, w[..c]);
            if r.rc == Insuff then r.used == 0 && r.frame == f else ParsePayload(env, f, w) == r
  {
    assert w[..c][0..] == w[..c];
    if c >= 10 {
      SynFieldsOfPrefix(w, c);
    }
  }

  lemma SynFieldsOfPrefix(w: seq<byte>, c: nat)
    requires 10 <= c <= |w|
    ensures ReadSynFields(w[..c]) == ReadSynFields(w) && ReadReplyFields(w[..c]) == ReadReplyFields(w)
  {
    assert w[..c][4..][..4] == w[4..][..4];
  }

  /** What a caller sees who stops at `c` and goes on with all of `w`. */
  function ResumeControlAt(env: Env, f: Control, w: seq<byte>, c: nat): Step<Control>
    requires c <= |w|
  {
    var r := ParseControl(env, f, w[..c]);
    if r.rc == Insuff && r.used <= |w| then Shift(r.used, ParseControl(env, r.frame, w[r.used..])) else r
  }

  lemma ResumeControl(env: Env, f: Control, w: seq<byte>, c: nat)
    requires c <= |w| && !Mistaken(env, f, w[..c])
    ensures ResumeControlAt(env, f, w, c) == ParseControl(env, f, w)
    ensures var r := ParseControl(env, f, w[..c]);
            r.rc == Insuff ==> r.used <= c && (Mistaken(env, f, w) <==> Mistaken(env, r.frame, w[r.used..]))
  {
    hide Load32, Load16, ParsePayload, ReadSynFields;
    ControlHeaderCut(f, w, c);
    assert w[0..] == w;
    var h := ControlHeader(f, w[..c]);
    if h.rc == Ok {
      var rest := w[h.used..];
      assert w[..c][h.used..] == rest[..c - h.used];
      assert rest[0..] == rest && rest[..c - h.used][0..] == rest[..c - h.used];
      if h.frame.length <= c - h.used {
        PayloadCut(env, h.frame, rest, c - h.used);
      }
    }
  }

  // More bytes change nothing about an answer given after inflating.
  lemma MistakenLonger(env: Env, f: Control, w: seq<byte>, c: nat)
    requires c <= |w| && Mistaken(env, f, w[..c])
    ensures Mistaken(env, f, w) && ParseControl(env, f, w) == ParseControl(env, f, w[..c])
    ensures var r := ParseControl(env, f, w);
            && r.rc == Insuff && r.needed == 0 && r.used <= c
            && r.frame.headerParsed && r.frame.kind in {SYN_STREAM, SYN_REPLY}
  {
    hide Load32, Load16, ReadSynFields, ReadReplyFields;
    ControlHeaderCut(f, w, c);
    var h := ControlHeader(f, w);
    var rest := w[h.used..];
    assert w[..c][h.used..] == rest[..c - h.used];
    if c - h.used >= 10 {
      SynFieldsOfPrefix(rest, c - h.used);
    } else {
      assert rest[..c - h.used][..4] == rest[..4];
      ReplyFieldsOfPrefix(rest, c - h.used);
    }
  }

  lemma ReplyFieldsOfPrefix(w: seq<byte>, c: nat)
    requires 6 <= c <= |w|
    ensures ReadReplyFields(w[..c]) == ReadReplyFields(w)
  {
  }

  // The next call takes the block for a frame that starts there: it asks for more, or moves on again.
  lemma AfterMistake(env: Env, f: Control, w: seq<byte>)
    requires f.headerParsed && f.kind in {SYN_STREAM, SYN_REPLY}
    ensures var r := ParseControl(env, f, w);
            (r.rc != Insuff || r.needed > 0 || r.used > 0) && r.frame.headerParsed && r.frame.kind == f.kind
  {
    hide Load32;
  }

  /**
   Exactly when a control frame may be interrupted at `c`: when its block
   inflates to whole pairs, or when the first call does not get to inflating it.
   */
  lemma ResumeControlIff(env: Env, f: Control, w: seq<byte>, c: nat)
    requires c <= |w|
    ensures ResumeControlAt(env, f, w, c) == ParseControl(env, f, w)
       <==> !Inflates(env, f, w[..c]) || InflateParse(env, ControlHeader(f, w[..c]).frame.length) != Insuff
  {
    hide ParseControl, Inflates, ControlHeader;
    if Mistaken(env, f, w[..c]) {
      MistakenLonger(env, f, w, c);
      var r := ParseControl(env, f, w);
      AfterMistake(env, r.frame, w[r.used..]);
    } else {
      ResumeControl(env, f, w, c);
    }
  }

  // Declares no byte, and has the eight that the parser insists on.
  const BARE_REPLY: seq<byte> := [0x80, 2, 0, 2, 0, 0, 0, 0, 0, 0, 0, 1, 0, 0, 0, 0]

  /**
   A SYN_REPLY with more than all its declared bytes, and nothing to inflate:
   whatever zlib does, the answer is to send more, and nothing sent helps.
   */
  lemma CutBlockAsksForMore(env: Env, f: Control, x: seq<byte>)
    requires !f.headerParsed
    ensures HEADER + LengthOf(BARE_REPLY) <= |BARE_REPLY|
    ensures var r := ParseControl(env, f, BARE_REPLY); r.rc == Insuff && r.used == 14 && r.needed == 0
    ensures ResumeControlAt(env, f, BARE_REPLY + x, |BARE_REPLY|) != ParseControl(env, f, BARE_REPLY + x)
  {
    assert BARE_REPLY[4..][..4] == [0, 0, 0, 0] && BARE_REPLY[2..][..2] == [0, 2] && BARE_REPLY[5..8] == [0, 0, 0];
    assert (BARE_REPLY + x)[..|BARE_REPLY|] == BARE_REPLY;
    assert Inflates(env, f, BARE_REPLY);
    ResumeControlIff(env, f, BARE_REPLY + x, |BARE_REPLY|);
  }

  // ----- either kind

  // The frame as the parser takes it up: what kind it is shows in its first byte.
  function Begun(f: Frame, w: seq<byte>): Frame
    requires !f.headerParsed ==> |w| > 0
  {
    if f.headerParsed then f else Dispatch(f, w[0])
  }

  predicate NonZero(f: Frame, w: seq<byte>)
    requires !f.headerParsed ==> |w| > 0
  {
    Begun(f, w).kind == DataKind ==> NonZeroId(Begun(f, w).data, w)
  }

  predicate Mistakes(env: Env, f: Frame, w: seq<byte>)
    requires !f.headerParsed ==> |w| > 0
  {
    Begun(f, w).kind == ControlKind && Mistaken(env, Begun(f, w).control, w)
  }

  /** One interruption of a frame of either kind. */
  lemma Resume(env: Env, f: Frame, w: seq<byte>, c: nat)
    requires c <= |w| && (!f.headerParsed ==> c > 0) && NonZero(f, w) && !Mistakes(env, f, w[..c])
    ensures var r := ParseFrame(env, f, w[..c]);
            && (r.rc == Insuff ==>
                  && r.used <= c && NonZero(r.frame, w[r.used..])
                  && (Mistakes(env, f, w) <==> Mistakes(env, r.frame, w[r.used..]))
                  && ParseFrame(env, f, w) == Shift(r.used, ParseFrame(env, r.frame, w[r.used..])))
            && (r.rc != Insuff ==> ParseFrame(env, f, w) == r)
  {
    hide ParseControl, ParseData, NonZeroId, Mistaken;
    var g := Begun(f, w);
    assert g == Begun(f, w[..c]);
    if g.kind == DataKind {
      ResumeData(g.data, w, c);
    } else {
      ResumeControl(env, g.control, w, c);
    }
  }

  lemma MistakesLonger(env: Env, f: Frame, w: seq<byte>, c: nat)
    requires c <= |w| && (!f.headerParsed ==> c > 0) && Mistakes(env, f, w[..c])
    ensures Mistakes(env, f, w) && ParseFrame(env, f, w) == ParseFrame(env, f, w[..c])
    ensures var r := ParseFrame(env, f, w); r.rc == Insuff && r.needed == 0 && r.used <= c && InBlock(r.frame)
  {
    hide ParseControl, Mistaken;
    MistakenLonger(env, Begun(f, w).control, w, c);
  }

  // Where a mistaken call leaves a frame.
  predicate InBlock(f: Frame) {
    f.headerParsed && f.kind == ControlKind && f.control.headerParsed && f.control.kind in {SYN_STREAM, SYN_REPLY}
  }

  /**
   A caller's loop over the pieces of `w` that end at `cuts`: after each piece
   the parser gets everything it has not used.  The last result is returned.
   */
  function InPieces(env: Env, f: Frame, w: seq<byte>, at: nat, cuts: seq<nat>): Step<Frame>
    requires cuts != [] && Rising(cuts, |w|) && at <= cuts[0] && (!f.headerParsed ==> at < cuts[0])
    decreases |cuts|
  {
    var r := ParseFrame(env, f, w[at..cuts[0]]);
    if r.rc != Insuff || |cuts| == 1 || at + r.used > cuts[0] then Shift(at, r)
    else InPieces(env, r.frame, w, at + r.used, cuts[1..])
  }

  lemma {:induction false} PiecesOfBlock(env: Env, f: Frame, w: seq<byte>, at: nat, cuts: seq<nat>)
    requires cuts != [] && Rising(cuts, |w|) && at <= cuts[0] && InBlock(f)
    ensures var q := InPieces(env, f, w, at, cuts); q.rc != Insuff || q.needed > 0 || q.used > at
    decreases |cuts|
  {
    hide ParseControl;
    AfterMistake(env, f.control, w[at..cuts[0]]);
    var r := ParseFrame(env, f, w[at..cuts[0]]);
    if r.rc == Insuff && |cuts| > 1 && at + r.used <= cuts[0] {
      PiecesOfBlock(env, r.frame, w, at + r.used, cuts[1..]);
    }
  }

  /**
   The pieces do not matter: the last call answers as one call on all the bytes
   up to its cut would have, unless an earlier piece already reached a name/value
   block that inflates to too little, and then it never does.
   */
  lemma {:induction false} PiecesDoNotMatter(env: Env, f: Frame, w: seq<byte>, at: nat, cuts: seq<nat>)
    requires cuts != [] && Rising(cuts, |w|) && at <= cuts[0] && (!f.headerParsed ==> at < cuts[0])
    requires NonZero(f, w[at..cuts[|cuts|-1]])
    ensures InPieces(env, f, w, at, cuts) == Shift(at, ParseFrame(env, f, w[at..cuts[|cuts|-1]]))
       <==> |cuts| == 1 || !Mistakes(env, f, w[at..cuts[|cuts|-2]])
    decreases |cuts|
  {
    hide ParseFrame, NonZero, Mistakes, Dispatch;
    if |cuts| > 1 {
      var t, u, c := w[at..cuts[|cuts|-1]], w[at..cuts[|cuts|-2]], cuts[0] - at;
      assert t[..c] == u[..c] == w[at..cuts[0]] && t[..|u|] == u && u[..|u|] == u;
      var r := ParseFrame(env, f, t[..c]);
      FirstPiece(env, f, t, |u|, c);
      if Mistakes(env, f, t[..c]) {
        PiecesOfBlock(env, r.frame, w, at + r.used, cuts[1..]);
      } else if r.rc == Insuff {
        assert t[r.used..] == w[at + r.used..cuts[|cuts|-1]] && u[r.used..] == w[at + r.used..cuts[|cuts|-2]];
        PiecesDoNotMatter(env, r.frame, w, at + r.used, cuts[1..]);
      }
    }
  }

  // After the first piece, of `c` bytes, with `t` and its first `n` bytes to come: mistaken, interrupted or done.
  lemma FirstPiece(env: Env, f: Frame, t: seq<byte>, n: nat, c: nat)
    requires c <= n <= |t| && (!f.headerParsed ==> c > 0) && NonZero(f, t)
    ensures var r, u := ParseFrame(env, f, t[..c]), t[..n];
            if Mistakes(env, f, t[..c]) then
              && Mistakes(env, f, u) && r.rc == Insuff && r.needed == 0 && r.used <= c && InBlock(r.frame)
              && ParseFrame(env, f, t) == r
            else if r.rc == Insuff then
              && r.used <= c && NonZero(r.frame, t[r.used..]) && r.frame.headerParsed
              && (Mistakes(env, f, u) <==> Mistakes(env, r.frame, u[r.used..]))
              && ParseFrame(env, f, t) == Shift(r.used, ParseFrame(env, r.frame, t[r.used..]))
            else ParseFrame(env, f, t) == r && !Mistakes(env, f, u)
  {
    hide ParseFrame, NonZero, Mistakes, Dispatch;
    var u := t[..n];
    assert u[..c] == t[..c] && u[..n] == u;
    if Mistakes(env, f, t[..c]) {
      MistakesLonger(env, f, t, c);
      MistakesLonger(env, f, u, c);
    } else {
      Resume(env, f, t, c);
      NonZeroPrefix(f, t, n);
      Resume(env, f, u, c);
      if ParseFrame(env, f, t[..c]).rc != Insuff && Mistakes(env, f, u) {
        MistakesLonger(env, f, u, n);
      }
    }
  }

  lemma NonZeroPrefix(f: Frame, w: seq<byte>, c: nat)
    requires c <= |w| && (!f.headerParsed ==> c > 0) && NonZero(f, w)
    ensures NonZero(f, w[..c])
  {
    hide Load32;
    if c >= HEADER {
      HeaderOfPrefix(w, c);
    }
  }

  // ----- how much is asked for, and what is not done before it is there

  /**
   The gate in front of a payload.  While the declared bytes are not all there
   the answer is "insufficient", the payload fields are untouched, and fewer
   bytes than asked for change neither the answer nor what was read; with the
   bytes asked for, the next stage is reached.
   */
  lemma Gate(env: Env, f: Frame, w: seq<byte>, x: seq<byte>)
    requires !f.headerParsed && |w| > 0 && NonZero(f, w + x)
    ensures var r, total := ParseFrame(env, f, w), if |w| < HEADER then HEADER else HEADER + LengthOf(w);
            |w| < total ==>
              && r.rc == Insuff && r.needed == total - |w|
              && r.used == (if |w| < HEADER then 0 else HEADER)
              && r.frame.control.body == f.control.body && r.frame.data.payload in {f.data.payload, NoPayload}
              && var q := ParseFrame(env, f, w + x);
                 && (|x| < r.needed ==>
                       q.rc == Insuff && q.used == r.used && q.frame == r.frame && q.needed == r.needed - |x|)
                 && (|x| >= r.needed ==> q.used >= HEADER)
  {
    hide Load32, Load16, ParsePayload;
    var all := w + x;
    assert all[..|w|] == w && all[0] == w[0];
    if |w| >= HEADER {
      HeaderOfPrefix(all, |w|);
    }
  }

  /** A caller that supplies, each time, just the bytes asked for; `given` counts the bytes supplied. */
  datatype Fed = Fed(calls: nat, last: Step<Data>, given: nat)

  function FeedNeeded(f: Data, w: seq<byte>, at: nat, given: nat): Fed
    requires at <= given <= |w|
    decreases |w| - given
  {
    var r := ParseData(f, w[at..given]);
    if r.rc == Ok || r.needed == 0 || given + r.needed > |w| then Fed(1, Shift(at, r), given)
    else
      var rest := FeedNeeded(r.frame, w, at + r.used, given + r.needed);
      rest.(calls := 1 + rest.calls)
  }

  // Once the header is known a single call is left, or two.
  lemma FeedPayload(f: Data, w: seq<byte>, at: nat, given: nat)
    requires f.streamId != 0 && at <= given <= at + f.length <= |w|
    ensures FeedNeeded(f, w, at, given) ==
            Fed(if given == at + f.length then 1 else 2,
                Step(Ok, f.(payload := Payload(w[at..at + f.length])), at + f.length, 0),
                at + f.length)
  {
    var end := at + f.length;
    var r := ParseData(f, w[at..given]);
    if given == end {
      assert w[at..given][0..][..f.length] == w[at..end];
    } else {
      var q := ParseData(f, w[at..end]);
      assert w[at..end][0..][..f.length] == w[at..end];
      assert FeedNeeded(f, w, at, end) == Fed(1, Shift(at, q), end);
    }
  }

  /**
   Such a caller gets the whole frame within three calls and has then supplied
   exactly the frame: no byte of what follows it was touched.
   */
  lemma ThreeCalls(f: Data, w: seq<byte>, given: nat)
    requires f.streamId == 0 && |w| >= HEADER && StreamIdOf(w) != 0
    requires given <= HEADER + LengthOf(w) <= |w|
    ensures var fed := FeedNeeded(f, w, 0, given);
            && fed.calls <= 3 && fed.last == ParseData(f, w)
            && fed.given == fed.last.used == HEADER + LengthOf(w)
  {
    hide Load32;
    var g := DataHeader(f, w).frame;
    var end := HEADER + g.length;
    assert w[HEADER..][..g.length] == w[HEADER..end];
    assert ParseData(f, w) == Step(Ok, g.(payload := Payload(w[HEADER..end])), end, 0);
    var first := if given < HEADER then HEADER else given;
    HeaderOfPrefix(w, first);
    assert w[0..given] == w[..given] && w[0..first] == w[..first];
    var r := ParseData(f, w[0..first]);
    assert w[0..first][HEADER..] == w[HEADER..first];
    if first < end {
      FeedPayload(g, w, HEADER, end);
      assert FeedNeeded(f, w, 0, first).calls == 2;
    } else {
      assert w[HEADER..first][..g.length] == w[HEADER..end];
    }
  }
}
