/** What the frame readers and header printers promise about each other, and about being called in pieces. */
module FrameLaws {
  import opened Bytes
  import opened Status
  import opened FrameFormat

  // ----- headers: printing, then reading

  // A 24-bit length printed as a 32-bit word under a flags byte.
  lemma LengthWord(length: uint32, flags: byte)
    ensures var s := Store32(length)[0 := flags];
            s[0] == flags && Load32(s) % 0x100_0000 == length % 0x100_0000
  {
    LoadStore(length);
    Load32Split(Store32(length));
    Load32Split(Store32(length)[0 := flags]);
    assert Store32(length)[0 := flags][1..] == Store32(length)[1..];
  }

  lemma MaskedIdBits(id: uint32)
    ensures MaskedId(id) % 0x8000_0000 == id % 0x1000_0000
    ensures MaskedId(id) == id <==> id / 0x1000_0000 % 8 == 0
  {
  }

  /**
   A printed data header reads back with its id modulo 2^28 and its length
   modulo 2^24: it survives exactly when neither exceeds that.
   */
  lemma DataHeaderPrinted(blank: Data, f: Data, rest: seq<byte>)
    requires blank.streamId == 0
    ensures var r := DataHeader(blank, PrintDataHeader(f) + rest);
            && r == Step(Ok, Data(f.streamId % 0x1000_0000, f.flags, f.length % 0x100_0000, NoPayload), HEADER, 0)
            && (r.frame == f.(payload := NoPayload) <==> f.streamId < 0x1000_0000 && f.length < 0x100_0000)
  {
    hide Store32, Load32, MaskedId;
    var id: nat := MaskedId(f.streamId);
    var a, b := Store32(id), Store32(f.length)[0 := f.flags];
    var w := PrintDataHeader(f) + rest;
    assert w == a + (b + rest) && w[4..] == b + rest;
    assert w[4] == b[0];
    assert Load32(w) == id by {
      LoadsFront(a, b + rest);
      LoadStore(id);
    }
    MaskedIdBits(f.streamId);
    LoadsFront(b, rest);
    LengthWord(f.length, f.flags);
  }

  lemma MaskedTwice(id: uint32)
    ensures MaskedId(id % 0x8000_0000) == id <==> id < 0x1000_0000
  {
    assert id % 0x8000_0000 % 0x1000_0000 == id % 0x1000_0000;
  }

  // The id word: masked by the reader, masked by the printer.
  lemma IdBytes(s: seq<byte>)
    requires |s| == 4
    ensures Store32(MaskedId(Load32(s) % 0x8000_0000)) == s <==> s[0] < 0x10
  {
    hide Load32, Store32, MaskedId, Load16, Load24, Store16, Store24;
    var id := Load32(s);
    Load32Split(s);
    StoreLoad(s);
    MaskedTwice(id);
    LoadStore(MaskedId(id % 0x8000_0000));
  }

  /** Printing a data header that was read gives its bytes again exactly when the four top bits were clear. */
  lemma DataHeaderReprinted(blank: Data, w: seq<byte>)
    requires blank.streamId == 0 && |w| >= HEADER
    ensures var f := DataHeader(blank, w).frame;
            PrintDataHeader(f) == w[..HEADER] <==> w[0] < 0x10
  {
    hide Store32, Load32, MaskedId;
    var f := DataHeader(blank, w).frame;
    var a, b := Store32(MaskedId(f.streamId)), Store32(f.length)[0 := f.flags];
    assert w == w[..4] + w[4..];
    LoadsFront(w[..4], w[4..]);
    IdBytes(w[..4]);
    LengthBytes(w[4..]);
    assert w[..HEADER] == w[..4] + w[4..][..4];
    assert (a + b)[..4] == a && w[..HEADER][..4] == w[..4];
  }

  lemma LengthBytes(s: seq<byte>)
    requires |s| >= 4
    ensures Store32(Load32(s) % 0x100_0000)[0 := s[0]] == s[..4]
  {
    Undigits(0, s[1], s[2], s[3]);
    Undigits(s[0], s[1], s[2], s[3]);
  }

  /** A printed control header reads back whole exactly when version has 15 bits and length 24. */
  lemma ControlHeaderPrinted(blank: Control, f: Control, rest: seq<byte>)
    requires !blank.headerParsed && f.headerParsed
    ensures var r := ControlHeader(blank, PrintControlHeader(f) + rest);
            && r == Step(Ok, Control(true, f.version % 0x8000, f.kind, f.flags, f.length % 0x100_0000, blank.body),
                         HEADER, 0)
            && (r.frame == f.(body := blank.body) <==> f.version < 0x8000 && f.length < 0x100_0000)
  {
    hide PrintControlHeader, Load16, Load32;
    ControlWords(f, rest);
  }

  lemma ControlWords(f: Control, rest: seq<byte>)
    ensures var w := PrintControlHeader(f) + rest;
            && Load16(w) == f.version % 0x8000 + 0x8000 && Load16(w[2..]) == f.kind
            && w[4] == f.flags && Load32(w[4..]) % 0x100_0000 == f.length % 0x100_0000
  {
    hide Store16, Store24, Load16, Load24, Load32;
    var v: nat := f.version % 0x8000 + 0x8000;
    var a, b, c := Store16(v), Store16(f.kind), Store24(f.length);
    var w := PrintControlHeader(f) + rest;
    assert w == a + (b + [f.flags] + c + rest) && w[2..] == b + ([f.flags] + c + rest) && w[5..] == c + rest;
    LoadStore(v);
    LoadStore(f.kind);
    LoadStore(f.length);
    LoadsFront(a, b + [f.flags] + c + rest);
    LoadsFront(b, [f.flags] + c + rest);
    LoadsFront(c, rest);
    Load32Split(w[4..]);
    assert w[4..][1..] == w[5..];
  }

  /** Printing a control header that was read gives its bytes again exactly when the type bit was set. */
  lemma ControlHeaderReprinted(blank: Control, w: seq<byte>)
    requires !blank.headerParsed && |w| >= HEADER
    ensures var f := ControlHeader(blank, w).frame;
            PrintControlHeader(f) == w[..HEADER] <==> w[0] >= 0x80
  {
    hide Load16, Store16, Load24, Store24;
    var f := ControlHeader(blank, w).frame;
    VersionBytes(w[..2]);
    StoreLoad(w[2..4]);
    StoreLoad(w[5..8]);
    var tail := w[2..];
    assert w == w[..2] + tail;
    assert w[2..4] == tail[..2] && w[4..] == tail[2..] && tail == tail[..2] + tail[2..];
    LoadsFront(w[..2], w[2..]);
    LoadsFront(w[2..4], w[4..]);
    assert f.length == LengthOf(w);
    var a := Store16(Load16(w[..2]) % 0x8000 + 0x8000);
    var p, q := PrintControlHeader(f), w[..HEADER];
    assert p == a + (w[2..4] + [w[4]] + w[5..8]);
    assert q == w[..2] + (w[2..4] + [w[4]] + w[5..8]);
    assert p[..2] == a && q[..2] == w[..2];
  }

  // The version word: the type bit is dropped by the reader, and set by the printer.
  lemma VersionBytes(s: seq<byte>)
    requires |s| == 2
    ensures Store16(Load16(s) % 0x8000 + 0x8000) == s <==> s[0] >= 0x80
  {
    var v: nat := Load16(s) % 0x8000 + 0x8000;
    assert v == Load16(s) <==> s[0] >= 0x80;
    StoreLoad(s);
    LoadStore(v);
  }

  lemma MaskedTop(id: uint32)
    ensures MaskedId(id) / 0x100_0000 % 0x100 >= 0x80 <==> id >= 0x8000_0000
  {
    assert id >= 0x8000_0000 ==> MaskedId(id) >= 0x8000_0000;
  }

  /** The first byte of a printed header sends it to the parser of its kind; for data, as long as the id has 31 bits. */
  lemma PrintedDispatch(frame: Frame, f: Control, d: Data)
    ensures Dispatch(frame, PrintControlHeader(f)[0]).kind == ControlKind
    ensures Dispatch(frame, PrintDataHeader(d)[0]).kind == DataKind <==> d.streamId < 0x8000_0000
  {
    hide MaskedId;
    var v: nat := f.version % 0x8000 + 0x8000;
    assert PrintControlHeader(f)[0] == v / 0x100 % 0x100;
    MaskedTop(d.streamId);
    assert PrintDataHeader(d)[0] == MaskedId(d.streamId) / 0x100_0000 % 0x100;
  }

  // ----- SYN_STREAM and SYN_REPLY, printed and then parsed

  lemma SynFieldsCarried(id: uint32, assoc: uint32, prio: nat, x: seq<byte>)
    ensures ReadSynFields(BodyFields(Syn(id, assoc, prio)) + x) == Syn(id % 0x8000_0000, assoc % 0x8000_0000, prio % 4)
  {
    hide Store32, Store16, Load32;
    var c := Store16(prio * 0x4000);
    var w := BodyFields(Syn(id, assoc, prio)) + x;
    assert w == Store32(id) + Store32(assoc) + (c + x);
    TwoWords(id, assoc, c + x);
    assert w[8] == c[0];
    PriorityBits(prio);
  }

  lemma TwoWords(a: uint32, b: uint32, x: seq<byte>)
    ensures var w := Store32(a) + Store32(b) + x; Load32(w) == a && Load32(w[4..]) == b
  {
    hide Store32, Load32, Load16, Load24;
    var w := Store32(a) + Store32(b) + x;
    assert w == Store32(a) + (Store32(b) + x) && w[4..] == Store32(b) + x;
    LoadsFront(Store32(a), Store32(b) + x);
    LoadsFront(Store32(b), x);
    LoadStore(a);
    LoadStore(b);
  }

  // Of a priority shifted into the top of 16 bits, two bits remain.
  lemma PriorityBits(prio: nat)
    ensures Store16(prio * 0x4000)[0] == prio % 4 * 0x40
  {
    assert prio * 0x4000 / 0x100 == prio * 0x40;
    var q, r := prio / 4, prio % 4;
    assert prio * 0x40 == q * 0x100 + r * 0x40;
  }

  lemma ReplyFieldsCarried(id: uint32, x: seq<byte>)
    ensures ReadReplyFields(BodyFields(Reply(id)) + x) == Reply(id % 0x8000_0000)
  {
    hide Store32, Load32;
    var a := Store32(id);
    assert BodyFields(Reply(id)) + x == a + (Store16(0) + x);
    LoadsFront(a, Store16(0) + x);
    LoadStore(id);
  }

  // The parser's state once the printed header is behind it.
  lemma PackedHeader(env: Env, blank: Control, f: Control, z: seq<byte>, rest: seq<byte>)
    requires !blank.headerParsed && f.headerParsed && f.version < 0x8000 && f.length < 0x100_0000
    ensures var w, g, t := Packed(f, z) + rest, f.(body := blank.body), BodyFields(f.body) + (z + rest);
            ParseControl(env, blank, w) ==
            if f.length > |t| then Step(Insuff, g, HEADER, f.length - |t|)
            else var r := ParsePayload(env, g, t); r.(used := HEADER + r.used)
  {
    hide PrintControlHeader, BodyFields, ParsePayload;
    var t := BodyFields(f.body) + (z + rest);
    assert Packed(f, z) + rest == PrintControlHeader(f) + t;
    ControlHeaderPrinted(blank, f, t);
  }

  /**
   A SYN_STREAM as packed reaches the peer with 31-bit ids and the priority
   modulo 4.  Its declared length makes the parser stop after the fixed part, at
   18 bytes: at the end of what was packed only if the deflated block is empty.
   */
  lemma SynStreamCarried(env: Env, blank: Control, id: uint32, assoc: uint32, prio: nat, z: seq<byte>, rest: seq<byte>)
    requires !blank.headerParsed && env.inflate == Ok && |z| + |rest| >= 2
    requires id % 0x8000_0000 != 0 && id % 0x8000_0000 !in env.taken
    ensures var f := MkSynStream(id, assoc, prio);
            && ParseControl(env, blank, Packed(f, z) + rest)
               == Step(Ok, f.(body := Syn(id % 0x8000_0000, assoc % 0x8000_0000, prio % 4)), 18, 0)
            && (18 == |Packed(f, z)| <==> z == [])
  {
    hide PrintControlHeader, BodyFields, ReadSynFields, Packed, ParseControl;
    var f := MkSynStream(id, assoc, prio);
    PackedHeader(env, blank, f, z, rest);
    SynFieldsCarried(id, assoc, prio, z + rest);
    PackedSizes(f, z);
  }

  lemma PackedSizes(f: Control, z: seq<byte>)
    ensures |Packed(f, z)| == HEADER + |BodyFields(f.body)| + |z|
    ensures f.body.Syn? ==> |BodyFields(f.body)| == 10
    ensures f.body.Reply? ==> |BodyFields(f.body)| == 6
  {
  }

  /** A SYN_REPLY likewise; here the parser stops where the packed frame ends only if the block has four bytes. */
  lemma SynReplyCarried(env: Env, blank: Control, id: uint32, z: seq<byte>, rest: seq<byte>)
    requires !blank.headerParsed && env.inflate == Ok && |z| + |rest| >= 4
    ensures var f := MkSynReply(id);
            && ParseControl(env, blank, Packed(f, z) + rest) == Step(Ok, f.(body := Reply(id % 0x8000_0000)), 18, 0)
            && (18 == |Packed(f, z)| <==> |z| == 4)
  {
    hide PrintControlHeader, BodyFields, ReadReplyFields, Packed, ParseControl;
    var f := MkSynReply(id);
    PackedHeader(env, blank, f, z, rest);
    ReplyFieldsCarried(id, z + rest);
    PackedSizes(f, z);
  }

  /** The frames this program makes, byte by byte. */
  lemma MadeBytes(id: uint32, assoc: uint32, prio: nat, z: seq<byte>)
    ensures Packed(MkSynStream(id, assoc, prio), z)
         == [0x80, 2, 0, 1, 0, 0, 0, 10] + Store32(id) + Store32(assoc) + [prio % 4 * 0x40, 0] + z
    ensures Packed(MkSynReply(id), z) == [0x80, 2, 0, 2, 0, 0, 0, 10] + Store32(id) + [0, 0] + z
  {
    hide Store32;
    PriorityBits(prio);
    assert Store16(prio * 0x4000)[1] == 0 by { LowByte(prio); }
    assert Store16(0) == [0, 0];
    assert Store16(prio * 0x4000) == [prio % 4 * 0x40, 0];
    assert PrintControlHeader(MkSynStream(id, assoc, prio)) == [0x80, 2, 0, 1, 0, 0, 0, 10];
    assert PrintControlHeader(MkSynReply(id)) == [0x80, 2, 0, 2, 0, 0, 0, 10];
  }

  lemma LowByte(prio: nat)
    ensures prio * 0x4000 % 0x100 == 0
  {
    assert prio * 0x4000 == 0x100 * (prio * 0x40);
  }

  /**
   The frames this program makes are packed exactly when the buffer holds 18
   bytes and the block: just what a SYN_STREAM takes, and four bytes more than a SYN_REPLY does.
   */
  lemma MadeFramesPack(id: uint32, assoc: uint32, prio: nat, z: Deflate, bufsize: nat)
    requires z.DeflateError? ==> z.rc != Ok
    ensures PackCode(MkSynStream(id, assoc, prio), bufsize, z) == Ok <==> z.Deflated? && 18 + |z.bytes| <= bufsize
    ensures PackCode(MkSynReply(id), bufsize, z) == Ok <==> z.Deflated? && 18 + |z.bytes| <= bufsize
    ensures forall f :: f in {MkSynStream(id, assoc, prio), MkSynReply(id)} ==>
              PackCode(f, bufsize, z) ==
              if bufsize < 18 then SmallBuffer
              else if z.DeflateError? then z.rc
              else if bufsize < 18 + |z.bytes| then SmallBuffer else Ok
    ensures z.Deflated? ==>
              && |Packed(MkSynStream(id, assoc, prio), z.bytes)| == 18 + |z.bytes|
              && |Packed(MkSynReply(id), z.bytes)| == 14 + |z.bytes|
  {
    if z.Deflated? {
      PackedSizes(MkSynStream(id, assoc, prio), z.bytes);
      PackedSizes(MkSynReply(id), z.bytes);
    }
  }

  /**
   Any frame: packed exactly when it is one of the two kinds, and the buffer holds
   18 bytes and the block, and the declared length with its header, in a sum that wraps from 2^32 - 8 on.
   */
  lemma PackedIff(f: Control, bufsize: nat, z: Deflate)
    requires BodyOfKind(f) && (z.DeflateError? ==> z.rc != Ok && z.rc != Abort)
    ensures var declared := if f.length < 0xFFFF_FFF8 then f.length + 8 else f.length - 0xFFFF_FFF8;
            && (PackCode(f, bufsize, z) == Ok <==>
                  f.kind in {1, 2} && z.Deflated? && bufsize >= 18 + |z.bytes| && bufsize >= declared)
            && (PackCode(f, bufsize, z) == Abort <==> f.kind !in {1, 2} && bufsize >= 8 && bufsize >= declared)
  {
    hide BodyFields;
    Plus8Wraps(f.length);
    PackedSizes(f, []);
  }

  lemma Plus8Wraps(n: uint32)
    ensures (8 + n) % 0x1_0000_0000 == if n < 0xFFFF_FFF8 then n + 8 else n - 0xFFFF_FFF8
  {
  }

  /**
   An accepted frame leaves the cursor in the window exactly when its declared
   length covers the fixed part; below that, 32-bit arithmetic takes it far past the end.
   */
  lemma ShortSynOverruns(env: Env, f: Control, w: seq<byte>)
    requires |w| < 0x1_0000_0000
    ensures var r := ParseControl(env, f, w);
            r.rc == Ok ==>
              && (r.frame.kind == SYN_STREAM ==> (r.used <= |w| <==> r.frame.length >= 10))
              && (r.frame.kind == SYN_REPLY ==> (r.used <= |w| <==> r.frame.length >= 6))
  {
    hide Load32, Load16, ReadSynFields, ReadReplyFields;
    var h := ControlHeader(f, w);
    if h.frame.kind == SYN_STREAM && h.frame.length < 10 {
      assert Minus32(h.frame.length, 10) == h.frame.length - 10 + 0x1_0000_0000;
    } else if h.frame.kind == SYN_REPLY && h.frame.length < 6 {
      assert Minus32(h.frame.length, 6) == h.frame.length - 6 + 0x1_0000_0000;
    }
  }

  // ----- what a whole frame is answered with

  function AtLeast(m: nat, n: nat): nat { if m < n then n else m }

  /**
   A SYN_STREAM with the bytes the parser insists on: the ids and the two bits of
   priority it was read with, and which of its faults is reported; after a fault
   the cursor is behind the fixed part.
   */
  lemma RequestVerdict(env: Env, blank: Control, w: seq<byte>)
    requires !blank.headerParsed && |w| >= HEADER && Load16(w[2..]) == 1 && |w| >= HEADER + AtLeast(LengthOf(w), 12)
    ensures var r, n := ParseControl(env, blank, w), LengthOf(w);
            var id := Load32(w[8..]) % 0x8000_0000;
            && r.frame == Control(true, Load16(w) % 0x8000, 1, w[4], n,
                                  Syn(id, Load32(w[12..]) % 0x8000_0000, w[16] / 0x40))
            && r.rc == (if id == 0 then Abort
                        else if id in env.taken then Inval
                        else if n == 0 then Insuff else env.inflate)
            && r.used == (if r.rc != Ok || id == 0 || id in env.taken then 18
                          else if n >= 10 then HEADER + n else HEADER + n + 0x1_0000_0000)
            && r.needed == 0
  {
    hide Load32, Load16, Load24;
    var rest := w[8..];
    assert rest[4..] == w[12..] && rest[8] == w[16];
    assert LengthOf(w) >= 10 ==> Minus32(LengthOf(w), 10) == LengthOf(w) - 10;
    assert LengthOf(w) < 10 ==> Minus32(LengthOf(w), 10) == LengthOf(w) - 10 + 0x1_0000_0000;
  }

  /** A SYN_REPLY likewise. */
  lemma ReplyVerdict(env: Env, blank: Control, w: seq<byte>)
    requires !blank.headerParsed && |w| >= HEADER && Load16(w[2..]) == 2 && |w| >= HEADER + AtLeast(LengthOf(w), 8)
    ensures var r, n := ParseControl(env, blank, w), LengthOf(w);
            && r.frame == Control(true, Load16(w) % 0x8000, 2, w[4], n, Reply(Load32(w[8..]) % 0x8000_0000))
            && r.rc == (if n == 0 then Insuff else env.inflate)
            && r.used == (if r.rc != Ok then 14 else if n >= 6 then HEADER + n else HEADER + n + 0x1_0000_0000)
            && r.needed == 0
  {
    hide Load32, Load16, Load24;
    assert LengthOf(w) >= 6 ==> Minus32(LengthOf(w), 6) == LengthOf(w) - 6;
    assert LengthOf(w) < 6 ==> Minus32(LengthOf(w), 6) == LengthOf(w) - 6 + 0x1_0000_0000;
  }

  /** A control frame of a type without a parser is accepted, and its payload left where it is. */
  lemma OtherVerdict(env: Env, blank: Control, w: seq<byte>)
    requires !blank.headerParsed && |w| >= HEADER && Load16(w[2..]) !in {1, 2, 3, 8} && |w| >= HEADER + LengthOf(w)
    ensures ParseControl(env, blank, w)
         == Step(Ok, Control(true, Load16(w) % 0x8000, Load16(w[2..]), w[4], LengthOf(w), blank.body), HEADER, 0)
  {
    hide Load32, Load16, Load24;
  }

  /** Where the parser of the type is not part of this model: its answer, or for HEADERS one code for all its faults. */
  lemma OpaqueVerdict(env: Env, blank: Control, w: seq<byte>)
    requires !blank.headerParsed && |w| >= HEADER && Load16(w[2..]) in {3, 8} && |w| >= HEADER + LengthOf(w)
    ensures var r, kind := ParseControl(env, blank, w), Load16(w[2..]);
            && r.frame == Control(true, Load16(w) % 0x8000, kind, w[4], LengthOf(w), blank.body)
            && r.rc == (if kind == 3 || env.other == Ok then env.other else Inval)
            && r.used == HEADER + (if kind == 3 then 0 else env.otherUsed)
  {
    hide Load32, Load16, Load24;
  }

  /** A frame that declares no byte has nothing to inflate: it is not accepted, whatever zlib does. */
  lemma NothingDeclared(env: Env, f: Control, w: seq<byte>)
    requires var h := ControlHeader(f, w); h.rc == Ok && h.frame.kind in {SYN_STREAM, SYN_REPLY} && h.frame.length == 0
    ensures ParseControl(env, f, w).rc != Ok
  {
    hide Load32, Load16, ReadSynFields, ReadReplyFields;
  }

  // A zlib header and a deflate block that stands for two zero bytes, the empty name/value block (RFC 1950, RFC 1951).
  const TWO_ZEROS: seq<byte> := [0x78, 0x9C, 0x63, 0x60, 0]

  // Declared lengths 9 and 5; the bytes handed to the inflater are there, and begin with that block.
  const SHORT_STREAM: seq<byte> :=
    [0x80, 2, 0, 1, 0, 0, 0, 9, 0, 0, 0, 1, 0, 0, 0, 0, 0, 0] + TWO_ZEROS + [0, 0, 2, 0]
  const SHORT_REPLY: seq<byte> := [0x80, 2, 0, 2, 0, 0, 0, 5, 0, 0, 0, 1, 0, 0] + TWO_ZEROS

  /** Such a SYN_STREAM, with id 1, is accepted when its block inflates, and the cursor is 2^32 bytes too far. */
  lemma ShortStreamAccepted(env: Env, blank: Control)
    requires !blank.headerParsed && env.inflate == Ok && 1 !in env.taken
    ensures ParseControl(env, blank, SHORT_STREAM)
         == Step(Ok, Control(true, 2, SYN_STREAM, 0, 9, Syn(1, 0, 0)), HEADER + 9 + 0x1_0000_0000, 0)
  {
    ShortHeader(blank, SHORT_STREAM, SYN_STREAM, 9);
    var rest := SHORT_STREAM[8..];
    assert rest[..9] == [0, 0, 0, 1, 0, 0, 0, 0, 0] && rest[4..][..4] == [0, 0, 0, 0];
    assert ReadSynFields(rest) == Syn(1, 0, 0);
    assert |rest| == 19 && Minus32(9, 10) == 0xFFFF_FFFF;
    hide ControlHeader, ReadSynFields, Minus32;
  }

  /** And so is such a SYN_REPLY. */
  lemma ShortReplyAccepted(env: Env, blank: Control)
    requires !blank.headerParsed && env.inflate == Ok
    ensures ParseControl(env, blank, SHORT_REPLY)
         == Step(Ok, Control(true, 2, SYN_REPLY, 0, 5, Reply(1)), HEADER + 5 + 0x1_0000_0000, 0)
  {
    ShortHeader(blank, SHORT_REPLY, SYN_REPLY, 5);
    var rest := SHORT_REPLY[8..];
    assert rest[..4] == [0, 0, 0, 1];
    assert ReadReplyFields(rest) == Reply(1);
    assert |rest| == 11 && Minus32(5, 6) == 0xFFFF_FFFF;
    hide ControlHeader, ReadReplyFields, Minus32;
  }

  lemma ShortHeader(blank: Control, w: seq<byte>, kind: byte, length: byte)
    requires !blank.headerParsed && |w| >= HEADER && w[..HEADER] == [0x80, 2, 0, kind, 0, 0, 0, length]
    ensures ControlHeader(blank, w) == Step(Ok, Control(true, 2, kind, 0, length, blank.body), HEADER, 0)
  {
    assert w[2..][..2] == w[..HEADER][2..4] && w[4..][..4] == w[..HEADER][4..];
    assert w[..HEADER][..2] == w[..2];
  }
}
