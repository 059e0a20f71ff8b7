/**
 The frames of SPDY draft 2 as the parsers and header printers of
 src/spdy_data_frame.c, src/spdy_control_frame.c, src/spdy_syn_stream.c,
 src/spdy_syn_reply.c and src/spdy_frame.c read and write them.

 A parser is a step: given what a frame remembers and the unread bytes, it
 yields a result code, what the frame then remembers, the bytes used, and, when
 it wants more, how many more.
 */
module FrameFormat {
  import opened Bytes
  import opened Status
  import NvFormat

  datatype Step<F> = Step(rc: Code, frame: F, used: nat, needed: nat)

  const HEADER: nat := 8

  // Of a header as it stands in the bytes: the id of a data frame, and the length of either kind.
  function StreamIdOf(w: seq<byte>): uint32
    requires |w| >= HEADER
  {
    Load32(w) % 0x8000_0000
  }

  function LengthOf(w: seq<byte>): (n: uint24)
    requires |w| >= HEADER
    ensures n == Load32(w[4..]) % 0x100_0000
  {
    Load32Split(w[4..]);
    assert w[4..][1..][..3] == w[5..HEADER];
    Load24(w[5..HEADER])
  }

  // ----- data frames

  datatype Payload = NoPayload | Payload(bytes: seq<byte>)

  // A zero stream id doubles as "header not read yet".
  datatype Data = Data(streamId: uint32, flags: byte, length: uint32, payload: Payload)

  function DataHeader(f: Data, w: seq<byte>): (r: Step<Data>)
    ensures r.used <= |w|
  {
    if f.streamId != 0 then Step(Ok, f, 0, 0)
    else if |w| < HEADER then Step(Insuff, f, 0, HEADER - |w|)
    else Step(Ok, Data(Load32(w) % 0x8000_0000, w[4], Load32(w[4..]) % 0x100_0000, NoPayload), HEADER, 0)
  }

  function ParseData(f: Data, w: seq<byte>): (r: Step<Data>)
    ensures r.used <= |w|
  {
    var h := DataHeader(f, w);
    if h.rc != Ok then h
    else
      var rest := w[h.used..];
      if h.frame.length > |rest| then Step(Insuff, h.frame, h.used, h.frame.length - |rest|)
      else Step(Ok, h.frame.(payload := Payload(rest[..h.frame.length])), h.used + h.frame.length, 0)
  }

  // The mask 0x8FFFFFFF keeps the top bit and the low 28.
  function MaskedId(id: uint32): uint32 {
    id / 0x8000_0000 * 0x8000_0000 + id % 0x1000_0000
  }

  // The flags byte is written over the top byte of the length word.
  function PrintDataHeader(f: Data): (s: seq<byte>)
    ensures |s| == HEADER
  {
    Store32(MaskedId(f.streamId)) + Store32(f.length)[0 := f.flags]
  }

  // ----- control frames

  const SYN_STREAM: uint16 := 1
  const SYN_REPLY: uint16 := 2
  const RST_STREAM: uint16 := 3
  const HEADERS: uint16 := 8

  datatype Body = NoBody | Syn(id: uint32, assoc: uint32, prio: nat) | Reply(id: uint32)

  datatype Control = Control(headerParsed: bool, version: uint16, kind: uint16, flags: byte, length: uint32, body: Body)

  /**
   What a control payload parser finds outside the frame: the ids in the stream
   table, how inflating the name/value block and reading it ends, and how the
   RST_STREAM and HEADERS parsers, which are not part of this model, answer.
   */
  datatype Env = Env(taken: set<uint32>, inflate: Code, other: Code, otherUsed: nat)

  function ControlHeader(f: Control, w: seq<byte>): (r: Step<Control>)
    ensures r.used <= |w|
  {
    if f.headerParsed then Step(Ok, f, 0, 0)
    else if |w| < HEADER then Step(Insuff, f, 0, HEADER - |w|)
    else
      Step(Ok, Control(true, Load16(w) % 0x8000, Load16(w[2..]), w[4], Load32(w[4..]) % 0x100_0000, f.body), HEADER, 0)
  }

  // The fixed part of a SYN_STREAM: both ids, and the two bits kept of the priority.
  function ReadSynFields(w: seq<byte>): (b: Body)
    requires |w| >= 10
    ensures b.Syn? && b.prio < 4
  {
    Syn(Load32(w) % 0x8000_0000, Load32(w[4..]) % 0x8000_0000, w[8] / 0x40)
  }

  function ReadReplyFields(w: seq<byte>): (b: Body)
    requires |w| >= 6
    ensures b.Reply?
  {
    Reply(Load32(w) % 0x8000_0000)
  }

  // `frame_length - fixed` in 32-bit unsigned arithmetic.
  function Minus32(a: uint32, b: uint32): uint32 {
    (a - b) % 0x1_0000_0000
  }

  // spdy_nv_block_inflate_parse; with nothing to inflate zlib is not asked, and the block is read from no bytes.
  function InflateParse(env: Env, length: uint32): Code {
    if length == 0 then NvFormat.Read(NvFormat.EMPTY, []).rc else env.inflate
  }

  function ParseSyn(env: Env, f: Control, w: seq<byte>): Step<Control> {
    if |w| < f.length then Step(Insuff, f, 0, f.length - |w|)
    else if |w| < 12 then Step(Insuff, f, 0, 12 - |w|)
    else
      var g := f.(body := ReadSynFields(w));
      if g.body.id == 0 then Step(Abort, g, 10, 0)
      else if g.body.id in env.taken then Step(Inval, g, 10, 0)
      else if InflateParse(env, f.length) != Ok then Step(InflateParse(env, f.length), g, 10, 0)
      else Step(Ok, g, 10 + Minus32(f.length, 10), 0)
  }

  function ParseReply(env: Env, f: Control, w: seq<byte>): Step<Control> {
    if |w| < 8 then Step(Insuff, f, 0, 8 - |w|)
    else
      var g := f.(body := ReadReplyFields(w));
      if InflateParse(env, f.length) != Ok then Step(InflateParse(env, f.length), g, 6, 0)
      else Step(Ok, g, 6 + Minus32(f.length, 6), 0)
  }

  function ParsePayload(env: Env, f: Control, w: seq<byte>): Step<Control> {
    if f.kind == SYN_STREAM then ParseSyn(env, f, w)
    else if f.kind == SYN_REPLY then ParseReply(env, f, w)
    else if f.kind == RST_STREAM then Step(env.other, f, 0, 0)  // it is handed the bytes, not the cursor
    else if f.kind == HEADERS then Step(if env.other == Ok then Ok else Inval, f, env.otherUsed, 0)
    else Step(Ok, f, 0, 0)
  }

  function ParseControl(env: Env, f: Control, w: seq<byte>): Step<Control> {
    var h := ControlHeader(f, w);
    if h.rc != Ok then h
    else
      var rest := w[h.used..];
      if h.frame.length > |rest| then Step(Insuff, h.frame, h.used, h.frame.length - |rest|)
      else
        var r := ParsePayload(env, h.frame, rest);
        r.(used := h.used + r.used)
  }

  function PrintControlHeader(f: Control): (s: seq<byte>)
    ensures |s| == HEADER
  {
    Store16(f.version % 0x8000 + 0x8000) + Store16(f.kind) + [f.flags] + Store24(f.length)
  }

  // ----- packing a control frame

  // What zlib makes of the empty name/value block, two zero bytes: opaque, and allowed to fail.
  datatype Deflate = Deflated(bytes: seq<byte>) | DeflateError(rc: Code)

  // spdy_control_mk_syn_stream and spdy_control_mk_syn_reply: the length is 10 whatever follows.
  function MkSynStream(id: uint32, assoc: uint32, prio: nat): Control {
    Control(true, 2, SYN_STREAM, 0, 10, Syn(id, assoc, prio))
  }

  function MkSynReply(id: uint32): Control {
    Control(true, 2, SYN_REPLY, 0, 10, Reply(id))
  }

  // The fixed part of a payload; the priority is shifted left by 14 bits into 16.
  function BodyFields(b: Body): seq<byte> {
    match b
    case NoBody => []
    case Syn(id, assoc, prio) => Store32(id) + Store32(assoc) + Store16(prio * 0x4000)
    case Reply(id) => Store32(id) + Store16(0)
  }

  function Packed(f: Control, z: seq<byte>): seq<byte> {
    PrintControlHeader(f) + BodyFields(f.body) + z
  }

  // Both payload packers ask for room for ten fixed bytes before the deflated block.
  function Fit(z: Deflate, bufsize: nat): Code {
    match z
    case DeflateError(rc) => rc
    case Deflated(bytes) => if bufsize < 10 + |bytes| then SmallBuffer else Ok
  }

  // The answer of spdy_control_frame_pack; the sum of the first test is one of 32-bit words.
  function PackCode(f: Control, bufsize: nat, z: Deflate): Code {
    if bufsize < (HEADER + f.length) % 0x1_0000_0000 || bufsize < HEADER then SmallBuffer
    else if f.kind != SYN_STREAM && f.kind != SYN_REPLY then Abort
    else if bufsize < HEADER + |BodyFields(f.body)| then SmallBuffer
    else Fit(z, bufsize - HEADER)
  }

  predicate BodyOfKind(f: Control) {
    (f.kind == SYN_STREAM ==> f.body.Syn?) && (f.kind == SYN_REPLY ==> f.body.Reply?)
  }

  // ----- either kind

  // enum SPDY_FRAME_TYPE, and struct spdy_frame
  datatype Kind = DataKind | ControlKind

  datatype Frame = Frame(headerParsed: bool, kind: Kind, control: Control, data: Data)

  // spdy_frame_init forgets nothing but that a header was read.
  function Reset(f: Frame): Frame { f.(headerParsed := false) }

  function Dispatch(f: Frame, first: byte): Frame {
    if first >= 0x80 then Frame(true, ControlKind, f.control.(headerParsed := false), f.data)
    else Frame(true, DataKind, f.control, f.data.(streamId := 0))
  }

  function ParseFrame(env: Env, f: Frame, w: seq<byte>): (r: Step<Frame>)
    requires !f.headerParsed ==> |w| > 0
    ensures r.frame.headerParsed
  {
    var g := if f.headerParsed then f else Dispatch(f, w[0]);
    match g.kind
    case ControlKind => var r := ParseControl(env, g.control, w); Step(r.rc, g.(control := r.frame), r.used, r.needed)
    case DataKind => var r := ParseData(g.data, w); Step(r.rc, g.(data := r.frame), r.used, r.needed)
  }
}
