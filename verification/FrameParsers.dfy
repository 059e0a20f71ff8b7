/** The window every parser moves (src/spdy_data.c), and the parsers and header printers that move it. */
module FrameParsers {
  import opened Bytes
  import opened Status
  import opened FrameFormat

  // spdy_data: the bytes of `buf` from `cursor` to `end` are unread.
  class Window {
    var buf: array<byte>
    var end: nat
    var cursor: nat
    var needed: nat

    ghost predicate InBounds()
      reads this
    {
      cursor <= end <= buf.Length
    }

    ghost function Unread(): seq<byte>
      requires InBounds()
      reads this, buf
    {
      buf[cursor..end]
    }

    // BE_LOAD_16 and BE_LOAD_32 at the cursor.
    function Word16(): (v: uint16)
      requires InBounds() && cursor + 2 <= end
      reads this, buf
      ensures v == Load16(Unread())
    {
      Load16([buf[cursor], buf[cursor + 1]])
    }

    function Word32(): (v: uint32)
      requires InBounds() && cursor + 4 <= end
      reads this, buf
      ensures v == Load32(Unread())
    {
      Load32([buf[cursor], buf[cursor + 1], buf[cursor + 2], buf[cursor + 3]])
    }

    constructor ()
      ensures InBounds() && Unread() == [] && fresh(buf)
    {
      buf, end, cursor, needed := new byte[0], 0, 0, 0;
    }

    method Use(data: array<byte>, length: nat)
      requires length <= data.Length
      modifies this
      ensures InBounds() && Unread() == data[..length] && buf == data && cursor == needed == 0
    {
      buf, end, cursor, needed := data, length, 0, 0;
    }
  }

  /** `was` with `s` written over it at `at`, and nothing else changed. */
  ghost function Patch(was: seq<byte>, at: nat, s: seq<byte>): (r: seq<byte>)
    requires at + |s| <= |was|
    ensures |r| == |was|
  {
    was[..at] + s + was[at + |s|..]
  }

  lemma PatchPatch(was: seq<byte>, at: nat, s: seq<byte>, t: seq<byte>)
    requires at + |s| + |t| <= |was|
    ensures Patch(Patch(was, at, s), at + |s|, t) == Patch(was, at, s + t)
  {
  }

  lemma PatchInside(was: seq<byte>, at: nat, s: seq<byte>, end: nat)
    requires at + |s| <= end <= |was|
    ensures Patch(was, at, s)[..at] == was[..at] && Patch(was, at, s)[end..] == was[end..]
  {
  }

  // The window after a parser step: the cursor moved, and `needed` was set if the step set it.
  twostate predicate Stepped<F>(w: Window, r: Step<F>)
    reads w
  {
    && w.buf == old(w.buf) && w.end == old(w.end)
    && w.cursor == old(w.cursor) + r.used
    && w.needed == if r.rc == Insuff && r.needed > 0 then r.needed else old(w.needed)
  }

  class DataFrame {
    var streamId: uint32
    var flags: byte
    var length: uint32
    var payload: array?<byte>

    ghost function View(): Data
      reads this, payload
    {
      Data(streamId, flags, length, if payload == null then NoPayload else Payload(payload[..]))
    }

    constructor ()
      ensures streamId == 0 && payload == null
    {
      streamId, flags, length, payload := 0, 0, 0, null;
    }

    method Init()
      modifies `streamId
      ensures View() == old(View()).(streamId := 0)
    {
      streamId := 0;
    }

    method ParseHeader(w: Window) returns (rc: Code)
      requires w.InBounds()
      modifies this, w
      ensures var r := DataHeader(old(View()), old(w.Unread())); rc == r.rc && View() == r.frame && Stepped(w, r)
      ensures payload == old(payload) || payload == null
    {
      if streamId == 0 {
        var n := w.end - w.cursor;
        if n < HEADER {
          w.needed := HEADER - n;
          return Insuff;
        }
        ghost var u := w.Unread();
        streamId := w.Word32() % 0x8000_0000;
        w.cursor := w.cursor + 4;
        assert w.Unread() == u[4..];
        flags := w.buf[w.cursor];
        length := w.Word32() % 0x100_0000;
        w.cursor := w.cursor + 4;
        payload := null;
      }
      return Ok;
    }

    /** spdy_data_frame_parse: one ParseData step. */
    method Parse(w: Window) returns (rc: Code)
      requires w.InBounds()
      modifies this, w
      ensures var r := ParseData(old(View()), old(w.Unread())); rc == r.rc && View() == r.frame && Stepped(w, r)
      ensures payload == null || payload == old(payload) || fresh(payload)
    {
      ghost var u := w.Unread();
      rc := ParseHeader(w);
      if rc != Ok {
        return;
      }
      ghost var used := DataHeader(old(View()), u).used;
      assert u[used..] == w.Unread();
      var n := w.end - w.cursor;
      if length > n {
        w.needed := length - n;
        return Insuff;
      }
      var copy := new byte[length];
      forall i | 0 <= i < length {
        copy[i] := w.buf[w.cursor + i];
      }
      payload := copy;
      assert copy[..] == w.Unread()[..length];
      w.cursor := w.cursor + length;
    }

    /** spdy_data_frame_pack_header: eight bytes or an error, and nothing else of `out` changes. */
    method PackHeader(out: array<byte>, at: nat, bufsize: nat) returns (rc: Code, outlen: nat)
      requires at + bufsize <= out.Length
      modifies out
      ensures rc == if bufsize < HEADER then SmallBuffer else Ok
      ensures rc == Ok ==>
                && outlen == HEADER
                && out[..] == Patch(old(out[..]), at, PrintDataHeader(old(View())))
      ensures rc != Ok ==> out[..] == old(out[..])
    {
      hide MaskedId, Store32;
      if bufsize < HEADER {
        return SmallBuffer, 0;
      }
      ghost var was := out[..];
      var id := Store32(MaskedId(streamId));
      out[at], out[at + 1], out[at + 2], out[at + 3] := id[0], id[1], id[2], id[3];
      var n := Store32(length);
      out[at + 4], out[at + 5], out[at + 6], out[at + 7] := n[0], n[1], n[2], n[3];
      out[at + 4] := flags;
      assert out[at..at + HEADER] == id + n[0 := flags];
      assert out[..] == was[..at] + out[at..at + HEADER] + was[at + HEADER..];
      return Ok, HEADER;
    }
  }

  class ControlFrame {
    var headerParsed: bool
    var version: uint16
    var kind: uint16
    var flags: byte
    var length: uint32
    var body: Body

    ghost function View(): Control
      reads this
    {
      Control(headerParsed, version, kind, flags, length, body)
    }

    constructor ()
      ensures !headerParsed
    {
      headerParsed, version, kind, flags, length, body := false, 0, 0, 0, 0, NoBody;
    }

    method Init()
      modifies `headerParsed
      ensures View() == old(View()).(headerParsed := false)
    {
      headerParsed := false;
    }

    method ParseHeader(w: Window) returns (rc: Code)
      requires w.InBounds()
      modifies this, w
      ensures var r := ControlHeader(old(View()), old(w.Unread())); rc == r.rc && View() == r.frame && Stepped(w, r)
    {
      if headerParsed {
        return Ok;
      }
      var n := w.end - w.cursor;
      if n < HEADER {
        w.needed := HEADER - n;
        return Insuff;
      }
      ghost var u := w.Unread();
      version := w.Word16() % 0x8000;
      w.cursor := w.cursor + 2;
      assert w.Unread() == u[2..];
      kind := w.Word16();
      w.cursor := w.cursor + 2;
      assert w.Unread() == u[4..];
      flags := w.buf[w.cursor];
      length := w.Word32() % 0x100_0000;
      w.cursor := w.cursor + 4;
      headerParsed := true;
      return Ok;
    }

    /** spdy_syn_stream_parse. */
    method ParseSynStream(env: Env, w: Window) returns (rc: Code)
      requires w.InBounds()
      modifies this, w
      ensures var r := ParseSyn(env, old(View()), old(w.Unread())); rc == r.rc && View() == r.frame && Stepped(w, r)
    {
      hide Load32;
      ghost var u := w.Unread();
      var n := w.end - w.cursor;
      if n < length {
        w.needed := length - n;
        return Insuff;
      }
      if n < 12 {
        w.needed := 12 - n;
        return Insuff;
      }
      var id := w.Word32() % 0x8000_0000;
      w.cursor := w.cursor + 4;
      assert w.Unread() == u[4..];
      var assoc := w.Word32() % 0x8000_0000;
      w.cursor := w.cursor + 4;
      assert w.Unread() == u[8..];
      body := Syn(id, assoc, w.buf[w.cursor] / 0x40);
      w.cursor := w.cursor + 2;
      if id == 0 {
        return Abort;
      }
      if id in env.taken {
        return Inval;
      }
      rc := InflateParse(env, length);
      if rc != Ok {
        return;
      }
      w.cursor := w.cursor + Minus32(length, 10);
      return Ok;
    }

    /** spdy_syn_reply_parse. */
    method ParseSynReply(env: Env, w: Window) returns (rc: Code)
      requires w.InBounds()
      modifies this, w
      ensures var r := ParseReply(env, old(View()), old(w.Unread())); rc == r.rc && View() == r.frame && Stepped(w, r)
    {
      var n := w.end - w.cursor;
      if n < 8 {
        w.needed := 8 - n;
        return Insuff;
      }
      body := Reply(w.Word32() % 0x8000_0000);
      w.cursor := w.cursor + 6;
      rc := InflateParse(env, length);
      if rc != Ok {
        return;
      }
      w.cursor := w.cursor + Minus32(length, 6);
      return Ok;
    }

    /** spdy_control_frame_parse: one ParseControl step. */
    method Parse(env: Env, w: Window) returns (rc: Code)
      requires w.InBounds()
      modifies this, w
      ensures var r := ParseControl(env, old(View()), old(w.Unread())); rc == r.rc && View() == r.frame && Stepped(w, r)
    {
      hide Load16, Load32, ParseSyn, ParseReply;
      ghost var f, u := View(), w.Unread();
      rc := ParseHeader(w);
      if rc != Ok {
        return;
      }
      assert u[ControlHeader(f, u).used..] == w.Unread();
      var n := w.end - w.cursor;
      if length > n {
        w.needed := length - n;
        return Insuff;
      }
      if kind == SYN_STREAM {
        rc := ParseSynStream(env, w);
      } else if kind == SYN_REPLY {
        rc := ParseSynReply(env, w);
      } else if kind == RST_STREAM {
        rc := env.other;
      } else if kind == HEADERS {
        w.cursor := w.cursor + env.otherUsed;
        rc := if env.other == Ok then Ok else Inval;
      }
    }

    /** spdy_control_frame_pack_header: eight bytes or an error, and nothing else of `out` changes. */
    method PackHeader(out: array<byte>, at: nat, bufsize: nat) returns (rc: Code, outsize: nat)
      requires at + bufsize <= out.Length
      modifies out
      ensures rc == if bufsize < HEADER then SmallBuffer else Ok
      ensures rc == Ok ==>
                && outsize == HEADER
                && out[..] == Patch(old(out[..]), at, PrintControlHeader(View()))
      ensures rc != Ok ==> out[..] == old(out[..])
    {
      hide Store16, Store24;
      if bufsize < HEADER {
        return SmallBuffer, 0;
      }
      ghost var was := out[..];
      var v, k, n := Store16(version % 0x8000 + 0x8000), Store16(kind), Store24(length);
      out[at], out[at + 1] := v[0], v[1];
      out[at + 2], out[at + 3] := k[0], k[1];
      out[at + 4] := flags;
      out[at + 5], out[at + 6], out[at + 7] := n[0], n[1], n[2];
      assert out[at..at + HEADER] == v + k + [flags] + n;
      assert out[..] == was[..at] + out[at..at + HEADER] + was[at + HEADER..];
      return Ok, HEADER;
    }

    method MakeSynStream(id: uint32, assoc: uint32, prio: nat) returns (rc: Code)
      modifies this
      ensures rc == Ok && View() == MkSynStream(id, assoc, prio)
    {
      headerParsed, version, kind, flags, length, body := true, 2, SYN_STREAM, 0, 10, Syn(id, assoc, prio);
      return Ok;
    }

    method MakeSynReply(id: uint32) returns (rc: Code)
      modifies this
      ensures rc == Ok && View() == MkSynReply(id)
    {
      headerParsed, version, kind, flags, length, body := true, 2, SYN_REPLY, 0, 10, Reply(id);
      return Ok;
    }

    // spdy_syn_stream_pack and spdy_syn_reply_pack.
    method PackBody(out: array<byte>, at: nat, bufsize: nat, z: Deflate) returns (rc: Code, outsize: nat)
      requires at + bufsize <= out.Length && !body.NoBody?
      requires z.DeflateError? ==> z.rc != Ok
      modifies out
      ensures rc == if bufsize < |BodyFields(body)| then SmallBuffer else Fit(z, bufsize)
      ensures rc == Ok ==>
                var s := BodyFields(body) + z.bytes;
                outsize == |s| && at + |s| <= out.Length && out[..] == Patch(old(out[..]), at, s)
      ensures out[..at] == old(out[..at]) && out[at + bufsize..] == old(out[at + bufsize..])
    {
      hide Store32, Store16, Patch, BodyFields;
      var fixed := BodyFields(body);
      if bufsize < |fixed| {
        return SmallBuffer, 0;
      }
      ghost var was := out[..];
      BodySizes(body);
      Put(out, at, fixed);
      PatchInside(was, at, fixed, at + bufsize);
      match z {
        case DeflateError(e) => return e, 0;
        case Deflated(bytes) =>
          if bufsize < 10 + |bytes| {
            return SmallBuffer, 0;
          }
          Put(out, at + |fixed|, bytes);
          PatchPatch(was, at, fixed, bytes);
          PatchInside(was, at, fixed + bytes, at + bufsize);
          return Ok, |fixed| + |bytes|;
      }
    }

    /** spdy_control_frame_pack. */
    method Pack(out: array<byte>, at: nat, bufsize: nat, z: Deflate) returns (rc: Code, outsize: nat)
      requires at + bufsize <= out.Length && BodyOfKind(View())
      requires z.DeflateError? ==> z.rc != Ok
      modifies out
      ensures rc == PackCode(View(), bufsize, z)
      ensures rc == Ok ==>
                var s := Packed(View(), z.bytes);
                outsize == |s| && at + |s| <= out.Length && out[..] == Patch(old(out[..]), at, s)
      ensures out[..at] == old(out[..at]) && out[at + bufsize..] == old(out[at + bufsize..])
    {
      hide PrintControlHeader, BodyFields, Patch;
      outsize := 0;
      if bufsize < (HEADER + length) % 0x1_0000_0000 {
        return SmallBuffer, 0;
      }
      ghost var was, header := out[..], PrintControlHeader(View());
      var headersize, payloadsize;
      rc, headersize := PackHeader(out, at, bufsize);
      if rc != Ok {
        return;
      }
      PatchInside(was, at, header, at + bufsize);
      if kind == SYN_STREAM || kind == SYN_REPLY {
        rc, payloadsize := PackBody(out, at + headersize, bufsize - headersize, z);
      } else {
        return Abort, 0;
      }
      HeadKept(was, at, header, out[..]);
      if rc != Ok {
        return;
      }
      outsize := headersize + payloadsize;
      PatchPatch(was, at, header, BodyFields(body) + z.bytes);
      assert header + (BodyFields(body) + z.bytes) == Packed(View(), z.bytes);
    }
  }

  lemma HeadKept(was: seq<byte>, at: nat, s: seq<byte>, now: seq<byte>)
    requires at + |s| <= |was| == |now| && now[..at + |s|] == Patch(was, at, s)[..at + |s|]
    ensures now[..at] == was[..at]
  {
    assert now[..at] == now[..at + |s|][..at];
    assert Patch(was, at, s)[..at + |s|][..at] == was[..at];
  }

  lemma BodySizes(b: Body)
    ensures |BodyFields(b)| <= 10
  {
  }

  // Write `s` at `at`, as the store macros and memcpy do.
  method Put(out: array<byte>, at: nat, s: seq<byte>)
    requires at + |s| <= out.Length
    modifies out
    ensures out[..] == Patch(old(out[..]), at, s)
  {
    forall i | 0 <= i < |s| {
      out[at + i] := s[i];
    }
    assert out[at..at + |s|] == s;
    assert out[..] == out[..at] + out[at..at + |s|] + out[at + |s|..];
  }

  // struct spdy_frame; the two members of its union do not share storage here.
  class SpdyFrame {
    var headerParsed: bool
    var kind: Kind
    const control: ControlFrame
    const data: DataFrame

    ghost function View(): Frame
      reads this, control, data, data.payload
    {
      Frame(headerParsed, kind, control.View(), data.View())
    }

    constructor ()
      ensures !headerParsed && fresh(control) && fresh(data)
      ensures data.payload == null
    {
      headerParsed, kind := false, DataKind;
      control := new ControlFrame();
      data := new DataFrame();
    }

    method Init()
      modifies `headerParsed
      ensures View() == Reset(old(View()))
    {
      headerParsed := false;
    }

    method ParseHeader(w: Window)
      requires w.InBounds() && w.cursor < w.end
      modifies `kind
      ensures kind == if w.Unread()[0] >= 0x80 then ControlKind else DataKind
    {
      kind := if w.buf[w.cursor] >= 0x80 then ControlKind else DataKind;
    }

    /** spdy_frame_parse: one ParseFrame step. */
    method Parse(env: Env, w: Window) returns (rc: Code)
      requires w.InBounds() && (!headerParsed ==> w.cursor < w.end)
      modifies this, control, data, w
      ensures var r := ParseFrame(env, old(View()), old(w.Unread())); rc == r.rc && View() == r.frame && Stepped(w, r)
      ensures data.payload == null || data.payload == old(data.payload) || fresh(data.payload)
    {
      hide ParseControl, ParseData;
      if !headerParsed {
        ParseHeader(w);
        if kind == ControlKind {
          control.Init();
        } else {
          data.Init();
        }
        headerParsed := true;
      }
      match kind {
        case ControlKind => rc := control.Parse(env, w);
        case DataKind => rc := data.Parse(w);
      }
    }
  }
}
