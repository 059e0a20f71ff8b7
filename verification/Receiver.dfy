/**
 The receiving half of struct spindly_phys: incoming chunks in an intrusive
 queue, a window that reads the first of them or a private merge buffer, and the
 frame under way (spindly_phys_incoming, parse_append, remove_inqnode,
 spindly_phys_demux), with the corrections README.md lists.
 */
module Receiver {
  import opened Bytes
  import opened Status
  import opened IntrusiveList
  import opened FrameFormat
  import opened FrameParsers
  import opened Reassembly

  // struct spindly_indata: `len` bytes of `data`, which may be the caller's own buffer.
  datatype Chunk = Chunk(data: array<byte>, len: nat)

  ghost function Arrays(nodes: seq<ListNode<Chunk>>): set<array<byte>> {
    set n | n in nodes :: n.item.data
  }

  ghost predicate Sized(nodes: seq<ListNode<Chunk>>) {
    forall n :: n in nodes ==> n.item.len <= n.item.data.Length
  }

  ghost function Texts(nodes: seq<ListNode<Chunk>>): (q: seq<seq<byte>>)
    requires Sized(nodes)
    reads Arrays(nodes)
    ensures |q| == |nodes|
  {
    if nodes == [] then [] else [nodes[0].item.data[..nodes[0].item.len]] + Texts(nodes[1..])
  }

  lemma {:induction false} TextsAppend(nodes: seq<ListNode<Chunk>>, n: ListNode<Chunk>)
    requires Sized(nodes) && n.item.len <= n.item.data.Length
    ensures Sized(nodes + [n])
    ensures Texts(nodes + [n]) == Texts(nodes) + [n.item.data[..n.item.len]]
  {
    if nodes != [] {
      assert (nodes + [n])[1..] == nodes[1..] + [n];
      TextsAppend(nodes[1..], n);
    }
  }

  ghost predicate Suffix<T>(s: seq<T>, t: seq<T>) {
    |s| <= |t| && s == t[|t| - |s|..]
  }

  // Queued bytes stay what they are while nobody writes to their arrays.
  twostate lemma {:induction false} TextsStay(nodes: seq<ListNode<Chunk>>)
    requires Sized(nodes)
    requires forall n :: n in nodes ==> n.item.data[..] == old(n.item.data[..])
    ensures Texts(nodes) == old(Texts(nodes))
  {
    if nodes != [] {
      var c := nodes[0].item;
      assert c.data[..c.len] == c.data[..][..c.len];
      assert old(c.data[..c.len]) == old(c.data[..])[..c.len];
      TextsStay(nodes[1..]);
    }
  }

  method Duplicate(data: array<byte>, n: nat) returns (copy: array<byte>)
    requires n <= data.Length
    ensures fresh(copy) && copy.Length == n && copy[..] == data[..n]
  {
    copy := new byte[n];
    forall i | 0 <= i < n {
      copy[i] := data[i];
    }
  }

  // memmove of what is unread, then memcpy of the next chunk, into the merge buffer or a larger one.
  method Merge(parse: array<byte>, buf: array<byte>, start: nat, n: nat, data: array<byte>, len: nat)
    returns (target: array<byte>)
    requires start + n <= buf.Length && len <= data.Length && data != parse
    modifies parse
    ensures (target == parse || fresh(target)) && n + len <= target.Length
    ensures target[..n + len] == old(buf[start..start + n]) + data[..len]
  {
    target := parse;
    if parse.Length < n + len {
      target := new byte[n + len];
    }
    forall i | 0 <= i < n {
      target[i] := buf[start + i];
    }
    assert target[..n] == old(buf[start..start + n]);
    forall i | 0 <= i < len {
      target[n + i] := data[i];
    }
    assert target[n..n + len] == data[..len] && target[..n] == old(buf[start..start + n]);
    assert target[..n + len] == target[..n] + target[n..n + len];
  }

  // What a turn of the demux loop answers, or leaves to the next turn.
  ghost predicate Turned(env: Env, was: Recv, now: Recv, done: bool, rc: Code, found: bool) {
    if done then Answer(rc, if found then [now.frame.(headerParsed := true)] else [], now) == Demux(env, was)
    else Demux(env, now) == Demux(env, was) && |now.queue| < |was.queue|
  }

  // A loop of turns answers the call it began with.
  lemma TurnedOn(env: Env, all: Recv, was: Recv, now: Recv, done: bool, rc: Code, found: bool)
    requires Demux(env, was) == Demux(env, all) && Turned(env, was, now, done, rc, found)
    ensures done ==> Answer(rc, if found then [now.frame.(headerParsed := true)] else [], now) == Demux(env, all)
    ensures !done ==> Demux(env, now) == Demux(env, all) && |now.queue| < |was.queue|
  {
  }

  lemma TurnLoads(env: Env, v: Recv)
    requires v.unread == []
    ensures if v.queue == [] then Turned(env, v, v, true, Ok, false)
            else Turned(env, v, v.(unread := v.queue[0], queue := v.queue[1..]), false, Ok, false)
  {
    hide ParseFrame;
  }

  lemma TurnParses(env: Env, v: Recv)
    requires v.unread != []
    ensures var r := ParseFrame(env, v.frame, v.unread);
            var left := Tail(v.unread, r.used);
            if r.rc == Ok then Turned(env, v, Recv(Reset(r.frame), left, v.queue), true, Ok, true)
            else if r.rc != Insuff then Turned(env, v, Recv(r.frame, left, v.queue), true, r.rc, false)
            else if v.queue == [] then Turned(env, v, Recv(r.frame, left, v.queue), true, Ok, false)
            else Turned(env, v, Recv(r.frame, left + v.queue[0], v.queue[1..]), false, Ok, false)
  {
    hide ParseFrame;
  }

  class Receiver {
    const inq: ListHead<Chunk>
    const window: Window
    const frame: SpdyFrame
    var parse: array<byte>   // the merge buffer
    var onHead: bool         // the window reads the first queued chunk

    ghost predicate Valid()
      reads this, inq, inq.nodes, window, frame.data
    {
      && inq.Valid() && Sized(inq.nodes)
      && window.end <= window.buf.Length
      && (forall n :: n in inq.nodes ==> n.item.data != parse) && frame.data.payload != parse
      && (onHead ==> inq.nodes != [] && window.buf == inq.nodes[0].item.data)
      && (!onHead && window.cursor < window.end ==> window.buf == parse)
    }

    ghost function Waiting(): seq<ListNode<Chunk>>
      reads this, inq
    {
      if onHead && inq.nodes != [] then inq.nodes[1..] else inq.nodes
    }

    ghost function Unread(): seq<byte>
      reads this, window, window.buf
    {
      if window.cursor < window.end <= window.buf.Length then window.buf[window.cursor..window.end] else []
    }

    ghost function View(): Recv
      requires Valid()
      reads this, inq, inq.nodes, window, window.buf, Arrays(inq.nodes)
      reads frame, frame.control, frame.data, frame.data.payload
    {
      Recv(frame.View(), Unread(), Texts(Waiting()))
    }

    constructor ()
      ensures Valid() && fresh(inq) && fresh(window) && fresh(parse)
      ensures fresh(frame) && fresh(frame.control) && fresh(frame.data)
      ensures !frame.headerParsed && View() == START.(frame := frame.View())
    {
      inq := new ListHead<Chunk>();
      window := new Window();
      frame := new SpdyFrame();
      parse := new byte[0];
      onHead := false;
    }

    method Enqueue(data: array<byte>, datalen: nat)
      requires Valid() && datalen <= data.Length && data != parse
      modifies inq, inq.nodes
      ensures Valid()
      ensures View() == old(View()).(queue := old(View()).queue + [data[..datalen]])
      ensures forall n :: n in inq.nodes ==> n in old(inq.nodes) || (fresh(n) && n.item == Chunk(data, datalen))
    {
      hide Arrays, ListHead.Valid, Texts, SpdyFrame.View, DataFrame.View, ControlFrame.View;
      var n := new ListNode(Chunk(data, datalen));
      ghost var was := Waiting();
      inq.Add(n);
      assert Waiting() == was + [n];
      TextsStay(was);
      TextsAppend(was, n);
    }

    /** spindly_phys_incoming: queue the chunk, or a copy of it. */
    method Incoming(data: array<byte>, datalen: nat, copy: bool) returns (rc: Code)
      requires Valid() && datalen <= data.Length && data != parse
      modifies inq, inq.nodes
      ensures Valid() && rc == Ok
      ensures View() == old(View()).(queue := old(View()).queue + [data[..datalen]])
      ensures forall n :: n in inq.nodes ==>
                n in old(inq.nodes) || (fresh(n) && if copy then fresh(n.item.data) else n.item.data == data)
    {
      hide Arrays, ListHead.Valid, Texts, SpdyFrame.View, DataFrame.View, ControlFrame.View;
      var mine := data;
      if copy {
        mine := Duplicate(data, datalen);
        TextsStay(Waiting());
      }
      assert mine[..datalen] == data[..datalen];
      Enqueue(mine, datalen);
      return Ok;
    }

    // remove_inqnode on the chunk the window has finished with.
    method DropHead()
      requires Valid() && onHead && window.cursor >= window.end
      modifies this, inq, inq.nodes
      ensures parse == old(parse)
      ensures Valid() && !onHead && inq.nodes == old(Waiting())
      ensures View() == old(View())
    {
      hide Arrays, ListHead.Valid, Texts, SpdyFrame.View, DataFrame.View, ControlFrame.View;
      var n := inq.First();
      HeadLinked(inq);
      Remove(n);
      onHead := false;
      TextsStay(Waiting());
    }

    method ReadHead() returns (more: bool)
      requires Valid() && !onHead && window.cursor >= window.end
      modifies this, window
      ensures parse == old(parse)
      ensures Valid() && (more <==> old(View()).queue != [])
      ensures View() ==
              if more then old(View()).(unread := old(View()).queue[0], queue := old(View()).queue[1..])
              else old(View())
    {
      hide Arrays, ListHead.Valid, Texts, SpdyFrame.View, DataFrame.View, ControlFrame.View;
      ghost var all := inq.nodes;
      TextsHead(all);
      var n := inq.First();
      if n == null {
        return false;
      }
      window.Use(n.item.data, n.item.len);
      onHead := true;
      TextsStay(all[1..]);
      assert Waiting() == all[1..];
      return true;
    }

    // The window is used up: go on with the next chunk, if there is one.
    method LoadNext() returns (more: bool)
      requires Valid() && window.cursor >= window.end
      modifies this, inq, inq.nodes, window
      ensures parse == old(parse)
      ensures Valid() && (more <==> old(View()).queue != [])
      ensures View() ==
              if more then old(View()).(unread := old(View()).queue[0], queue := old(View()).queue[1..])
              else old(View())
      ensures Suffix(inq.nodes, old(inq.nodes))
    {
      hide Arrays, ListHead.Valid, Texts, SpdyFrame.View, DataFrame.View, ControlFrame.View, Sized;
      if onHead {
        DropHead();
      }
      more := ReadHead();
    }

    /** parse_append: what is unread and the next chunk become one buffer. */
    method ParseAppend() returns (more: bool)
      requires Valid() && window.cursor <= window.end
      modifies this, parse, inq, inq.nodes, window
      ensures Valid() && window.cursor <= window.end && (more <==> old(View()).queue != [])
      ensures View() ==
              if more then
                old(View()).(unread := old(View()).unread + old(View()).queue[0], queue := old(View()).queue[1..])
              else old(View())
      ensures Suffix(inq.nodes, old(inq.nodes))
      ensures parse == old(parse) || fresh(parse)
    {
      hide Arrays, ListHead.Valid, Texts, SpdyFrame.View, DataFrame.View, ControlFrame.View;
      TextsHead(Waiting());
      var next := FirstWaiting();
      more := next != null;
      if more {
        MergeNext(next.item, View());
      }
    }

    method MergeNext(item: Chunk, ghost v: Recv)
      requires Valid() && v == View()
      requires window.cursor <= window.end && Waiting() != [] && item == Waiting()[0].item
      modifies this, parse, inq, inq.nodes, window
      ensures Valid() && window.cursor <= window.end
      ensures v.queue != [] && View() == Recv(v.frame, v.unread + v.queue[0], v.queue[1..])
      ensures Suffix(inq.nodes, old(inq.nodes))
      ensures parse == old(parse) || fresh(parse)
    {
      hide Arrays, ListHead.Valid, Texts, Sized, SpdyFrame.View, DataFrame.View, ControlFrame.View;
      var rest := window.end - window.cursor;
      var merged := MergeBytes(item, rest, v);
      Adopt(merged, rest + item.len, v);
    }

    method MergeBytes(item: Chunk, rest: nat, ghost v: Recv) returns (merged: array<byte>)
      requires Valid() && v == View()
      requires window.cursor + rest == window.end && Waiting() != [] && item == Waiting()[0].item
      modifies parse
      ensures inq.Valid() && frame.View() == v.frame && Texts(Waiting()) == v.queue
      ensures v.queue != [] && rest + item.len <= merged.Length && merged[..rest + item.len] == v.unread + v.queue[0]
      ensures (merged == parse || fresh(merged)) && frame.data.payload != merged
      ensures forall n :: n in inq.nodes ==> n.item.data != merged
    {
      hide Arrays, ListHead.Valid, Texts, SpdyFrame.View, DataFrame.View, ControlFrame.View;
      TextsHead(Waiting());
      merged := Merge(parse, window.buf, window.cursor, rest, item.data, item.len);
      TextsStay(Waiting());
    }

    // The merged bytes replace the chunks they came from.
    method Adopt(merged: array<byte>, length: nat, ghost v: Recv)
      requires inq.Valid() && Sized(inq.nodes) && (onHead ==> inq.nodes != []) && Waiting() != []
      requires length <= merged.Length && frame.data.payload != merged
      requires forall n :: n in inq.nodes ==> n.item.data != merged
      requires frame.View() == v.frame && Texts(Waiting()) == v.queue
      modifies this, inq, inq.nodes, window
      ensures Valid() && parse == merged && window.cursor <= window.end
      ensures View() == Recv(v.frame, merged[..length], v.queue[1..])
      ensures Suffix(inq.nodes, old(inq.nodes))
    {
      hide Arrays, ListHead.Valid, Texts, SpdyFrame.View, DataFrame.View, ControlFrame.View;
      ghost var left := Waiting()[1..];
      TextsHead(Waiting());
      DropMerged();
      parse := merged;
      window.Use(parse, length);
      TextsStay(left);
    }

    function FirstWaiting(): (n: ListNode?<Chunk>)
      requires inq.Valid() && (onHead ==> inq.nodes != [])
      reads this, inq, inq.nodes
      ensures n == if Waiting() == [] then null else Waiting()[0]
    {
      if onHead then Next(inq.First(), 0) else inq.First()
    }

    // remove_inqnode on the merged chunks: the one the window was reading, if it was, and the next.
    method DropMerged()
      requires inq.Valid() && (onHead ==> inq.nodes != []) && Waiting() != []
      modifies `onHead, inq, inq.nodes
      ensures inq.Valid() && !onHead && inq.nodes == old(Waiting())[1..]
    {
      hide Arrays, ListHead.Valid, Without;
      if onHead {
        var n := inq.First();
        HeadLinked(inq);
        Remove(n);
        onHead := false;
      }
      var next := inq.First();
      HeadLinked(inq);
      Remove(next);
    }

    // One parser step on what is unread.
    method Step(env: Env, ghost v: Recv) returns (rc: Code)
      requires Valid() && v == View() && window.cursor < window.end
      modifies window, frame, frame.control, frame.data
      ensures Valid() && frame.headerParsed
      ensures var r := ParseFrame(env, v.frame, v.unread);
              && rc == r.rc && View() == Recv(r.frame, Tail(v.unread, r.used), v.queue)
              && (rc == Insuff ==> window.cursor <= window.end)
    {
      hide Arrays, ListHead.Valid, Texts, ParseFrame;
      ghost var f, u := frame.View(), window.Unread();
      InsuffUsed(env, f, u);
      rc := frame.Parse(env, window);
      TextsStay(Waiting());
    }

    // A message is complete: the frame starts afresh, and a chunk used up is dropped.
    method Finish()
      requires Valid()
      modifies this, inq, inq.nodes, frame
      ensures Valid() && View() == old(View()).(frame := Reset(old(View()).frame))
      ensures parse == old(parse) && Suffix(inq.nodes, old(inq.nodes))
    {
      hide Arrays, ListHead.Valid, Texts, DataFrame.View, ControlFrame.View;
      frame.Init();
      TextsStay(Waiting());
      if onHead && window.cursor >= window.end {
        DropHead();
      }
    }

    // One turn of the demux loop.
    method Turn(env: Env, ghost v: Recv) returns (done: bool, rc: Code, found: bool)
      requires Valid() && v == View()
      modifies this, parse, inq, inq.nodes, window, frame, frame.control, frame.data
      ensures Valid() && Turned(env, v, View(), done, rc, found)
      ensures parse == old(parse) || fresh(parse)
      ensures Suffix(inq.nodes, old(inq.nodes))
    {
      hide Arrays, ListHead.Valid, Texts, ParseFrame, SpdyFrame.View, DataFrame.View, ControlFrame.View;
      hide Turned, Reassembly.Demux;
      if window.cursor >= window.end {
        var more := LoadNext();
        TurnLoads(env, v);
        return !more, Ok, false;
      }
      TurnParses(env, v);
      rc := Step(env, v);
      if rc == Ok {
        Finish();
        return true, Ok, true;
      }
      if rc != Insuff {
        return true, rc, false;
      }
      var more := ParseAppend();
      return !more, Ok, false;
    }

    /**
     spindly_phys_demux.  When a frame was found it stands in `frame` until the
     next call, though `headerParsed` is already cleared for the frame after it.
     */
    method Demux(env: Env) returns (rc: Code, found: bool)
      requires Valid()
      modifies this, parse, inq, inq.nodes, window, frame, frame.control, frame.data
      ensures Valid()
      ensures Answer(rc, if found then [frame.View().(headerParsed := true)] else [], View())
           == Reassembly.Demux(env, old(View()))
    {
      hide Arrays, ListHead.Valid, Texts, ParseFrame, SpdyFrame.View, DataFrame.View, ControlFrame.View;
      hide Turned, Reassembly.Demux;
      ghost var all := View();
      while true
        invariant Valid()
        invariant Reassembly.Demux(env, View()) == Reassembly.Demux(env, all)
        invariant parse == old(parse) || fresh(parse)
        invariant Suffix(inq.nodes, old(inq.nodes))
        decreases |View().queue|
      {
        ghost var v := View();
        var done;
        done, rc, found := Turn(env, v);
        TurnedOn(env, all, v, View(), done, rc, found);
        if done {
          return;
        }
      }
    }
  }

  lemma InsuffUsed(env: Env, f: Frame, w: seq<byte>)
    requires !f.headerParsed ==> |w| > 0
    ensures ParseFrame(env, f, w).rc == Insuff ==> ParseFrame(env, f, w).used <= |w|
  {
    hide Load32, Load16;
  }

  lemma TextsHead(nodes: seq<ListNode<Chunk>>)
    requires Sized(nodes)
    ensures nodes != [] ==> Texts(nodes) == [nodes[0].item.data[..nodes[0].item.len]] + Texts(nodes[1..])
  {
  }
}
