/**
 The receiving half joined to the streams: what demultiplexing parses is
 dispatched, and the next call looks the ids up in the table that results.
 */
module Inbound {
  import opened Bytes
  import opened Status
  import opened FrameFormat
  import opened Endpoint
  import opened EndpointLaws
  import opened Reassembly
  import opened Interleaved

  datatype Act = Arrive(chunk: seq<byte>) | Ask | Open(prio: nat, z: Deflate)

  // `stopped`: an `assert` of the dispatch stopped the program.
  datatype Story = Story(end: End, log: Log, stopped: bool)

  // Blocks inflate; the ids are those of the table.
  function EnvOf(e: End): Env { Env(e.ids.Keys, Ok, Abort, 0) }

  function DispatchAll(e: End, fs: seq<Frame>): (Code, End) {
    if fs == [] || fs[0].kind == DataKind then (Ok, e) else Dispatched(e, fs[0].control.body)
  }

  /** Any interleaving of arriving chunks, calls of demux, and streams opened here. */
  function Played(e: End, acts: seq<Act>): Story {
    if acts == [] then Story(e, Run([]), false)
    else
      var s := Played(e, acts[..|acts|-1]);
      match acts[|acts|-1]
      case Arrive(c) => s.(log := WithChunk(s.log, c))
      case Ask =>
        var (rc, d) := DispatchAll(s.end, Demux(EnvOf(s.end), s.log.state).got);
        Story(d, WithCall(s.log, EnvOf(s.end)), s.stopped || rc == Abort)
      case Open(prio, z) =>
        var (rc, d) := NewStream(s.end, prio, z);
        if rc == Abort then s else s.(end := d)
  }

  /** The same, for the receiving half alone. */
  function Events(e: End, acts: seq<Act>): seq<Event> {
    if acts == [] then []
    else
      var front := acts[..|acts|-1];
      Events(e, front) +
      match acts[|acts|-1]
      case Arrive(c) => [Incoming(c)]
      case Ask => [DemuxCall(EnvOf(Played(e, front).end))]
      case Open(_, _) => []
  }

  lemma {:induction false} SameLog(e: End, acts: seq<Act>)
    ensures Run(Events(e, acts)) == Played(e, acts).log
  {
    hide Demux, NewStream, Dispatched;
    if acts != [] {
      var front := acts[..|acts|-1];
      SameLog(e, front);
      var es, all := Events(e, front), Events(e, acts);
      if acts[|acts|-1].Open? {
        assert all == es;
      } else {
        assert all[..|all|-1] == es;
      }
    }
  }

  // ----- what the stream must be like

  predicate IsRequest(m: Message) { m.OfControl? && m.control.body.Syn? }

  /** Seen from the stream alone: ids of requests are new, not of this side's parity, and distinct; replies have one. */
  predicate Welcome(e: End, ms: seq<Message>) {
    && (forall i {:trigger ms[i]} :: 0 <= i < |ms| && IsRequest(ms[i]) ==>
          ms[i].control.body.id !in e.ids && !Mine(e.side, ms[i].control.body.id))
    && (forall i, j :: 0 <= i < j < |ms| && IsRequest(ms[i]) && IsRequest(ms[j]) ==>
          ms[i].control.body.id != ms[j].control.body.id)
    && (forall i {:trigger ms[i]} :: 0 <= i < |ms| && ms[i].OfControl? && ms[i].control.body.Reply? ==>
          ms[i].control.body.id != 0)
  }

  // What is needed of the end before, and kept.
  predicate Sound(e: End) {
    Mine(e.side, e.nextId) && forall id :: id in e.ids ==> e.ids[id] < |e.streams|
  }

  // After `ms` was delivered: every id known is one known before, one of this side, or one requested.
  predicate Grown(e: End, d: End, ms: seq<Message>) {
    && Sound(d) && d.side == e.side
    && (forall id :: id in d.ids ==> id in e.ids || Mine(e.side, id) || RequestedIn(ms, id))
    && (forall id :: RequestedIn(ms, id) ==> id in d.ids)
  }

  predicate RequestedIn(ms: seq<Message>, id: uint32) {
    exists m :: m in ms && IsRequest(m) && m.control.body.id == id
  }

  // Every message of a proper stream has a body of its kind.
  lemma {:induction false} Bodies(w: seq<byte>)
    ensures forall m :: m in AllMessages(w) && m.OfControl? ==>
              m.control.body.Reply? || (m.control.body.Syn? && m.control.body.prio < 4)
    decreases |w|
  {
    hide ReadSynFields, ReadReplyFields, LengthOf;
    if There(w) {
      var rest := AllMessages(w[HEADER + LengthOf(w)..]);
      Bodies(w[HEADER + LengthOf(w)..]);
      assert forall m :: m in [Decoded(w)] + rest <==> m == Decoded(w) || m in rest;
    }
  }

  // ----- one step

  lemma OpenGrows(e: End, d: End, ms: seq<Message>, prio: nat, z: Deflate)
    requires Grown(e, d, ms) && NewStream(d, prio, z).0 != Abort
    ensures Grown(e, NewStream(d, prio, z).1, ms)
  {
    hide Pack, RequestedIn;
  }

  lemma OneMoreRequested(ms: seq<Message>, m: Message)
    ensures forall id :: RequestedIn(ms + [m], id) <==> RequestedIn(ms, id) || (IsRequest(m) && m.control.body.id == id)
  {
    forall id ensures RequestedIn(ms + [m], id) <==> RequestedIn(ms, id) || (IsRequest(m) && m.control.body.id == id) {
      assert m in ms + [m];
      assert forall k :: k in ms + [m] <==> k in ms || k == m;
    }
  }

  lemma MessageGrows(e: End, d: End, ms: seq<Message>, m: Message)
    requires Grown(e, d, ms)
    requires m.OfControl? ==> m.control.body.Reply? || (m.control.body.Syn? && m.control.body.prio < 4)
    requires m.OfControl? && m.control.body.Reply? ==> m.control.body.id != 0
    ensures m.OfData? ==> Grown(e, d, ms + [m])
    ensures m.OfControl? ==>
              var (rc, d') := Dispatched(d, m.control.body); rc != Abort && Grown(e, d', ms + [m])
  {
    OneMoreRequested(ms, m);
    hide RequestedIn;
  }

  lemma StillSuits(e: End, d: End, ms: seq<Message>, k: nat)
    requires k <= |ms| && Welcome(e, ms) && Grown(e, d, ms[..k])
    ensures Suits(EnvOf(d), ms[k..])
  {
    forall m | m in ms[k..] && IsRequest(m) ensures m.control.body.id !in d.ids {
      var j :| 0 <= j < |ms| - k && ms[k..][j] == m;
      assert ms[k + j] == m;
    }
  }

  // ----- every run

  predicate Going(e: End, s: Story, ms: seq<Message>) {
    && !s.stopped && |s.log.got| <= |ms| && SeenAll(s.log.got) == ms[..|s.log.got|]
    && Grown(e, s.end, ms[..|s.log.got|])
  }

  lemma AskGoes(e: End, s: Story, ms: seq<Message>)
    requires Going(e, s, ms) && Welcome(e, ms)
    requires forall m :: m in ms && m.OfControl? ==>
               m.control.body.Reply? || (m.control.body.Syn? && m.control.body.prio < 4)
    requires var got := s.log.got + Demux(EnvOf(s.end), s.log.state).got; |got| <= |ms| && SeenAll(got) == ms[..|got|]
    ensures var (rc, d) := DispatchAll(s.end, Demux(EnvOf(s.end), s.log.state).got);
            Going(e, Story(d, WithCall(s.log, EnvOf(s.end)), s.stopped || rc == Abort), ms)
  {
    hide Demux, Grown, Dispatched;
    var a, k := Demux(EnvOf(s.end), s.log.state), |s.log.got|;
    AtMostOne(EnvOf(s.end), s.log.state);
    if a.got == [] {
      assert s.log.got + a.got == s.log.got;
    } else {
      var m := ms[k];
      assert m == SeenAll(s.log.got + a.got)[k] == Seen(a.got[0]);
      assert ms[..k + 1] == ms[..k] + [m];
      assert m in ms;
      MessageGrows(e, s.end, ms[..k], m);
    }
  }

  lemma {:induction false} StoryGoes(e: End, acts: seq<Act>, y: seq<byte>, ms: seq<Message>)
    requires var all := Played(e, acts).log.fed + y;
             Sound(e) && Proper(all) && ms == AllMessages(all) && Welcome(e, ms)
    ensures Going(e, Played(e, acts), ms) && AllSuit(Events(e, acts), ms)
  {
    hide Proper, AllMessages, Welcome, Going, Demux, NewStream, DispatchAll, Readable, Reading, Suits, Sound;
    if acts == [] {
      NothingYet(e, ms);
    } else {
      var front := acts[..|acts|-1];
      var s := Played(e, front);
      SameLog(e, front);
      SameLog(e, acts);
      match acts[|acts|-1]
      case Arrive(c) =>
        assert s.log.fed + c + y == s.log.fed + (c + y);
        StoryGoes(e, front, c + y, ms);
        ChunkGoes(e, s, c, ms);
        OneMoreSuits(Events(e, front), Incoming(c), ms);
      case Ask =>
        StoryGoes(e, front, y, ms);
        GoingSuits(e, s, ms);
        OneMoreSuits(Events(e, front), DemuxCall(EnvOf(s.end)), ms);
        Prefix(Events(e, acts), y, ms);
        Bodies(s.log.fed + y);
        AskGoes(e, s, ms);
      case Open(prio, z) =>
        StoryGoes(e, front, y, ms);
        assert Events(e, acts) == Events(e, front);
        OpenGoes(e, s, ms, prio, z);
    }
  }

  lemma NothingYet(e: End, ms: seq<Message>)
    requires Sound(e)
    ensures Going(e, Played(e, []), ms) && AllSuit([], ms)
  {
    assert SeenAll([]) == ms[..0];
  }

  lemma ChunkGoes(e: End, s: Story, c: seq<byte>, ms: seq<Message>)
    requires Going(e, s, ms)
    ensures Going(e, s.(log := WithChunk(s.log, c)), ms)
  {
    hide Grown;
  }

  lemma OpenGoes(e: End, s: Story, ms: seq<Message>, prio: nat, z: Deflate)
    requires Going(e, s, ms)
    ensures var (rc, d) := NewStream(s.end, prio, z); rc == Abort || Going(e, s.(end := d), ms)
  {
    hide Grown, NewStream;
    if NewStream(s.end, prio, z).0 != Abort {
      OpenGrows(e, s.end, ms[..|s.log.got|], prio, z);
    }
  }

  lemma GoingSuits(e: End, s: Story, ms: seq<Message>)
    requires Going(e, s, ms) && Welcome(e, ms)
    ensures |s.log.got| <= |ms| && Suits(EnvOf(s.end), ms[|s.log.got|..])
  {
    hide Welcome, Suits, Grown;
    StillSuits(e, s.end, ms, |s.log.got|);
  }

  lemma OneMoreSuits(es: seq<Event>, event: Event, ms: seq<Message>)
    requires AllSuit(es, ms)
    requires event.DemuxCall? ==> |Run(es).got| <= |ms| && Suits(event.env, ms[|Run(es).got|..])
    ensures AllSuit(es + [event], ms)
  {
    hide Suits, Run;
    assert (es + [event])[..|es|] == es;
  }

  // What was delivered is the beginning of the reference.
  lemma Prefix(es: seq<Event>, y: seq<byte>, ms: seq<Message>)
    requires Proper(Run(es).fed + y) && ms == AllMessages(Run(es).fed + y) && AllSuit(es, ms)
    ensures var got := Run(es).got; |got| <= |ms| && SeenAll(got) == ms[..|got|]
  {
    hide Proper, AllMessages, AllSuit, Run, Readable, Reading;
    ReadingIsReference(BLANK_FRAME, Run(es).fed + y);
    RunReads(es, y, ms);
  }

  /**
   A side that goes on opening streams while it receives.  If the ids that a
   proper stream requests are distinct, new and of the peer's parity, then
   whatever the chunks and the order of the calls, the program is not stopped,
   the messages are those of one reading of all bytes, in order and none left
   when a call finds none, and every request delivered is in the table.
   */
  lemma RequestsAreKnown(e: End, acts: seq<Act>)
    requires Sound(e) && Proper(Played(e, acts).log.fed) && Welcome(e, AllMessages(Played(e, acts).log.fed))
    ensures var s := Played(e, acts);
            && !s.stopped && s.log.rc == Ok
            && SeenAll(s.log.got) <= AllMessages(s.log.fed)
            && (s.log.idle ==> SeenAll(s.log.got) == AllMessages(s.log.fed))
            && forall m :: m in SeenAll(s.log.got) && IsRequest(m) ==> m.control.body.id in s.end.ids
  {
    hide Proper, AllMessages, Welcome, Run, AllSuit, Played, SeenAll, Sound;
    var s := Played(e, acts);
    var ms := AllMessages(s.log.fed);
    assert s.log.fed + [] == s.log.fed;
    StoryGoes(e, acts, [], ms);
    SameLog(e, acts);
    MixedReassembly(Events(e, acts));
    forall m | m in SeenAll(s.log.got) && IsRequest(m) ensures m.control.body.id in s.end.ids {
      assert RequestedIn(ms[..|s.log.got|], m.control.body.id);
    }
  }
}
