/** The streams of struct spindly_phys: the list that holds them and the table that finds them by id. */
module Streams {
  import opened Bytes
  import opened Status
  import opened IntrusiveList
  import opened StreamHash
  import opened Endpoint

  // struct spindly_stream, without the fields nothing reads; `key` is its id in the table.
  class SpindlyStream {
    var streamid: uint32
    var prio: nat
    var state: StreamState
    ghost var key: uint32

    constructor (streamid: uint32, prio: nat, ghost key: uint32)
      ensures Row() == Stream(streamid, key, prio, New)
    {
      this.streamid, this.prio, this.state, this.key := streamid, prio, New, key;
    }

    ghost function Row(): Stream
      reads this
    {
      Stream(streamid, key, prio, state)
    }
  }

  ghost function Items(nodes: seq<ListNode<SpindlyStream>>): (ss: seq<SpindlyStream>)
    ensures |ss| == |nodes|
    ensures forall i {:trigger ss[i]} :: 0 <= i < |ss| ==> ss[i] == nodes[i].item
  {
    seq(|nodes|, i requires 0 <= i < |nodes| => nodes[i].item)
  }

  ghost function Rows(ss: seq<SpindlyStream>): (rows: seq<Stream>)
    reads ss
    ensures |rows| == |ss|
    ensures forall i {:trigger rows[i]} :: 0 <= i < |ss| ==> rows[i] == ss[i].Row()
  {
    seq(|ss|, i requires 0 <= i < |ss| reads ss => ss[i].Row())
  }

  // The table holds, for each id, the stream at the position `ids` gives.
  ghost predicate Finds(table: map<uint32, SpindlyStream>, ids: map<uint32, nat>, ss: seq<SpindlyStream>) {
    && table.Keys == ids.Keys
    && (forall id :: id in ids ==> ids[id] < |ss| && table[id] == ss[ids[id]])
  }

  lemma FindsMore(table: map<uint32, SpindlyStream>, ids: map<uint32, nat>, ss: seq<SpindlyStream>, id: uint32, i: nat)
    requires Finds(table, ids, ss) && i < |ss|
    ensures id in table <==> id in ids
    ensures id !in ids ==> Finds(table[id := ss[i]], ids[id := i], ss)
  {
  }

  class Registry {
    const streams: ListHead<SpindlyStream>
    const streamhash: Hash<SpindlyStream>
    var numStreams: nat
    ghost var ids: map<uint32, nat>
    ghost var all: seq<SpindlyStream>
    ghost var Repr: set<object>

    ghost predicate Valid()
      reads this, Repr
    {
      && this in Repr && streams in Repr && streamhash in Repr && streamhash.lhead in Repr
      && (forall n :: n in streams.nodes ==> n in Repr) && (forall n :: n in streamhash.lhead.nodes ==> n in Repr)
      && (forall s :: s in all ==> s in Repr)
      && streams.Valid() && streamhash.Valid()
      && all == Items(streams.nodes) && Distinct(all)
      && numStreams == |all|
      && Finds(streamhash.Contents(), ids, all)
    }

    ghost function List(): seq<Stream>
      requires Valid()
      reads this, Repr
    {
      Rows(all)
    }

    constructor ()
      ensures Valid() && all == [] && ids == map[] && numStreams == 0 && fresh(Repr)
    {
      streams := new ListHead<SpindlyStream>();
      streamhash := new Hash<SpindlyStream>();
      numStreams := 0;
      ids, all := map[], [];
      new;
      Repr := {this, streams, streamhash, streamhash.lhead};
    }

    /** _spindly_phys_add_stream. */
    method AddStream(s: SpindlyStream)
      requires Valid() && s !in Repr
      modifies Repr
      ensures Valid() && fresh(Repr - old(Repr) - {s}) && Repr >= old(Repr) + {s}
      ensures all == old(all) + [s] && ids == old(ids)
      ensures forall t :: t in all ==> t.Row() == old(t.Row())
    {
      hide ListHead.Valid, OneNodePerId, Table, Entries;
      var n := new ListNode(s);
      streams.Add(n);
      numStreams := numStreams + 1;
      all := all + [s];
      Repr := Repr + {n, s};
      Undisturbed(streamhash.lhead);
    }

    /** _spindly_hash_store, whose result _spindly_stream_init throws away: an id that is taken stays as it is. */
    method Register(id: uint32, s: SpindlyStream, ghost i: nat)
      requires Valid() && id != 0 && i < |all| && all[i] == s
      modifies Repr
      ensures Valid() && fresh(Repr - old(Repr)) && Repr >= old(Repr)
      ensures all == old(all) && ids == if id in old(ids) then old(ids) else old(ids)[id := i]
      ensures forall t :: t in all ==> t.Row() == old(t.Row())
    {
      hide ListHead.Valid, OneNodePerId, Table, Entries, Distinct, Items, Finds, Hash.Contents;
      FindsMore(streamhash.Contents(), ids, all, id, i);
      var _ := streamhash.Store(id, s);
      assert forall t :: t in all ==> t.Row() == old(t.Row());
      if id !in ids {
        ids := ids[id := i];
      }
      Repr := Repr + set n | n in streamhash.lhead.nodes;
      Undisturbed(streams);
    }

    /** _spindly_hash_get on the stream table. */
    method Find(id: uint32) returns (s: SpindlyStream?)
      requires Valid() && id != 0
      ensures s != null <==> id in ids
      ensures s != null ==> s == all[ids[id]]
    {
      hide ListHead.Valid, OneNodePerId, Table, Entries, Distinct, Items, Hash.Contents;
      var n, _ := streamhash.Get(id);
      if n == null {
        return null;
      }
      return n.item.ptr;
    }

    method SetState(s: SpindlyStream, state: StreamState, ghost i: nat)
      requires Valid() && i < |all| && all[i] == s
      modifies s
      ensures Valid() && Repr == old(Repr) && all == old(all) && ids == old(ids)
      ensures List() == old(List())[i := old(List())[i].(state := state)]
      ensures s.Row() == old(s.Row()).(state := state)
    {
      hide ListHead.Valid, OneNodePerId, Table, Entries, Items, Finds;
      ghost var rows := List();
      s.state := state;
      Undisturbed(streams);
      Undisturbed(streamhash.lhead);
      forall j | 0 <= j < |all| && j != i ensures all[j].Row() == rows[j] {
        assert all[j] != s;
      }
      assert List() == rows[i := rows[i].(state := state)];
    }
  }
}
