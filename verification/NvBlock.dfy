/** struct spdy_nv_block and its parser, printer and destructor (src/spdy_nv_block.c). */
module NvBlock {
  import opened Bytes
  import opened Status
  import opened CHeap
  import opened NvFormat
  import opened NvLaws

  // struct spdy_nv_pair; values_count is never set by the parser.
  datatype Slot = Slot(name: Ptr, values: Ptr)

  // ----- what a run of finished slots owns and spells

  ghost function OwnedBy(pairs: Ptr, ss: seq<Slot>): set<Ptr> {
    (if pairs == NULL then {} else {pairs}) + (set s | s in ss :: s.name) + (set s | s in ss :: s.values)
  }

  ghost predicate IsString(store: map<Ptr, seq<byte>>, p: Ptr) {
    p in store && |store[p]| > 0 && store[p][|store[p]|-1] == 0
  }

  /** The pair array and both strings of each finished pair are live allocations, no two the same. */
  ghost predicate Live(store: map<Ptr, seq<byte>>, pairs: Ptr, ss: seq<Slot>) {
    && (pairs != NULL ==> pairs in store)
    && (forall i {:trigger ss[i]} :: 0 <= i < |ss| ==>
          && IsString(store, ss[i].name) && IsString(store, ss[i].values)
          && ss[i].name != ss[i].values && ss[i].name != pairs && ss[i].values != pairs)
    && (forall i, j {:trigger ss[i], ss[j]} :: 0 <= i < j < |ss| ==>
          && ss[i].name != ss[j].name && ss[i].values != ss[j].values
          && ss[i].name != ss[j].values && ss[i].values != ss[j].name)
  }

  // The characters of a stored string, without its terminating NUL.
  ghost function Text(store: map<Ptr, seq<byte>>, p: Ptr): seq<byte> {
    if IsString(store, p) then store[p][..|store[p]|-1] else []
  }

  ghost function Texts(store: map<Ptr, seq<byte>>, ss: seq<Slot>): (ps: seq<Pair>)
    ensures |ps| == |ss|
    ensures forall i {:trigger ps[i]} :: 0 <= i < |ss| ==>
              ps[i] == Pair(Text(store, ss[i].name), Text(store, ss[i].values))
  {
    seq(|ss|, i requires 0 <= i < |ss| => Pair(Text(store, ss[i].name), Text(store, ss[i].values)))
  }

  // A block with no finished pair owns at most its array.
  lemma NoPairs(store: map<Ptr, seq<byte>>, pairs: Ptr)
    ensures OwnedBy(pairs, []) == if pairs == NULL then {} else {pairs}
    ensures Live(store, pairs, []) <==> pairs == NULL || pairs in store
    ensures Texts(store, []) == []
  {
  }

  // Two fresh strings make one more finished pair ...
  lemma GrowLive(store: map<Ptr, seq<byte>>, pairs: Ptr, ss: seq<Slot>, s: Slot, p: Pair)
    requires Live(store, pairs, ss) && pairs != NULL
    requires s.name !in store && s.values !in store && s.name != s.values
    ensures Live(store[s.name := p.name + [0]][s.values := p.value + [0]], pairs, ss + [s])
  {
    var all := ss + [s];
    assert forall i :: 0 <= i < |ss| ==> all[i] == ss[i];
  }

  // ... which reads back as the bytes it was copied from ...
  lemma GrowTexts(store: map<Ptr, seq<byte>>, pairs: Ptr, ss: seq<Slot>, s: Slot, p: Pair)
    requires Live(store, pairs, ss)
    requires s.name !in store && s.values !in store && s.name != s.values
    ensures Texts(store[s.name := p.name + [0]][s.values := p.value + [0]], ss + [s]) == Texts(store, ss) + [p]
  {
    assert (p.name + [0])[..|p.name|] == p.name && (p.value + [0])[..|p.value|] == p.value;
  }

  // ... and changes nothing outside the block.
  lemma GrowOwned(store: map<Ptr, seq<byte>>, pairs: Ptr, ss: seq<Slot>, s: Slot, a: seq<byte>, b: seq<byte>)
    requires s.name !in store && s.values !in store
    ensures store[s.name := a][s.values := b] - OwnedBy(pairs, ss + [s]) == store - OwnedBy(pairs, ss)
  {
    assert OwnedBy(pairs, ss + [s]) == OwnedBy(pairs, ss) + {s.name, s.values} by {
      assert forall t :: t in ss + [s] <==> t in ss || t == s;
    }
  }

  // strlen stops at the NUL that ends the text, or at one inside it.
  lemma {:induction false} CStrOfText(s: seq<byte>)
    requires |s| > 0 && s[|s|-1] == 0
    ensures CStr(s) == CStr(s[..|s|-1])
    ensures |CStr(s)| < |s|
  {
    if s[0] != 0 {
      CStrOfText(s[1..]);
      assert s[1..][..|s|-2] == s[..|s|-1][1..];
    }
  }

  lemma WrittenBytes(s: seq<byte>)
    requires |s| > 0 && s[|s|-1] == 0
    ensures var n, out := |CStr(s)| % 0x1_0000, WriteString(s[..|s|-1]);
            && |CStr(s)| < |s| && |out| == 2 + n
            && out[0] == Store16(n)[0] && out[1] == Store16(n)[1]
            && forall k :: 2 <= k < |out| ==> out[k] == s[k - 2]
  {
    CStrOfText(s);
  }

  lemma StringText(store: map<Ptr, seq<byte>>, p: Ptr)
    requires IsString(store, p)
    ensures p in store && CStr(store[p]) == CStr(Text(store, p))
  {
    CStrOfText(store[p]);
  }

  // Freeing the strings of one more finished pair.
  lemma FreedOnce(store: map<Ptr, seq<byte>>, pairs: Ptr, ss: seq<Slot>, i: nat)
    requires Live(store, pairs, ss) && i < |ss|
    ensures var left := store - OwnedBy(NULL, ss[..i]);
            && ss[i].name in left && ss[i].values in left && ss[i].name != ss[i].values
            && left - {ss[i].name} - {ss[i].values} == store - OwnedBy(NULL, ss[..i+1])
  {
    assert OwnedBy(NULL, ss[..i+1]) == OwnedBy(NULL, ss[..i]) + {ss[i].name, ss[i].values} by {
      assert ss[..i+1] == ss[..i] + [ss[i]];
      assert forall t :: t in ss[..i+1] <==> t in ss[..i] || t == ss[i];
    }
  }

  // What the parser's tests decide, in terms of the whole buffer `d`.
  lemma SliceOfSlice<T>(d: seq<T>, a: nat, b: nat, i: nat, j: nat)
    requires a <= b <= |d| && i <= j <= b - a
    ensures d[a..b][i..j] == d[a + i..a + j]
  {
    var t := d[a..b];
    assert forall k :: 0 <= k < |t| ==> t[k] == d[a + k];
  }

  lemma StringInPlace(d: seq<byte>, at: nat, max: nat)
    requires at <= max <= |d|
    ensures var (ok, t) := ReadString(d[at..max]);
            if at + 2 > max then !ok
            else
              var n: nat := Load16(d[at..at + 2]);
              if at + 2 + n > max then !ok else ok && t == d[at + 2..at + 2 + n]
  {
    if at + 2 <= max {
      var n: nat := Load16(d[at..at + 2]);
      assert Load16(d[at..max]) == n;
      if at + 2 + n <= max {
        SliceOfSlice(d, at, max, 2, 2 + n);
      }
    }
  }

  lemma ReadPairNeedsName(s: seq<byte>)
    ensures ReadPair(s).0 ==> ReadString(s).0
  {
  }

  lemma PairInPlace(d: seq<byte>, at: nat, max: nat)
    requires at <= max <= |d| && ReadString(d[at..max]).0
    ensures var name := ReadString(d[at..max]).1;
            && at + 2 + |name| <= max
            && ReadPair(d[at..max]).0 == ReadString(d[at + 2 + |name|..max]).0
            && (ReadPair(d[at..max]).0 ==>
                  ReadPair(d[at..max]).1 == Pair(name, ReadString(d[at + 2 + |name|..max]).1))
  {
    hide ReadString;
    var name := ReadString(d[at..max]).1;
    assert d[at..max][2 + |name|..] == d[at + 2 + |name|..max];
  }

  // The two ways a turn of ReadPairs can go.
  lemma ReadPairsStep(b: Partial, s: seq<byte>)
    ensures ReadPairs(b, s) ==
            if |b.pairs| >= b.count then Outcome(Ok, b, 0)
            else if !ReadPair(s).0 then Outcome(Insuff, b, 0)
            else
              var p := ReadPair(s).1;
              var q := ReadPairs(b.(pairs := b.pairs + [p]), s[Width(p)..]);
              q.(used := Width(p) + q.used)
  {
  }

  lemma {:induction false} PairsKept(b: Partial, s: seq<byte>)
    ensures b.pairs <= ReadPairs(b, s).block.pairs
    decreases b.count - |b.pairs|
  {
    hide ReadPair;
    if |b.pairs| < b.count && ReadPair(s).0 {
      var p := ReadPair(s).1;
      PairsKept(b.(pairs := b.pairs + [p]), s[Width(p)..]);
    }
  }

  const PAIR_SIZE: nat := 24  // sizeof(spdy_nv_pair) where pointers take 8 bytes

  class Block {
    var hasCount: bool
    var count: nat
    var pairsParsed: nat
    var pairs: Ptr          // the array of pairs, as an allocation ...
    var slots: array<Slot>  // ... and its elements

    ghost predicate Shape()
      reads this
    {
      && pairsParsed <= count
      && (!hasCount ==> pairs == NULL)
      && (pairs == NULL ==> pairsParsed == 0)
      && (pairs != NULL ==> slots.Length == count)
    }

    ghost function Finished(): seq<Slot>
      requires Shape()
      reads this, slots
    {
      if pairs == NULL then [] else slots[..pairsParsed]
    }

    ghost predicate Valid(h: Heap)
      reads this, slots, h
    {
      h.Valid() && Shape() && Live(h.store, pairs, Finished())
    }

    /** Every allocation this block answers for. */
    ghost function Owned(): set<Ptr>
      requires Shape()
      reads this, slots
    {
      OwnedBy(pairs, Finished())
    }

    /** Every pair filled in, by the parser or by hand; `pairsParsed` plays no part. */
    ghost predicate Filled(h: Heap)
      reads this, slots, h
    {
      && count <= slots.Length
      && forall i :: 0 <= i < count ==> IsString(h.store, slots[i].name) && IsString(h.store, slots[i].values)
    }

    ghost function Listed(h: Heap): seq<Pair>
      requires Filled(h)
      reads this, slots, h
    {
      Texts(h.store, slots[..count])
    }

    // A block that was parsed to its end is filled in, with the pairs parsed.
    lemma ParsedIsFilled(h: Heap)
      requires Valid(h) && pairsParsed == count && (count > 0 ==> pairs != NULL)
      ensures Filled(h) && Listed(h) == View(h).pairs
    {
      if count > 0 {
        forall i | 0 <= i < count ensures IsString(h.store, slots[i].name) && IsString(h.store, slots[i].values) {
          assert Finished()[i] == slots[i];
        }
      }
    }

    ghost function View(h: Heap): Partial
      requires Valid(h)
      reads this, slots, h
    {
      Partial(hasCount, count, Texts(h.store, Finished()))
    }

    // spdy_nv_block_init
    constructor (h: Heap)
      requires h.Valid()
      ensures Valid(h) && View(h) == EMPTY && Owned() == {} && fresh(slots)
    {
      hasCount, count, pairsParsed, pairs := false, 0, 0, NULL;
      slots := new Slot[0];
    }

    // The tests on a name or a value at `at`: is its length there, and as many bytes?
    static method Measure(data: array<byte>, at: nat, max: nat) returns (ok: bool, n: nat)
      requires at <= max <= data.Length
      ensures ok <==> ReadString(data[..][at..max]).0
      ensures ok ==> at + 2 + n <= max && ReadString(data[..][at..max]).1 == data[..][at + 2..at + 2 + n]
    {
      hide ReadString;
      StringInPlace(data[..], at, max);
      if at + 2 > max {
        return false, 0;
      }
      n := Load16([data[at], data[at + 1]]);
      assert Load16(data[..][at..at + 2]) == n;
      return at + 2 + n <= max, n;
    }

    // One name or value at `at`, copied and terminated.
    static method TakeString(h: Heap, data: array<byte>, at: nat, max: nat) returns (rc: Code, p: Ptr, next: nat)
      requires h.Valid() && at <= max <= data.Length
      modifies h
      ensures h.Valid()
      ensures h.refused == old(h.refused) + if rc == NoMem then 1 else 0
      ensures match rc
              case Insuff => !ReadString(data[..][at..max]).0
              case Ok =>
                var (ok, s) := ReadString(data[..][at..max]);
                && ok && next == at + 2 + |s| && next <= max
                && p != NULL && p !in old(h.store) && h.store == old(h.store)[p := s + [0]]
              case _ => rc == NoMem && ReadString(data[..][at..max]).0
      ensures rc != Ok ==> h.store == old(h.store)
    {
      hide ReadString;
      p, next := NULL, at;
      var ok, n := Measure(data, at, max);
      if !ok {
        return Insuff, p, next;
      }
      p := h.CopyString(data, at + 2, n);
      if p == NULL {
        return NoMem, p, next;
      }
      return Ok, p, at + 2 + n;
    }

    // One turn of the parser's loop: the pair at offset `at` goes into the next free slot.
    method ParsePair(h: Heap, data: array<byte>, at: nat, max: nat) returns (rc: Code, next: nat)
      requires h.Valid() && Shape() && hasCount && pairsParsed < count
      requires at <= max <= data.Length
      modifies h, slots
      ensures h.Valid()
      ensures pairs != NULL ==> forall i :: 0 <= i < pairsParsed ==> slots[i] == old(slots[i])
      ensures match rc
              case Ok => pairs != NULL && ReadPair(data[..][at..max]).0
              case Insuff => !ReadPair(data[..][at..max]).0 && (pairs == NULL ==> !ReadString(data[..][at..max]).0)
              case Abort => pairs == NULL && ReadString(data[..][at..max]).0
              case _ => rc == NoMem && pairs != NULL
      ensures h.refused == old(h.refused) + if rc == NoMem then 1 else 0
      ensures rc != Ok ==> h.store == old(h.store)
      ensures rc == Ok ==>
                var p, s := ReadPair(data[..][at..max]).1, slots[pairsParsed];
                && next == at + Width(p)
                && s.name !in old(h.store) && s.values !in old(h.store) && s.name != s.values
                && h.store == old(h.store)[s.name := p.name + [0]][s.values := p.value + [0]]
    {
      hide ReadPair, ReadString;
      next := at;
      if pairs == NULL {
        ReadPairNeedsName(data[..][at..max]);
        var ok, _ := Measure(data, at, max);
        // the name is stored through a pointer into an array that is not there
        rc := if ok then Abort else Insuff;
        return;
      }
      ReadPairNeedsName(data[..][at..max]);
      var name, value;
      rc, name, next := TakeString(h, data, at, max);
      if rc != Ok {
        return;
      }
      PairInPlace(data[..], at, max);
      slots[pairsParsed] := slots[pairsParsed].(name := name);
      rc, value, next := TakeString(h, data, next, max);
      if rc != Ok {
        h.Free(name);
        return;
      }
      slots[pairsParsed] := slots[pairsParsed].(values := value);
    }

    // The same, with the counter moved: what the block holds and owns grows by the pair.
    method TakePair(h: Heap, data: array<byte>, at: nat, max: nat) returns (rc: Code, next: nat)
      requires Valid(h) && hasCount && pairsParsed < count
      requires at <= max <= data.Length
      modifies `pairsParsed, h, slots
      ensures Valid(h)
      ensures h.store - Owned() == old(h.store - Owned())
      ensures match rc
              case Ok =>
                var (ok, p) := ReadPair(data[at..max]);
                ok && next == at + Width(p) && View(h) == old(View(h)).(pairs := old(View(h)).pairs + [p])
              case Insuff => !ReadPair(data[at..max]).0 && View(h) == old(View(h))
              case _ => (rc == NoMem || rc == Abort) && View(h) == old(View(h))
      ensures h.refused == old(h.refused) + if rc == NoMem then 1 else 0
      ensures rc == Abort <==> pairs == NULL && ReadString(data[at..max]).0
    {
      hide ReadPair, ReadString, Live, Texts, OwnedBy;
      ghost var store, ss := h.store, Finished();
      assert data[..][at..max] == data[at..max];
      rc, next := ParsePair(h, data, at, max);
      assert pairs != NULL ==> slots[..pairsParsed] == ss;
      if rc == Ok {
        ghost var s, p := slots[pairsParsed], ReadPair(data[at..max]).1;
        GrowLive(store, pairs, ss, s, p);
        GrowTexts(store, pairs, ss, s, p);
        GrowOwned(store, pairs, ss, s, p.name + [0], p.value + [0]);
        pairsParsed := pairsParsed + 1;
        assert Finished() == ss + [slots[pairsParsed - 1]];
      }
    }

    // The first two bytes: the count, and the array it calls for.
    method ParseCount(h: Heap, data: array<byte>, start: nat) returns (rc: Code)
      requires Valid(h) && !hasCount && start + 2 <= data.Length
      modifies this, h
      ensures Valid(h) && (slots == old(slots) || fresh(slots))
      ensures View(h) == Partial(true, Load16(data[start..start + 2]), [])
      ensures h.store - Owned() == old(h.store - Owned())
      ensures match rc
              case Ok => pairs == NULL <==> count == 0
              case _ => rc == NoMem && count > 0 && pairs == NULL
      ensures h.refused == old(h.refused) + if rc == NoMem then 1 else 0
    {
      hide Load16, Live, OwnedBy, Texts;
      ghost var store := h.store;
      NoPairs(store, NULL);
      count := Load16(data[start..start + 2]);
      hasCount := true;
      pairsParsed := 0;
      if count == 0 {
        return Ok;
      }
      pairs := h.Alloc(count * PAIR_SIZE);
      NoPairs(h.store, pairs);
      assert h.store - {pairs} == store;
      if pairs == NULL {
        return NoMem;
      }
      slots := new Slot[count](_ => Slot(NULL, NULL));
      return Ok;
    }

    // The parser's loop.
    method ParsePairs(h: Heap, data: array<byte>, start: nat, max: nat) returns (rc: Code, ghost used: nat)
      requires Valid(h) && start <= max <= data.Length
      requires hasCount
      modifies `pairsParsed, slots, h
      ensures Valid(h)
      ensures h.store - Owned() == old(h.store - Owned())
      ensures rc != NoMem && rc != Abort ==> Outcome(rc, View(h), used) == ReadPairs(old(View(h)), data[start..max])
      ensures rc == NoMem ==> View(h).pairs <= ReadPairs(old(View(h)), data[start..max]).block.pairs
      ensures rc == Abort <==> count > 0 && pairs == NULL && ReadString(data[start..max]).0
      ensures h.refused == old(h.refused) + if rc == NoMem then 1 else 0
    {
      hide ReadPair, ReadPairs, ReadString, Live, Texts, OwnedBy;
      var at := start;
      ghost var all := ReadPairs(View(h), data[at..max]);
      PairsKept(View(h), data[at..max]);
      while pairsParsed < count
        invariant Valid(h) && start <= at <= max
        invariant h.store - Owned() == old(h.store - Owned())
        invariant all == var q := ReadPairs(View(h), data[at..max]); q.(used := at - start + q.used)
        invariant View(h).pairs <= all.block.pairs
        invariant pairs == NULL ==> at == start
        invariant h.refused == old(h.refused)
        decreases count - pairsParsed
      {
        ghost var b, s, from := View(h), data[at..max], at;
        ReadPairsStep(b, s);
        rc, at := TakePair(h, data, at, max);
        if rc != Ok {
          used := from - start;
          return;
        }
        assert s[at - from..] == data[at..max];
        PairsKept(View(h), data[at..max]);
      }
      ReadPairsStep(View(h), data[at..max]);
      used := at - start;
      return Ok, used;
    }

    /**
     The parser on `length` bytes of `data` from `start`.  As long as no memory is
     refused it is Read; when some is, it stops there, and the pairs finished so
     far are those Read finds.  In every outcome the block owns exactly what it answers for, and
     no other allocation was made, changed or freed.  Called again after its
     array could not be allocated, it stops the program as soon as a name is there.
     */
    method Parse(h: Heap, data: array<byte>, start: nat, length: nat) returns (rc: Code, ghost used: nat)
      requires Valid(h) && start + length <= data.Length
      modifies this, slots, h
      ensures Valid(h) && (slots == old(slots) || fresh(slots))
      ensures h.store - Owned() == old(h.store - Owned())
      ensures rc != NoMem && rc != Abort ==>
                Outcome(rc, View(h), used) == Read(old(View(h)), data[start..start + length])
      ensures rc == Abort <==> old(hasCount && count > 0 && pairs == NULL) && ReadString(data[start..start + length]).0
      ensures h.refused == old(h.refused) + if rc == NoMem then 1 else 0
      ensures rc == NoMem ==>
                View(h).hasCount && View(h).pairs <= Read(old(View(h)), data[start..start + length]).block.pairs
    {
      hide ReadPairs, ReadString, Live, Texts, OwnedBy;
      var at, max := start, start + length;
      if !hasCount {
        if length < 2 {
          return Insuff, 0;
        }
        assert Load16(data[start..max]) == Load16(data[start..start + 2]);
        rc := ParseCount(h, data, start);
        at := at + 2;
        assert data[start..max][2..] == data[at..max];
        if rc == NoMem {
          return NoMem, 0;
        }
      }
      rc, used := ParsePairs(h, data, at, max);
      used := at - start + used;
    }

    /** Frees each owned allocation once, and nothing else. */
    method Destroy(h: Heap)
      requires Valid(h)
      modifies h
      ensures h.Valid() && h.store == old(h.store - Owned())
    {
      hide IsString;
      ghost var store, ss := h.store, Finished();
      if pairs != NULL {
        for i := 0 to pairsParsed
          invariant h.Valid() && h.store == store - OwnedBy(NULL, ss[..i])
        {
          assert ss[i] == slots[i];
          FreedOnce(store, pairs, ss, i);
          h.Free(slots[i].name);
          h.Free(slots[i].values);
        }
        assert ss[..pairsParsed] == ss;
        assert pairs !in OwnedBy(NULL, ss);
        h.Free(pairs);
      }
    }

    // BE_STORE_16 of the length, then memcpy, of one string at `cursor`.
    method PutString(h: Heap, dest: array<byte>, cursor: nat, p: Ptr) returns (next: nat)
      requires IsString(h.store, p)
      requires cursor + |WriteString(Text(h.store, p))| <= dest.Length
      modifies dest
      ensures next == cursor + |WriteString(Text(h.store, p))|
      ensures dest[..next] == old(dest[..cursor]) + WriteString(Text(h.store, p))
    {
      hide WriteString, CStr, Store16;
      ghost var was, out := dest[..cursor], WriteString(Text(h.store, p));
      var s := h.store[p];
      WrittenBytes(s);
      var length := |CStr(s)| % 0x1_0000;
      var head := Store16(length);
      dest[cursor], dest[cursor + 1] := head[0], head[1];
      forall k | 0 <= k < length {
        dest[cursor + 2 + k] := s[k];
      }
      next := cursor + 2 + length;
      assert forall k :: cursor <= k < next ==> dest[k] == out[k - cursor];
      assert dest[..next] == was + out;
    }

    method PutPair(h: Heap, dest: array<byte>, cursor: nat, i: nat) returns (next: nat)
      requires Filled(h) && i < count
      requires cursor + |WritePair(Listed(h)[i])| <= dest.Length
      modifies dest
      ensures next == cursor + |WritePair(Listed(h)[i])|
      ensures dest[..next] == old(dest[..cursor]) + WritePair(Listed(h)[i])
    {
      hide IsString, WriteString;
      assert slots[i] == slots[..count][i];
      next := PutString(h, dest, cursor, slots[i].name);
      next := PutString(h, dest, next, slots[i].values);
    }

    // The second pass.
    method PutPairs(h: Heap, dest: array<byte>)
      requires Filled(h)
      requires dest.Length == WriteSize(Listed(h))
      modifies dest
      ensures Write(Listed(h)) <= dest[..]
    {
      hide IsString, WritePair, Texts, PairsSize;
      ghost var ps := Listed(h);
      var head := Store16(count);
      dest[0], dest[1] := head[0], head[1];
      var cursor: nat := 2;
      assert dest[..2] == head;
      SizePasses(ps);
      assert ps[0..] == ps;
      for i := 0 to count
        invariant cursor <= dest.Length
        invariant dest[..cursor] + WritePairs(ps[i..]) == Write(ps)
      {
        assert ps[i..][1..] == ps[i + 1..];
        assert Write(ps) == dest[..cursor] + WritePair(ps[i]) + WritePairs(ps[i + 1..]);
        cursor := PutPair(h, dest, cursor, i);
      }
      assert dest[..cursor] == Write(ps);
    }

    /**
     The two-pass printer: a buffer of the size the first pass counted, whose
     front the second pass filled with the printed block.
     */
    method Pack(h: Heap) returns (rc: Code, dest: array<byte>, size: nat)
      requires Filled(h)
      modifies h`refused
      ensures rc == Ok || rc == NoMem
      ensures h.refused == old(h.refused) + if rc == NoMem then 1 else 0
      ensures rc == Ok ==>
                && fresh(dest) && dest.Length == size == WriteSize(Listed(h))
                && Write(Listed(h)) <= dest[..]
    {
      hide IsString, WriteString;
      ghost var ps := Listed(h);
      size := 2;
      for i := 0 to count
        invariant size + PairsSize(ps[i..]) == WriteSize(ps) && h.refused == old(h.refused)
      {
        assert slots[i] == slots[..count][i];
        StringText(h.store, slots[i].name);
        StringText(h.store, slots[i].values);
        size := size + 2 + |CStr(h.store[slots[i].name])|;
        size := size + 2 + |CStr(h.store[slots[i].values])|;
        assert ps[i..][1..] == ps[i + 1..];
      }
      dest := new byte[size];
      var ok := h.Room();
      if !ok {
        return NoMem, dest, size;
      }
      PutPairs(h, dest);
      return Ok, dest, size;
    }
  }
}
