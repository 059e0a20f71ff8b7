/** What the reader and the printer of name/value blocks promise about each other. */
module NvLaws {
  import opened Bytes
  import opened Status
  import opened NvFormat

  predicate NulFree(p: Pair) { 0 !in p.name && 0 !in p.value }

  predicate Fits(p: Pair) { |p.name| < 0x1_0000 && |p.value| < 0x1_0000 }

  predicate Printable(p: Pair) { NulFree(p) && Fits(p) }

  function Printed(p: Pair): Pair { Pair(Cut16(p.name), Cut16(p.value)) }

  function PrintedAll(ps: seq<Pair>): (r: seq<Pair>)
    ensures |r| == |ps|
    ensures forall i :: 0 <= i < |ps| ==> r[i] == Printed(ps[i])
  {
    seq(|ps|, i requires 0 <= i < |ps| => Printed(ps[i]))
  }

  function Widths(ps: seq<Pair>): nat {
    if ps == [] then 0 else Width(ps[0]) + Widths(ps[1..])
  }

  // ----- a C string survives exactly when it has no NUL, a length when it fits

  lemma {:induction false} CStrWhole(s: seq<byte>)
    ensures CStr(s) == s <==> 0 !in s
  {
    if |CStr(s)| < |s| {
      assert s[|CStr(s)|] == 0;
    }
  }

  lemma PrintedIff(p: Pair)
    ensures Printed(p) == p <==> Printable(p)
  {
    CStrWhole(p.name);
    CStrWhole(p.value);
  }

  // ----- one string, one pair

  lemma AfterCount(n: nat, rest: seq<byte>)
    requires n < 0x1_0000
    ensures Load16(Store16(n) + rest) == n
    ensures (Store16(n) + rest)[2..] == rest
  {
    LoadStore(n);
  }

  lemma ReadWrittenString(s: seq<byte>, rest: seq<byte>)
    ensures ReadString(WriteString(s) + rest) == (true, Cut16(s))
    ensures (WriteString(s) + rest)[2 + |Cut16(s)|..] == rest
  {
    assert WriteString(s) + rest == Store16(|Cut16(s)|) + (Cut16(s) + rest);
    AfterCount(|Cut16(s)|, Cut16(s) + rest);
  }

  lemma ReadWrittenPair(p: Pair, rest: seq<byte>)
    ensures ReadPair(WritePair(p) + rest) == (true, Printed(p))
    ensures |WritePair(p)| == Width(Printed(p))
    ensures (WritePair(p) + rest)[Width(Printed(p))..] == rest
  {
    assert WritePair(p) + rest == WriteString(p.name) + (WriteString(p.value) + rest);
    ReadWrittenString(p.name, WriteString(p.value) + rest);
    ReadWrittenString(p.value, rest);
  }

  /**
   A printed string byte by byte: its length up to the first NUL, cut to 16 bits
   and the more significant byte first, and as many of its bytes.
   */
  lemma StringForm(s: seq<byte>)
    ensures var n := |CStr(s)| % 0x1_0000;
            n <= |s| && WriteString(s) == [n / 0x100, n % 0x100] + s[..n]
  {
    var n := |CStr(s)| % 0x1_0000;
    assert Cut16(s) == s[..n];
  }

  /** A printable pair, then. */
  lemma PairForm(p: Pair)
    requires Printable(p)
    ensures WritePair(p) == [|p.name| / 0x100, |p.name| % 0x100] + p.name +
                            [|p.value| / 0x100, |p.value| % 0x100] + p.value
  {
    CStrWhole(p.name);
    CStrWhole(p.value);
    StringForm(p.name);
    StringForm(p.value);
  }

  /** And a printed block: the count, and then the pairs in order. */
  lemma BlockForm(ps: seq<Pair>, p: Pair)
    requires |ps| + 1 < 0x1_0000
    ensures Write([]) == [0, 0]
    ensures Write(ps + [p])[..2] == [(|ps| + 1) / 0x100, (|ps| + 1) % 0x100]
    ensures Write(ps + [p])[2..] == Write(ps)[2..] + WritePair(p)
  {
    hide WritePair;
    PairsAppend(ps, p);
    assert Write(ps)[2..] == WritePairs(ps) && Write(ps + [p])[2..] == WritePairs(ps + [p]);
  }

  lemma {:induction false} PairsAppend(ps: seq<Pair>, p: Pair)
    ensures WritePairs(ps + [p]) == WritePairs(ps) + WritePair(p)
  {
    hide WritePair;
    if ps != [] {
      assert (ps + [p])[1..] == ps[1..] + [p];
      PairsAppend(ps[1..], p);
    } else {
      assert [p][1..] == [];
    }
  }

  // ----- a whole block

  lemma {:induction false} ReadWrittenPairs(b: Partial, ps: seq<Pair>, suffix: seq<byte>)
    requires b.count == |b.pairs| + |ps|
    ensures ReadPairs(b, WritePairs(ps) + suffix)
         == Outcome(Ok, b.(pairs := b.pairs + PrintedAll(ps)), |WritePairs(ps)|)
    decreases |ps|
  {
    if ps == [] {
      assert b.pairs + PrintedAll(ps) == b.pairs;
    } else {
      var rest := WritePairs(ps[1..]) + suffix;
      var next := b.(pairs := b.pairs + [Printed(ps[0])]);
      assert WritePairs(ps) + suffix == WritePair(ps[0]) + rest;
      ReadWrittenPair(ps[0], rest);
      ReadWrittenPairs(next, ps[1..], suffix);
      PrintedCons(b.pairs, ps);
    }
  }

  lemma PrintedCons(done: seq<Pair>, ps: seq<Pair>)
    requires ps != []
    ensures done + [Printed(ps[0])] + PrintedAll(ps[1..]) == done + PrintedAll(ps)
  {
  }

  /**
   Reading what was printed, whatever follows it: the pairs as printed, and the
   reader stops exactly at the end of the block.
   */
  lemma ReadWritten(ps: seq<Pair>, suffix: seq<byte>)
    requires |ps| < 0x1_0000
    ensures Read(EMPTY, Write(ps) + suffix)
         == Outcome(Ok, Partial(true, |ps|, PrintedAll(ps)), |Write(ps)|)
  {
    assert Write(ps) + suffix == Store16(|ps|) + (WritePairs(ps) + suffix);
    AfterCount(|ps|, WritePairs(ps) + suffix);
    ReadWrittenPairs(Partial(true, |ps|, []), ps, suffix);
    assert [] + PrintedAll(ps) == PrintedAll(ps);
  }

  lemma {:induction false} ReadPairsCount(b: Partial, s: seq<byte>)
    requires |b.pairs| <= b.count
    ensures var r := ReadPairs(b, s);
            && r.block.hasCount == b.hasCount && r.block.count == b.count
            && b.pairs <= r.block.pairs && |r.block.pairs| <= b.count
            && (r.rc == Ok <==> |r.block.pairs| == b.count) && (r.rc == Ok || r.rc == Insuff)
            && r.used == Widths(r.block.pairs[|b.pairs|..])
    decreases b.count - |b.pairs|
  {
    hide ReadPair;
    if |b.pairs| < b.count && ReadPair(s).0 {
      var p := ReadPair(s).1;
      var next := b.(pairs := b.pairs + [p]);
      ReadPairsCount(next, s[Width(p)..]);
      var all := ReadPairs(next, s[Width(p)..]).block.pairs;
      assert all[|b.pairs|] == next.pairs[|b.pairs|] == p;
      assert all[|b.pairs|..] == [p] + all[|b.pairs|+1..];
    }
  }

  /**
   The round trip: printing a block and reading it back gives the block again
   exactly when its count and lengths fit 16 bits and no string holds a NUL.
   */
  lemma RoundTrip(ps: seq<Pair>)
    ensures Read(EMPTY, Write(ps)) == Outcome(Ok, Partial(true, |ps|, ps), |Write(ps)|)
       <==> |ps| < 0x1_0000 && forall p :: p in ps ==> Printable(p)
  {
    assert Write(ps) + [] == Write(ps);
    if |ps| < 0x1_0000 {
      ReadWritten(ps, []);
      forall p | p in ps ensures Printed(p) == p <==> Printable(p) { PrintedIff(p); }
      if PrintedAll(ps) == ps {
        forall p | p in ps ensures Printable(p) {
          var i :| 0 <= i < |ps| && ps[i] == p;
          assert PrintedAll(ps)[i] == Printed(p);
        }
      }
    } else {
      ReadPairsCount(Partial(true, Load16(Write(ps)), []), Write(ps)[2..]);
    }
  }

  // ----- the printer's two passes

  predicate ShortStrings(p: Pair) { |CStr(p.name)| < 0x1_0000 && |CStr(p.value)| < 0x1_0000 }

  lemma PairSize(p: Pair)
    ensures var n := 4 + |CStr(p.name)| + |CStr(p.value)|;
            |WritePair(p)| <= n && (|WritePair(p)| == n <==> ShortStrings(p))
  {
    hide WriteString, CStr;
    StringSize(p.name);
    StringSize(p.value);
  }

  lemma StringSize(s: seq<byte>)
    ensures |WriteString(s)| <= 2 + |CStr(s)| && (|WriteString(s)| == 2 + |CStr(s)| <==> |CStr(s)| < 0x1_0000)
  {
    hide CStr, Store16;
  }

  lemma {:induction false} PairsSizes(ps: seq<Pair>)
    ensures |WritePairs(ps)| <= PairsSize(ps)
    ensures |WritePairs(ps)| == PairsSize(ps) <==> forall p :: p in ps ==> ShortStrings(p)
  {
    if ps != [] {
      PairsSizes(ps[1..]);
      PairSize(ps[0]);
      hide WritePair, CStr, ShortStrings;
      assert forall p :: p in ps <==> p == ps[0] || p in ps[1..];
    }
  }

  /** The buffer sized by the first pass always holds the second, and is filled exactly when no length is cut. */
  lemma SizePasses(ps: seq<Pair>)
    ensures |Write(ps)| <= WriteSize(ps)
    ensures |Write(ps)| == WriteSize(ps) <==> forall p :: p in ps ==> ShortStrings(p)
  {
    PairsSizes(ps);
  }

  // ----- printing what was read

  lemma RewrittenString(s: seq<byte>)
    requires ReadString(s).0
    ensures var t := ReadString(s).1;
            && (0 !in t ==> WriteString(t) == s[..2 + |t|])
            && (0 in t ==> |WriteString(t)| < 2 + |t|)
  {
    var t := ReadString(s).1;
    CStrWhole(t);
    StoreLoad(s[..2]);
    assert Load16(s) == Load16(s[..2]);
    assert s[..2 + |t|] == s[..2] + s[2..2 + |t|];
  }

  lemma RewrittenPair(s: seq<byte>)
    requires ReadPair(s).0
    ensures var p := ReadPair(s).1;
            && (NulFree(p) ==> WritePair(p) == s[..Width(p)])
            && |WritePair(p)| <= Width(p)
            && (!NulFree(p) ==> |WritePair(p)| < Width(p))
  {
    hide WriteString, Load16;
    var p := ReadPair(s).1;
    RewrittenString(s);
    RewrittenString(s[2 + |p.name|..]);
    assert s[..Width(p)] == s[..2 + |p.name|] + s[2 + |p.name|..][..2 + |p.value|];
  }

  // Printed, the pairs are the first `n` bytes of `s` exactly if they hold no NUL, and never more.
  predicate Spells(ps: seq<Pair>, s: seq<byte>, n: nat) {
    && |WritePairs(ps)| <= n <= |s|
    && (WritePairs(ps) == s[..n] <==> forall p :: p in ps ==> NulFree(p))
  }

  lemma {:induction false} RewrittenPairs(b: Partial, s: seq<byte>)
    requires |b.pairs| <= b.count && ReadPairs(b, s).rc == Ok
    ensures var r := ReadPairs(b, s);
            b.pairs <= r.block.pairs && Spells(r.block.pairs[|b.pairs|..], s, r.used)
    decreases b.count - |b.pairs|
  {
    hide ReadPair, WritePair, NulFree, Spells;
    if |b.pairs| >= b.count {
      NoneSpelled(s);
      assert b.pairs[|b.pairs|..] == [];
    } else {
      var p := ReadPair(s).1;
      var next, t := b.(pairs := b.pairs + [p]), s[Width(p)..];
      RewrittenPairs(next, t);
      RewrittenPair(s);
      var r := ReadPairs(next, t);
      PairAdded(b.pairs, p, r.block.pairs);
      RewrittenCons(p, r.block.pairs[|next.pairs|..], s, r.used);
    }
  }

  lemma NoneSpelled(s: seq<byte>)
    ensures Spells([], s, 0)
  {
  }

  lemma PairAdded(done: seq<Pair>, p: Pair, all: seq<Pair>)
    requires done + [p] <= all
    ensures done <= all && all[|done|..] == [p] + all[|done + [p]|..]
  {
    assert all[|done|] == (done + [p])[|done|];
    assert done == (done + [p])[..|done|] == all[..|done|];
  }

  lemma RewrittenCons(p: Pair, added: seq<Pair>, s: seq<byte>, n: nat)
    requires Width(p) <= |s| && |WritePair(p)| <= Width(p) && Spells(added, s[Width(p)..], n)
    requires NulFree(p) ==> WritePair(p) == s[..Width(p)]
    requires !NulFree(p) ==> |WritePair(p)| < Width(p)
    ensures Spells([p] + added, s, Width(p) + n)
  {
    hide WritePair, NulFree;
    assert ([p] + added)[1..] == added;
    assert s[..Width(p) + n] == s[..Width(p)] + s[Width(p)..][..n];
    if NulFree(p) {
      FrontsAgree(WritePair(p), WritePairs(added), s[..Width(p)], s[Width(p)..][..n]);
    }
  }

  lemma FrontsAgree<T>(a: seq<T>, b: seq<T>, c: seq<T>, d: seq<T>)
    requires |a| == |c|
    ensures a + b == c + d <==> a == c && b == d
  {
    if a + b == c + d {
      assert a == (a + b)[..|a|] && b == (a + b)[|a|..];
      assert c == (c + d)[..|c|] && d == (c + d)[|c|..];
    }
  }

  /** Printing a block that was read reproduces the bytes it came from exactly when it holds no NUL. */
  lemma Rewritten(s: seq<byte>)
    requires Read(EMPTY, s).rc == Ok
    ensures var r := Read(EMPTY, s);
            Write(r.block.pairs) == s[..r.used] <==> forall p :: p in r.block.pairs ==> NulFree(p)
  {
    hide ReadPairs, WritePairs, Store16, NulFree;
    var b, t := Partial(true, Load16(s), []), s[2..];
    ReadPairsCount(b, t);
    RewrittenPairs(b, t);
    StoreLoad(s[..2]);
    assert Load16(s) == Load16(s[..2]);
    var r := ReadPairs(b, t);
    assert r.block.pairs[0..] == r.block.pairs;
    assert s[..2 + r.used] == s[..2] + t[..r.used];
    FrontsAgree(Store16(|r.block.pairs|), WritePairs(r.block.pairs), s[..2], t[..r.used]);
  }

  // ----- stopping early, and going on

  lemma ReadStringCut(s: seq<byte>, c: nat)
    requires c <= |s|
    ensures ReadString(s[..c]).0 <==> ReadString(s).0 && 2 + |ReadString(s).1| <= c
    ensures ReadString(s[..c]).0 ==> ReadString(s[..c]) == ReadString(s)
  {
    if c >= 2 {
      assert s[..c][..2] == s[..2];
      assert Load16(s[..c]) == Load16(s);
      if ReadString(s[..c]).0 {
        assert s[..c][2..2 + Load16(s)] == s[2..2 + Load16(s)];
      }
    }
  }

  lemma ReadPairCut(s: seq<byte>, c: nat)
    requires c <= |s|
    ensures ReadPair(s[..c]).0 <==> ReadPair(s).0 && Width(ReadPair(s).1) <= c
    ensures ReadPair(s[..c]).0 ==> ReadPair(s[..c]) == ReadPair(s)
  {
    ReadStringCut(s, c);
    if ReadString(s[..c]).0 {
      var n := 2 + |ReadString(s).1|;
      assert s[..c][n..] == s[n..][..c - n];
      ReadStringCut(s[n..], c - n);
    }
  }

  lemma {:induction false} ResumePairs(b: Partial, s: seq<byte>, c: nat)
    requires c <= |s|
    ensures var r := ReadPairs(b, s[..c]);
            ReadPairs(b, s) == var q := ReadPairs(r.block, s[r.used..]); q.(used := r.used + q.used)
    decreases b.count - |b.pairs|
  {
    hide ReadPair;
    ReadPairCut(s, c);
    assert s[0..] == s;
    if |b.pairs| < b.count && ReadPair(s[..c]).0 {
      var p := ReadPair(s).1;
      var next, w := b.(pairs := b.pairs + [p]), Width(p);
      assert s[..c][w..] == s[w..][..c - w];
      ResumePairs(next, s[w..], c - w);
      var r := ReadPairs(next, s[w..][..c - w]);
      assert s[w..][r.used..] == s[w + r.used..];
    }
  }

  /** One interruption, wherever it falls: going on from the first unfinished pair gives the one-shot result. */
  lemma Resume(b: Partial, s: seq<byte>, c: nat)
    requires c <= |s|
    ensures var r := Read(b, s[..c]);
            Read(b, s) == var q := Read(r.block, s[r.used..]); q.(used := r.used + q.used)
  {
    hide ReadPairs;
    assert s[0..] == s;
    if b.hasCount {
      ResumePairs(b, s, c);
      ReadPairsKeepsCount(b, s[..c]);
    } else if c >= 2 {
      var first := Partial(true, Load16(s), []);
      assert Load16(s[..c]) == Load16(s);
      assert s[..c][2..] == s[2..][..c - 2];
      ResumePairs(first, s[2..], c - 2);
      var r := ReadPairs(first, s[2..][..c - 2]);
      ReadPairsKeepsCount(first, s[2..][..c - 2]);
      assert s[2..][r.used..] == s[2 + r.used..];
    }
  }

  lemma {:induction false} ReadPairsKeepsCount(b: Partial, s: seq<byte>)
    ensures ReadPairs(b, s).block.hasCount == b.hasCount
    decreases b.count - |b.pairs|
  {
    if |b.pairs| < b.count && ReadPair(s).0 {
      var p := ReadPair(s).1;
      ReadPairsKeepsCount(b.(pairs := b.pairs + [p]), s[Width(p)..]);
    }
  }

  /** The caller's loop: at every cut the bytes so far, from the first unfinished pair on, are handed in again. */
  function ReadInSteps(b: Partial, s: seq<byte>, at: nat, cuts: seq<nat>): Outcome
    requires at <= |s| && Rising(cuts, |s|) && (cuts == [] || at <= cuts[0])
    decreases |cuts|
  {
    if cuts == [] then
      var q := Read(b, s[at..]);
      q.(used := at + q.used)
    else
      var r := Read(b, s[at..cuts[0]]);
      ReadInSteps(r.block, s, at + r.used, cuts[1..])
  }

  /** Any number of interruptions. */
  lemma {:induction false} ResumeMany(b: Partial, s: seq<byte>, at: nat, cuts: seq<nat>)
    requires at <= |s| && Rising(cuts, |s|) && (cuts == [] || at <= cuts[0])
    ensures ReadInSteps(b, s, at, cuts) == var q := Read(b, s[at..]); q.(used := at + q.used)
    decreases |cuts|
  {
    hide Read;
    if cuts != [] {
      var t, c := s[at..], cuts[0] - at;
      assert t[..c] == s[at..cuts[0]];
      Resume(b, t, c);
      var r := Read(b, t[..c]);
      assert t[r.used..] == s[at + r.used..];
      ResumeMany(r.block, s, at + r.used, cuts[1..]);
    }
  }

  lemma {:induction false} CutPairs(b: Partial, s: seq<byte>, c: nat)
    requires |b.pairs| <= b.count && ReadPairs(b, s).rc == Ok && c < ReadPairs(b, s).used
    ensures var whole, part := ReadPairs(b, s), ReadPairs(b, s[..c]);
            && part.rc == Insuff
            && part.block.hasCount == b.hasCount && part.block.count == b.count
            && part.block.pairs < whole.block.pairs
            && part.used <= c < part.used + Width(whole.block.pairs[|part.block.pairs|])
    decreases b.count - |b.pairs|
  {
    hide ReadPair;
    ReadPairsCount(b, s);
    ReadPairCut(s, c);
    var p := ReadPair(s).1;
    var next, w := b.(pairs := b.pairs + [p]), Width(p);
    ReadPairsCount(next, s[w..]);
    if ReadPair(s[..c]).0 {
      assert s[..c][w..] == s[w..][..c - w];
      CutPairs(next, s[w..], c - w);
    } else {
      assert ReadPairs(b, s).block.pairs[|b.pairs|] == next.pairs[|b.pairs|];
    }
  }

  /**
   The prefix law: a block cut short anywhere reads as insufficient data, and
   the pairs reported are exactly those that lie wholly before the cut.
   */
  lemma StrictPrefix(s: seq<byte>, c: nat)
    requires Read(EMPTY, s).rc == Ok && c < Read(EMPTY, s).used
    ensures var whole, part := Read(EMPTY, s), Read(EMPTY, s[..c]);
            && part.rc == Insuff
            && part.block.hasCount == (c >= 2)
            && (c < 2 ==> part == Outcome(Insuff, EMPTY, 0))
            && (c >= 2 ==>
                  && part.block.count == whole.block.count
                  && part.block.pairs < whole.block.pairs
                  && part.used == 2 + Widths(part.block.pairs)
                  && part.used <= c < part.used + Width(whole.block.pairs[|part.block.pairs|]))
  {
    hide ReadPairs;
    if c >= 2 {
      var first := Partial(true, Load16(s), []);
      assert Load16(s[..c]) == Load16(s);
      assert s[..c][2..] == s[2..][..c - 2];
      CutPairs(first, s[2..], c - 2);
      ReadPairsCount(first, s[2..]);
      ReadPairsCount(first, s[2..][..c - 2]);
      var part := ReadPairs(first, s[2..][..c - 2]);
      assert part.block.pairs[0..] == part.block.pairs;
    }
  }
}
