/**
 Big-endian loads and stores, as the macros of src/spdy_bytes.h perform them.
 Machine words are integers with explicit bounds; a C mask becomes a `%` by a
 power of two.
 */
module Bytes {

  type byte = x: int | 0 <= x < 0x100
  type uint16 = x: int | 0 <= x < 0x1_0000
  type uint24 = x: int | 0 <= x < 0x100_0000
  type uint32 = x: int | 0 <= x < 0x1_0000_0000

  function Load16(s: seq<byte>): uint16
    requires |s| >= 2
  {
    s[0] as int * 0x100 + s[1] as int
  }

  function Load24(s: seq<byte>): uint24
    requires |s| >= 3
  {
    s[0] as int * 0x1_0000 + s[1] as int * 0x100 + s[2] as int
  }

  function Load32(s: seq<byte>): uint32
    requires |s| >= 4
  {
    s[0] as int * 0x100_0000 + s[1] as int * 0x1_0000 + s[2] as int * 0x100 + s[3] as int
  }

  // The store macros keep the low bits of whatever integer they are given.
  function Store16(v: nat): (s: seq<byte>)
    ensures |s| == 2
  {
    [v / 0x100 % 0x100, v % 0x100]
  }

  function Store24(v: nat): (s: seq<byte>)
    ensures |s| == 3
  {
    [v / 0x1_0000 % 0x100, v / 0x100 % 0x100, v % 0x100]
  }

  function Store32(v: nat): (s: seq<byte>)
    ensures |s| == 4
  {
    [v / 0x100_0000 % 0x100, v / 0x1_0000 % 0x100, v / 0x100 % 0x100, v % 0x100]
  }

  // The low 16, 24 and 32 bits of a word, assembled from its bytes.
  lemma Digits16(v: nat)
    ensures v % 0x1_0000 == v / 0x100 % 0x100 * 0x100 + v % 0x100
  {
    var p, r := v / 0x1_0000, v % 0x1_0000;
    assert v == 0x100 * (0x100 * p + r / 0x100) + r % 0x100;
    assert v / 0x100 == 0x100 * p + r / 0x100;
  }

  lemma Digits24(v: nat)
    ensures v % 0x100_0000 == v / 0x1_0000 % 0x100 * 0x1_0000 + v % 0x1_0000
  {
    var p, r := v / 0x100_0000, v % 0x100_0000;
    assert v == 0x1_0000 * (0x100 * p + r / 0x1_0000) + r % 0x1_0000;
    assert v / 0x1_0000 == 0x100 * p + r / 0x1_0000;
  }

  lemma Digits32(v: nat)
    ensures v % 0x1_0000_0000 == v / 0x100_0000 % 0x100 * 0x100_0000 + v % 0x100_0000
  {
    var p, r := v / 0x1_0000_0000, v % 0x1_0000_0000;
    assert v == 0x100_0000 * (0x100 * p + r / 0x100_0000) + r % 0x100_0000;
    assert v / 0x100_0000 == 0x100 * p + r / 0x100_0000;
  }

  // The bytes of a word, taken apart again.
  lemma Undigits(a: byte, b: byte, c: byte, d: byte)
    ensures var v := a as int * 0x100_0000 + b as int * 0x1_0000 + c as int * 0x100 + d as int;
            && v / 0x100_0000 == a && v / 0x1_0000 % 0x100 == b && v / 0x100 % 0x100 == c && v % 0x100 == d
            && v % 0x100_0000 == b as int * 0x1_0000 + c as int * 0x100 + d as int
  {
    var v := a as int * 0x100_0000 + b as int * 0x1_0000 + c as int * 0x100 + d as int;
    assert v / 0x100 == a as int * 0x1_0000 + b as int * 0x100 + c as int;
    assert v / 0x1_0000 == a as int * 0x100 + b as int;
  }

  /** Big-endian: a stored word that fits is read off its bytes, the first the most significant, and so is a load. */
  lemma BigEndian(v: nat)
    ensures var s := Store16(v); v < 0x1_0000 ==> v == s[0] as int * 0x100 + s[1] as int
    ensures var s := Store24(v);
            v < 0x100_0000 ==> v == s[0] as int * 0x1_0000 + s[1] as int * 0x100 + s[2] as int
    ensures var s := Store32(v);
            v < 0x1_0000_0000 ==>
              v == s[0] as int * 0x100_0000 + s[1] as int * 0x1_0000 + s[2] as int * 0x100 + s[3] as int
  {
    Digits16(v);
    Digits24(v);
    Digits32(v);
  }

  /** Loading what was stored gives the value back modulo the stored width. */
  lemma LoadStore(v: nat)
    ensures Load16(Store16(v)) == v % 0x1_0000
    ensures Load24(Store24(v)) == v % 0x100_0000
    ensures Load32(Store32(v)) == v % 0x1_0000_0000
  {
    Digits16(v);
    Digits24(v);
    Digits32(v);
  }

  /** Storing what was loaded writes the same bytes again. */
  lemma StoreLoad(s: seq<byte>)
    ensures |s| == 2 ==> Store16(Load16(s)) == s
    ensures |s| == 3 ==> Store24(Load24(s)) == s
    ensures |s| == 4 ==> Store32(Load32(s)) == s
  {
    if |s| == 2 {
      Undigits(0, 0, s[0], s[1]);
    } else if |s| == 3 {
      Undigits(0, s[0], s[1], s[2]);
    } else if |s| == 4 {
      Undigits(s[0], s[1], s[2], s[3]);
    }
  }

  // What follows does not matter to a load.
  lemma LoadsFront(s: seq<byte>, t: seq<byte>)
    ensures |s| >= 2 ==> Load16(s + t) == Load16(s)
    ensures |s| >= 3 ==> Load24(s + t) == Load24(s)
    ensures |s| >= 4 ==> Load32(s + t) == Load32(s)
  {
  }

  /** A 32-bit load read as a byte and a 24-bit word: how flags and length share a word. */
  lemma Load32Split(s: seq<byte>)
    requires |s| >= 4
    ensures Load32(s) % 0x100_0000 == Load24(s[1..])
    ensures Load32(s) / 0x100_0000 == s[0]
  {
    Undigits(s[0], s[1], s[2], s[3]);
  }

  // Points at which the first `n` bytes of something are cut into pieces.
  predicate Rising(cuts: seq<nat>, n: nat) {
    (forall i :: 0 <= i < |cuts| ==> cuts[i] <= n) && (forall i, j :: 0 <= i < j < |cuts| ==> cuts[i] <= cuts[j])
  }
}
