/**
 The name/value block format that src/spdy_nv_block.c reads and writes: a 16-bit
 pair count, then for every pair a 16-bit length and the bytes of the name, and
 the same for the value.
 */
module NvFormat {
  import opened Bytes
  import opened Status

  datatype Pair = Pair(name: seq<byte>, value: seq<byte>)

  // What a block remembers between calls: its count once read, and the finished pairs.
  datatype Partial = Partial(hasCount: bool, count: nat, pairs: seq<Pair>)

  // `used` is the offset of the first pair that is not finished.
  datatype Outcome = Outcome(rc: Code, block: Partial, used: nat)

  const EMPTY := Partial(false, 0, [])

  // ----- reading

  /** The length-prefixed string at the front of `s`, if all of it is there. */
  function ReadString(s: seq<byte>): (r: (bool, seq<byte>))
    ensures r.0 ==> |s| >= 2 + |r.1| && |r.1| < 0x1_0000
  {
    if |s| < 2 || |s| - 2 < Load16(s) then (false, []) else (true, s[2..2 + Load16(s)])
  }

  function ReadPair(s: seq<byte>): (r: (bool, Pair))
    ensures r.0 ==> |s| >= Width(r.1)
  {
    var (okName, name) := ReadString(s);
    if !okName then (false, Pair([], []))
    else
      var (okValue, value) := ReadString(s[2 + |name|..]);
      (okValue, Pair(name, value))
  }

  function Width(p: Pair): nat { 4 + |p.name| + |p.value| }

  function ReadPairs(b: Partial, s: seq<byte>): (r: Outcome)
    ensures r.used <= |s|
    decreases b.count - |b.pairs|
  {
    if |b.pairs| >= b.count then Outcome(Ok, b, 0)
    else
      var (ok, p) := ReadPair(s);
      if !ok then Outcome(Insuff, b, 0)
      else
        var r := ReadPairs(b.(pairs := b.pairs + [p]), s[Width(p)..]);
        r.(used := Width(p) + r.used)
  }

  /** One call of the parser on the unread bytes `s` of a block. */
  function Read(b: Partial, s: seq<byte>): (r: Outcome)
    ensures r.used <= |s|
  {
    if b.hasCount then ReadPairs(b, s)
    else if |s| < 2 then Outcome(Insuff, b, 0)
    else
      var r := ReadPairs(Partial(true, Load16(s), []), s[2..]);
      r.(used := 2 + r.used)
  }

  // ----- writing

  /** A C string: the bytes before the first NUL. */
  function CStr(s: seq<byte>): (r: seq<byte>)
    ensures |r| <= |s| && r == s[..|r|]
    ensures |r| < |s| ==> s[|r|] == 0
    ensures 0 !in r
  {
    if s == [] || s[0] == 0 then [] else [s[0]] + CStr(s[1..])
  }

  // `length` is a uint16_t: a longer string loses whole multiples of 65536 bytes.
  function Cut16(s: seq<byte>): seq<byte> {
    CStr(s)[..|CStr(s)| % 0x1_0000]
  }

  function WriteString(s: seq<byte>): seq<byte> {
    Store16(|Cut16(s)|) + Cut16(s)
  }

  function WritePair(p: Pair): seq<byte> {
    WriteString(p.name) + WriteString(p.value)
  }

  function WritePairs(ps: seq<Pair>): seq<byte> {
    if ps == [] then [] else WritePair(ps[0]) + WritePairs(ps[1..])
  }

  function Write(ps: seq<Pair>): seq<byte> {
    Store16(|ps|) + WritePairs(ps)
  }

  // The first pass of the printer, which counts whole strings.
  function PairsSize(ps: seq<Pair>): nat {
    if ps == [] then 0 else 4 + |CStr(ps[0].name)| + |CStr(ps[0].value)| + PairsSize(ps[1..])
  }

  function WriteSize(ps: seq<Pair>): nat { 2 + PairsSize(ps) }
}
