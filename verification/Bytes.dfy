/** Big-endian numbers in byte sequences; a byte is an int from 0 to 255. */
module Bytes {

  predicate IsByte(b: int)
  {
    0 <= b < 256
  }

  predicate AreBytes(s: seq<int>)
  {
    forall i | 0 <= i < |s| :: IsByte(s[i])
  }

  /** `write_u16` */
  function U16(v: int): (s: seq<int>)
    requires 0 <= v < 0x1_0000
    ensures |s| == 2 && AreBytes(s)
  {
    [v / 256, v % 256]
  }

  /** `write_u32` */
  function U32(v: int): (s: seq<int>)
    requires 0 <= v < 0x1_0000_0000
    ensures |s| == 4 && AreBytes(s)
  {
    [v / 0x100_0000, v / 0x1_0000 % 256, v / 256 % 256, v % 256]
  }

  /** `read_u16` */
  function Read16(s: seq<int>, at: nat): int
    requires at + 2 <= |s|
  {
    s[at] * 256 + s[at + 1]
  }

  /** `read_u32` */
  function Read32(s: seq<int>, at: nat): int
    requires at + 4 <= |s|
  {
    s[at] * 0x100_0000 + s[at + 1] * 0x1_0000 + s[at + 2] * 256 + s[at + 3]
  }

  lemma ReadBack32(v: int)
    requires 0 <= v < 0x1_0000_0000
    ensures Read32(U32(v), 0) == v
  {
  }

  /** A byte sequence read as one big-endian number. */
  function Value(s: seq<int>): int
  {
    if s == [] then 0 else Value(s[..|s| - 1]) * 256 + s[|s| - 1]
  }

  lemma {:induction false} ValueInjective(a: seq<int>, b: seq<int>)
    requires |a| == |b| && AreBytes(a) && AreBytes(b) && Value(a) == Value(b)
    ensures a == b
  {
    if a != [] {
      var n := |a| - 1;
      assert a[n] == b[n] && Value(a[..n]) == Value(b[..n]);
      ValueInjective(a[..n], b[..n]);
      assert a == a[..n] + [a[n]] && b == b[..n] + [b[n]];
    }
  }

  /** The bytes occur in the data at offset p. */
  ghost predicate Occurs(data: seq<int>, p: int, bytes: seq<int>)
  {
    0 <= p && p + |bytes| <= |data| && forall k | 0 <= k < |bytes| :: data[p + k] == bytes[k]
  }

  lemma OccursSplit(data: seq<int>, p: int, a: seq<int>, b: seq<int>)
    requires Occurs(data, p, a + b)
    ensures Occurs(data, p, a) && Occurs(data, p + |a|, b)
  {
    forall k | 0 <= k < |a| ensures data[p + k] == a[k] {
      assert (a + b)[k] == a[k];
    }
    forall k | 0 <= k < |b| ensures data[p + |a| + k] == b[k] {
      assert (a + b)[|a| + k] == b[k];
    }
  }

  lemma OccursRead16(data: seq<int>, p: int, v: int)
    requires 0 <= v < 0x1_0000 && Occurs(data, p, U16(v))
    ensures Read16(data, p) == v
  {
    assert data[p + 0] == U16(v)[0] && data[p + 1] == U16(v)[1];
  }

  lemma OccursRead32(data: seq<int>, p: int, v: int)
    requires 0 <= v < 0x1_0000_0000 && Occurs(data, p, U32(v))
    ensures Read32(data, p) == v
  {
    var u := U32(v);
    assert data[p + 0] == u[0] && data[p + 1] == u[1] && data[p + 2] == u[2] && data[p + 3] == u[3];
  }

  /** Bytes written at offset p, leaving what is before them. */
  method Write(out: array<int>, p: int, bytes: seq<int>)
    requires 0 <= p && p + |bytes| <= out.Length
    modifies out
    ensures out[..p + |bytes|] == old(out[..p]) + bytes && out[p + |bytes|..] == old(out[p + |bytes|..])
  {
    var i := 0;
    while i < |bytes|
      invariant 0 <= i <= |bytes|
      invariant out[..p] == old(out[..p]) && out[p + |bytes|..] == old(out[p + |bytes|..])
      invariant forall k | 0 <= k < i :: out[p + k] == bytes[k]
    {
      out[p + i] := bytes[i];
      i := i + 1;
    }
  }

  /** Padding. */
  function Zeros(n: int): (r: seq<int>)
    requires n >= 0
    ensures |r| == n && forall i | 0 <= i < n :: r[i] == 0
  {
    seq(n, _ => 0)
  }
}
