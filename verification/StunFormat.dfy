/** STUN messages (RFC 5389): attributes, MESSAGE-INTEGRITY and FINGERPRINT as
    the builder lays them out, and how the verifier finds its way back. */
module StunFormat {
  import opened Bytes
  import opened Collections
  import Words

  const MAX_SIZE: int := 1500
  const BINDING_REQUEST: int := 0x0001
  const USERNAME: int := 0x0006
  const MESSAGE_INTEGRITY: int := 0x0008
  const PRIORITY: int := 0x0024
  const USE_CANDIDATE: int := 0x0025
  const ICE_CONTROLLED: int := 0x8029
  const ICE_CONTROLLING: int := 0x802A
  const FINGERPRINT: int := 0x8028
  const COOKIE: int := 0x2112_A442

  /** HMAC-SHA1 and CRC-32, which this model does not look into. */
  datatype Digests = Digests(mac: (seq<int>, seq<int>) -> seq<int>, crc: seq<int> -> int)

  ghost predicate AreDigests(d: Digests)
  {
    && (forall key, data :: |d.mac(key, data)| == 20 && AreBytes(d.mac(key, data)))
    && (forall data :: 0 <= d.crc(data) < 0x1_0000_0000)
  }

  datatype Attr = Attr(kind: int, value: seq<int>)

  /** Values short enough that rounding their length up stays within 16 bits. */
  predicate IsAttr(a: Attr)
  {
    0 <= a.kind < 0x1_0000 && |a.value| < 65533 && AreBytes(a.value)
  }

  ghost predicate AreAttrs(attrs: seq<Attr>)
  {
    forall i | 0 <= i < |attrs| :: IsAttr(attrs[i])
  }

  function Padded(n: int): (r: int)
    requires n >= 0
    ensures n <= r < n + 4 && r % 4 == 0
  {
    (n + 3) / 4 * 4
  }

  function AttrBytes(a: Attr): (r: seq<int>)
    requires IsAttr(a)
    ensures |r| == 4 + Padded(|a.value|) && AreBytes(r)
  {
    U16(a.kind) + U16(|a.value|) + (a.value + Zeros(Padded(|a.value|) - |a.value|))
  }

  /** The attributes from i on. */
  function AllBytes(attrs: seq<Attr>, i: int): seq<int>
    requires AreAttrs(attrs) && 0 <= i <= |attrs|
    decreases |attrs| - i
  {
    if i == |attrs| then [] else AttrBytes(attrs[i]) + AllBytes(attrs, i + 1)
  }

  predicate IsHeader(kind: int, txn: seq<int>)
  {
    0 <= kind < 0x1_0000 && |txn| == 12 && AreBytes(txn)
  }

  function Header(kind: int, length: int, txn: seq<int>): (r: seq<int>)
    requires IsHeader(kind, txn) && 0 <= length < 0x1_0000
    ensures |r| == 20 && AreBytes(r)
  {
    U16(kind) + U16(length) + U32(COOKIE) + txn
  }

  /** What MESSAGE-INTEGRITY is computed over: the message so far, with a length
      that counts MESSAGE-INTEGRITY itself. */
  function MacInput(kind: int, txn: seq<int>, body: seq<int>): seq<int>
    requires IsHeader(kind, txn) && |body| <= MAX_SIZE
  {
    Header(kind, |body| + 24, txn) + body
  }

  /** The attributes with MESSAGE-INTEGRITY, if there is a key. */
  function WithMac(kind: int, txn: seq<int>, body: seq<int>, key: Option<seq<int>>, d: Digests): (r: seq<int>)
    requires IsHeader(kind, txn) && |body| <= MAX_SIZE && AreDigests(d)
    ensures |r| == |body| + if key.Some? then 24 else 0
  {
    if key.None? then body
    else body + AttrBytes(Attr(MESSAGE_INTEGRITY, d.mac(key.value, MacInput(kind, txn, body))))
  }

  function FingerprintOf(kind: int, txn: seq<int>, body: seq<int>, d: Digests): (a: Attr)
    requires IsHeader(kind, txn) && |body| <= MAX_SIZE + 24 && AreDigests(d)
    ensures IsAttr(a) && |a.value| == 4
  {
    Attr(FINGERPRINT, U32(XorMagic(d.crc(Header(kind, |body| + 8, txn) + body))))
  }

  function XorMagic(crc: int): (r: int)
    requires 0 <= crc < 0x1_0000_0000
    ensures 0 <= r < 0x1_0000_0000
  {
    Words.Pow2Constants();
    Words.XorBound(crc, 0x5354_554E, 32);
    Words.Xor(crc, 0x5354_554E)
  }

  /** The finished message. */
  function Sealed(kind: int, txn: seq<int>, body: seq<int>, key: Option<seq<int>>, d: Digests): (r: seq<int>)
    requires IsHeader(kind, txn) && |body| <= MAX_SIZE && AreDigests(d)
    ensures |r| == 20 + |body| + (if key.Some? then 24 else 0) + 8
  {
    var signed := WithMac(kind, txn, body, key, d);
    Header(kind, |signed| + 8, txn) + signed + AttrBytes(FingerprintOf(kind, txn, signed, d))
  }

  // ----- finding attributes -----

  /** The rounded length as a 16-bit number. */
  function Padded16(n: int): (r: int)
    requires 0 <= n < 0x1_0000
    ensures 0 <= r < 0x1_0000 && (n < 65533 ==> r == Padded(n))
  {
    Padded(n) % 0x1_0000
  }

  /** The verifier's walk: the offset of the first MESSAGE-INTEGRITY. */
  function Seek(data: seq<int>, p: int, end: int): (r: Option<int>)
    requires AreBytes(data) && 0 <= p && end <= |data|
    ensures r.Some? ==> p <= r.value && r.value + 4 <= end
    decreases end - p
  {
    if p + 4 > end then None
    else if Read16(data, p) == MESSAGE_INTEGRITY then Some(p)
    else Seek(data, p + 4 + Padded16(Read16(data, p + 2)), end)
  }

  /** The bytes before offset p, with the length patched to end after a
      MESSAGE-INTEGRITY at p. */
  function Patched(data: seq<int>, p: int): seq<int>
    requires 20 <= p <= |data| && p <= MAX_SIZE
  {
    data[..p][2 := (p + 4) / 256][3 := (p + 4) % 256]
  }

  /** `rtc_stun_verify_integrity_key`; a value cut off by the end of the data
      does not verify. */
  function Verify(data: seq<int>, key: seq<int>, d: Digests): bool
    requires AreBytes(data)
  {
    if |data| < 44 then false
    else
      var claim := 20 + Read16(data, 2);
      var at := Seek(data, 20, if claim > |data| then |data| else claim);
      && at.Some? && Read16(data, at.value + 2) == 20 && at.value <= MAX_SIZE && at.value + 24 <= |data|
      && d.mac(key, Patched(data, at.value)) == data[at.value + 4..at.value + 24]
  }

  /** `rtc_stun_find_attr` from offset p on */
  function Find(data: seq<int>, kind: int, p: int): Option<seq<int>>
    requires AreBytes(data) && 0 <= p
    decreases |data| - p
  {
    if p + 4 > |data| || p + 4 + Read16(data, p + 2) > |data| then None
    else if Read16(data, p) == kind then Some(data[p + 4..p + 4 + Read16(data, p + 2)])
    else Find(data, kind, p + 4 + Padded16(Read16(data, p + 2)))
  }

  /** The first value of a kind, from attribute i on. */
  function FirstValue(attrs: seq<Attr>, kind: int, i: int): Option<seq<int>>
    requires 0 <= i <= |attrs|
    decreases |attrs| - i
  {
    if i == |attrs| then None
    else if attrs[i].kind == kind then Some(attrs[i].value)
    else FirstValue(attrs, kind, i + 1)
  }

  lemma AttrRead(data: seq<int>, p: int, a: Attr)
    requires IsAttr(a) && Occurs(data, p, AttrBytes(a))
    ensures p + 4 + |a.value| <= |data| && Read16(data, p) == a.kind && Read16(data, p + 2) == |a.value|
    ensures data[p + 4..p + 4 + |a.value|] == a.value
  {
    var pad := Zeros(Padded(|a.value|) - |a.value|);
    OccursSplit(data, p, U16(a.kind) + U16(|a.value|), a.value + pad);
    OccursSplit(data, p, U16(a.kind), U16(|a.value|));
    OccursRead16(data, p, a.kind);
    OccursRead16(data, p + 2, |a.value|);
    OccursSplit(data, p + 4, a.value, pad);
    OccursSlice(data, p + 4, a.value);
  }

  lemma OccursSlice(data: seq<int>, p: int, v: seq<int>)
    requires Occurs(data, p, v)
    ensures data[p..p + |v|] == v
  {
  }

  /** The walk passes over attributes of other kinds. */
  lemma {:induction false} SeekPast(data: seq<int>, attrs: seq<Attr>, i: int, p: int, end: int)
    requires AreBytes(data) && AreAttrs(attrs) && 0 <= i <= |attrs| && Occurs(data, p, AllBytes(attrs, i))
    requires p + |AllBytes(attrs, i)| <= end <= |data|
    requires forall k | i <= k < |attrs| :: attrs[k].kind != MESSAGE_INTEGRITY
    ensures Seek(data, p, end) == Seek(data, p + |AllBytes(attrs, i)|, end)
    decreases |attrs| - i
  {
    if i < |attrs| {
      var a, rest := attrs[i], AllBytes(attrs, i + 1);
      OccursSplit(data, p, AttrBytes(a), rest);
      AttrRead(data, p, a);
      SeekPast(data, attrs, i + 1, p + |AttrBytes(a)|, end);
    }
  }

  /** The first value appended for a kind is the one found. */
  lemma {:induction false} FindsFirst(data: seq<int>, attrs: seq<Attr>, i: int, kind: int, p: int)
    requires AreBytes(data) && AreAttrs(attrs) && 0 <= i <= |attrs| && Occurs(data, p, AllBytes(attrs, i))
    requires p + |AllBytes(attrs, i)| == |data|
    ensures Find(data, kind, p) == FirstValue(attrs, kind, i)
    decreases |attrs| - i
  {
    if i < |attrs| {
      var a, rest := attrs[i], AllBytes(attrs, i + 1);
      OccursSplit(data, p, AttrBytes(a), rest);
      AttrRead(data, p, a);
      FindsFirst(data, attrs, i + 1, kind, p + |AttrBytes(a)|);
    }
  }

  // ----- the seal -----

  lemma {:induction false} AllAreBytes(attrs: seq<Attr>, i: int)
    requires AreAttrs(attrs) && 0 <= i <= |attrs|
    ensures AreBytes(AllBytes(attrs, i))
    decreases |attrs| - i
  {
    if i < |attrs| {
      AllAreBytes(attrs, i + 1);
    }
  }

  lemma FourParts(data: seq<int>, head: seq<int>, body: seq<int>, mi: seq<int>, fp: seq<int>)
    requires data == head + (body + mi) + fp
    ensures Occurs(data, 0, head) && Occurs(data, |head|, body) && Occurs(data, |head| + |body|, mi)
    ensures data[..|head| + |body|] == head + body
    ensures AreBytes(head) && AreBytes(body) && AreBytes(mi) && AreBytes(fp) ==> AreBytes(data)
  {
    assert Occurs(data, 0, head + (body + mi) + fp);
    OccursSplit(data, 0, head + (body + mi), fp);
    OccursSplit(data, 0, head, body + mi);
    OccursSplit(data, |head|, body, mi);
  }

  lemma HeaderLength(kind: int, length: int, txn: seq<int>, data: seq<int>)
    requires IsHeader(kind, txn) && 0 <= length < 0x1_0000 && Occurs(data, 0, Header(kind, length, txn))
    ensures Read16(data, 2) == length
  {
    OccursSplit(data, 0, U16(kind) + U16(length) + U32(COOKIE), txn);
    OccursSplit(data, 0, U16(kind) + U16(length), U32(COOKIE));
    OccursSplit(data, 0, U16(kind), U16(length));
    OccursRead16(data, 2, length);
  }

  lemma SealedIs(kind: int, txn: seq<int>, body: seq<int>, key: seq<int>, d: Digests, mi: Attr) returns (fp: seq<int>)
    requires IsHeader(kind, txn) && 20 + |body| + 32 <= MAX_SIZE && AreDigests(d)
    requires mi == Attr(MESSAGE_INTEGRITY, d.mac(key, MacInput(kind, txn, body)))
    ensures IsAttr(mi) && |fp| == 8 && AreBytes(fp)
    ensures Sealed(kind, txn, body, Some(key), d) == Header(kind, |body| + 32, txn) + (body + AttrBytes(mi)) + fp
  {
    fp := AttrBytes(FingerprintOf(kind, txn, body + AttrBytes(mi), d));
  }

  /** Where things are in a sealed message. */
  lemma SealedParts(kind: int, txn: seq<int>, body: seq<int>, key: seq<int>, d: Digests, data: seq<int>, mi: Attr)
    requires IsHeader(kind, txn) && AreBytes(body) && 20 + |body| + 32 <= MAX_SIZE && AreDigests(d)
    requires data == Sealed(kind, txn, body, Some(key), d)
    requires mi == Attr(MESSAGE_INTEGRITY, d.mac(key, MacInput(kind, txn, body)))
    ensures AreBytes(data) && |data| == 20 + |body| + 32 && Read16(data, 2) == |body| + 32
    ensures IsAttr(mi) && Occurs(data, 20, body) && Occurs(data, 20 + |body|, AttrBytes(mi))
    ensures data[..20 + |body|] == Header(kind, |body| + 32, txn) + body
  {
    var fp := SealedIs(kind, txn, body, key, d, mi);
    FourParts(data, Header(kind, |body| + 32, txn), body, AttrBytes(mi), fp);
    HeaderLength(kind, |body| + 32, txn, data);
  }

  lemma PatchedHeader(kind: int, txn: seq<int>, body: seq<int>, data: seq<int>)
    requires IsHeader(kind, txn) && 20 + |body| + 32 <= MAX_SIZE && |data| >= 20 + |body|
    requires data[..20 + |body|] == Header(kind, |body| + 32, txn) + body
    ensures Patched(data, 20 + |body|) == MacInput(kind, txn, body)
  {
    var p := 20 + |body|;
    var before, after := Header(kind, |body| + 32, txn), Header(kind, |body| + 24, txn);
    assert after == before[2 := (p + 4) / 256][3 := (p + 4) % 256];
  }

  /** The verifier finds MESSAGE-INTEGRITY where the builder put it and feeds the
      same bytes to the HMAC, so the message verifies with any key that gives the
      same HMAC, the builder's own to begin with. */
  lemma SealVerifies(kind: int, txn: seq<int>, attrs: seq<Attr>, key: seq<int>, other: seq<int>, d: Digests,
                     body: seq<int>, input: seq<int>, data: seq<int>)
    requires IsHeader(kind, txn) && AreAttrs(attrs) && AreDigests(d) && body == AllBytes(attrs, 0)
    requires forall k | 0 <= k < |attrs| :: attrs[k].kind != MESSAGE_INTEGRITY
    requires 20 + |body| + 32 <= MAX_SIZE && input == MacInput(kind, txn, body)
    requires data == Sealed(kind, txn, body, Some(key), d)
    ensures AreBytes(data) && Seek(data, 20, |data|) == Some(20 + |body|) && Patched(data, 20 + |body|) == input
    ensures Verify(data, other, d) <==> d.mac(other, input) == d.mac(key, input)
  {
    var mi := Attr(MESSAGE_INTEGRITY, d.mac(key, input));
    AllAreBytes(attrs, 0);
    SealedParts(kind, txn, body, key, d, data, mi);
    Landing(data, attrs, mi, 20 + |body|);
    PatchedHeader(kind, txn, body, data);
    VerifyAt(data, other, d, 20 + |body|);
  }

  lemma Landing(data: seq<int>, attrs: seq<Attr>, mi: Attr, p: int)
    requires AreBytes(data) && AreAttrs(attrs) && IsAttr(mi) && mi.kind == MESSAGE_INTEGRITY && |mi.value| == 20
    requires p == 20 + |AllBytes(attrs, 0)| && Occurs(data, 20, AllBytes(attrs, 0)) && Occurs(data, p, AttrBytes(mi))
    requires forall k | 0 <= k < |attrs| :: attrs[k].kind != MESSAGE_INTEGRITY
    ensures Seek(data, 20, |data|) == Some(p) && p + 24 <= |data|
    ensures Read16(data, p + 2) == 20 && data[p + 4..p + 24] == mi.value
  {
    AttrRead(data, p, mi);
    SeekPast(data, attrs, 0, 20, |data|);
  }

  lemma VerifyAt(data: seq<int>, key: seq<int>, d: Digests, p: int)
    requires AreBytes(data) && |data| >= 44 && 20 + Read16(data, 2) == |data| && Seek(data, 20, |data|) == Some(p)
    requires Read16(data, p + 2) == 20 && p <= MAX_SIZE && p + 24 <= |data|
    ensures Verify(data, key, d) <==> d.mac(key, Patched(data, p)) == data[p + 4..p + 24]
  {
  }

  lemma {:induction false} AllBytesAppend(attrs: seq<Attr>, more: seq<Attr>, i: int)
    requires AreAttrs(attrs) && AreAttrs(more) && 0 <= i <= |attrs|
    ensures AreAttrs(attrs + more)
    ensures AllBytes(attrs + more, i) == AllBytes(attrs, i) + AllBytes(attrs + more, |attrs|)
    decreases |attrs| - i
  {
    if i < |attrs| {
      AllBytesAppend(attrs, more, i + 1);
      ConcatAssociates(AttrBytes(attrs[i]), AllBytes(attrs, i + 1), AllBytes(attrs + more, |attrs|));
    }
  }

  lemma LastTwo(attrs: seq<Attr>, mi: Attr, fp: Attr)
    requires AreAttrs(attrs) && IsAttr(mi) && IsAttr(fp)
    ensures AreAttrs(attrs + [mi, fp])
    ensures AllBytes(attrs + [mi, fp], 0) == AllBytes(attrs, 0) + AttrBytes(mi) + AttrBytes(fp)
  {
    var all := attrs + [mi, fp];
    AllBytesAppend(attrs, [mi, fp], 0);
    assert all[|attrs|] == mi && all[|attrs| + 1] == fp;
    assert AllBytes(all, |attrs| + 1) == AttrBytes(fp) + AllBytes(all, |attrs| + 2);
    assert AllBytes(all, |attrs| + 2) == [];
    assert AllBytes(all, |attrs|) == AttrBytes(mi) + AttrBytes(fp);
    ConcatAssociates(AllBytes(attrs, 0), AttrBytes(mi), AttrBytes(fp));
  }

  /** In a finished message every attribute is found under its kind, the first
      of each kind; what was not appended is not found. */
  lemma SealedFinds(kind: int, txn: seq<int>, attrs: seq<Attr>, key: seq<int>, d: Digests, data: seq<int>,
                    mi: Attr, fp: Attr, wanted: int)
    requires IsHeader(kind, txn) && AreAttrs(attrs) && AreDigests(d) && 20 + |AllBytes(attrs, 0)| + 32 <= MAX_SIZE
    requires data == Sealed(kind, txn, AllBytes(attrs, 0), Some(key), d)
    requires mi == Attr(MESSAGE_INTEGRITY, d.mac(key, MacInput(kind, txn, AllBytes(attrs, 0))))
    requires fp == FingerprintOf(kind, txn, AllBytes(attrs, 0) + AttrBytes(mi), d)
    ensures AreBytes(data) && Find(data, wanted, 20) == FirstValue(attrs + [mi, fp], wanted, 0)
  {
    var body, head := AllBytes(attrs, 0), Header(kind, |AllBytes(attrs, 0)| + 32, txn);
    AllAreBytes(attrs, 0);
    SealedParts(kind, txn, body, key, d, data, mi);
    LastTwo(attrs, mi, fp);
    ConcatAssociates(head, body + AttrBytes(mi), AttrBytes(fp));
    Tail(data, head, AllBytes(attrs + [mi, fp], 0));
    FindsFirst(data, attrs + [mi, fp], 0, wanted, 20);
  }

  lemma Tail(data: seq<int>, head: seq<int>, tail: seq<int>)
    requires data == head + tail
    ensures Occurs(data, |head|, tail)
  {
  }

  lemma {:induction false} FirstOfBoth(attrs: seq<Attr>, more: seq<Attr>, kind: int, i: int)
    requires 0 <= i <= |attrs|
    ensures FirstValue(attrs + more, kind, i)
         == if FirstValue(attrs, kind, i).Some? then FirstValue(attrs, kind, i) else FirstValue(more, kind, 0)
    decreases |attrs| - i
  {
    if i < |attrs| {
      FirstOfBoth(attrs, more, kind, i + 1);
    } else {
      FirstShifted(attrs, more, kind, 0);
    }
  }

  lemma {:induction false} FirstShifted(attrs: seq<Attr>, more: seq<Attr>, kind: int, i: int)
    requires 0 <= i <= |more|
    ensures FirstValue(attrs + more, kind, |attrs| + i) == FirstValue(more, kind, i)
    decreases |more| - i
  {
    if i < |more| {
      assert (attrs + more)[|attrs| + i] == more[i];
      FirstShifted(attrs, more, kind, i + 1);
    }
  }

  /** A message without MESSAGE-INTEGRITY: the header, the attributes, FINGERPRINT. */
  lemma UnsignedFinds(kind: int, txn: seq<int>, attrs: seq<Attr>, d: Digests, data: seq<int>, fp: Attr, wanted: int)
    requires IsHeader(kind, txn) && AreAttrs(attrs) && AreDigests(d) && 20 + |AllBytes(attrs, 0)| + 8 <= MAX_SIZE
    requires data == Sealed(kind, txn, AllBytes(attrs, 0), None, d)
    requires fp == FingerprintOf(kind, txn, AllBytes(attrs, 0), d)
    ensures AreBytes(data) && Find(data, wanted, 20) == FirstValue(attrs + [fp], wanted, 0)
  {
    var body, head, all := AllBytes(attrs, 0), Header(kind, |AllBytes(attrs, 0)| + 8, txn), attrs + [fp];
    AllAreBytes(attrs, 0);
    AllBytesAppend(attrs, [fp], 0);
    assert all[|attrs|] == fp && AllBytes(all, |attrs| + 1) == [] && AllBytes(all, |attrs|) == AttrBytes(fp) + [];
    ConcatAssociates(head, body, AttrBytes(fp));
    AllAreBytes(all, 0);
    Tail(data, head, AllBytes(all, 0));
    FindsFirst(data, all, 0, wanted, 20);
  }

  lemma NoneOf(attrs: seq<Attr>, more: seq<Attr>, kind: int)
    requires |more| <= 2 && forall i | 0 <= i < |more| :: more[i].kind != kind
    ensures FirstValue(attrs + more, kind, 0) == FirstValue(attrs, kind, 0)
  {
    FirstOfBoth(attrs, more, kind, 0);
    assert |more| >= 1 ==> FirstValue(more, kind, 0) == FirstValue(more, kind, 1);
    assert |more| == 2 ==> FirstValue(more, kind, 1) == FirstValue(more, kind, 2);
  }

  /** What the seal adds does not hide or add anything of another kind, with or
      without a key. */
  lemma SealKeepsAttrs(kind: int, txn: seq<int>, attrs: seq<Attr>, key: Option<seq<int>>, d: Digests, data: seq<int>,
                       wanted: int)
    requires IsHeader(kind, txn) && AreAttrs(attrs) && AreDigests(d)
    requires 20 + |AllBytes(attrs, 0)| + (if key.Some? then 24 else 0) + 8 <= MAX_SIZE
    requires data == Sealed(kind, txn, AllBytes(attrs, 0), key, d)
    requires wanted != MESSAGE_INTEGRITY && wanted != FINGERPRINT
    ensures AreBytes(data) && Find(data, wanted, 20) == FirstValue(attrs, wanted, 0)
  {
    var body := AllBytes(attrs, 0);
    if key.None? {
      var fp := FingerprintOf(kind, txn, body, d);
      UnsignedFinds(kind, txn, attrs, d, data, fp, wanted);
      NoneOf(attrs, [fp], wanted);
    } else {
      SignedKeeps(kind, txn, attrs, key.value, d, data, wanted);
    }
  }

  lemma SignedKeeps(kind: int, txn: seq<int>, attrs: seq<Attr>, key: seq<int>, d: Digests, data: seq<int>, wanted: int)
    requires IsHeader(kind, txn) && AreAttrs(attrs) && AreDigests(d) && 20 + |AllBytes(attrs, 0)| + 32 <= MAX_SIZE
    requires data == Sealed(kind, txn, AllBytes(attrs, 0), Some(key), d)
    requires wanted != MESSAGE_INTEGRITY && wanted != FINGERPRINT
    ensures AreBytes(data) && Find(data, wanted, 20) == FirstValue(attrs, wanted, 0)
  {
    var body := AllBytes(attrs, 0);
    var mi := Attr(MESSAGE_INTEGRITY, d.mac(key, MacInput(kind, txn, body)));
    var fp := FingerprintOf(kind, txn, body + AttrBytes(mi), d);
    SealedFinds(kind, txn, attrs, key, d, data, mi, fp, wanted);
    NoneOf(attrs, [mi, fp], wanted);
  }

  /** Where the header's fields are. */
  ghost predicate HasHeader(data: seq<int>, kind: int, txn: seq<int>)
  {
    && AreBytes(data) && |data| >= 20
    && Read16(data, 0) == kind && Read16(data, 2) == |data| - 20 && Read32(data, 4) == COOKIE && data[8..20] == txn
  }

  lemma HeaderRead(kind: int, length: int, txn: seq<int>, data: seq<int>)
    requires IsHeader(kind, txn) && 0 <= length < 0x1_0000 && AreBytes(data)
    requires Occurs(data, 0, Header(kind, length, txn)) && |data| == 20 + length
    ensures HasHeader(data, kind, txn)
  {
    OccursSplit(data, 0, U16(kind) + U16(length) + U32(COOKIE), txn);
    OccursSplit(data, 0, U16(kind) + U16(length), U32(COOKIE));
    OccursSplit(data, 0, U16(kind), U16(length));
    OccursRead16(data, 0, kind);
    OccursRead16(data, 2, length);
    OccursRead32(data, 4, COOKIE);
    OccursSlice(data, 8, txn);
  }

  lemma SealedHeader(kind: int, txn: seq<int>, body: seq<int>, key: Option<seq<int>>, d: Digests, data: seq<int>)
    requires IsHeader(kind, txn) && AreDigests(d) && 20 + |body| + (if key.Some? then 24 else 0) + 8 <= MAX_SIZE
    requires data == Sealed(kind, txn, body, key, d) && AreBytes(data)
    ensures HasHeader(data, kind, txn)
  {
    var signed := WithMac(kind, txn, body, key, d);
    var head := Header(kind, |signed| + 8, txn);
    ConcatAssociates(head, signed, AttrBytes(FingerprintOf(kind, txn, signed, d)));
    assert Occurs(data, 0, head);
    HeaderRead(kind, |signed| + 8, txn, data);
  }

  /** The CRC a reader computes over everything before FINGERPRINT, whose length
      the header already counts, XORed with the number of section 15.5 of RFC 5389. */
  ghost predicate HasFingerprint(data: seq<int>, d: Digests)
    requires AreDigests(d)
  {
    && |data| >= 28 && AreBytes(data)
    && Read16(data, |data| - 8) == 0x8028 && Read16(data, |data| - 6) == 4
    && Words.Xor(Read32(data, |data| - 4), 0x5354_554E) == d.crc(data[..|data| - 8])
  }

  lemma SealedFingerprint(kind: int, txn: seq<int>, body: seq<int>, key: Option<seq<int>>, d: Digests, data: seq<int>)
    requires IsHeader(kind, txn) && AreDigests(d) && 20 + |body| + (if key.Some? then 24 else 0) + 8 <= MAX_SIZE
    requires data == Sealed(kind, txn, body, key, d) && AreBytes(data)
    ensures HasFingerprint(data, d)
  {
    var signed := WithMac(kind, txn, body, key, d);
    var covered := Header(kind, |signed| + 8, txn) + signed;
    var fp := FingerprintOf(kind, txn, signed, d);
    Tail(data, covered, AttrBytes(fp));
    assert data[..|data| - 8] == covered;
    FingerprintRead(data, fp, d.crc(covered));
  }

  lemma FingerprintRead(data: seq<int>, fp: Attr, crc: int)
    requires 0 <= crc < 0x1_0000_0000 && fp == Attr(FINGERPRINT, U32(XorMagic(crc))) && |data| >= 8 && AreBytes(data)
    requires Occurs(data, |data| - 8, AttrBytes(fp))
    ensures Read16(data, |data| - 8) == 0x8028 && Read16(data, |data| - 6) == 4
    ensures Words.Xor(Read32(data, |data| - 4), 0x5354_554E) == crc
  {
    var p := |data| - 8;
    AttrRead(data, p, fp);
    ValueRead(data, p + 4, XorMagic(crc));
    Words.XorCancels(crc, 0x5354_554E);
  }

  lemma ValueRead(data: seq<int>, p: int, v: int)
    requires 0 <= v < 0x1_0000_0000 && 0 <= p && p + 4 <= |data| && data[p..p + 4] == U32(v)
    ensures Read32(data, p) == v
  {
    var u := U32(v);
    assert data[p] == u[0] && data[p + 1] == u[1] && data[p + 2] == u[2] && data[p + 3] == u[3];
    assert Occurs(data, p, u);
    OccursRead32(data, p, v);
  }
}
