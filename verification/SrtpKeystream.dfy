/** The initialization vectors of SRTP (section 4.1.1 of RFC 3711 and section 8.1
    of RFC 7714), and why no two packets of a context share keystream. */
module SrtpKeystream {
  import opened Bytes
  import opened Words
  import opened SrtpStreams
  import opened SrtpContext
  import opened SrtpTracking
  import opened SrtpRun

  /** SSRC, rollover counter and sequence number as they are laid out in the vector. */
  function Fields(ssrc: int, roc: int, sn: int): (s: seq<int>)
    requires InRange(roc, sn) && 0 <= ssrc < 0x1_0000_0000
    ensures |s| == 10 && AreBytes(s)
  {
    U32(ssrc) + U32(roc) + U16(sn)
  }

  function XorBytes(a: seq<int>, b: seq<int>): (r: seq<int>)
    requires |a| <= |b| && AreBytes(a) && AreBytes(b)
    ensures |r| == |a| && AreBytes(r)
    ensures forall i | 0 <= i < |r| :: r[i] == Xor(a[i], b[i])
  {
    if a == [] then []
    else
      XorBound(a[0], b[0], 8);
      [Xor(a[0], b[0])] + XorBytes(a[1..], b[1..])
  }

  /** The IV that `srtp_aes_cm` builds; its last two bytes count the blocks. */
  function CmIv(salt: seq<int>, ssrc: int, roc: int, sn: int): (iv: seq<int>)
    requires |salt| == 14 && AreBytes(salt) && InRange(roc, sn) && 0 <= ssrc < 0x1_0000_0000
    ensures |iv| == 16 && AreBytes(iv)
  {
    XorBytes([0, 0, 0, 0] + Fields(ssrc, roc, sn), salt) + [0, 0]
  }

  /** `srtp_gcm_rtp_iv` */
  function GcmIv(salt: seq<int>, ssrc: int, roc: int, sn: int): (iv: seq<int>)
    requires |salt| == 12 && AreBytes(salt) && InRange(roc, sn) && 0 <= ssrc < 0x1_0000_0000
    ensures |iv| == 12 && AreBytes(iv)
  {
    XorBytes([0, 0] + Fields(ssrc, roc, sn), salt)
  }

  // ----- what the vectors hold -----

  lemma Unsalted(x: seq<int>, salt: seq<int>)
    requires |x| <= |salt| && AreBytes(x) && AreBytes(salt)
    ensures XorBytes(XorBytes(x, salt), salt) == x
  {
    forall i | 0 <= i < |x| ensures XorBytes(XorBytes(x, salt), salt)[i] == x[i] {
      XorCancels(x[i], salt[i]);
    }
  }

  lemma FieldsOccur(x: seq<int>, p: int, ssrc: int, roc: int, sn: int)
    requires InRange(roc, sn) && 0 <= ssrc < 0x1_0000_0000 && Occurs(x, p, Fields(ssrc, roc, sn))
    ensures Read32(x, p) == ssrc && Read32(x, p + 4) == roc && Read16(x, p + 8) == sn
  {
    OccursSplit(x, p, U32(ssrc) + U32(roc), U16(sn));
    OccursSplit(x, p, U32(ssrc), U32(roc));
    OccursRead32(x, p, ssrc);
    OccursRead32(x, p + 4, roc);
    OccursRead16(x, p + 8, sn);
  }

  /** Without the salt the AES-CM vector has the SSRC at byte 4, the rollover counter
      at byte 8 and the sequence number at byte 12, and zeros elsewhere. */
  lemma CmIvLayout(salt: seq<int>, ssrc: int, roc: int, sn: int)
    requires |salt| == 14 && AreBytes(salt) && InRange(roc, sn) && 0 <= ssrc < 0x1_0000_0000
    ensures var iv := CmIv(salt, ssrc, roc, sn);
            var plain := XorBytes(iv[..14], salt);
            && Read32(plain, 0) == 0 && Read32(plain, 4) == ssrc && Read32(plain, 8) == roc
            && Read16(plain, 12) == sn && Read16(iv, 14) == 0
  {
    var x := [0, 0, 0, 0] + Fields(ssrc, roc, sn);
    CmPlain(x, ssrc, roc, sn);
    var iv := XorBytes(x, salt) + [0, 0];
    CmParts(x, salt, iv);
  }

  lemma CmPlain(x: seq<int>, ssrc: int, roc: int, sn: int)
    requires InRange(roc, sn) && 0 <= ssrc < 0x1_0000_0000 && x == [0, 0, 0, 0] + Fields(ssrc, roc, sn)
    ensures |x| == 14 && AreBytes(x)
    ensures Read32(x, 0) == 0 && Read32(x, 4) == ssrc && Read32(x, 8) == roc && Read16(x, 12) == sn
  {
    forall k | 0 <= k < |x| ensures IsByte(x[k]) {
      assert k >= 4 ==> x[k] == Fields(ssrc, roc, sn)[k - 4];
    }
    assert Occurs(x, 4, Fields(ssrc, roc, sn));
    FieldsOccur(x, 4, ssrc, roc, sn);
  }

  lemma CmParts(x: seq<int>, salt: seq<int>, iv: seq<int>)
    requires |x| == |salt| == 14 && AreBytes(x) && AreBytes(salt) && iv == XorBytes(x, salt) + [0, 0]
    ensures |iv| == 16 && AreBytes(iv[..14]) && XorBytes(iv[..14], salt) == x && Read16(iv, 14) == 0
  {
    Unsalted(x, salt);
    assert iv[..14] == XorBytes(x, salt);
  }

  /** And the GCM vector has them at bytes 2, 6 and 10. */
  lemma GcmIvLayout(salt: seq<int>, ssrc: int, roc: int, sn: int)
    requires |salt| == 12 && AreBytes(salt) && InRange(roc, sn) && 0 <= ssrc < 0x1_0000_0000
    ensures var plain := XorBytes(GcmIv(salt, ssrc, roc, sn), salt);
            && Read16(plain, 0) == 0 && Read32(plain, 2) == ssrc && Read32(plain, 6) == roc
            && Read16(plain, 10) == sn
  {
    var x := [0, 0] + Fields(ssrc, roc, sn);
    Unsalted(x, salt);
    assert Occurs(x, 2, Fields(ssrc, roc, sn));
    FieldsOccur(x, 2, ssrc, roc, sn);
  }

  // ----- why they differ -----

  /** The counter block that AES-CTR encrypts for 16-byte block j of a packet. */
  function CounterBlock(iv: seq<int>, j: int): int
  {
    (Value(iv) + j) % TWO_128
  }

  const TWO_128: int := TWO_64 * TWO_64

  lemma FieldsInjective(ssrc: int, roc: int, sn: int, ssrc': int, roc': int, sn': int)
    requires InRange(roc, sn) && 0 <= ssrc < 0x1_0000_0000 && InRange(roc', sn') && 0 <= ssrc' < 0x1_0000_0000
    requires Fields(ssrc, roc, sn) == Fields(ssrc', roc', sn')
    ensures ssrc == ssrc' && roc == roc' && sn == sn'
  {
    var f, f' := Fields(ssrc, roc, sn), Fields(ssrc', roc', sn');
    assert U32(ssrc) == f[..4] && U32(roc) == f[4..8] && U16(sn) == f[8..];
    assert U32(ssrc') == f'[..4] && U32(roc') == f'[4..8] && U16(sn') == f'[8..];
    ReadBack32(ssrc);
    ReadBack32(ssrc');
    ReadBack32(roc);
    ReadBack32(roc');
    assert Read16(U16(sn), 0) == sn && Read16(U16(sn'), 0) == sn';
  }

  lemma XorBytesInjective(a: seq<int>, b: seq<int>, salt: seq<int>)
    requires |a| == |b| <= |salt| && AreBytes(a) && AreBytes(b) && AreBytes(salt)
    requires XorBytes(a, salt) == XorBytes(b, salt)
    ensures a == b
  {
    forall i | 0 <= i < |a| ensures a[i] == b[i] {
      assert XorBytes(a, salt)[i] == XorBytes(b, salt)[i];
      XorCancels(a[i], salt[i]);
      XorCancels(b[i], salt[i]);
    }
  }

  lemma GcmIvInjective(salt: seq<int>, ssrc: int, roc: int, sn: int, ssrc': int, roc': int, sn': int)
    requires |salt| == 12 && AreBytes(salt)
    requires InRange(roc, sn) && 0 <= ssrc < 0x1_0000_0000 && InRange(roc', sn') && 0 <= ssrc' < 0x1_0000_0000
    requires GcmIv(salt, ssrc, roc, sn) == GcmIv(salt, ssrc', roc', sn')
    ensures ssrc == ssrc' && roc == roc' && sn == sn'
  {
    var x, x' := [0, 0] + Fields(ssrc, roc, sn), [0, 0] + Fields(ssrc', roc', sn');
    XorBytesInjective(x, x', salt);
    assert x[2..] == Fields(ssrc, roc, sn) && x'[2..] == Fields(ssrc', roc', sn');
    FieldsInjective(ssrc, roc, sn, ssrc', roc', sn');
  }

  /** A counter block names the packet it was made for, whichever block it is. */
  lemma CounterBlocksInjective(salt: seq<int>, ssrc: int, roc: int, sn: int, j: int,
                               ssrc': int, roc': int, sn': int, j': int)
    requires |salt| == 14 && AreBytes(salt)
    requires InRange(roc, sn) && 0 <= ssrc < 0x1_0000_0000 && InRange(roc', sn') && 0 <= ssrc' < 0x1_0000_0000
    requires 0 <= j < 0x1_0000 && 0 <= j' < 0x1_0000
    requires CounterBlock(CmIv(salt, ssrc, roc, sn), j) == CounterBlock(CmIv(salt, ssrc', roc', sn'), j')
    ensures ssrc == ssrc' && roc == roc' && sn == sn' && j == j'
  {
    var x, x' := [0, 0, 0, 0] + Fields(ssrc, roc, sn), [0, 0, 0, 0] + Fields(ssrc', roc', sn');
    var v, v' := XorBytes(x, salt), XorBytes(x', salt);
    ShiftedValue(v, j);
    ShiftedValue(v', j');
    ValueInjective(v, v');
    XorBytesInjective(x, x', salt);
    assert x[4..] == Fields(ssrc, roc, sn) && x'[4..] == Fields(ssrc', roc', sn');
    FieldsInjective(ssrc, roc, sn, ssrc', roc', sn');
  }

  /** The two zero bytes leave room for 65536 blocks without a carry or a wrap. */
  lemma ShiftedValue(v: seq<int>, j: int)
    requires |v| == 14 && AreBytes(v) && 0 <= j < 0x1_0000
    ensures CounterBlock(v + [0, 0], j) == Value(v) * 0x1_0000 + j
  {
    assert (v + [0, 0])[..15] == v + [0];
    assert (v + [0])[..14] == v;
    assert Value(v + [0, 0]) == Value(v) * 0x1_0000;
    ValueBound(v);
    Power256Of14();
  }

  function Power256(n: nat): int
  {
    if n == 0 then 1 else 256 * Power256(n - 1)
  }

  lemma Power256Of14()
    ensures Power256(14) * 0x1_0000 == TWO_128
  {
    assert Power256(4) == 0x1_0000_0000;
    assert Power256(8) == 0x1_0000_0000 * 0x1_0000_0000;
    assert Power256(12) == 0x1_0000_0000 * 0x1_0000_0000 * 0x1_0000_0000;
  }

  lemma {:induction false} ValueBound(s: seq<int>)
    requires AreBytes(s)
    ensures 0 <= Value(s) < Power256(|s|)
  {
    if s != [] {
      ValueBound(s[..|s| - 1]);
    }
  }

  /** Over every run with at most eight SSRCs, each numbered by its session, two
      different sealed packets never have a counter block in common, and never
      the same AEAD nonce. */
  lemma RunKeystreamUnique(ws: seq<World>, es: seq<Event>, ssrcs: set<int>, i: nat, a: Tag, b: Tag,
                           salt: seq<int>, j: int, j': int)
    requires Run(ws, es, ssrcs) && |ssrcs| <= MAX_STREAMS && i < |ws|
    requires forall k | 0 <= k < |es| :: Numbered(ws[k], es[k])
    requires a in ws[i].sealed && b in ws[i].sealed && a != b
    requires 0 <= a.packet.ssrc < 0x1_0000_0000 && 0 <= b.packet.ssrc < 0x1_0000_0000
    requires |salt| == 14 && AreBytes(salt) && 0 <= j < 0x1_0000 && 0 <= j' < 0x1_0000
    ensures InRange(a.roc, a.packet.sn) && InRange(b.roc, b.packet.sn)
    ensures CounterBlock(CmIv(salt, a.packet.ssrc, a.roc, a.packet.sn), j)
            != CounterBlock(CmIv(salt, b.packet.ssrc, b.roc, b.packet.sn), j')
    ensures GcmIv(salt[..12], a.packet.ssrc, a.roc, a.packet.sn) != GcmIv(salt[..12], b.packet.ssrc, b.roc, b.packet.sn)
  {
    RunSafe(ws, es, ssrcs, i);
    RunUnique(ws, es, ssrcs, i);
    if CounterBlock(CmIv(salt, a.packet.ssrc, a.roc, a.packet.sn), j)
       == CounterBlock(CmIv(salt, b.packet.ssrc, b.roc, b.packet.sn), j') {
      CounterBlocksInjective(salt, a.packet.ssrc, a.roc, a.packet.sn, j, b.packet.ssrc, b.roc, b.packet.sn, j');
    }
    if GcmIv(salt[..12], a.packet.ssrc, a.roc, a.packet.sn) == GcmIv(salt[..12], b.packet.ssrc, b.roc, b.packet.sn) {
      GcmIvInjective(salt[..12], a.packet.ssrc, a.roc, a.packet.sn, b.packet.ssrc, b.roc, b.packet.sn);
    }
  }
}
