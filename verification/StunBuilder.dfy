/** The loops that append attributes, seal a message, verify it and look
    attributes up. */
module StunBuilder {
  import opened Bytes
  import opened Collections
  import opened StunFormat

  /** The zeros after a value. */
  method Pad(buf: array<int>, pos: int, n: int)
    requires 0 <= pos && 0 <= n && pos + n <= buf.Length
    modifies buf
    ensures buf[..pos + n] == old(buf[..pos]) + Zeros(n)
  {
    var i := 0;
    while i < n
      invariant 0 <= i <= n && buf[..pos + i] == old(buf[..pos]) + Zeros(i)
    {
      buf[pos + i] := 0;
      i := i + 1;
    }
  }

  /** `append_attr`: fails only when the attribute does not fit. */
  method Append(buf: array<int>, pos: int, kind: int, value: seq<int>) returns (ok: bool, end: int)
    requires 0 <= pos <= buf.Length && IsAttr(Attr(kind, value))
    modifies buf
    ensures ok <==> pos + |AttrBytes(Attr(kind, value))| <= buf.Length
    ensures ok ==> end == pos + |AttrBytes(Attr(kind, value))|
                   && buf[..end] == old(buf[..pos]) + AttrBytes(Attr(kind, value))
    ensures !ok ==> end == pos && buf[..] == old(buf[..])
  {
    var padded := (|value| + 3) / 4 * 4;
    if pos + 4 + padded > buf.Length {
      return false, pos;
    }
    Write(buf, pos, U16(kind));
    Write(buf, pos + 2, U16(|value|));
    Write(buf, pos + 4, value);
    Pad(buf, pos + 4 + |value|, padded - |value|);
    AttrIs(old(buf[..pos]), Attr(kind, value), buf[..pos + 4 + padded]);
    return true, pos + 4 + padded;
  }

  lemma AttrIs(before: seq<int>, a: Attr, after: seq<int>)
    requires IsAttr(a)
    requires after == before + U16(a.kind) + U16(|a.value|) + a.value + Zeros(Padded(|a.value|) - |a.value|)
    ensures after == before + AttrBytes(a)
  {
  }

  method SetHeader(buf: array<int>, kind: int, length: int, txn: seq<int>, ghost pos: int)
    requires 20 <= pos <= buf.Length && IsHeader(kind, txn) && 0 <= length < 0x1_0000
    modifies buf
    ensures buf[..pos] == Header(kind, length, txn) + old(buf[20..pos])
  {
    ghost var rest := buf[20..];
    Write(buf, 0, Header(kind, length, txn));
    assert buf[..20] == Header(kind, length, txn);
    assert buf[..pos] == buf[..20] + buf[20..][..pos - 20];
  }

  /** The end of `rtc_stun_build_binding_request` and `rtc_stun_finalize_key`:
      fails only when the two attributes do not fit. */
  method Seal(buf: array<int>, pos: int, kind: int, txn: seq<int>, key: Option<seq<int>>, d: Digests)
    returns (ok: bool, end: int)
    requires buf.Length == MAX_SIZE && 20 <= pos <= MAX_SIZE && IsHeader(kind, txn) && AreDigests(d)
    modifies buf
    ensures ok <==> pos + (if key.Some? then 24 else 0) + 8 <= MAX_SIZE
    ensures ok ==> end == pos + (if key.Some? then 24 else 0) + 8
                   && buf[..end] == Sealed(kind, txn, old(buf[20..pos]), key, d)
  {
    end := pos;
    if key.Some? {
      ok, end := AddMac(buf, pos, kind, txn, key.value, d);
      if !ok {
        return;
      }
    }
    ok, end := AddFingerprint(buf, end, kind, txn, d);
  }

  method AddFingerprint(buf: array<int>, pos: int, kind: int, txn: seq<int>, d: Digests)
    returns (ok: bool, end: int)
    requires buf.Length == MAX_SIZE && 20 <= pos <= MAX_SIZE && IsHeader(kind, txn) && AreDigests(d)
    modifies buf
    ensures ok <==> pos + 8 <= MAX_SIZE
    ensures var signed := old(buf[20..pos]);
            ok ==> end == pos + 8 && buf[..end] == Header(kind, |signed| + 8, txn) + signed
                                                   + AttrBytes(FingerprintOf(kind, txn, signed, d))
  {
    ghost var signed := buf[20..pos];
    SetHeader(buf, kind, pos - 20 + 8, txn, pos);
    assert buf[..pos] == Header(kind, |signed| + 8, txn) + signed;
    var crc := d.crc(buf[..pos]);
    ok, end := Append(buf, pos, FINGERPRINT, U32(XorMagic(crc)));
    if ok {
      ghost var all := buf[..end];
      SetHeader(buf, kind, end - 20, txn, end);
      assert all == all[..20] + all[20..];
    }
  }

  method AddMac(buf: array<int>, pos: int, kind: int, txn: seq<int>, key: seq<int>, d: Digests)
    returns (ok: bool, end: int)
    requires buf.Length == MAX_SIZE && 20 <= pos <= MAX_SIZE && IsHeader(kind, txn) && AreDigests(d)
    modifies buf
    ensures ok <==> pos + 24 <= MAX_SIZE
    ensures ok ==> end == pos + 24 && buf[20..end] == WithMac(kind, txn, old(buf[20..pos]), Some(key), d)
  {
    ghost var body := buf[20..pos];
    SetHeader(buf, kind, pos - 20 + 24, txn, pos);
    assert buf[..pos] == MacInput(kind, txn, body);
    var mac := d.mac(key, buf[..pos]);
    ok, end := Append(buf, pos, MESSAGE_INTEGRITY, mac);
    if ok {
      assert buf[..end] == Header(kind, |body| + 24, txn) + body + AttrBytes(Attr(MESSAGE_INTEGRITY, mac));
    }
  }

  /** The verifier's loop. */
  method VerifyIntegrity(data: seq<int>, key: seq<int>, d: Digests) returns (ok: bool)
    requires AreBytes(data)
    ensures ok == Verify(data, key, d)
  {
    if |data| < 44 {
      return false;
    }
    var pos, end := 20, 20 + Read16(data, 2);
    if end > |data| {
      end := |data|;
    }
    while pos + 4 <= end
      invariant 20 <= pos && Seek(data, 20, end) == Seek(data, pos, end)
      decreases end - pos
    {
      var length := Read16(data, pos + 2);
      if Read16(data, pos) == MESSAGE_INTEGRITY {
        if length != 20 || pos > MAX_SIZE || pos + 24 > |data| {
          return false;
        }
        var computed := d.mac(key, Patched(data, pos));
        return computed == data[pos + 4..pos + 24];
      }
      pos := pos + 4 + Padded16(length);
    }
    return false;
  }

  /** The lookup loop. */
  method FindAttr(data: seq<int>, kind: int) returns (value: Option<seq<int>>)
    requires AreBytes(data)
    ensures value == Find(data, kind, 20)
  {
    var pos := 20;
    while pos + 4 <= |data|
      invariant 20 <= pos && Find(data, kind, 20) == Find(data, kind, pos)
      decreases |data| - pos
    {
      var length := Read16(data, pos + 2);
      if pos + 4 + length > |data| {
        break;
      }
      if Read16(data, pos) == kind {
        return Some(data[pos + 4..pos + 4 + length]);
      }
      pos := pos + 4 + Padded16(length);
    }
    return None;
  }

  // ----- the binding request -----

  /** What a binding request is to carry. */
  datatype Request = Request(username: Option<seq<int>>, priority: int, nominate: bool, tie: int, controlling: bool)

  predicate IsRequest(r: Request)
  {
    && (r.username.Some? ==> |r.username.value| < 65533 && AreBytes(r.username.value))
    && 0 <= r.priority < 0x1_0000_0000 && 0 <= r.tie < 0x1_0000_0000_0000_0000
  }

  function Optional(present: bool, a: Attr): seq<Attr>
  {
    if present then [a] else []
  }

  function TieBreaker(r: Request): Attr
    requires IsRequest(r)
  {
    Attr(if r.controlling then ICE_CONTROLLING else ICE_CONTROLLED,
         U32(r.tie / 0x1_0000_0000) + U32(r.tie % 0x1_0000_0000))
  }

  /** Its attributes, in this order. */
  function Attrs(r: Request): (attrs: seq<Attr>)
    requires IsRequest(r)
    ensures forall i | 0 <= i < |attrs| :: IsAttr(attrs[i]) && attrs[i].kind != MESSAGE_INTEGRITY
  {
    (if r.username.Some? then [Attr(USERNAME, r.username.value)] else [])
    + Optional(r.priority > 0, Attr(PRIORITY, U32(r.priority)))
    + Optional(r.nominate, Attr(USE_CANDIDATE, []))
    + Optional(r.tie > 0, TieBreaker(r))
  }

  /** Appends an attribute if it is there; the attributes so far precede it. */
  method Add(buf: array<int>, pos: int, present: bool, a: Attr, ghost attrs: seq<Attr>, ghost rest: seq<Attr>)
    returns (ok: bool, end: int)
    requires 20 <= pos <= buf.Length && AreAttrs(attrs) && AreAttrs(rest) && (present ==> IsAttr(a))
    requires pos == 20 + |AllBytes(attrs, 0)| && buf[20..pos] == AllBytes(attrs, 0)
    modifies buf
    ensures var next := attrs + Optional(present, a);
            && AreAttrs(next) && AreAttrs(next + rest)
            && (ok ==> 20 <= end <= buf.Length && end == 20 + |AllBytes(next, 0)| && buf[20..end] == AllBytes(next, 0))
            && (!ok ==> 20 + |AllBytes(next + rest, 0)| > buf.Length)
  {
    ghost var next := attrs + Optional(present, a);
    AllBytesAppend(attrs, Optional(present, a), 0);
    AllBytesAppend(next, rest, 0);
    if !present {
      assert next == attrs;
      return true, pos;
    }
    assert AllBytes(next, |attrs| + 1) == [] && AllBytes(next, |attrs|) == AttrBytes(a) + [];
    ok, end := Append(buf, pos, a.kind, a.value);
    if ok {
      assert buf[20..end] == buf[..end][20..];
    }
  }

  method AddAttrs(buf: array<int>, r: Request) returns (ok: bool, end: int)
    requires buf.Length == MAX_SIZE && IsRequest(r)
    modifies buf
    ensures ok <==> 20 + |AllBytes(Attrs(r), 0)| <= MAX_SIZE
    ensures ok ==> end == 20 + |AllBytes(Attrs(r), 0)| && buf[20..end] == AllBytes(Attrs(r), 0)
  {
    var user := Attr(USERNAME, if r.username.Some? then r.username.value else []);
    var priority := Attr(PRIORITY, U32(r.priority));
    ok, end := AddFour(buf, r.username.Some?, user, r.priority > 0, priority,
                       r.nominate, Attr(USE_CANDIDATE, []), r.tie > 0, TieBreaker(r));
  }

  method AddFour(buf: array<int>, ha: bool, a: Attr, hb: bool, b: Attr, hc: bool, c: Attr, he: bool, e: Attr)
    returns (ok: bool, end: int)
    requires buf.Length == MAX_SIZE
    requires (ha ==> IsAttr(a)) && (hb ==> IsAttr(b)) && (hc ==> IsAttr(c)) && (he ==> IsAttr(e))
    modifies buf
    ensures var attrs := Optional(ha, a) + Optional(hb, b) + Optional(hc, c) + Optional(he, e);
            && AreAttrs(attrs) && (ok <==> 20 + |AllBytes(attrs, 0)| <= MAX_SIZE)
            && (ok ==> end == 20 + |AllBytes(attrs, 0)| && buf[20..end] == AllBytes(attrs, 0))
  {
    ghost var p, q, s, t := Optional(ha, a), Optional(hb, b), Optional(hc, c), Optional(he, e);
    Grouped(p, q, s, t);
    assert buf[20..20] == AllBytes([], 0);
    ok, end := Add(buf, 20, ha, a, [], q + s + t);
    if ok {
      ok, end := Add(buf, end, hb, b, p, s + t);
    }
    if ok {
      ok, end := AddTwo(buf, end, hc, c, he, e, p + q);
    }
  }

  method AddTwo(buf: array<int>, pos: int, hc: bool, c: Attr, he: bool, e: Attr, ghost attrs: seq<Attr>)
    returns (ok: bool, end: int)
    requires buf.Length == MAX_SIZE && 20 <= pos <= MAX_SIZE && AreAttrs(attrs)
    requires (hc ==> IsAttr(c)) && (he ==> IsAttr(e))
    requires pos == 20 + |AllBytes(attrs, 0)| && buf[20..pos] == AllBytes(attrs, 0)
    modifies buf
    ensures var all := attrs + Optional(hc, c) + Optional(he, e);
            && AreAttrs(all) && (ok <==> 20 + |AllBytes(all, 0)| <= MAX_SIZE)
            && (ok ==> end == 20 + |AllBytes(all, 0)| && buf[20..end] == AllBytes(all, 0))
  {
    ghost var s, t := Optional(hc, c), Optional(he, e);
    ok, end := Add(buf, pos, hc, c, attrs, t);
    if ok {
      assert attrs + s + t + [] == attrs + s + t;
      ok, end := Add(buf, end, he, e, attrs + s, []);
    }
  }

  lemma Grouped(a: seq<Attr>, b: seq<Attr>, c: seq<Attr>, e: seq<Attr>)
    requires AreAttrs(a) && AreAttrs(b) && AreAttrs(c) && AreAttrs(e)
    ensures AreAttrs([]) && AreAttrs(a + b + c + e) && AreAttrs(b + c + e) && AreAttrs(c + e)
    ensures [] + a == a && a + (b + c + e) == a + b + c + e && a + b + (c + e) == a + b + c + e
  {
  }

  /** What a reader of the message finds in it: the user name given, the priority
      exactly if it is positive, the flag exactly if nominating, and the
      tie-breaker exactly if it is positive, under the name of the role. */
  ghost predicate Carries(data: seq<int>, r: Request)
    requires AreBytes(data) && IsRequest(r)
  {
    var tie := U32(r.tie / 0x1_0000_0000) + U32(r.tie % 0x1_0000_0000);
    && Find(data, USERNAME, 20) == r.username
    && Find(data, PRIORITY, 20) == (if r.priority > 0 then Some(U32(r.priority)) else None)
    && Find(data, USE_CANDIDATE, 20) == (if r.nominate then Some([]) else None)
    && Find(data, ICE_CONTROLLING, 20) == (if r.controlling && r.tie > 0 then Some(tie) else None)
    && Find(data, ICE_CONTROLLED, 20) == (if !r.controlling && r.tie > 0 then Some(tie) else None)
  }

  /** The message can be told from its bytes: it is a binding request of the given
      transaction, carries what was asked for, and verifies with its password. */
  ghost predicate IsBindingRequest(data: seq<int>, r: Request, password: Option<seq<int>>, txn: seq<int>, d: Digests)
    requires IsRequest(r) && AreDigests(d)
  {
    && HasHeader(data, BINDING_REQUEST, txn) && Carries(data, r) && HasFingerprint(data, d)
    && (password.Some? ==> Verify(data, password.value, d))
  }

  lemma OneOf(present: bool, a: Attr, rest: seq<Attr>, kind: int)
    ensures FirstValue(Optional(present, a) + rest, kind, 0)
         == if present && a.kind == kind then Some(a.value) else FirstValue(rest, kind, 0)
  {
    FirstOfBoth(Optional(present, a), rest, kind, 0);
  }

  lemma OneOfFour(ha: bool, a: Attr, hb: bool, b: Attr, hc: bool, c: Attr, he: bool, e: Attr, all: seq<Attr>, kind: int)
    requires all == Optional(ha, a) + Optional(hb, b) + Optional(hc, c) + Optional(he, e)
    ensures FirstValue(all, kind, 0)
         == if ha && a.kind == kind then Some(a.value) else if hb && b.kind == kind then Some(b.value)
            else if hc && c.kind == kind then Some(c.value) else if he && e.kind == kind then Some(e.value) else None
  {
    var p, q, s, t := Optional(ha, a), Optional(hb, b), Optional(hc, c), Optional(he, e);
    assert all == p + (q + (s + (t + [])));
    OneOf(ha, a, q + (s + (t + [])), kind);
    OneOf(hb, b, s + (t + []), kind);
    OneOf(hc, c, t + [], kind);
    OneOf(he, e, [], kind);
  }

  lemma RequestFinds(r: Request, kind: int)
    requires IsRequest(r)
    ensures FirstValue(Attrs(r), kind, 0)
         == if r.username.Some? && kind == USERNAME then r.username
            else if r.priority > 0 && kind == PRIORITY then Some(U32(r.priority))
            else if r.nominate && kind == USE_CANDIDATE then Some([])
            else if r.tie > 0 && kind == TieBreaker(r).kind then Some(TieBreaker(r).value) else None
  {
    var user := Attr(USERNAME, if r.username.Some? then r.username.value else []);
    OneOfFour(r.username.Some?, user, r.priority > 0, Attr(PRIORITY, U32(r.priority)), r.nominate,
              Attr(USE_CANDIDATE, []), r.tie > 0, TieBreaker(r), Attrs(r), kind);
  }

  lemma RequestRead(r: Request, password: Option<seq<int>>, txn: seq<int>, d: Digests, data: seq<int>, kind: int)
    requires IsRequest(r) && IsHeader(BINDING_REQUEST, txn) && AreDigests(d)
    requires 20 + |AllBytes(Attrs(r), 0)| + (if password.Some? then 24 else 0) + 8 <= MAX_SIZE
    requires data == Sealed(BINDING_REQUEST, txn, AllBytes(Attrs(r), 0), password, d)
    requires kind != MESSAGE_INTEGRITY && kind != FINGERPRINT
    ensures AreBytes(data) && Find(data, kind, 20)
         == if r.username.Some? && kind == USERNAME then r.username
            else if r.priority > 0 && kind == PRIORITY then Some(U32(r.priority))
            else if r.nominate && kind == USE_CANDIDATE then Some([])
            else if r.tie > 0 && kind == TieBreaker(r).kind then Some(TieBreaker(r).value) else None
  {
    SealKeepsAttrs(BINDING_REQUEST, txn, Attrs(r), password, d, data, kind);
    RequestFinds(r, kind);
  }

  lemma SealedCarries(r: Request, password: Option<seq<int>>, txn: seq<int>, d: Digests, data: seq<int>)
    requires IsRequest(r) && IsHeader(BINDING_REQUEST, txn) && AreDigests(d)
    requires 20 + |AllBytes(Attrs(r), 0)| + (if password.Some? then 24 else 0) + 8 <= MAX_SIZE
    requires data == Sealed(BINDING_REQUEST, txn, AllBytes(Attrs(r), 0), password, d)
    ensures AreBytes(data) && Carries(data, r)
  {
    RequestRead(r, password, txn, d, data, USERNAME);
    RequestRead(r, password, txn, d, data, PRIORITY);
    RequestRead(r, password, txn, d, data, USE_CANDIDATE);
    RequestRead(r, password, txn, d, data, ICE_CONTROLLING);
    RequestRead(r, password, txn, d, data, ICE_CONTROLLED);
  }

  lemma SealedIsRequest(r: Request, password: Option<seq<int>>, txn: seq<int>, d: Digests, data: seq<int>)
    requires IsRequest(r) && IsHeader(BINDING_REQUEST, txn) && AreDigests(d)
    requires 20 + |AllBytes(Attrs(r), 0)| + (if password.Some? then 24 else 0) + 8 <= MAX_SIZE
    requires data == Sealed(BINDING_REQUEST, txn, AllBytes(Attrs(r), 0), password, d)
    ensures IsBindingRequest(data, r, password, txn, d)
  {
    var attrs := Attrs(r);
    var body := AllBytes(attrs, 0);
    SealedCarries(r, password, txn, d, data);
    SealedHeader(BINDING_REQUEST, txn, body, password, d, data);
    SealedFingerprint(BINDING_REQUEST, txn, body, password, d, data);
    if password.Some? {
      var input := MacInput(BINDING_REQUEST, txn, body);
      SealVerifies(BINDING_REQUEST, txn, attrs, password.value, password.value, d, body, input, data);
    }
  }

  /** `rtc_stun_build_binding_request`: fails only when the message does not fit. */
  method BuildBindingRequest(buf: array<int>, r: Request, password: Option<seq<int>>, txn: seq<int>, d: Digests)
    returns (ok: bool, end: int)
    requires buf.Length == MAX_SIZE && IsRequest(r) && IsHeader(BINDING_REQUEST, txn) && AreDigests(d)
    modifies buf
    ensures var body := AllBytes(Attrs(r), 0);
            && (ok <==> 20 + |body| + (if password.Some? then 24 else 0) + 8 <= MAX_SIZE)
            && (ok ==> 0 <= end <= buf.Length && buf[..end] == Sealed(BINDING_REQUEST, txn, body, password, d))
    ensures ok ==> IsBindingRequest(buf[..end], r, password, txn, d)
  {
    ok, end := AddAttrs(buf, r);
    if ok {
      ok, end := Seal(buf, end, BINDING_REQUEST, txn, password, d);
    }
    if ok {
      SealedIsRequest(r, password, txn, d, buf[..end]);
    }
  }
}
