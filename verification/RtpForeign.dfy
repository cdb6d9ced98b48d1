/** RTP packets of any sender: contributing sources, an extension of any profile
    and the padding flag, none of which this library writes itself. */
module RtpForeign {
  import opened Bytes
  import opened Collections
  import opened Rtp

  /** An extension block: two bytes of the profile and a body of whole words. */
  datatype Extension = Extension(profile: seq<int>, body: seq<int>)

  predicate IsExtension(x: Extension)
  {
    && |x.profile| == 2 && AreBytes(x.profile) && AreBytes(x.body)
    && |x.body| % 4 == 0 && |x.body| < 0x4_0000
  }

  predicate AreSources(sources: seq<int>)
  {
    |sources| < 16 && forall i | 0 <= i < |sources| :: 0 <= sources[i] < 0x1_0000_0000
  }

  function SourceBytes(sources: seq<int>, i: int): (r: seq<int>)
    requires 0 <= i <= |sources| && AreSources(sources)
    ensures |r| == 4 * (|sources| - i) && AreBytes(r)
    decreases |sources| - i
  {
    if i == |sources| then [] else U32(sources[i]) + SourceBytes(sources, i + 1)
  }

  function ExtensionBytes(ext: Option<Extension>): (r: seq<int>)
    requires ext.Some? ==> IsExtension(ext.value)
    ensures AreBytes(r)
  {
    if ext.None? then [] else ext.value.profile + U16(|ext.value.body| / 4) + ext.value.body
  }

  function First(padded: bool, extended: bool, sources: int): int
  {
    128 + (if padded then 32 else 0) + (if extended then 16 else 0) + sources
  }

  function Fixed(h: Header, padded: bool, extended: bool, sources: int): (r: seq<int>)
    requires IsHeader(h) && 0 <= sources < 16
    ensures |r| == 12 && AreBytes(r)
  {
    [First(padded, extended, sources), h.kind % 128 + if h.marker then 128 else 0]
    + U16(h.number) + U32(h.ts) + U32(h.ssrc)
  }

  lemma FixedRead(data: seq<int>, h: Header, padded: bool, extended: bool, sources: int)
    requires IsHeader(h) && 0 <= sources < 16 && Occurs(data, 0, Fixed(h, padded, extended, sources))
    ensures data[0] == First(padded, extended, sources) && data[1] == h.kind % 128 + (if h.marker then 128 else 0)
    ensures Read16(data, 2) == h.number && Read32(data, 4) == h.ts && Read32(data, 8) == h.ssrc
  {
    var first := [First(padded, extended, sources), h.kind % 128 + if h.marker then 128 else 0];
    OccursSplit(data, 0, first + U16(h.number) + U32(h.ts), U32(h.ssrc));
    OccursSplit(data, 0, first + U16(h.number), U32(h.ts));
    OccursSplit(data, 0, first, U16(h.number));
    assert data[0 + 0] == first[0] && data[0 + 1] == first[1];
    OccursRead16(data, 2, h.number);
    OccursRead32(data, 4, h.ts);
    OccursRead32(data, 8, h.ssrc);
  }

  lemma FourParts(data: seq<int>, head: seq<int>, sources: seq<int>, ext: seq<int>, payload: seq<int>)
    requires data == head + sources + ext + payload
    ensures Occurs(data, 0, head) && Occurs(data, |head| + |sources|, ext)
    ensures data[|head| + |sources| + |ext|..] == payload
    ensures AreBytes(head) && AreBytes(sources) && AreBytes(ext) && AreBytes(payload) ==> AreBytes(data)
  {
    assert Occurs(data, 0, head + sources + ext + payload);
    OccursSplit(data, 0, head + sources + ext, payload);
    OccursSplit(data, 0, head + sources, ext);
    OccursSplit(data, 0, head, sources);
  }

  lemma ExtensionRead(data: seq<int>, p: int, x: Extension)
    requires IsExtension(x) && Occurs(data, p, ExtensionBytes(Some(x)))
    ensures p + 4 + |x.body| <= |data| && Read16(data, p + 2) * 4 == |x.body|
    ensures data[p + 4..p + 4 + |x.body|] == x.body
  {
    OccursSplit(data, p, x.profile + U16(|x.body| / 4), x.body);
    OccursSplit(data, p, x.profile, U16(|x.body| / 4));
    OccursRead16(data, p + 2, |x.body| / 4);
    SliceOf(data, p + 4, x.body);
  }

  lemma FirstRead(padded: bool, extended: bool, sources: int)
    requires 0 <= sources < 16
    ensures var b := First(padded, extended, sources);
            b / 64 % 4 == 2 && (b / 16 % 2 == 1 <==> extended) && b % 16 == sources
  {
  }

  lemma StartIs(data: seq<int>, ext: Option<Extension>, sources: int, bytes: seq<int>)
    requires AreBytes(data) && |data| >= 12 && (ext.Some? ==> IsExtension(ext.value)) && bytes == ExtensionBytes(ext)
    requires (data[0] / 16 % 2 == 1 <==> ext.Some?) && data[0] % 16 == sources
    requires Occurs(data, 12 + 4 * sources, bytes)
    ensures PayloadStart(data) == Some(12 + 4 * sources + |bytes|)
    ensures ext.Some? ==> data[16 + 4 * sources..12 + 4 * sources + |bytes|] == ext.value.body
  {
    if ext.Some? {
      ExtensionRead(data, 12 + 4 * sources, ext.value);
    }
  }

  lemma Read(data: seq<int>, h: Header, base: int, start: int, body: Option<seq<int>>)
    requires IsHeader(h) && h.kind < 128 && AreBytes(data) && |data| >= 12 && data[0] / 64 % 4 == 2
    requires base == 12 + data[0] % 16 * 4 && PayloadStart(data) == Some(start)
    requires (data[0] / 16 % 2 == 1 <==> body.Some?) && data[1] == h.kind % 128 + (if h.marker then 128 else 0)
    requires Read16(data, 2) == h.number && Read32(data, 4) == h.ts && Read32(data, 8) == h.ssrc
    requires body.Some? ==> base + 4 <= start <= |data| && data[base + 4..start] == body.value
    ensures Parse(data) == Some(Parsed(h, if body.Some? && body.value != [] && |data| <= BUFFER then body else None,
                                       data[start..]))
  {
  }

  lemma AllRead(data: seq<int>, h: Header, padded: bool, ext: Option<Extension>, sources: int, bytes: seq<int>)
    requires IsHeader(h) && h.kind < 128 && AreBytes(data) && |data| >= 12 && 0 <= sources < 16
    requires (ext.Some? ==> IsExtension(ext.value)) && bytes == ExtensionBytes(ext)
    requires data[0] == First(padded, ext.Some?, sources) && data[1] == h.kind % 128 + (if h.marker then 128 else 0)
    requires Read16(data, 2) == h.number && Read32(data, 4) == h.ts && Read32(data, 8) == h.ssrc
    requires Occurs(data, 12 + 4 * sources, bytes)
    ensures Parse(data) == Some(Parsed(h, if ext.Some? && ext.value.body != [] && |data| <= BUFFER
                                          then Some(ext.value.body) else None,
                                       data[12 + 4 * sources + |bytes|..]))
  {
    FirstRead(padded, ext.Some?, sources);
    StartIs(data, ext, sources, bytes);
    Read(data, h, 12 + 4 * sources, 12 + 4 * sources + |bytes|, if ext.Some? then Some(ext.value.body) else None);
  }

  /** A packet of any sender, with up to fifteen contributing sources: the fields,
      the extension's body (if the packet fits the internal buffer) and what follows
      all of that, padding included. */
  lemma ForeignParsed(h: Header, padded: bool, sources: seq<int>, ext: Option<Extension>, payload: seq<int>,
                      data: seq<int>)
    requires IsHeader(h) && h.kind < 128 && AreSources(sources) && (ext.Some? ==> IsExtension(ext.value))
    requires AreBytes(payload)
    requires data == Fixed(h, padded, ext.Some?, |sources|) + SourceBytes(sources, 0) + ExtensionBytes(ext) + payload
    ensures AreBytes(data)
    ensures Parse(data) == Some(Parsed(h, if ext.Some? && ext.value.body != [] && |data| <= BUFFER
                                          then Some(ext.value.body) else None, payload))
  {
    var head, list, bytes := Fixed(h, padded, ext.Some?, |sources|), SourceBytes(sources, 0), ExtensionBytes(ext);
    FourParts(data, head, list, bytes, payload);
    FixedRead(data, h, padded, ext.Some?, |sources|);
    AllRead(data, h, padded, ext, |sources|, bytes);
  }
}
