/** The capture file format (src/capture/mod.rs). */
module CaptureFormat {
  import opened Bytes

  const CAPTURE_MAGIC: seq<byte> := [0x52, 0x54, 0x4C, 0x58]
  const CAPTURE_VERSION: nat := 1

  type u64 = n: nat | n < TWO_TO_64

  datatype CaptureChunk = CaptureChunk(timestamp: u64, data: seq<byte>)

  // ---------- the format ----------

  /** Lengths are stored modulo 2^32. */
  function EncodeChunk(c: CaptureChunk): seq<byte>
  {
    LeBytes(c.timestamp, 8) + LeBytes(|c.data| % TWO_TO_32, 4) + c.data
  }

  /** How many bytes that is. */
  function SizeOf(c: CaptureChunk): nat { 12 + |c.data| }

  lemma EncodedSize(c: CaptureChunk)
    ensures |EncodeChunk(c)| == SizeOf(c)
  {
  }

  function EncodeAll(cs: seq<CaptureChunk>): seq<byte>
  {
    if cs == [] then [] else EncodeChunk(cs[0]) + EncodeAll(cs[1..])
  }

  datatype ChunkResult = Item(chunk: CaptureChunk, rest: seq<byte>) | End | Short

  function DecodeChunk(bs: seq<byte>): ChunkResult
  {
    if |bs| < 8 then End
    else if |bs| < 12 || |bs| - 12 < LeValue(bs[8..12]) then Short
    else
      var n := LeValue(bs[8..12]);
      TimestampFits(bs[..8]);
      Item(CaptureChunk(LeValue(bs[..8]), bs[12..12 + n]), bs[12 + n..])
  }

  /** Reading chunks until one cannot be had, and why it could not. */
  function DecodeAll(bs: seq<byte>): (seq<CaptureChunk>, ChunkResult)
    decreases |bs|
  {
    match DecodeChunk(bs)
    case Item(c, rest) =>
      var (cs, end) := DecodeAll(rest);
      ([c] + cs, end)
    case end => ([], end)
  }

  function EncodeHeader(payload: seq<byte>): seq<byte>
  {
    CAPTURE_MAGIC + LeBytes(CAPTURE_VERSION, 4) + LeBytes(|payload| % TWO_TO_32, 4) + payload
  }

  datatype HeaderResult = Header(payload: seq<byte>, rest: seq<byte>) | NotACapture | HeaderShort

  /** The version is read and not looked at. */
  function DecodeHeader(bs: seq<byte>): HeaderResult
  {
    if |bs| < 4 then HeaderShort
    else if bs[..4] != CAPTURE_MAGIC then NotACapture
    else if |bs| < 12 || |bs| - 12 < LeValue(bs[8..12]) then HeaderShort
    else
      var n := LeValue(bs[8..12]);
      Header(bs[12..12 + n], bs[12 + n..])
  }

  lemma TimestampFits(bs: seq<byte>)
    requires |bs| == 8
    ensures LeValue(bs) < TWO_TO_64
  {
    LeBound(bs);
    PowLimits();
  }

  // ---------- printing and parsing are inverse ----------

  lemma LengthField(n: nat)
    ensures LeValue(LeBytes(n % TWO_TO_32, 4)) == n % TWO_TO_32
  {
    PowLimits();
    LeRoundTrip(n % TWO_TO_32, 4);
  }

  /** The length prefix and what it measures, wherever the record puts them. */
  lemma Prefixed(front: seq<byte>, len: seq<byte>, data: seq<byte>, rest: seq<byte>)
    requires |len| == 4 && LeValue(len) == |data| % TWO_TO_32
    ensures var bs, p := front + len + data + rest, |front| + 4;
            var n := LeValue(bs[|front|..p]);
            && bs[..|front|] == front && n == |data| % TWO_TO_32 && p + n <= |bs|
            && (bs[p..p + n] == data && bs[p + n..] == rest <==> |data| < TWO_TO_32)
  {
    var bs, p := front + len + data + rest, |front| + 4;
    assert bs[|front|..p] == len;
    var n := LeValue(len);
    if |data| < TWO_TO_32 {
      assert n == |data|;
    } else {
      assert n < |data|;
    }
  }

  /** A chunk comes back from the file exactly when its length fits the length field. */
  lemma ChunkRoundTripIff(c: CaptureChunk, rest: seq<byte>)
    ensures DecodeChunk(EncodeChunk(c) + rest) == Item(c, rest) <==> |c.data| < TWO_TO_32
  {
    var ts := LeBytes(c.timestamp, 8);
    PowLimits();
    LeRoundTrip(c.timestamp, 8);
    LengthField(|c.data|);
    Prefixed(ts, LeBytes(|c.data| % TWO_TO_32, 4), c.data, rest);
  }

  lemma FieldInverse(bs: seq<byte>)
    ensures LeValue(bs) < Pow256(|bs|) && LeBytes(LeValue(bs), |bs|) == bs
  {
    LeBound(bs);
    LeInverse(bs);
  }

  lemma DecodedIsEncoded(bs: seq<byte>)
    requires DecodeChunk(bs).Item?
    ensures var r := DecodeChunk(bs);
            bs == EncodeChunk(r.chunk) + r.rest && |r.chunk.data| < TWO_TO_32
  {
    var ts, len, r := bs[..8], bs[8..12], DecodeChunk(bs);
    PowLimits();
    FieldInverse(ts);
    FieldInverse(len);
    var n := LeValue(len);
    assert |r.chunk.data| == n && n % TWO_TO_32 == n;
    Cut(bs, 8, 4, n);
  }

  lemma Cut(bs: seq<byte>, a: nat, b: nat, n: nat)
    requires a + b + n <= |bs|
    ensures bs == bs[..a] + bs[a..a + b] + bs[a + b..a + b + n] + bs[a + b + n..]
  {
  }

  lemma HeaderRoundTripIff(payload: seq<byte>, rest: seq<byte>)
    ensures DecodeHeader(EncodeHeader(payload) + rest) == Header(payload, rest) <==> |payload| < TWO_TO_32
  {
    var front := CAPTURE_MAGIC + LeBytes(CAPTURE_VERSION, 4);
    LengthField(|payload|);
    Prefixed(front, LeBytes(|payload| % TWO_TO_32, 4), payload, rest);
    assert front[..4] == CAPTURE_MAGIC;
    assert (EncodeHeader(payload) + rest)[..8][..4] == (EncodeHeader(payload) + rest)[..4];
  }

  ghost predicate Storable(cs: seq<CaptureChunk>)
  {
    forall i :: 0 <= i < |cs| ==> |cs[i].data| < TWO_TO_32
  }

  /** How many chunks lie wholly within the first k bytes of the encoding. */
  function WholeIn(cs: seq<CaptureChunk>, k: nat): (j: nat)
    ensures j <= |cs|
  {
    if cs == [] || k < |EncodeChunk(cs[0])| then 0
    else 1 + WholeIn(cs[1..], k - |EncodeChunk(cs[0])|)
  }

  lemma {:induction false} WholeInIsMost(cs: seq<CaptureChunk>, k: nat)
    ensures var j := WholeIn(cs, k);
            && |EncodeAll(cs[..j])| <= k
            && (j < |cs| ==> k < |EncodeAll(cs[..j + 1])|)
  {
    var j := WholeIn(cs, k);
    if cs != [] {
      if k < |EncodeChunk(cs[0])| {
        assert cs[..1] == [cs[0]] && cs[..1][1..] == [];
      } else {
        WholeInIsMost(cs[1..], k - |EncodeChunk(cs[0])|);
        assert cs[..j][1..] == cs[1..][..j - 1];
        if j < |cs| {
          assert cs[..j + 1][1..] == cs[1..][..j];
        }
      }
    }
  }

  /** Reading bs gives these chunks and leaves so many bytes, which are a clean end if they
      are fewer than 8 and an error otherwise. */
  ghost predicate ReadsAs(bs: seq<byte>, cs: seq<CaptureChunk>, left: nat)
  {
    DecodeAll(bs) == (cs, if left < 8 then End else Short)
  }

  /** Reading the first k bytes of the encoding gives the chunks that are whole in them, and
      leaves what is over. */
  ghost predicate Truncated(cs: seq<CaptureChunk>, k: nat)
    requires k <= |EncodeAll(cs)|
  {
    var whole := cs[..WholeIn(cs, k)];
    |EncodeAll(whole)| <= k && ReadsAs(EncodeAll(cs)[..k], whole, k - |EncodeAll(whole)|)
  }

  /** However a file is cut short, that is what reading it gives. */
  lemma {:induction false} TruncatedDecode(cs: seq<CaptureChunk>, k: nat)
    requires Storable(cs) && k <= |EncodeAll(cs)|
    ensures Truncated(cs, k)
  {
    if cs == [] || k < |EncodeChunk(cs[0])| {
      NoneWhole(cs, k);
    } else {
      TruncatedDecode(cs[1..], k - |EncodeChunk(cs[0])|);
      OneMoreWhole(cs, k);
    }
  }

  lemma NoneWhole(cs: seq<CaptureChunk>, k: nat)
    requires Storable(cs) && k <= |EncodeAll(cs)| && (cs == [] || k < |EncodeChunk(cs[0])|)
    ensures Truncated(cs, k)
  {
    if cs != [] {
      TakeOfConcat(EncodeChunk(cs[0]), EncodeAll(cs[1..]), k);
      PartialChunk(cs[0], k);
    }
  }

  lemma OneMoreWhole(cs: seq<CaptureChunk>, k: nat)
    requires Storable(cs) && cs != [] && |EncodeChunk(cs[0])| <= k <= |EncodeAll(cs)|
    requires Truncated(cs[1..], k - |EncodeChunk(cs[0])|)
    ensures Truncated(cs, k)
  {
    var head, tail := EncodeChunk(cs[0]), EncodeAll(cs[1..]);
    var m := k - |head|;
    var whole := cs[1..][..WholeIn(cs[1..], m)];
    TakeOfConcat(head, tail, k);
    WholeInTail(cs, k);
    ChunkThenRest(cs[0], tail[..m], whole, m - |EncodeAll(whole)|);
  }

  lemma WholeInTail(cs: seq<CaptureChunk>, k: nat)
    requires cs != [] && k >= |EncodeChunk(cs[0])|
    ensures var j := WholeIn(cs[1..], k - |EncodeChunk(cs[0])|);
            && WholeIn(cs, k) == j + 1 && cs[..j + 1] == [cs[0]] + cs[1..][..j]
            && EncodeAll(cs[..j + 1]) == EncodeChunk(cs[0]) + EncodeAll(cs[1..][..j])
  {
    var j := WholeIn(cs[1..], k - |EncodeChunk(cs[0])|);
    assert cs[..j + 1][1..] == cs[1..][..j];
  }

  lemma ChunkThenRest(c: CaptureChunk, rest: seq<byte>, cs: seq<CaptureChunk>, left: nat)
    requires |c.data| < TWO_TO_32 && ReadsAs(rest, cs, left)
    ensures ReadsAs(EncodeChunk(c) + rest, [c] + cs, left)
  {
    ChunkRoundTripIff(c, rest);
  }

  lemma PartialChunk(c: CaptureChunk, k: nat)
    requires |c.data| < TWO_TO_32 && k < |EncodeChunk(c)|
    ensures DecodeChunk(EncodeChunk(c)[..k]) == if k < 8 then End else Short
  {
    if k >= 12 {
      LengthField(|c.data|);
      LengthSurvives(LeBytes(c.timestamp, 8), LeBytes(|c.data| % TWO_TO_32, 4), c.data, k);
    }
  }

  lemma LengthSurvives(front: seq<byte>, len: seq<byte>, data: seq<byte>, k: nat)
    requires |front| + |len| <= k <= |front + len + data|
    ensures (front + len + data)[..k][|front|..|front| + |len|] == len
  {
  }

  /** The whole file reads back as the chunks written. */
  lemma FileRoundTrip(cs: seq<CaptureChunk>)
    requires Storable(cs)
    ensures DecodeAll(EncodeAll(cs)) == (cs, End)
  {
    var k := |EncodeAll(cs)|;
    TruncatedDecode(cs, k);
    assert EncodeAll(cs)[..k] == EncodeAll(cs);
    WholeInIsMost(cs, k);
    WholeInAll(cs);
    assert cs[..|cs|] == cs;
  }

  lemma {:induction false} WholeInAll(cs: seq<CaptureChunk>)
    ensures WholeIn(cs, |EncodeAll(cs)|) == |cs|
  {
    if cs != [] {
      WholeInAll(cs[1..]);
    }
  }

  lemma EncodingInjective(a: seq<CaptureChunk>, b: seq<CaptureChunk>)
    requires Storable(a) && Storable(b) && EncodeAll(a) == EncodeAll(b)
    ensures a == b
  {
    FileRoundTrip(a);
    FileRoundTrip(b);
  }

  /** Whatever the bytes, what is read accounts for them: re-encoded it is the beginning of
      the file, and what follows it is not a chunk. */
  lemma {:induction false} DecodeAccounts(bs: seq<byte>)
    ensures var (cs, end) := DecodeAll(bs);
            && Storable(cs) && EncodeAll(cs) <= bs
            && end == DecodeChunk(bs[|EncodeAll(cs)|..]) && !end.Item?
    decreases |bs|
  {
    var r := DecodeChunk(bs);
    if r.Item? {
      DecodedIsEncoded(bs);
      DecodeAccounts(r.rest);
      var cs := DecodeAll(r.rest).0;
      assert ([r.chunk] + cs)[1..] == cs;
      var n := |EncodeAll(cs)|;
      assert r.rest == EncodeAll(cs) + r.rest[n..];
      assert bs == EncodeChunk(r.chunk) + EncodeAll(cs) + r.rest[n..];
      assert bs[|EncodeAll([r.chunk] + cs)|..] == r.rest[n..];
    } else {
      assert bs[0..] == bs;
    }
  }

  lemma {:induction false} EncodeAllAppend(a: seq<CaptureChunk>, b: seq<CaptureChunk>)
    ensures EncodeAll(a + b) == EncodeAll(a) + EncodeAll(b)
  {
    if a == [] {
      assert a + b == b;
    } else {
      assert (a + b)[1..] == a[1..] + b;
      EncodeAllAppend(a[1..], b);
    }
  }

  // ---------- files ----------

  function Zeros(n: nat): seq<byte> { seq(n, _ => 0) }

  /** The contents after bs is written at position p; a gap before p fills with zeros. */
  function Overlay(content: seq<byte>, p: nat, bs: seq<byte>): seq<byte>
  {
    (if p <= |content| then content[..p] else content + Zeros(p - |content|))
    + bs
    + (if p + |bs| < |content| then content[p + |bs|..] else [])
  }

  lemma OverlayTwice(content: seq<byte>, p: nat, a: seq<byte>, b: seq<byte>)
    ensures Overlay(Overlay(content, p, a), p + |a|, b) == Overlay(content, p, a + b)
  {
    var once := Overlay(content, p, a);
    assert |once| >= p + |a|;
    assert once[..p + |a|] == (if p <= |content| then content[..p] else content + Zeros(p - |content|)) + a;
  }

  class File {
    var content: seq<byte>
    var pos: nat

    constructor (content: seq<byte>)
      ensures this.content == content && pos == 0
    {
      this.content := content;
      pos := 0;
    }

    function Remaining(): seq<byte>
      reads this
    {
      if pos <= |content| then content[pos..] else []
    }

    method WriteAll(bs: seq<byte>)
      requires pos <= |content| || bs != []
      modifies this
      ensures content == Overlay(old(content), old(pos), bs) && pos == old(pos) + |bs|
    {
      content := Overlay(content, pos, bs);
      pos := pos + |bs|;
    }

    method Seek(to: nat)
      modifies this
      ensures pos == to && content == old(content)
    {
      pos := to;
    }

    /** Fails when too little is left, and has then read all of it. */
    method ReadExact(n: nat) returns (ok: bool, bs: seq<byte>)
      modifies this
      ensures content == old(content)
      ensures ok <==> n <= |old(Remaining())|
      ensures ok ==> bs == old(Remaining())[..n] && Remaining() == old(Remaining())[n..]
      ensures ok ==> pos == old(pos) + n
      ensures !ok ==> Remaining() == []
    {
      if pos + n <= |content| {
        ok, bs := true, content[pos..pos + n];
        pos := pos + n;
      } else if n == 0 {
        ok, bs := true, [];
      } else {
        ok, bs := false, [];
        pos := if pos <= |content| then |content| else pos;
      }
    }
  }

  method WriteChunk(f: File, chunk: CaptureChunk)
    modifies f
    ensures f.content == Overlay(old(f.content), old(f.pos), EncodeChunk(chunk))
    ensures f.pos == old(f.pos) + |EncodeChunk(chunk)|
  {
    ghost var c, p := f.content, f.pos;
    var dataLen := |chunk.data| % TWO_TO_32;
    f.WriteAll(LeBytes(chunk.timestamp, 8));
    f.WriteAll(LeBytes(dataLen, 4));
    f.WriteAll(chunk.data);
    OverlayTwice(c, p, LeBytes(chunk.timestamp, 8), LeBytes(dataLen, 4));
    OverlayTwice(c, p, LeBytes(chunk.timestamp, 8) + LeBytes(dataLen, 4), chunk.data);
  }

  /** A length and as many bytes. */
  method ReadSized(f: File) returns (ok: bool, data: seq<byte>)
    modifies f
    ensures f.content == old(f.content)
    ensures var bs := old(f.Remaining());
            && ok == (|bs| >= 4 && LeValue(bs[..4]) <= |bs| - 4)
            && (ok ==> var n := LeValue(bs[..4]); data == bs[4..4 + n] && f.Remaining() == bs[4 + n..])
    ensures ok ==> f.pos == old(f.pos) + 4 + |data|
    ensures !ok ==> f.Remaining() == []
  {
    ghost var bs := f.Remaining();
    var len;
    ok, len := f.ReadExact(4);
    data := [];
    if ok {
      var n := LeValue(len);
      ok, data := f.ReadExact(n);
      if ok {
        Within(bs, 4, n);
      }
    }
  }

  lemma WithinWithin(bs: seq<byte>, a: nat, n: nat)
    requires a + 4 + n <= |bs|
    ensures bs[a..][..4] == bs[a..a + 4]
    ensures bs[a..][4..4 + n] == bs[a + 4..a + 4 + n] && bs[a..][4 + n..] == bs[a + 4 + n..]
  {
  }

  method ReadChunk(f: File) returns (r: ChunkResult)
    modifies f
    ensures f.content == old(f.content)
    ensures r == DecodeChunk(old(f.Remaining()))
    ensures f.Remaining() == if r.Item? then r.rest else []
  {
    ghost var bs := f.Remaining();
    var ok, ts := f.ReadExact(8);
    if !ok {
      return End;
    }
    if |bs| >= 12 {
      WithinWithin(bs, 8, 0);
    }
    TimestampFits(ts);
    var data;
    ok, data := ReadSized(f);
    if !ok {
      return Short;
    }
    WithinWithin(bs, 8, |data|);
    r := Item(CaptureChunk(LeValue(ts), data), f.Remaining());
  }

  method ReadHeader(f: File) returns (r: HeaderResult)
    modifies f
    ensures f.content == old(f.content)
    ensures r == DecodeHeader(old(f.Remaining()))
    ensures r.Header? ==> f.Remaining() == r.rest
    ensures r.Header? ==> f.pos == old(f.pos) + 12 + |r.payload|
  {
    ghost var bs := f.Remaining();
    var ok, magic := f.ReadExact(4);
    if !ok {
      return HeaderShort;
    }
    if magic != CAPTURE_MAGIC {
      return NotACapture;
    }
    var version, payload;
    ok, version := f.ReadExact(4);
    if !ok {
      return HeaderShort;
    }
    Within(bs, 4, 4);
    if |bs| >= 12 {
      WithinWithin(bs, 8, 0);
    }
    ok, payload := ReadSized(f);
    if !ok {
      return HeaderShort;
    }
    WithinWithin(bs, 8, |payload|);
    r := Header(payload, f.Remaining());
  }

  /** Whatever the file held and wherever it was positioned, the header ends up at the
      start of it, the position moves by the header's length, and bytes past both copies
      of the header are untouched. */
  method WriteHeader(f: File, payload: seq<byte>)
    modifies f
    ensures var h := EncodeHeader(payload);
            && f.content == Overlay(Overlay(old(f.content), old(f.pos), h), 0, h)
            && f.pos == old(f.pos) + |h|
  {
    var start := f.pos;
    WriteFields(f, payload);
    var end := f.pos;
    if start != 0 {
      var bytes := HeaderToVec(payload);
      f.Seek(0);
      f.WriteAll(bytes);
      f.Seek(end);
    } else {
      OverlayAgain(old(f.content), EncodeHeader(payload));
    }
  }

  method WriteFields(f: File, payload: seq<byte>)
    modifies f
    ensures f.content == Overlay(old(f.content), old(f.pos), EncodeHeader(payload))
    ensures f.pos == old(f.pos) + |EncodeHeader(payload)|
  {
    ghost var c, p := f.content, f.pos;
    var version, len := LeBytes(CAPTURE_VERSION, 4), LeBytes(|payload| % TWO_TO_32, 4);
    f.WriteAll(CAPTURE_MAGIC);
    f.WriteAll(version);
    f.WriteAll(len);
    f.WriteAll(payload);
    OverlayTwice(c, p, CAPTURE_MAGIC, version);
    OverlayTwice(c, p, CAPTURE_MAGIC + version, len);
    OverlayTwice(c, p, CAPTURE_MAGIC + version + len, payload);
  }

  method HeaderToVec(payload: seq<byte>) returns (bytes: seq<byte>)
    ensures bytes == EncodeHeader(payload)
  {
    bytes := CAPTURE_MAGIC;
    bytes := bytes + LeBytes(CAPTURE_VERSION, 4);
    bytes := bytes + LeBytes(|payload| % TWO_TO_32, 4);
    bytes := bytes + payload;
  }

  lemma OverlayAgain(content: seq<byte>, bs: seq<byte>)
    ensures Overlay(Overlay(content, 0, bs), 0, bs) == Overlay(content, 0, bs)
  {
  }

  /** The byte at each place after an overlay. */
  function OverlaidByte(content: seq<byte>, p: nat, bs: seq<byte>, i: nat): byte
  {
    if p <= i < p + |bs| then bs[i - p] else if i < |content| then content[i] else 0
  }

  lemma OverlayBytes(content: seq<byte>, p: nat, bs: seq<byte>)
    ensures var r := Overlay(content, p, bs);
            && |r| == (if p + |bs| > |content| then p + |bs| else |content|)
            && forall i :: 0 <= i < |r| ==> r[i] == OverlaidByte(content, p, bs, i)
  {
  }

  lemma HeaderRewrite(content: seq<byte>, start: nat, payload: seq<byte>)
    ensures var h := EncodeHeader(payload);
            var r := Overlay(Overlay(content, start, h), 0, h);
            && (DecodeHeader(r) == Header(payload, r[|h|..]) <==> |payload| < TWO_TO_32)
            && |r| == (if start + |h| > |content| then start + |h| else |content|)
            && forall i :: |h| <= i < |r| ==> r[i] == OverlaidByte(content, start, h, i)
  {
    var h := EncodeHeader(payload);
    var once := Overlay(content, start, h);
    var r := Overlay(once, 0, h);
    OverlayBytes(content, start, h);
    OverlayBytes(once, 0, h);
    HeaderRewriteDecodes(h, once, payload);
  }

  lemma HeaderRewriteDecodes(h: seq<byte>, once: seq<byte>, payload: seq<byte>)
    requires h == EncodeHeader(payload)
    ensures |Overlay(once, 0, h)| >= |h|
    ensures DecodeHeader(Overlay(once, 0, h)) == Header(payload, Overlay(once, 0, h)[|h|..]) <==>
            |payload| < TWO_TO_32
  {
    var r := Overlay(once, 0, h);
    assert r == h + r[|h|..];
    HeaderRoundTripIff(payload, r[|h|..]);
  }
}
