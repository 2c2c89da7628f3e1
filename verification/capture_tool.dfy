/** The capture loop: reads are timestamped, encoded into a memory buffer, and flushed to
    the file when the buffer reaches its limit (src/bin/capture.rs). */
module CaptureTool {
  import opened Bytes
  import opened CaptureFormat

  const READ_BUFFER: nat := 512 * 1024

  /** What one read call can return: the buffer is 512 KiB and an empty read is a close. */
  type Segment = s: seq<byte> | 0 < |s| <= READ_BUFFER witness [0]

  /** What one pass of the loop meets; flush is how a write it attempts would go. */
  datatype Poll = ExitFlag | DurationReached | ServerClosed | ReadError | TimedOut
                | Data(bytes: Segment, timestamp: u64, flush: WriteOutcome)

  /** The chunks that a history of polls captures, up to the first that stops the loop. */
  function Captured(polls: seq<Poll>): seq<CaptureChunk>
  {
    if polls == [] then []
    else match polls[0]
      case Data(bytes, ts, _) => [CaptureChunk(ts, bytes)] + Captured(polls[1..])
      case TimedOut => Captured(polls[1..])
      case _ => []
  }

  /** The data bytes of chunks, in order. */
  function Payload(cs: seq<CaptureChunk>): seq<byte>
  {
    if cs == [] then [] else cs[0].data + Payload(cs[1..])
  }

  lemma {:induction false} PayloadAppend(a: seq<CaptureChunk>, b: seq<CaptureChunk>)
    ensures Payload(a + b) == Payload(a) + Payload(b)
  {
    if a == [] {
      assert a + b == b;
    } else {
      assert (a + b)[1..] == a[1..] + b;
      PayloadAppend(a[1..], b);
    }
  }

  lemma {:induction false} CapturedStorable(polls: seq<Poll>)
    ensures Storable(Captured(polls))
  {
    if polls != [] {
      CapturedStorable(polls[1..]);
    }
  }

  // ---------- what the buffer does to the file ----------

  /** The chunks captured, how many bytes of their encodings are still in the buffer when the
      loop ends, and how many of those a failed flush has put into the file all the same. */
  datatype Tally = Tally(chunks: seq<CaptureChunk>, held: nat, spilled: nat)

  /** The loop from a buffer of held bytes on. It ends at the first threshold flush that
      fails, which leaves the buffer as it was. */
  function TallyOf(polls: seq<Poll>, bufferMem: nat, held: nat): Tally
    decreases |polls|
  {
    if polls == [] then Tally([], held, 0)
    else match polls[0]
      case Data(bytes, ts, flush) =>
        var c := CaptureChunk(ts, bytes);
        var full := held + SizeOf(c);
        if full >= bufferMem && !flush.Written? then Tally([c], full, Min(flush.n, full - 1))
        else
          var rest := TallyOf(polls[1..], bufferMem, if full >= bufferMem then 0 else full);
          rest.(chunks := [c] + rest.chunks)
      case TimedOut => TallyOf(polls[1..], bufferMem, held)
      case _ => Tally([], held, 0)
  }

  /** How many threshold flushes work. */
  function FlushesOf(polls: seq<Poll>, bufferMem: nat, held: nat): nat
    decreases |polls|
  {
    if polls == [] then 0
    else match polls[0]
      case Data(bytes, ts, flush) =>
        var full := held + SizeOf(CaptureChunk(ts, bytes));
        if full < bufferMem then FlushesOf(polls[1..], bufferMem, full)
        else if flush.Written? then 1 + FlushesOf(polls[1..], bufferMem, 0)
        else 0
      case TimedOut => FlushesOf(polls[1..], bufferMem, held)
      case _ => 0
  }

  ghost predicate AllFlushesWork(polls: seq<Poll>)
  {
    forall p :: p in polls && p.Data? ==> p.flush.Written?
  }

  /** What is captured is the beginning of what there was to capture, and what is held of it
      has been captured. */
  lemma {:induction false} TallyPrefix(polls: seq<Poll>, bufferMem: nat, held: nat)
    ensures var t := TallyOf(polls, bufferMem, held);
            t.chunks <= Captured(polls) && t.spilled <= t.held <= held + |EncodeAll(t.chunks)|
    decreases |polls|
  {
    if polls != [] {
      match polls[0]
      case Data(bytes, ts, flush) =>
        var c := CaptureChunk(ts, bytes);
        var full := held + SizeOf(c);
        var next := if full >= bufferMem then 0 else full;
        TallyPrefix(polls[1..], bufferMem, next);
        OneChunk(c, TallyOf(polls[1..], bufferMem, next).chunks);
        OneChunk(c, []);
        EncodedSize(c);
      case TimedOut => TallyPrefix(polls[1..], bufferMem, held);
      case _ =>
    }
  }

  lemma OneChunk(c: CaptureChunk, rest: seq<CaptureChunk>)
    ensures EncodeAll([c] + rest) == EncodeChunk(c) + EncodeAll(rest)
    ensures rest == [] ==> [c] + rest == [c]
  {
    assert ([c] + rest)[1..] == rest;
  }

  /** When flushes work, all is captured, nothing spilled and less than a full buffer left. */
  lemma {:induction false} TallyWhenFlushesWork(polls: seq<Poll>, bufferMem: nat, held: nat)
    requires AllFlushesWork(polls) && (held < bufferMem || held == 0)
    ensures var t := TallyOf(polls, bufferMem, held);
            t.chunks == Captured(polls) && t.spilled == 0 && (t.held < bufferMem || t.held == 0)
    decreases |polls|
  {
    if polls != [] {
      assert polls[0] in polls && forall p :: p in polls[1..] ==> p in polls;
      match polls[0]
      case Data(bytes, ts, flush) =>
        var full := held + SizeOf(CaptureChunk(ts, bytes));
        TallyWhenFlushesWork(polls[1..], bufferMem, if full >= bufferMem then 0 else full);
      case TimedOut => TallyWhenFlushesWork(polls[1..], bufferMem, held);
      case _ =>
    }
  }

  /** So many flushes account for at most so many bytes. */
  predicate FlushesFit(flushes: nat, bufferMem: nat, bytes: int)
  {
    flushes * bufferMem <= bytes
  }

  lemma OneMoreFlush(flushes: nat, bufferMem: nat, bytes: int, full: nat)
    requires FlushesFit(flushes, bufferMem, bytes) && bufferMem <= full
    ensures FlushesFit(flushes + 1, bufferMem, full + bytes)
  {
    assert (flushes + 1) * bufferMem == flushes * bufferMem + bufferMem;
  }

  /** Every threshold flush has taken at least bufferMem encoded bytes out of the buffer. */
  lemma {:induction false} FlushBound(polls: seq<Poll>, bufferMem: nat, held: nat)
    ensures var t := TallyOf(polls, bufferMem, held);
            FlushesFit(FlushesOf(polls, bufferMem, held), bufferMem, held + |EncodeAll(t.chunks)| - t.held)
    decreases |polls|
  {
    if polls != [] {
      match polls[0]
      case Data(bytes, ts, flush) =>
        var c := CaptureChunk(ts, bytes);
        var full := held + SizeOf(c);
        var next := if full >= bufferMem then 0 else full;
        var rest := TallyOf(polls[1..], bufferMem, next);
        FlushBound(polls[1..], bufferMem, next);
        EncodedSize(c);
        OneChunk(c, rest.chunks);
        OneChunk(c, []);
        if full >= bufferMem && flush.Written? {
          OneMoreFlush(FlushesOf(polls[1..], bufferMem, 0), bufferMem, |EncodeAll(rest.chunks)| - rest.held, full);
        }
      case TimedOut => FlushBound(polls[1..], bufferMem, held);
      case _ =>
    }
  }

  /** What a capture that keeps to its buffer and never fails would have written. */
  function Unbuffered(magic: seq<byte>, chunks: seq<CaptureChunk>): seq<byte>
  {
    EncodeHeader(magic) + EncodeAll(chunks)
  }

  /** The last held bytes of that are still in the buffer; the rest is in the file. */
  function InFile(magic: seq<byte>, t: Tally): seq<byte>
  {
    var all := Unbuffered(magic, t.chunks);
    if t.held <= |all| then all[..|all| - t.held] else []
  }

  function InBuffer(magic: seq<byte>, t: Tally): seq<byte>
  {
    var all := Unbuffered(magic, t.chunks);
    if t.held <= |all| then all[|all| - t.held..] else all
  }

  /** The file when the loop has ended: a failed flush has put part of the buffer there. */
  function Flushed(magic: seq<byte>, t: Tally): seq<byte>
  {
    InFile(magic, t) + InBuffer(magic, t)[..Min(t.spilled, |InBuffer(magic, t)|)]
  }

  /** The file when the buffer has been written once more. */
  function Finished(magic: seq<byte>, t: Tally): seq<byte>
  {
    Flushed(magic, t) + InBuffer(magic, t)
  }

  /** Over every history of reads and writes and every buffer size, the finished file is what
      an unbuffered capture would have written exactly when the threshold flush that ended the
      loop, if one did, failed without having written anything. */
  lemma FinishedIffNothingSpilled(magic: seq<byte>, polls: seq<Poll>, bufferMem: nat)
    ensures var t := TallyOf(polls, bufferMem, 0);
            Finished(magic, t) == Unbuffered(magic, t.chunks) <==> t.spilled == 0
  {
    var t := TallyOf(polls, bufferMem, 0);
    TallyPrefix(polls, bufferMem, 0);
    var all := Unbuffered(magic, t.chunks);
    SpillShows(all, |all| - t.held, t.spilled);
  }

  lemma SpillShows(all: seq<byte>, cut: nat, spilled: nat)
    requires cut <= |all| && spilled <= |all| - cut
    ensures all[..cut] + all[cut..][..spilled] + all[cut..] == all <==> spilled == 0
  {
    assert |all[..cut] + all[cut..][..spilled] + all[cut..]| == |all| + spilled;
  }

  /** One byte is captured, and the flush of its 13 bytes fails after 3. They are written
      again behind these, and no chunk can be read back from the file. */
  lemma SpoiltCapture(magic: seq<byte>)
    ensures var c := CaptureChunk(0, [7]);
            var t := TallyOf([Data([7], 0, FailedAfter(3))], 1, 0);
            && t == Tally([c], 13, 3)
            && Finished(magic, t) == EncodeHeader(magic) + (EncodeChunk(c)[..3] + EncodeChunk(c))
            && DecodeAll(EncodeChunk(c)[..3] + EncodeChunk(c)) == ([], Short)
  {
    var c := CaptureChunk(0, [7]);
    var e, t := EncodeChunk(c), TallyOf([Data([7], 0, FailedAfter(3))], 1, 0);
    assert EncodeAll([c]) == e + EncodeAll([c][1..]) == e;
    var all := Unbuffered(magic, [c]);
    assert all == EncodeHeader(magic) + e;
    assert InFile(magic, t) == EncodeHeader(magic) && InBuffer(magic, t) == e;
    Regroup(EncodeHeader(magic), e[..3], e);
    ZeroTime();
    var bs := e[..3] + e;
    assert bs[8..12] == [0, 0, 0, 1];
    assert LeValue([0, 0, 0, 1]) == 0x100_0000 by {
      assert [0, 0, 0, 1][1..] == [0, 0, 1] && [0, 0, 1][1..] == [0, 1] && [0, 1][1..] == [1];
      assert LeValue([1]) == 1 + 256 * LeValue([1][1..]);
    }
  }

  lemma ZeroTime()
    ensures EncodeChunk(CaptureChunk(0, [7])) == [0, 0, 0, 0, 0, 0, 0, 0, 1, 0, 0, 0, 7]
  {
    ZeroBytes(8);
    ZeroBytes(3);
    assert LeBytes(1, 4) == [1] + LeBytes(0, 3);
  }

  lemma {:induction false} ZeroBytes(width: nat)
    ensures LeBytes(0, width) == Zeros(width)
  {
    if width > 0 {
      ZeroBytes(width - 1);
    }
  }

  // ---------- the loop ----------

  /** Writes at the end of the file. */
  method Append(f: File, bs: seq<byte>, how: WriteOutcome) returns (ok: bool)
    requires f.pos == |f.content|
    modifies f
    ensures f.pos == |f.content| && f.content == old(f.content) + how.Taken(bs)
    ensures ok == how.Completes(bs)
  {
    f.WriteAll(how.Taken(bs));
    ok := how.Completes(bs);
  }

  /** File and buffer together hold the header and every chunk so far. */
  ghost predicate Buffered(content: seq<byte>, buf: seq<byte>, magic: seq<byte>, chunks: seq<CaptureChunk>)
  {
    content + buf == EncodeHeader(magic) + EncodeAll(chunks)
  }

  lemma OneMoreChunk(chunks: seq<CaptureChunk>, c: CaptureChunk)
    ensures EncodeAll(chunks + [c]) == EncodeAll(chunks) + EncodeChunk(c)
  {
    EncodeAllAppend(chunks, [c]);
    assert [c][1..] == [];
    assert EncodeAll([c]) == EncodeChunk(c) + [];
  }

  lemma PayloadOneMore(chunks: seq<CaptureChunk>, c: CaptureChunk)
    ensures Payload(chunks + [c]) == Payload(chunks) + c.data
  {
    PayloadAppend(chunks, [c]);
    assert Payload([c]) == c.data + [];
  }

  lemma BufferedChunk(
    content: seq<byte>, buf: seq<byte>, magic: seq<byte>, chunks: seq<CaptureChunk>, c: CaptureChunk)
    requires Buffered(content, buf, magic, chunks)
    ensures Buffered(content, buf + EncodeChunk(c), magic, chunks + [c])
  {
    OneMoreChunk(chunks, c);
    Regroup(content, buf, EncodeChunk(c));
    Regroup(EncodeHeader(magic), EncodeAll(chunks), EncodeChunk(c));
  }

  /** The tally from poll i on, after chunks have been captured and with held bytes in hand. */
  function TallyFrom(polls: seq<Poll>, i: nat, bufferMem: nat, held: nat, chunks: seq<CaptureChunk>): Tally
    requires i <= |polls|
  {
    var t := TallyOf(polls[i..], bufferMem, held);
    t.(chunks := chunks + t.chunks)
  }

  lemma TallyStep(polls: seq<Poll>, i: nat, bufferMem: nat, held: nat, chunks: seq<CaptureChunk>)
    requires i < |polls|
    ensures var t, poll := TallyFrom(polls, i, bufferMem, held, chunks), polls[i];
            if poll.Data? then
              var c := CaptureChunk(poll.timestamp, poll.bytes);
              var full := held + SizeOf(c);
              if full >= bufferMem && !poll.flush.Written? then t == Tally(chunks + [c], full, Min(poll.flush.n, full - 1))
              else t == TallyFrom(polls, i + 1, bufferMem, if full >= bufferMem then 0 else full, chunks + [c])
            else if poll.TimedOut? then t == TallyFrom(polls, i + 1, bufferMem, held, chunks)
            else t == Tally(chunks, held, 0)
  {
    assert polls[i..][1..] == polls[i + 1..];
    assert chunks + [] == chunks;
    match polls[i]
    case Data(bytes, ts, flush) =>
      var c := CaptureChunk(ts, bytes);
      var full := held + SizeOf(c);
      Regroup(chunks, [c], TallyOf(polls[i + 1..], bufferMem, if full >= bufferMem then 0 else full).chunks);
    case _ =>
  }

  lemma FlushesStep(polls: seq<Poll>, i: nat, bufferMem: nat, held: nat)
    requires i < |polls|
    ensures var n, poll := FlushesOf(polls[i..], bufferMem, held), polls[i];
            if poll.Data? then
              var full := held + SizeOf(CaptureChunk(poll.timestamp, poll.bytes));
              if full < bufferMem then n == FlushesOf(polls[i + 1..], bufferMem, full)
              else if poll.flush.Written? then n == 1 + FlushesOf(polls[i + 1..], bufferMem, 0)
              else n == 0
            else n == if poll.TimedOut? then FlushesOf(polls[i + 1..], bufferMem, held) else 0
  {
    assert polls[i..][1..] == polls[i + 1..];
  }

  /** What holds whenever no flush has failed. */
  ghost predicate Going(f: File, buf: seq<byte>, total: nat, magic: seq<byte>, chunks: seq<CaptureChunk>)
    reads f
  {
    f.pos == |f.content| && Buffered(f.content, buf, magic, chunks) && total == |Payload(chunks)|
  }

  /** Encodes one chunk into the buffer, and flushes the buffer if that fills it. A failed
      flush leaves some of the buffer in the file and the buffer as it was. */
  method Absorb(f: File, buf: seq<byte>, total: nat, flushes: nat, chunk: CaptureChunk, bufferMem: nat, how: WriteOutcome,
                ghost magic: seq<byte>, ghost chunks: seq<CaptureChunk>)
    returns (left: seq<byte>, ok: bool, count: nat, flushed: nat)
    requires Going(f, buf, total, magic, chunks)
    modifies f
    ensures f.pos == |f.content| && count == |Payload(chunks + [chunk])|
    ensures var full := |buf| + SizeOf(chunk);
            && ok == (full < bufferMem || how.Written?)
            && |left| == (if full >= bufferMem && ok then 0 else full)
            && flushed == flushes + (if full >= bufferMem && ok then 1 else 0)
    ensures ok ==> Going(f, left, count, magic, chunks + [chunk])
    ensures !ok ==> Buffered(old(f.content), left, magic, chunks + [chunk])
    ensures !ok ==> f.content == old(f.content) + how.Taken(left)
  {
    var chunkBuf := new File([]);
    WriteChunk(chunkBuf, chunk);
    assert chunkBuf.content == EncodeChunk(chunk);
    EncodedSize(chunk);
    count := total + |chunk.data|;
    PayloadOneMore(chunks, chunk);
    BufferedChunk(f.content, buf, magic, chunks, chunk);
    left, ok, flushed := buf + chunkBuf.content, true, flushes;
    if |left| >= bufferMem {
      ok := Append(f, left, how);
      if ok {
        assert f.content + [] == f.content;
        left, flushed := [], flushes + 1;
      }
    }
  }

  /** The loop. Its chunks, what is left in the buffer and what it has put into the file are
      those of the tally. */
  method CaptureLoop(f: File, magic: seq<byte>, polls: seq<Poll>, bufferMem: nat)
    returns (buf: seq<byte>, total: nat, flushes: nat)
    requires f.content == EncodeHeader(magic) && f.pos == |f.content|
    modifies f
    ensures f.pos == |f.content|
    ensures var t := TallyOf(polls, bufferMem, 0);
            && total == |Payload(t.chunks)| && flushes == FlushesOf(polls, bufferMem, 0)
            && LeftBy(magic, t, f.content, buf)
  {
    ghost var chunks: seq<CaptureChunk>, whole := [], TallyOf(polls, bufferMem, 0);
    var i := 0;
    buf, total, flushes := [], 0, 0;
    assert Buffered(f.content, buf, magic, chunks);
    assert polls[0..] == polls && chunks + whole.chunks == whole.chunks;
    while i < |polls|
      invariant i <= |polls| && Going(f, buf, total, magic, chunks)
      invariant flushes + FlushesOf(polls[i..], bufferMem, |buf|) == FlushesOf(polls, bufferMem, 0)
      invariant TallyFrom(polls, i, bufferMem, |buf|, chunks) == whole
    {
      var poll := polls[i];
      ghost var base := f.content;
      TallyStep(polls, i, bufferMem, |buf|, chunks);
      FlushesStep(polls, i, bufferMem, |buf|);
      i := i + 1;
      match poll
      case TimedOut =>
      case Data(bytes, timestamp, flush) =>
        var chunk := CaptureChunk(timestamp, bytes);
        var ok;
        buf, ok, total, flushes := Absorb(f, buf, total, flushes, chunk, bufferMem, flush, magic, chunks);
        chunks := chunks + [chunk];
        if !ok {
          LoopEnds(base, buf, magic, whole, f.content);
          return;
        }
      case _ =>
        assert base + buf[..0] == base;
        LoopEnds(base, buf, magic, whole, f.content);
        return;
    }
    assert whole == Tally(chunks + [], |buf|, 0) && chunks + [] == chunks;
    assert f.content + buf[..0] == f.content;
    LoopEnds(f.content, buf, magic, whole, f.content);
  }

  ghost predicate LeftBy(magic: seq<byte>, t: Tally, content: seq<byte>, buf: seq<byte>)
  {
    content == Flushed(magic, t) && buf == InBuffer(magic, t)
  }

  lemma LoopEnds(base: seq<byte>, buf: seq<byte>, magic: seq<byte>, t: Tally, content: seq<byte>)
    requires Buffered(base, buf, magic, t.chunks) && t.held == |buf| && t.spilled <= |buf|
    requires content == base + buf[..t.spilled]
    ensures LeftBy(magic, t, content, buf)
  {
    var all := Unbuffered(magic, t.chunks);
    assert all == base + buf;
  }

  /** The header, the loop and the final flush, onto a new file; last is how the final write
      goes, if there is something to write. */
  method RunCapture(f: File, magic: seq<byte>, polls: seq<Poll>, bufferMem: nat, last: WriteOutcome)
    returns (total: nat, flushes: nat, complete: bool)
    requires f.content == [] && f.pos == 0
    modifies f
    ensures var t := TallyOf(polls, bufferMem, 0);
            && total == |Payload(t.chunks)|
            && flushes == FlushesOf(polls, bufferMem, 0) && FlushesFit(flushes, bufferMem, |EncodeAll(t.chunks)|)
            && complete == last.Completes(InBuffer(magic, t))
            && f.content == Flushed(magic, t) + last.Taken(InBuffer(magic, t))
            && (complete ==> f.content == Finished(magic, t))
            && (complete ==> (f.content == Unbuffered(magic, t.chunks) <==> t.spilled == 0))
  {
    WriteHeader(f, magic);
    assert f.content == EncodeHeader(magic);
    var buf;
    buf, total, flushes := CaptureLoop(f, magic, polls, bufferMem);
    FinishedIffNothingSpilled(magic, polls, bufferMem);
    FlushBound(polls, bufferMem, 0);
    assert LeftBy(magic, TallyOf(polls, bufferMem, 0), f.content, buf);
    complete := true;
    if buf != [] {
      complete := Append(f, buf, last);
    }
    assert f.content + [] == f.content;
  }
}
