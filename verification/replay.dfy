/** The replay loop: chunks are read from the file on demand, paced by their timestamps,
    and sent to the one client (src/bin/replay.rs). */
module Replay {
  import opened Bytes
  import opened CaptureFormat
  import opened CaptureTool

  // ---------- pacing ----------

  const MAX_U64: nat := 0xFFFF_FFFF_FFFF_FFFF

  /** The nanoseconds slept between two chunks: the difference wraps at 64 bits, and the
      quotient is cut to an integer and capped. */
  function Delay(prev: u64, next: u64, speed: real): nat
    requires speed > 0.0
  {
    var gap := Gap(prev, next);
    QuotientSign(gap, speed);
    var d := (gap as real / speed).Floor;
    if d <= MAX_U64 then d else MAX_U64
  }

  function Gap(prev: u64, next: u64): nat
  {
    if prev <= next then next - prev else TWO_TO_64 + next - prev
  }

  lemma NoDelayIff(prev: u64, next: u64, speed: real)
    requires speed > 0.0
    ensures Delay(prev, next, speed) == 0 <==> Gap(prev, next) as real < speed
  {
    var gap := Gap(prev, next);
    QuotientSign(gap, speed);
    BelowOneIff(gap as real, speed);
  }

  lemma BelowOneIff(a: real, speed: real)
    requires speed > 0.0
    ensures a / speed < 1.0 <==> a < speed
  {
    var q := a / speed;
    assert q * speed == a;
    if q >= 1.0 {
      assert (q - 1.0) * speed >= 0.0;
    } else {
      assert (1.0 - q) * speed > 0.0;
    }
  }

  lemma QuotientSign(gap: nat, speed: real)
    requires speed > 0.0
    ensures gap as real / speed >= 0.0
  {
  }

  /** The sum of the delays of one pass over chunks; the first has none. */
  function PassDelay(cs: seq<CaptureChunk>, speed: real): nat
  {
    if |cs| < 2 || speed <= 0.0 then 0
    else
      var n := |cs| - 1;
      PassDelay(cs[..n], speed) + Delay(cs[n - 1].timestamp, cs[n].timestamp, speed)
  }

  ghost predicate InOrder(cs: seq<CaptureChunk>)
  {
    forall i :: 0 < i < |cs| ==> cs[i - 1].timestamp <= cs[i].timestamp
  }

  function Span(cs: seq<CaptureChunk>): int
    requires cs != []
  {
    cs[|cs| - 1].timestamp - cs[0].timestamp
  }

  lemma DivideSum(a: real, b: real, speed: real)
    requires speed > 0.0
    ensures (a + b) / speed == a / speed + b / speed
  {
  }

  lemma DivideMonotone(a: real, b: real, speed: real)
    requires speed > 0.0 && a <= b
    ensures a / speed <= b / speed
  {
  }

  lemma {:induction false} SpanSign(cs: seq<CaptureChunk>)
    requires cs != [] && InOrder(cs)
    ensures Span(cs) >= 0
  {
    if |cs| > 1 {
      SpanSign(cs[..|cs| - 1]);
    }
  }

  /** For timestamps in order, the delays of a pass never exceed the recorded span divided
      by the speed, and fall short of it by less than one nanosecond for each gap unless
      the quotient is past what 64 bits can hold. */
  lemma {:induction false} PassDelayBound(cs: seq<CaptureChunk>, speed: real)
    requires |cs| >= 2 && InOrder(cs) && speed > 0.0
    ensures PassDelay(cs, speed) as real <= Span(cs) as real / speed
    ensures Span(cs) as real / speed < TWO_TO_64 as real ==>
              Span(cs) as real / speed - (|cs| - 1) as real < PassDelay(cs, speed) as real
  {
    var n := |cs| - 1;
    var front, gap := cs[..n], cs[n].timestamp - cs[n - 1].timestamp;
    var x := gap as real / speed;
    QuotientSign(gap, speed);
    SpanSign(front);
    DivideSum(Span(front) as real, gap as real, speed);
    DivideMonotone(Span(front) as real, Span(cs) as real, speed);
    DivideMonotone(gap as real, Span(cs) as real, speed);
    assert Span(cs) == Span(front) + gap;
    assert PassDelay(cs, speed) == PassDelay(front, speed) + Delay(cs[n - 1].timestamp, cs[n].timestamp, speed);
    if n == 1 {
      assert Span(front) == 0 && PassDelay(front, speed) == 0;
    } else {
      PassDelayBound(front, speed);
    }
  }

  function Descents(cs: seq<CaptureChunk>): nat
  {
    if |cs| < 2 then 0
    else
      var n := |cs| - 1;
      Descents(cs[..n]) + if cs[n].timestamp < cs[n - 1].timestamp then 1 else 0
  }

  /** At normal speed a pass takes the recorded span, and 2^64 ns more for every timestamp
      that goes back. */
  lemma {:induction false} NormalSpeed(cs: seq<CaptureChunk>)
    requires cs != []
    ensures PassDelay(cs, 1.0) == Span(cs) + TWO_TO_64 * Descents(cs)
  {
    if |cs| > 1 {
      NormalSpeed(cs[..|cs| - 1]);
    }
  }

  lemma {:induction false} NoDescentsIff(cs: seq<CaptureChunk>)
    ensures Descents(cs) == 0 <==> InOrder(cs)
  {
    if |cs| > 1 {
      var n := |cs| - 1;
      NoDescentsIff(cs[..n]);
      if InOrder(cs[..n]) && cs[n - 1].timestamp <= cs[n].timestamp {
        assert forall i :: 0 < i < n ==> cs[..n][i - 1].timestamp <= cs[..n][i].timestamp;
        assert InOrder(cs);
      }
    }
  }

  lemma NormalSpeedIff(cs: seq<CaptureChunk>)
    requires cs != []
    ensures PassDelay(cs, 1.0) == Span(cs) <==> InOrder(cs)
  {
    NormalSpeed(cs);
    NoDescentsIff(cs);
  }

  // ---------- what the client is sent, pass by pass ----------

  /** The chunk that pass n of the loop body reads, or the number of chunks when there it
      finds the end: a loop over a clean end then starts over, and nothing else goes on. */
  function Position(m: nat, looping: bool, n: nat): (j: nat)
    ensures j <= m
  {
    if n == 0 then 0
    else
      var j := Position(m, looping, n - 1);
      if j < m then j + 1 else if looping then 0 else m
  }

  function DataAt(cs: seq<CaptureChunk>, j: nat): seq<byte>
  {
    if j < |cs| then cs[j].data else []
  }

  function PauseAt(cs: seq<CaptureChunk>, speed: real, j: nat): nat
  {
    if 0 < j < |cs| && speed > 0.0 then Delay(cs[j - 1].timestamp, cs[j].timestamp, speed) else 0
  }

  function SentAfter(cs: seq<CaptureChunk>, looping: bool, n: nat): seq<byte>
  {
    if n == 0 then [] else SentAfter(cs, looping, n - 1) + DataAt(cs, Position(|cs|, looping, n - 1))
  }

  function SleptAfter(cs: seq<CaptureChunk>, looping: bool, speed: real, n: nat): nat
  {
    if n == 0 then 0
    else SleptAfter(cs, looping, speed, n - 1) + PauseAt(cs, speed, Position(|cs|, looping, n - 1))
  }

  // ---------- and in closed form ----------

  function Repeat(bs: seq<byte>, k: nat): seq<byte>
  {
    if k == 0 then [] else Repeat(bs, k - 1) + bs
  }

  datatype Option<T> = None | Some(value: T)

  lemma TakeNext(cs: seq<CaptureChunk>, j: nat, speed: real)
    requires j < |cs|
    ensures Payload(cs[..j + 1]) == Payload(cs[..j]) + cs[j].data
    ensures PassDelay(cs[..j + 1], speed) == PassDelay(cs[..j], speed) + PauseAt(cs, speed, j)
  {
    assert cs[..j + 1] == cs[..j] + [cs[j]];
    PayloadOneMore(cs[..j], cs[j]);
    assert cs[..j + 1][..j] == cs[..j];
  }

  /** n passes, without looping, have come to chunk n or to the end. */
  ghost predicate AtOnce(cs: seq<CaptureChunk>, speed: real, n: nat)
  {
    var j := Min(n, |cs|);
    && Position(|cs|, false, n) == j
    && SentAfter(cs, false, n) == Payload(cs[..j])
    && SleptAfter(cs, false, speed, n) == PassDelay(cs[..j], speed)
  }

  lemma OnceBegins(cs: seq<CaptureChunk>, speed: real)
    ensures AtOnce(cs, speed, 0)
  {
    assert cs[..0] == [];
  }

  lemma OnceGoesOn(cs: seq<CaptureChunk>, speed: real, n: nat)
    requires AtOnce(cs, speed, n)
    ensures AtOnce(cs, speed, n + 1)
  {
    if n < |cs| {
      TakeNext(cs, n, speed);
    }
  }

  /** Without looping, n passes send the data of the first n chunks. */
  lemma {:induction false} OnceThrough(cs: seq<CaptureChunk>, speed: real, n: nat)
    ensures AtOnce(cs, speed, n)
  {
    if n == 0 {
      OnceBegins(cs, speed);
    } else {
      OnceThrough(cs, speed, n - 1);
      OnceGoesOn(cs, speed, n - 1);
    }
  }

  /** q whole rounds and then j chunks of the next. */
  ghost predicate AtRound(cs: seq<CaptureChunk>, speed: real, n: nat, q: nat, j: nat)
  {
    && j <= |cs| && Position(|cs|, true, n) == j
    && SentAfter(cs, true, n) == Repeat(Payload(cs), q) + Payload(cs[..j])
    && SleptAfter(cs, true, speed, n) == q * PassDelay(cs, speed) + PassDelay(cs[..j], speed)
  }

  lemma RoundGoesOn(cs: seq<CaptureChunk>, speed: real, n: nat, q: nat, j: nat)
    requires AtRound(cs, speed, n, q, j) && j < |cs|
    ensures AtRound(cs, speed, n + 1, q, j + 1)
  {
    TakeNext(cs, j, speed);
    var done := Repeat(Payload(cs), q);
    assert (done + Payload(cs[..j])) + cs[j].data == done + (Payload(cs[..j]) + cs[j].data);
  }

  lemma RoundStartsOver(cs: seq<CaptureChunk>, speed: real, n: nat, q: nat)
    requires AtRound(cs, speed, n, q, |cs|)
    ensures AtRound(cs, speed, n + 1, q + 1, 0)
  {
    assert cs[..|cs|] == cs && cs[..0] == [];
    assert (q + 1) * PassDelay(cs, speed) == q * PassDelay(cs, speed) + PassDelay(cs, speed);
  }

  lemma RoundBegins(cs: seq<CaptureChunk>, speed: real)
    ensures AtRound(cs, speed, 0, 0, 0)
  {
    assert cs[..0] == [];
  }

  lemma NextRound(q: nat, k: nat, n: nat)
    requires n == q * k + (k - 1) && k > 0
    ensures n + 1 == (q + 1) * k
  {
  }

  lemma {:induction false} RoundAt(cs: seq<CaptureChunk>, speed: real, n: nat) returns (q: nat, j: nat)
    ensures AtRound(cs, speed, n, q, j) && n == q * (|cs| + 1) + j
  {
    if n == 0 {
      RoundBegins(cs, speed);
      q, j := 0, 0;
    } else {
      q, j := RoundAt(cs, speed, n - 1);
      if j < |cs| {
        RoundGoesOn(cs, speed, n - 1, q, j);
        j := j + 1;
      } else {
        RoundStartsOver(cs, speed, n - 1, q);
        NextRound(q, |cs| + 1, n - 1);
        q, j := q + 1, 0;
      }
    }
  }

  /** With looping, n passes send the whole payload once for every |cs| + 1 of them, and then
      the data of as many first chunks as there are passes left over; the time slept is that
      of as many whole passes, each of which starts without a pause. */
  lemma RoundAndRound(cs: seq<CaptureChunk>, speed: real, n: nat)
    ensures AtRound(cs, speed, n, n / (|cs| + 1), n % (|cs| + 1))
  {
    var q, j := RoundAt(cs, speed, n);
    QuotientUnique(n, |cs| + 1, q, j);
  }

  lemma QuotientUnique(n: nat, k: nat, q: nat, r: nat)
    requires r < k && n == q * k + r
    ensures n / k == q && n % k == r
  {
    var p, s := n / k, n % k;
    assert n == p * k + s;
    if q < p {
      MulGap(q, p, k);
    } else if p < q {
      MulGap(p, q, k);
    }
  }

  lemma MulGap(a: nat, b: nat, k: nat)
    requires a < b
    ensures a * k + k <= b * k
  {
    assert (b - a - 1) * k >= 0;
    assert b * k == a * k + k + (b - a - 1) * k;
  }

  /** tails[j] is what is left of the file where chunk j begins, and the last of them is
      where reading ends. */
  ghost predicate Layout(tails: seq<seq<byte>>, cs: seq<CaptureChunk>, end: ChunkResult)
  {
    && |tails| == |cs| + 1
    && (forall j :: 0 <= j < |cs| ==> ChunkAt(tails, cs, j))
    && EndsIn(tails[|cs|], end)
  }

  ghost predicate ChunkAt(tails: seq<seq<byte>>, cs: seq<CaptureChunk>, j: nat)
    requires j < |cs| && |tails| == |cs| + 1
  {
    DecodeChunk(tails[j]) == Item(cs[j], tails[j + 1])
  }

  ghost predicate EndsIn(bs: seq<byte>, end: ChunkResult)
  {
    DecodeChunk(bs) == end && !end.Item?
  }

  lemma {:induction false} LayoutOf(bs: seq<byte>) returns (tails: seq<seq<byte>>)
    ensures var (cs, end) := DecodeAll(bs);
            Layout(tails, cs, end) && tails[0] == bs
    decreases |bs|
  {
    match DecodeChunk(bs)
    case Item(c, rest) =>
      var after := LayoutOf(rest);
      var (cs, end) := DecodeAll(rest);
      tails := [bs] + after;
      forall j | 0 <= j < |cs| + 1
        ensures ChunkAt(tails, [c] + cs, j)
      {
        if j > 0 {
          assert ChunkAt(after, cs, j - 1);
        }
      }
    case _ =>
      tails := [bs];
  }

  datatype Outcome = Running | Ended | ClientLost

  datatype PassEnd = GoesOn | Finds | Loses

  /** One pass of the loop body: the pause before a chunk and what of it is written, or at
      a clean end in loop mode the way back to the first chunk. */
  method OnePass(f: File, first: nat, loopMode: bool, speed: real, prev: Option<u64>, write: WriteOutcome,
                 ghost tails: seq<seq<byte>>, ghost cs: seq<CaptureChunk>, ghost end: ChunkResult, ghost j: nat)
    returns (out: seq<byte>, pause: nat, next: Option<u64>, how: PassEnd)
    requires Layout(tails, cs, end) && first <= |f.content| && f.content[first..] == tails[0]
    requires j <= |cs| && f.Remaining() == tails[j] && prev == LastTime(cs, speed, j)
    modifies f
    ensures f.content == old(f.content)
    ensures out == write.Taken(DataAt(cs, j)) && pause == PauseAt(cs, speed, j)
    ensures how == if j < |cs| then (if write.Completes(DataAt(cs, j)) then GoesOn else Loses)
                   else if loopMode && end == End then GoesOn else Finds
    ensures how.GoesOn? ==>
              var k := if j < |cs| then j + 1 else 0;
              next == LastTime(cs, speed, k) && f.Remaining() == tails[k]
  {
    out, pause, next, how := [], 0, prev, Finds;
    assert j < |cs| ==> ChunkAt(tails, cs, j);
    var r := ReadChunk(f);
    match r
    case End =>
      if loopMode {
        f.Seek(first);
        next, how := None, GoesOn;
      }
    case Short =>
    case Item(chunk, _) =>
      if speed > 0.0 {
        if prev.Some? {
          pause := Delay(prev.value, chunk.timestamp, speed);
        }
        next := Some(chunk.timestamp);
      }
      how := if write.Completes(chunk.data) then GoesOn else Loses;
      out := write.Taken(chunk.data);
  }

  /** The timestamp of the chunk before chunk j, when pauses are being taken. */
  function LastTime(cs: seq<CaptureChunk>, speed: real, j: nat): Option<u64>
    requires j <= |cs|
  {
    if j > 0 && speed > 0.0 then Some(cs[j - 1].timestamp) else None
  }

  /** The first n passes have each sent the data of their chunk whole. */
  ghost predicate AllComplete(cs: seq<CaptureChunk>, looping: bool, writes: seq<WriteOutcome>, n: nat)
    requires n <= |writes|
  {
    forall i :: 0 <= i < n ==> writes[i].Completes(DataAt(cs, Position(|cs|, looping, i)))
  }

  /** What holds of the loop however it is left: the client was sent what SentAfter says, and
      part of one chunk more when its write failed; the loop ends by itself exactly when it
      is not looping over a clean end and there was a pass to find the end in. */
  ghost predicate Replayed(cs: seq<CaptureChunk>, looping: bool, speed: real,
                           writes: seq<WriteOutcome>, sent: seq<byte>, slept: nat, passes: nat, outcome: Outcome)
  {
    && passes <= |writes|
    && slept == SleptAfter(cs, looping, speed, passes)
    && match outcome
       case Running =>
         && AllComplete(cs, looping, writes, passes)
         && sent == SentAfter(cs, looping, passes) && passes == |writes| && (looping || |writes| <= |cs|)
       case Ended =>
         && AllComplete(cs, looping, writes, passes)
         && sent == SentAfter(cs, looping, passes) && passes == |cs| + 1 && !looping && |writes| > |cs|
       case ClientLost =>
         && 0 < passes && AllComplete(cs, looping, writes, passes - 1)
         && var data := DataAt(cs, Position(|cs|, looping, passes - 1));
            !writes[passes - 1].Completes(data)
            && sent == SentAfter(cs, looping, passes - 1) + writes[passes - 1].Taken(data)
  }

  ghost predicate InStep(cs: seq<CaptureChunk>, looping: bool, speed: real, writes: seq<WriteOutcome>,
                         j: nat, sent: seq<byte>, slept: nat, passes: nat)
  {
    && j == Position(|cs|, looping, passes) && (!looping ==> j == passes)
    && passes <= |writes| && AllComplete(cs, looping, writes, passes)
    && sent == SentAfter(cs, looping, passes)
    && slept == SleptAfter(cs, looping, speed, passes)
  }

  /** What one more pass does to a loop that has been in step so far. */
  lemma PassTaken(cs: seq<CaptureChunk>, looping: bool, speed: real, writes: seq<WriteOutcome>, j: nat,
                  sent: seq<byte>, slept: nat, passes: nat, out: seq<byte>, pause: nat, how: PassEnd)
    requires InStep(cs, looping, speed, writes, j, sent, slept, passes) && passes < |writes|
    requires out == writes[passes].Taken(DataAt(cs, j)) && pause == PauseAt(cs, speed, j)
    requires how == if j < |cs| then (if writes[passes].Completes(DataAt(cs, j)) then GoesOn else Loses)
                    else if looping then GoesOn else Finds
    ensures how.GoesOn? ==>
              InStep(cs, looping, speed, writes, if j < |cs| then j + 1 else 0, sent + out, slept + pause, passes + 1)
    ensures !how.GoesOn? ==>
              Replayed(cs, looping, speed, writes, sent + out, slept + pause, passes + 1,
                       if how.Finds? then Ended else ClientLost)
  {
  }

  lemma StillRunning(cs: seq<CaptureChunk>, looping: bool, speed: real, writes: seq<WriteOutcome>, j: nat,
                     sent: seq<byte>, slept: nat)
    requires InStep(cs, looping, speed, writes, j, sent, slept, |writes|) && j <= |cs|
    ensures Replayed(cs, looping, speed, writes, sent, slept, |writes|, Running)
  {
  }

  /** writes says how each pass's write to the client would go; the loop is watched for as
      many passes as that. passes counts those begun. */
  method StreamChunks(f: File, loopMode: bool, speed: real, writes: seq<WriteOutcome>,
                      ghost tails: seq<seq<byte>>, ghost cs: seq<CaptureChunk>, ghost end: ChunkResult)
    returns (sent: seq<byte>, slept: nat, passes: nat, outcome: Outcome)
    requires Layout(tails, cs, end) && f.pos <= |f.content| && f.Remaining() == tails[0]
    modifies f
    ensures f.content == old(f.content)
    ensures Replayed(cs, loopMode && end == End, speed, writes, sent, slept, passes, outcome)
  {
    ghost var looping, j := loopMode && end == End, 0;
    var first, prev: Option<u64> := f.pos, None;
    sent, slept, passes, outcome := [], 0, 0, Running;
    while passes < |writes|
      invariant f.content == old(f.content) && first == old(f.pos)
      invariant passes <= |writes| && j <= |cs|
      invariant f.Remaining() == tails[j] && prev == LastTime(cs, speed, j)
      invariant InStep(cs, looping, speed, writes, j, sent, slept, passes)
    {
      var out, pause, how;
      out, pause, prev, how := OnePass(f, first, loopMode, speed, prev, writes[passes], tails, cs, end, j);
      PassTaken(cs, looping, speed, writes, j, sent, slept, passes, out, pause, how);
      sent, slept, passes := sent + out, slept + pause, passes + 1;
      if how != GoesOn {
        outcome := if how.Finds? then Ended else ClientLost;
        return;
      }
      j := if j < |cs| then j + 1 else 0;
    }
    StillRunning(cs, looping, speed, writes, j, sent, slept);
  }

  /** What is to be had from a file: nothing is sent when there is no header, and the loop is
      not begun when the magic packet cannot be sent whole. */
  ghost predicate ReplayOf(content: seq<byte>, loopMode: bool, speed: real, greeting: WriteOutcome, writes: seq<WriteOutcome>,
                           sent: seq<byte>, slept: nat, passes: nat, outcome: Outcome)
  {
    match DecodeHeader(content)
    case Header(payload, rest) =>
      if greeting.Completes(payload) then
        var (cs, end) := DecodeAll(rest);
        && payload <= sent
        && Replayed(cs, loopMode && end == End, speed, writes, sent[|payload|..], slept, passes, outcome)
      else sent == greeting.Taken(payload) && slept == passes == 0 && outcome == ClientLost
    case _ => sent == [] && slept == passes == 0 && outcome == Ended
  }

  /** The whole tool, from the header on. */
  method Replay(f: File, loopMode: bool, speed: real, greeting: WriteOutcome, writes: seq<WriteOutcome>)
    returns (header: HeaderResult, sent: seq<byte>, slept: nat, passes: nat, outcome: Outcome)
    requires f.pos == 0
    modifies f
    ensures header == DecodeHeader(old(f.content))
    ensures ReplayOf(old(f.content), loopMode, speed, greeting, writes, sent, slept, passes, outcome)
  {
    sent, slept, passes, outcome := [], 0, 0, Ended;
    assert f.content[0..] == f.content;
    header := ReadHeader(f);
    if header.Header? {
      sent := greeting.Taken(header.payload);
      if !greeting.Completes(header.payload) {
        outcome := ClientLost;
        return;
      }
      var data;
      ghost var (cs, end) := DecodeAll(header.rest);
      ghost var tails := LayoutOf(header.rest);
      data, slept, passes, outcome := StreamChunks(f, loopMode, speed, writes, tails, cs, end);
      sent := sent + data;
      assert sent[|header.payload|..] == data;
    }
  }

  // ---------- capture, then replay ----------

  /** The data bytes a history of polls reads from the server before the capture stops. */
  function BytesRead(polls: seq<Poll>): seq<byte>
  {
    if polls == [] then []
    else match polls[0]
      case Data(bytes, _, _) => bytes + BytesRead(polls[1..])
      case TimedOut => BytesRead(polls[1..])
      case _ => []
  }

  lemma {:induction false} PayloadIsBytesRead(polls: seq<Poll>)
    ensures Payload(Captured(polls)) == BytesRead(polls)
  {
    if polls != [] {
      PayloadIsBytesRead(polls[1..]);
      match polls[0]
      case Data(bytes, ts, _) =>
        var c, rest := CaptureChunk(ts, bytes), Captured(polls[1..]);
        assert ([c] + rest)[1..] == rest;
      case _ =>
    }
  }

  /** What is captured can be stored, and is what the server sent if no flush failed. */
  lemma CapturedData(polls: seq<Poll>, bufferMem: nat)
    ensures var cs := TallyOf(polls, bufferMem, 0).chunks;
            Storable(cs) && (AllFlushesWork(polls) ==> Payload(cs) == BytesRead(polls))
  {
    TallyPrefix(polls, bufferMem, 0);
    CapturedStorable(polls);
    StorablePrefix(TallyOf(polls, bufferMem, 0).chunks, Captured(polls));
    if AllFlushesWork(polls) {
      TallyWhenFlushesWork(polls, bufferMem, 0);
      PayloadIsBytesRead(polls);
    }
  }

  lemma StorablePrefix(cs: seq<CaptureChunk>, all: seq<CaptureChunk>)
    requires cs <= all && Storable(all)
    ensures Storable(cs)
  {
    assert forall i :: 0 <= i < |cs| ==> cs[i] == all[i];
  }

  /** A complete capture replayed once to the end is the bytes that were read from the
      server, however they were cut into reads. */
  lemma CaptureThenReplay(polls: seq<Poll>, bufferMem: nat, speed: real)
    ensures var cs := TallyOf(polls, bufferMem, 0).chunks;
            && Storable(cs) && SentAfter(cs, false, |cs| + 1) == Payload(cs)
            && (AllFlushesWork(polls) ==> Payload(cs) == BytesRead(polls))
  {
    CapturedData(polls, bufferMem);
    OncePast(TallyOf(polls, bufferMem, 0).chunks, speed);
  }

  lemma OncePast(cs: seq<CaptureChunk>, speed: real)
    ensures SentAfter(cs, false, |cs| + 1) == Payload(cs)
    ensures SleptAfter(cs, false, speed, |cs| + 1) == PassDelay(cs, speed)
  {
    OnceThrough(cs, speed, |cs| + 1);
    assert cs[..|cs|] == cs;
  }

  /** Its file reads back as the server's magic packet and the chunks captured. */
  lemma ReplayOfCapture(magic: seq<byte>, cs: seq<CaptureChunk>, loopMode: bool, speed: real, writes: seq<WriteOutcome>,
                        sent: seq<byte>, slept: nat, passes: nat, outcome: Outcome)
    requires |magic| == 12 && Storable(cs)
    ensures ReplayOf(Unbuffered(magic, cs), loopMode, speed, Written, writes, sent, slept, passes, outcome) <==>
              magic <= sent && Replayed(cs, loopMode, speed, writes, sent[12..], slept, passes, outcome)
  {
    HeaderRoundTripIff(magic, EncodeAll(cs));
    FileRoundTrip(cs);
  }

  /** A client that is served to the end has been sent the magic packet and then exactly the
      bytes captured, and in loop mode these again and again, up to the end of some chunk. */
  ghost predicate SentAsCaptured(magic: seq<byte>, cs: seq<CaptureChunk>, loopMode: bool, passes: nat,
                                 sent: seq<byte>, outcome: Outcome)
  {
    && (outcome.Ended? ==> sent == magic + Payload(cs))
    && (outcome.Running? && loopMode ==>
          var some := Payload(cs[..passes % (|cs| + 1)]);
          some <= Payload(cs) && sent == magic + (Repeat(Payload(cs), passes / (|cs| + 1)) + some))
  }

  lemma CapturedIsSent(magic: seq<byte>, cs: seq<CaptureChunk>, loopMode: bool, speed: real, writes: seq<WriteOutcome>,
                       sent: seq<byte>, slept: nat, passes: nat, outcome: Outcome)
    requires |magic| == 12 && magic <= sent && Replayed(cs, loopMode, speed, writes, sent[12..], slept, passes, outcome)
    ensures SentAsCaptured(magic, cs, loopMode, passes, sent, outcome)
  {
    assert sent == magic + sent[12..];
    RoundAndRound(cs, speed, passes);
    PayloadPrefix(cs, passes % (|cs| + 1));
    OncePast(cs, speed);
  }

  /** The two tools, one after the other, when nothing was spilled and the final flush worked:
      the client is sent what was captured, and that is what the server sent. */
  method CaptureAndReplay(magic: seq<byte>, polls: seq<Poll>, bufferMem: nat, last: WriteOutcome,
                          loopMode: bool, speed: real, writes: seq<WriteOutcome>)
    returns (complete: bool, sent: seq<byte>, slept: nat, passes: nat, outcome: Outcome)
    requires |magic| == 12
    ensures var t := TallyOf(polls, bufferMem, 0);
            complete && t.spilled == 0 ==>
              && (AllFlushesWork(polls) ==> Payload(t.chunks) == BytesRead(polls))
              && magic <= sent && Replayed(t.chunks, loopMode, speed, writes, sent[12..], slept, passes, outcome)
              && SentAsCaptured(magic, t.chunks, loopMode, passes, sent, outcome)
    ensures AllFlushesWork(polls) && last.Written? ==> complete && TallyOf(polls, bufferMem, 0).spilled == 0
  {
    var f := new File([]);
    var total, flushes;
    total, flushes, complete := RunCapture(f, magic, polls, bufferMem, last);
    var g := new File(f.content);
    var header;
    header, sent, slept, passes, outcome := Replay(g, loopMode, speed, Written, writes);
    ghost var t := TallyOf(polls, bufferMem, 0);
    if AllFlushesWork(polls) {
      TallyWhenFlushesWork(polls, bufferMem, 0);
    }
    if complete && t.spilled == 0 {
      CaptureThenReplay(polls, bufferMem, speed);
      ReplayOfCapture(magic, t.chunks, loopMode, speed, writes, sent, slept, passes, outcome);
      CapturedIsSent(magic, t.chunks, loopMode, speed, writes, sent, slept, passes, outcome);
    }
  }

  lemma PayloadPrefix(cs: seq<CaptureChunk>, j: nat)
    requires j <= |cs|
    ensures Payload(cs[..j]) <= Payload(cs)
  {
    PayloadAppend(cs[..j], cs[j..]);
    assert cs[..j] + cs[j..] == cs;
  }

  /** A capture cut short anywhere replays as the chunks that are whole in it: again and again
      in loop mode if fewer than 8 bytes are over, and once and no more, looping or not, if
      a chunk is broken off. */
  lemma TruncatedReplay(magic: seq<byte>, cs: seq<CaptureChunk>, k: nat, loopMode: bool, speed: real, writes: seq<WriteOutcome>,
                        sent: seq<byte>, slept: nat, passes: nat, outcome: Outcome)
    requires |magic| == 12 && Storable(cs) && k <= |EncodeAll(cs)|
    requires ReplayOf(EncodeHeader(magic) + EncodeAll(cs)[..k], loopMode, speed, Written, writes, sent, slept, passes, outcome)
    ensures var whole := cs[..WholeIn(cs, k)];
            var looping := loopMode && k < |EncodeAll(whole)| + 8;
            && magic <= sent && Replayed(whole, looping, speed, writes, sent[12..], slept, passes, outcome)
            && ((forall w :: w in writes ==> w.Written?) && |writes| > |whole| ==>
                  if looping then outcome.Running? else outcome.Ended? && sent == magic + Payload(whole))
  {
    var whole := cs[..WholeIn(cs, k)];
    HeaderRoundTripIff(magic, EncodeAll(cs)[..k]);
    TruncatedDecode(cs, k);
    OncePast(whole, speed);
    assert magic <= sent ==> sent == magic + sent[12..];
    if outcome.ClientLost? && 0 < passes <= |writes| {
      assert writes[passes - 1] in writes;
    }
  }

  // ---------- loops that do nothing ----------

  /** Looping over a clean end never sends anything and never pauses, however many passes it
      makes, exactly when there is no data in the chunks and no delay between them. */
  lemma LoopSpinsIff(cs: seq<CaptureChunk>, speed: real)
    ensures (forall n: nat :: Idle(cs, speed, n)) <==> Payload(cs) == [] && PassDelay(cs, speed) == 0
  {
    if Payload(cs) == [] && PassDelay(cs, speed) == 0 {
      forall n: nat
        ensures Idle(cs, speed, n)
      {
        StaysIdle(cs, speed, n);
      }
    }
    if forall n: nat :: Idle(cs, speed, n) {
      assert Idle(cs, speed, |cs|);
      FirstRound(cs, speed);
    }
  }

  /** Nothing sent and no time slept in n passes. */
  ghost predicate Idle(cs: seq<CaptureChunk>, speed: real, n: nat)
  {
    SentAfter(cs, true, n) == [] && SleptAfter(cs, true, speed, n) == 0
  }

  lemma FirstRound(cs: seq<CaptureChunk>, speed: real)
    ensures SentAfter(cs, true, |cs|) == Payload(cs) && SleptAfter(cs, true, speed, |cs|) == PassDelay(cs, speed)
  {
    var n := |cs|;
    RoundAndRound(cs, speed, n);
    QuotientUnique(n, n + 1, 0, n);
    assert cs[..n] == cs && Repeat(Payload(cs), 0) == [];
  }

  lemma StaysIdle(cs: seq<CaptureChunk>, speed: real, n: nat)
    requires Payload(cs) == [] && PassDelay(cs, speed) == 0
    ensures Idle(cs, speed, n)
  {
    var q, j := RoundAt(cs, speed, n);
    PayloadPrefix(cs, j);
    PassDelayPrefix(cs, speed, j);
    RepeatNothing(q);
    assert q * PassDelay(cs, speed) == 0;
  }

  lemma {:induction false} PassDelayPrefix(cs: seq<CaptureChunk>, speed: real, j: nat)
    requires j <= |cs|
    ensures PassDelay(cs[..j], speed) <= PassDelay(cs, speed)
    decreases |cs|
  {
    if j < |cs| {
      var n := |cs| - 1;
      PassDelayPrefix(cs[..n], speed, j);
      assert cs[..n][..j] == cs[..j] && cs[..n + 1] == cs;
      TakeNext(cs, n, speed);
    } else {
      assert cs[..j] == cs;
    }
  }

  /** Chunk by chunk: each is empty, and each but the first comes less than speed nanoseconds
      after the one before it, or at no pace at all. */
  ghost predicate Silent(cs: seq<CaptureChunk>, speed: real)
  {
    && (forall i :: 0 <= i < |cs| ==> cs[i].data == [])
    && (speed <= 0.0 || forall i :: 0 < i < |cs| ==> Gap(cs[i - 1].timestamp, cs[i].timestamp) as real < speed)
  }

  lemma {:induction false} SilentIff(cs: seq<CaptureChunk>, speed: real)
    ensures Silent(cs, speed) <==> Payload(cs) == [] && PassDelay(cs, speed) == 0
    decreases |cs|
  {
    if cs != [] {
      var n := |cs| - 1;
      var front, last := cs[..n], cs[n];
      SilentIff(front, speed);
      assert cs[..n + 1] == cs;
      TakeNext(cs, n, speed);
      if n > 0 && speed > 0.0 {
        NoDelayIff(cs[n - 1].timestamp, last.timestamp, speed);
      }
      SilentOneMore(cs, speed);
    }
  }

  lemma SilentOneMore(cs: seq<CaptureChunk>, speed: real)
    requires cs != []
    ensures var n := |cs| - 1;
            Silent(cs, speed) <==>
              && Silent(cs[..n], speed) && cs[n].data == []
              && (n == 0 || speed <= 0.0 || Gap(cs[n - 1].timestamp, cs[n].timestamp) as real < speed)
  {
    var n := |cs| - 1;
    var front := cs[..n];
    assert forall i :: 0 <= i < n ==> front[i] == cs[i];
    if Silent(front, speed) && cs[n].data == []
       && (n == 0 || speed <= 0.0 || Gap(cs[n - 1].timestamp, cs[n].timestamp) as real < speed) {
      forall i | 0 < i < |cs|
        ensures speed <= 0.0 || Gap(cs[i - 1].timestamp, cs[i].timestamp) as real < speed
      {
        if i < n {
          assert front[i - 1] == cs[i - 1] && front[i] == cs[i];
        }
      }
    }
  }

  lemma {:induction false} RepeatNothing(k: nat)
    ensures Repeat([], k) == []
  {
    if k > 0 {
      RepeatNothing(k - 1);
    }
  }
}
