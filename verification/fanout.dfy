/** Whole runs of one producer and any number of clients over the broadcast channel, with
    their steps interleaved in any order (src/main.rs, src/stream.rs). */
module FanOut {
  import opened Bytes
  import opened Encryption
  import opened Broadcast

  datatype Hub = Hub(capacity: nat, log: seq<Chunk>, clients: map<nat, Client>) {
    ghost predicate Valid()
    {
      forall id :: id in clients ==> clients[id].Accounted(log)
    }
  }

  datatype Step = Send(chunk: Chunk) | Subscribe(id: nat) | Recv(id: nat)

  function Next(h: Hub, step: Step): (r: Hub)
    requires h.Valid()
    ensures r.Valid()
  {
    match step
    case Send(chunk) =>
      assert forall id :: id in h.clients ==> h.clients[id].Accounted(h.log + [chunk]) by {
        forall id | id in h.clients
          ensures h.clients[id].Accounted(h.log + [chunk])
        {
          SendAccounted(h.clients[id], h.log, [chunk]);
        }
      }
      h.(log := h.log + [chunk])
    case Subscribe(id) =>
      if id in h.clients then h
      else h.(clients := h.clients[id := Client(|h.log|, |h.log|, [], 0)])
    case Recv(id) =>
      if id !in h.clients then h
      else
        assert h.clients[id].Accounted(h.log);
        var c := h.clients[id].Recv(h.log, true, h.capacity);
        assert c.Accounted(h.log) by { RecvAccounted(h.clients[id], h.log, true, h.capacity); }
        h.(clients := h.clients[id := c])
  }

  function Run(h: Hub, steps: seq<Step>): (r: Hub)
    requires h.Valid()
    ensures r.Valid()
    decreases |steps|
  {
    if steps == [] then h else Run(Next(h, steps[0]), steps[1..])
  }

  function Start(capacity: nat): (h: Hub)
    ensures h.Valid()
  {
    Hub(capacity, [], map[])
  }

  /** The chunks a history of steps sends. */
  function Sends(steps: seq<Step>): seq<Chunk>
  {
    if steps == [] then []
    else (if steps[0].Send? then [steps[0].chunk] else []) + Sends(steps[1..])
  }

  /** How many chunks have been sent when client id first subscribes. */
  function SentBefore(steps: seq<Step>, id: nat): (n: nat)
    ensures n <= |Sends(steps)|
  {
    if steps == [] || steps[0] == Subscribe(id) then 0
    else (if steps[0].Send? then 1 else 0) + SentBefore(steps[1..], id)
  }

  // ---------- conservation ----------

  lemma {:induction false} RunLog(h: Hub, steps: seq<Step>)
    requires h.Valid()
    ensures Run(h, steps).log == h.log + Sends(steps) && Run(h, steps).capacity == h.capacity
    decreases |steps|
  {
    if steps != [] {
      var next := Next(h, steps[0]);
      RunLog(next, steps[1..]);
      var sent := if steps[0].Send? then [steps[0].chunk] else [];
      assert next.log == h.log + sent;
      assert h.log + sent + Sends(steps[1..]) == h.log + (sent + Sends(steps[1..]));
    }
  }

  lemma {:induction false} RunStart(h: Hub, steps: seq<Step>, id: nat)
    requires h.Valid()
    ensures id in Run(h, steps).clients <==> id in h.clients || Subscribe(id) in steps
    ensures id in h.clients ==> Run(h, steps).clients[id].start == h.clients[id].start
    ensures id !in h.clients && Subscribe(id) in steps ==>
              Run(h, steps).clients[id].start == |h.log| + SentBefore(steps, id)
    decreases |steps|
  {
    if steps != [] {
      assert Subscribe(id) in steps <==> steps[0] == Subscribe(id) || Subscribe(id) in steps[1..];
      RunStart(Next(h, steps[0]), steps[1..], id);
    }
  }

  /** After every run, for every client: delivered, reported as missed and still pending
      add up to the chunks sent since it subscribed, and what it was given is those
      chunks, whole and in order, with some left out. */
  lemma Conservation(capacity: nat, steps: seq<Step>, id: nat)
    requires Subscribe(id) in steps
    ensures var h := Run(Start(capacity), steps);
            && id in h.clients
            && var c, since := h.clients[id], Sends(steps)[SentBefore(steps, id)..];
               && |c.delivered| + c.lagged + (|h.log| - c.cursor) == |since|
               && IsSubseq(c.delivered, since)
               && IsSubseq(Concat(c.delivered), Concat(since))
  {
    var h := Run(Start(capacity), steps);
    RunLog(Start(capacity), steps);
    RunStart(Start(capacity), steps, id);
    assert [] + Sends(steps) == Sends(steps);
    var c, since := h.clients[id], Sends(steps)[SentBefore(steps, id)..];
    assert c.Accounted(h.log);
    Split(h.log, c.start, c.cursor);
    SubseqExtend(c.delivered, h.log[c.start..c.cursor], h.log[c.cursor..]);
    ConcatSubseq(c.delivered, since);
  }

  lemma Split<T>(s: seq<T>, a: nat, b: nat)
    requires a <= b <= |s|
    ensures s[a..] == s[a..b] + s[b..]
  {
  }

  // ---------- independence ----------

  predicate Concerns(step: Step, id: nat)
  {
    step.Send? || step == Subscribe(id) || step == Recv(id)
  }

  /** The history with the steps of every client but one taken out. */
  function Alone(steps: seq<Step>, id: nat): seq<Step>
  {
    if steps == [] then []
    else (if Concerns(steps[0], id) then [steps[0]] else []) + Alone(steps[1..], id)
  }

  ghost predicate Alike(a: Hub, b: Hub, id: nat)
  {
    && a.log == b.log && a.capacity == b.capacity
    && (id in a.clients <==> id in b.clients)
    && (id in a.clients ==> a.clients[id] == b.clients[id])
  }

  lemma {:induction false} AlikeRuns(a: Hub, b: Hub, steps: seq<Step>, id: nat)
    requires a.Valid() && b.Valid() && Alike(a, b, id)
    ensures Alike(Run(a, steps), Run(b, Alone(steps, id)), id)
    decreases |steps|
  {
    if steps != [] {
      var rest := Alone(steps[1..], id);
      if Concerns(steps[0], id) {
        assert Alone(steps, id) == [steps[0]] + rest && ([steps[0]] + rest)[1..] == rest;
        AlikeRuns(Next(a, steps[0]), Next(b, steps[0]), steps[1..], id);
      } else {
        assert Alone(steps, id) == rest;
        AlikeRuns(Next(a, steps[0]), b, steps[1..], id);
      }
    }
  }

  /** What a client receives does not depend on any other client. */
  lemma Independence(capacity: nat, steps: seq<Step>, id: nat)
    requires Subscribe(id) in steps
    ensures id in Run(Start(capacity), steps).clients
    ensures id in Run(Start(capacity), Alone(steps, id)).clients
    ensures Run(Start(capacity), steps).clients[id] == Run(Start(capacity), Alone(steps, id)).clients[id]
  {
    RunStart(Start(capacity), steps, id);
    AlikeRuns(Start(capacity), Start(capacity), steps, id);
  }

  /** Two clients that never lagged hold the same chunks from the later subscription on. */
  lemma NeverLaggedAgree(capacity: nat, steps: seq<Step>, a: nat, b: nat)
    requires var h := Run(Start(capacity), steps);
             && a in h.clients && b in h.clients
             && h.clients[a].lagged == 0 && h.clients[b].lagged == 0
             && h.clients[a].start <= h.clients[b].start <= h.clients[a].cursor
    ensures var h := Run(Start(capacity), steps);
            var ca, cb := h.clients[a], h.clients[b];
            var m := Min(ca.cursor, cb.cursor);
            && |ca.delivered| == ca.cursor - ca.start && |cb.delivered| == cb.cursor - cb.start
            && ca.delivered[cb.start - ca.start..m - ca.start] == cb.delivered[..m - cb.start]
  {
    var h := Run(Start(capacity), steps);
    var ca, cb := h.clients[a], h.clients[b];
    assert ca.Accounted(h.log) && cb.Accounted(h.log);
    var m := Min(ca.cursor, cb.cursor);
    Overlap(h.log, ca.start, ca.cursor, cb.start, cb.cursor, m);
    assert ca.delivered == h.log[ca.start..ca.cursor];
    assert cb.delivered == h.log[cb.start..cb.cursor];
  }

  lemma Overlap<T>(s: seq<T>, a: nat, b: nat, c: nat, d: nat, m: nat)
    requires a <= c <= m <= b <= |s| && m <= d <= |s|
    ensures s[a..b][c - a..m - a] == s[c..d][..m - c]
  {
    var n := m - c;
    forall i | 0 <= i < n
      ensures s[a..b][c - a..m - a][i] == s[c..d][..n][i]
    {
      assert s[a..b][c - a + i] == s[c + i];
    }
    assert |s[a..b][c - a..m - a]| == n;
  }

  // ---------- I/Q samples ----------

  /** The I/Q samples of a byte stream; a last odd byte belongs to none. */
  function Samples(bs: seq<byte>): seq<(byte, byte)>
  {
    if |bs| < 2 then [] else [(bs[0], bs[1])] + Samples(bs[2..])
  }

  lemma {:induction false} SamplesAppend(a: seq<byte>, b: seq<byte>)
    requires |a| % 2 == 0
    ensures Samples(a + b) == Samples(a) + Samples(b)
  {
    if a == [] {
      assert a + b == b;
    } else {
      assert (a + b)[2..] == a[2..] + b;
      SamplesAppend(a[2..], b);
    }
  }

  ghost predicate AllEven(chunks: seq<Chunk>)
  {
    forall i :: 0 <= i < |chunks| ==> |chunks[i]| % 2 == 0
  }

  lemma {:induction false} SamplesSubseq(s: seq<Chunk>, t: seq<Chunk>)
    requires IsSubseq(s, t) && AllEven(t)
    ensures IsSubseq(Samples(Concat(s)), Samples(Concat(t)))
    decreases |t|
  {
    if s != [] {
      SamplesAppend(t[0], Concat(t[1..]));
      if s[0] == t[0] && IsSubseq(s[1..], t[1..]) {
        SamplesSubseq(s[1..], t[1..]);
        SamplesAppend(s[0], Concat(s[1..]));
        SubseqRefl(Samples(s[0]));
        SubseqConcat(Samples(s[0]), Samples(t[0]), Samples(Concat(s[1..])), Samples(Concat(t[1..])));
      } else {
        SamplesSubseq(s, t[1..]);
        SubseqConcat([], Samples(t[0]), Samples(Concat(s)), Samples(Concat(t[1..])));
        assert [] + Samples(Concat(s)) == Samples(Concat(s));
      }
    }
  }

  /** When every chunk sent has even length, lag loses whole I/Q samples and never
      swaps or splits one. */
  lemma SamplesKept(capacity: nat, steps: seq<Step>, id: nat)
    requires Subscribe(id) in steps && AllEven(Sends(steps))
    ensures id in Run(Start(capacity), steps).clients
    ensures IsSubseq(Samples(Concat(Run(Start(capacity), steps).clients[id].delivered)),
                     Samples(Concat(Sends(steps)[SentBefore(steps, id)..])))
  {
    Conservation(capacity, steps, id);
    SamplesSubseq(Run(Start(capacity), steps).clients[id].delivered, Sends(steps)[SentBefore(steps, id)..]);
  }

  /** With a chunk of odd length, one lag gives the client samples that were never sent. */
  lemma OddChunkBreaksSamples()
    ensures var h := Run(Start(1), [Subscribe(0), Send([1]), Send([2, 3]), Recv(0), Recv(0)]);
            && 0 in h.clients
            && Samples(Concat(h.clients[0].delivered)) == [(2, 3)]
            && Samples(Concat(h.log)) == [(1, 2)]
  {
    var s := [Subscribe(0), Send([1]), Send([2, 3]), Recv(0), Recv(0)];
    var h3 := Next(Next(Next(Start(1), s[0]), s[1]), s[2]);
    assert h3 == Hub(1, [[1], [2, 3]], map[0 := Client(0, 0, [], 0)]);
    var h4 := Next(h3, Recv(0));
    assert h4.clients[0] == Client(0, 1, [], 1);
    var h5 := Next(h4, Recv(0));
    assert h5.clients[0].delivered == [[2, 3]] && h5.log == [[1], [2, 3]];
    assert s[1..][1..] == s[2..] && s[2..][1..] == s[3..] && s[3..][1..] == s[4..] && s[4..][1..] == [];
    assert Run(h4, s[4..]) == h5;
    assert Run(h3, s[3..]) == h5;
    OddSamples();
  }

  lemma OddSamples()
    ensures Samples(Concat([[2, 3]])) == [(2, 3)] && Samples(Concat([[1], [2, 3]])) == [(1, 2)]
  {
    assert [[2, 3]][1..] == [] && [[1], [2, 3]][1..] == [[2, 3]];
    assert Concat([[2, 3]]) == [2, 3];
    assert Concat([[1], [2, 3]]) == [1, 2, 3];
    assert Samples([2, 3][2..]) == [] && Samples([1, 2, 3][2..]) == [];
  }

  // ---------- exactly when lag keeps the samples ----------

  /** What the client holds are samples that were sent since it subscribed, in order. */
  ghost predicate Aligned(capacity: nat, steps: seq<Step>, id: nat)
  {
    var h := Run(Start(capacity), steps);
    && id in h.clients
    && IsSubseq(Samples(Concat(h.clients[id].delivered)), Samples(Concat(Sends(steps)[SentBefore(steps, id)..])))
  }

  /** In every history that begins with these chunks and goes on with even ones. */
  ghost predicate AlwaysAligned(capacity: nat, chunks: seq<Chunk>)
  {
    forall steps, id ::
      Subscribe(id) in steps && chunks <= Sends(steps) && AllEven(Sends(steps)[|chunks|..]) ==>
        Aligned(capacity, steps, id)
  }

  /** Whatever the capacity, lag never splits or swaps a sample exactly when every chunk has
      even length: one odd chunk, and some client that misses it holds samples never sent. */
  lemma AlignedIffEven(capacity: nat, chunks: seq<Chunk>)
    requires capacity > 0
    ensures AlwaysAligned(capacity, chunks) <==> AllEven(chunks)
  {
    if AllEven(chunks) {
      forall steps, id | Subscribe(id) in steps && chunks <= Sends(steps) && AllEven(Sends(steps)[|chunks|..])
        ensures Aligned(capacity, steps, id)
      {
        var all := Sends(steps);
        assert all == chunks + all[|chunks|..];
        SamplesKept(capacity, steps, id);
      }
    } else {
      var i := LastOdd(chunks);
      var n := |Concat(chunks[..i]) + Concat(chunks[i..])| + 2;
      var more := Copies(capacity, n);
      var steps := MissedRun(capacity, chunks, i, more);
      CopiesEven(capacity, n);
      assert (chunks + more)[|chunks|..] == more;
      MissedMisaligned(capacity, chunks, i, n);
      assert Sends(steps)[0..] == Sends(steps);
      assert !Aligned(capacity, steps, 0);
    }
  }

  lemma MissedMisaligned(capacity: nat, chunks: seq<Chunk>, i: nat, n: nat)
    requires capacity > 0 && i <= |chunks| && |Concat(chunks[i..])| % 2 == 1
    requires n >= |Concat(chunks[..i]) + Concat(chunks[i..])| + 2
    ensures var more := Copies(capacity, n);
            !IsSubseq(Samples(Concat(chunks[..i] + more)), Samples(Concat(chunks + more)))
  {
    var more := Copies(capacity, n);
    var m := CopiesConcat(capacity, n);
    ConcatAppend(chunks[..i], more);
    ConcatAppend(chunks[..i], chunks[i..]);
    assert chunks[..i] + chunks[i..] == chunks;
    ConcatAppend(chunks, more);
    NotASubseq(Concat(chunks[..i]), Concat(chunks[i..]), m, 0, 1);
  }

  lemma {:induction false} LastOdd(chunks: seq<Chunk>) returns (i: nat)
    requires !AllEven(chunks)
    ensures i < |chunks| && |Concat(chunks[i..])| % 2 == 1
  {
    if AllEven(chunks[1..]) {
      i := 0;
      EvenConcat(chunks[1..]);
      assert |chunks[0]| % 2 == 1 by {
        assert forall k :: 0 < k < |chunks| ==> chunks[k] == chunks[1..][k - 1];
      }
      assert chunks[0..] == chunks;
    } else {
      i := LastOdd(chunks[1..]);
      assert chunks[1..][i..] == chunks[i + 1..];
      i := i + 1;
    }
  }

  lemma {:induction false} EvenConcat(chunks: seq<Chunk>)
    requires AllEven(chunks)
    ensures |Concat(chunks)| % 2 == 0
  {
    if chunks != [] {
      EvenConcat(chunks[1..]);
    }
  }

  // ---- a client that misses everything from chunk i up to the last capacity chunks ----

  lemma {:induction false} RunAppend(h: Hub, a: seq<Step>, b: seq<Step>)
    requires h.Valid()
    ensures Run(h, a + b) == Run(Run(h, a), b)
    decreases |a|
  {
    if a == [] {
      assert a + b == b;
    } else {
      assert (a + b)[1..] == a[1..] + b;
      RunAppend(Next(h, a[0]), a[1..], b);
    }
  }

  function Echo(chunks: seq<Chunk>): seq<Step>
  {
    if chunks == [] then [] else [Send(chunks[0]), Recv(0)] + Echo(chunks[1..])
  }

  function Burst(chunks: seq<Chunk>): seq<Step>
  {
    if chunks == [] then [] else [Send(chunks[0])] + Burst(chunks[1..])
  }

  function Drain(k: nat): seq<Step>
  {
    if k == 0 then [] else [Recv(0)] + Drain(k - 1)
  }

  /** Client 0, alone on the hub. */
  function Only(capacity: nat, log: seq<Chunk>, c: Client): Hub
  {
    Hub(capacity, log, map[0 := c])
  }

  lemma RunFirst(h: Hub, step: Step, rest: seq<Step>)
    requires h.Valid()
    ensures Run(h, [step] + rest) == Run(Next(h, step), rest)
  {
    assert ([step] + rest)[1..] == rest;
  }

  lemma RecvOnly(capacity: nat, log: seq<Chunk>, c: Client)
    requires Only(capacity, log, c).Valid()
    ensures c.Accounted(log)
    ensures Next(Only(capacity, log, c), Recv(0)) == Only(capacity, log, c.Recv(log, true, capacity))
  {
    assert Only(capacity, log, c).clients[0].Accounted(log);
  }

  lemma {:induction false} EchoRun(capacity: nat, log: seq<Chunk>, chunks: seq<Chunk>)
    requires capacity > 0 && Only(capacity, log, Client(0, |log|, log, 0)).Valid()
    ensures var all := log + chunks;
            Run(Only(capacity, log, Client(0, |log|, log, 0)), Echo(chunks)) == Only(capacity, all, Client(0, |all|, all, 0))
    decreases |chunks|
  {
    if chunks == [] {
      assert log + chunks == log;
    } else {
      var h := Only(capacity, log, Client(0, |log|, log, 0));
      var log', rest := log + [chunks[0]], Echo(chunks[1..]);
      var h' := EchoOnce(capacity, log, chunks[0]);
      RunAppend(h, [Send(chunks[0]), Recv(0)], rest);
      EchoRun(capacity, log', chunks[1..]);
      assert log' + chunks[1..] == log + chunks;
    }
  }

  lemma EchoOnce(capacity: nat, log: seq<Chunk>, chunk: Chunk) returns (h': Hub)
    requires capacity > 0 && Only(capacity, log, Client(0, |log|, log, 0)).Valid()
    ensures var log' := log + [chunk];
            h' == Only(capacity, log', Client(0, |log'|, log', 0)) && h'.Valid()
    ensures Run(Only(capacity, log, Client(0, |log|, log, 0)), [Send(chunk), Recv(0)]) == h'
  {
    var h := Only(capacity, log, Client(0, |log|, log, 0));
    var sent := Next(h, Send(chunk));
    h' := Next(sent, Recv(0));
    RunFirst(h, Send(chunk), [Recv(0)]);
    RunFirst(sent, Recv(0), []);
    assert [Send(chunk)] + [Recv(0)] == [Send(chunk), Recv(0)] && [Recv(0)] + [] == [Recv(0)];
  }

  lemma {:induction false} BurstRun(h: Hub, chunks: seq<Chunk>)
    requires h.Valid()
    ensures Run(h, Burst(chunks)) == h.(log := h.log + chunks)
    decreases |chunks|
  {
    if chunks == [] {
      assert h.log + chunks == h.log;
    } else {
      var first, rest := chunks[0], chunks[1..];
      RunFirst(h, Send(first), Burst(rest));
      BurstRun(Next(h, Send(first)), rest);
      assert (h.log + [first]) + rest == h.log + chunks;
    }
  }

  /** The client once it has been given all the rest of the log. */
  function Drained(log: seq<Chunk>, c: Client): Client
    requires c.cursor <= |log|
  {
    c.(cursor := |log|, delivered := c.delivered + log[c.cursor..])
  }

  lemma DrainedNext(capacity: nat, log: seq<Chunk>, c: Client)
    requires c.cursor < |log| && |log| - c.cursor <= capacity
    ensures var d := c.Recv(log, true, capacity);
            d.cursor == c.cursor + 1 && Drained(log, d) == Drained(log, c)
  {
    assert log[c.cursor..] == [log[c.cursor]] + log[c.cursor + 1..];
    Regroup(c.delivered, [log[c.cursor]], log[c.cursor + 1..]);
  }

  lemma {:induction false} DrainRun(capacity: nat, log: seq<Chunk>, c: Client, k: nat)
    requires Only(capacity, log, c).Valid() && |log| - c.cursor == k <= capacity
    ensures Run(Only(capacity, log, c), Drain(k)) == Only(capacity, log, Drained(log, c))
    decreases k
  {
    RecvOnly(capacity, log, c);
    if k == 0 {
      assert log[c.cursor..] == [] && c.delivered + [] == c.delivered;
      assert Drained(log, c) == c;
    } else {
      var h, d := Only(capacity, log, c), c.Recv(log, true, capacity);
      RunFirst(h, Recv(0), Drain(k - 1));
      assert Run(h, Drain(k)) == Run(Only(capacity, log, d), Drain(k - 1));
      DrainedNext(capacity, log, c);
      DrainRun(capacity, log, d, k - 1);
    }
  }

  /** The client is given the first i chunks as they are sent, then nothing until capacity
      more have followed the last. */
  lemma MissedRun(capacity: nat, chunks: seq<Chunk>, i: nat, more: seq<Chunk>) returns (steps: seq<Step>)
    requires capacity > 0 && i < |chunks| && |more| == capacity
    ensures Subscribe(0) in steps && Sends(steps) == chunks + more && SentBefore(steps, 0) == 0
    ensures 0 in Run(Start(capacity), steps).clients
    ensures Run(Start(capacity), steps).clients[0].delivered == chunks[..i] + more
  {
    var front, late, none: seq<Chunk> := chunks[..i], chunks[i..] + more, [];
    var start := Next(Start(capacity), Subscribe(0));
    assert start == Only(capacity, none, Client(0, |none|, none, 0));
    EchoRun(capacity, none, front);
    assert none + front == front;
    var h := Run(start, Echo(front));
    assert h == Only(capacity, front, Client(0, i, front, 0));
    BurstRun(h, late);
    assert front + chunks[i..] == chunks;
    Regroup(front, chunks[i..], more);
    MissedRest(capacity, chunks, i, more);
    var tail := [Recv(0)] + Drain(capacity);
    steps := [Subscribe(0)] + (Echo(front) + (Burst(late) + tail));
    RunFirst(Start(capacity), Subscribe(0), Echo(front) + (Burst(late) + tail));
    RunAppend(start, Echo(front), Burst(late) + tail);
    RunAppend(h, Burst(late), tail);
    RunLog(Start(capacity), steps);
    assert none + Sends(steps) == Sends(steps);
  }

  lemma MissedRest(capacity: nat, chunks: seq<Chunk>, i: nat, more: seq<Chunk>)
    requires capacity > 0 && i < |chunks| && |more| == capacity
    requires Only(capacity, chunks + more, Client(0, i, chunks[..i], 0)).Valid()
    ensures Run(Only(capacity, chunks + more, Client(0, i, chunks[..i], 0)), [Recv(0)] + Drain(capacity)) ==
              Only(capacity, chunks + more, Client(0, |chunks| + capacity, chunks[..i] + more, |chunks| - i))
  {
    var all, before := chunks + more, Client(0, i, chunks[..i], 0);
    var c := Client(0, |chunks|, chunks[..i], |chunks| - i);
    var h, g := Only(capacity, all, before), Only(capacity, all, c);
    RecvOnly(capacity, all, before);
    LagsPast(capacity, chunks, more, before);
    DrainedAll(chunks, more, c);
    assert Next(h, Recv(0)) == g;
    DrainRun(capacity, all, c, capacity);
    var done := Only(capacity, all, Drained(all, c));
    assert done == Only(capacity, all, Client(0, |chunks| + capacity, chunks[..i] + more, |chunks| - i));
    RunThen(h, Recv(0), Drain(capacity), done);
  }

  lemma RunThen(h: Hub, step: Step, rest: seq<Step>, done: Hub)
    requires h.Valid() && Run(Next(h, step), rest) == done
    ensures Run(h, [step] + rest) == done
  {
    RunFirst(h, step, rest);
  }

  lemma DrainedAll(chunks: seq<Chunk>, more: seq<Chunk>, c: Client)
    requires c.cursor == |chunks|
    ensures Drained(chunks + more, c) == Client(c.start, |chunks| + |more|, c.delivered + more, c.lagged)
  {
    assert (chunks + more)[|chunks|..] == more;
  }

  /** With capacity chunks sent after them, all of these are missed at once. */
  lemma LagsPast(capacity: nat, chunks: seq<Chunk>, more: seq<Chunk>, c: Client)
    requires c.cursor < |chunks| && |more| == capacity
    ensures c.Recv(chunks + more, true, capacity) ==
              Client(c.start, |chunks|, c.delivered, c.lagged + (|chunks| - c.cursor))
  {
  }

  // ---- counting samples ----

  lemma {:induction false} SampleCount(bs: seq<byte>)
    ensures |Samples(bs)| == |bs| / 2
  {
    if |bs| >= 2 {
      SampleCount(bs[2..]);
    }
  }

  type Sample = (byte, byte)

  function Count(samples: seq<Sample>, p: Sample): (n: nat)
    ensures n <= |samples|
  {
    if samples == [] then 0 else (if samples[0] == p then 1 else 0) + Count(samples[1..], p)
  }

  lemma {:induction false} CountAppend(a: seq<Sample>, b: seq<Sample>, p: Sample)
    ensures Count(a + b, p) == Count(a, p) + Count(b, p)
  {
    if a == [] {
      assert a + b == b;
    } else {
      assert (a + b)[1..] == a[1..] + b;
      CountAppend(a[1..], b, p);
    }
  }

  lemma {:induction false} SubseqCounts(s: seq<Sample>, t: seq<Sample>, p: Sample)
    requires IsSubseq(s, t)
    ensures Count(s, p) <= Count(t, p)
    decreases |t|
  {
    if s != [] {
      if s[0] == t[0] && IsSubseq(s[1..], t[1..]) {
        SubseqCounts(s[1..], t[1..], p);
      } else {
        SubseqCounts(s, t[1..], p);
      }
    }
  }

  /** a, b, a, b, ... n times over. */
  function Zigzag(n: nat, a: byte, b: byte): seq<byte>
  {
    if n == 0 then [] else [a, b] + Zigzag(n - 1, a, b)
  }

  lemma {:induction false} ZigzagCount(n: nat, a: byte, b: byte)
    ensures |Zigzag(n, a, b)| % 2 == 0
    ensures Count(Samples(Zigzag(n, a, b)), (a, b)) == n
    ensures a != b ==> Count(Samples(Zigzag(n, a, b)), (b, a)) == 0
  {
    if n > 0 {
      var rest := Zigzag(n - 1, a, b);
      ZigzagCount(n - 1, a, b);
      assert Zigzag(n, a, b)[2..] == rest;
      var samples := [(a, b)] + Samples(rest);
      assert Samples(Zigzag(n, a, b)) == samples && samples[1..] == Samples(rest);
    }
  }

  lemma {:induction false} ZigzagAdd(m: nat, n: nat, a: byte, b: byte)
    ensures Zigzag(m, a, b) + Zigzag(n, a, b) == Zigzag(m + n, a, b)
  {
    if m == 0 {
      assert [] + Zigzag(n, a, b) == Zigzag(n, a, b);
    } else {
      ZigzagAdd(m - 1, n, a, b);
      Regroup([a, b], Zigzag(m - 1, a, b), Zigzag(n, a, b));
    }
  }

  lemma {:induction false} ZigzagShift(n: nat, a: byte, b: byte)
    requires n > 0
    ensures Zigzag(n, a, b) == [a] + (Zigzag(n - 1, b, a) + [b])
  {
    if n == 1 {
      assert Zigzag(1, a, b) == [a, b] + Zigzag(0, a, b);
    } else {
      ZigzagShift(n - 1, a, b);
      assert Zigzag(n - 1, b, a) == [b, a] + Zigzag(n - 2, b, a);
      assert [a, b] + ([a] + (Zigzag(n - 2, b, a) + [b])) == [a] + (([b, a] + Zigzag(n - 2, b, a)) + [b]);
    }
  }

  function Copies(k: nat, n: nat): (chunks: seq<Chunk>)
    ensures |chunks| == k
  {
    if k == 0 then [] else [Zigzag(n, 0, 1)] + Copies(k - 1, n)
  }

  lemma {:induction false} CopiesEven(k: nat, n: nat)
    ensures AllEven(Copies(k, n))
  {
    if k > 0 {
      CopiesEven(k - 1, n);
      ZigzagCount(n, 0, 1);
    }
  }

  lemma {:induction false} CopiesConcat(k: nat, n: nat) returns (m: nat)
    ensures Concat(Copies(k, n)) == Zigzag(m, 0, 1) && (k > 0 ==> m >= n)
  {
    if k == 0 {
      m := 0;
    } else {
      m := CopiesConcat(k - 1, n);
      ZigzagAdd(n, m, 0, 1);
      m := n + m;
    }
  }

  lemma SplitCount(front: seq<byte>, back: seq<byte>, p: Sample)
    requires |front| % 2 == 0
    ensures Count(Samples(back), p) <= Count(Samples(front + back), p) <= |front| / 2 + Count(Samples(back), p)
  {
    SamplesAppend(front, back);
    SampleCount(front);
    CountAppend(Samples(front), Samples(back), p);
  }

  lemma BehindEven(bs: seq<byte>, n: nat, a: byte, b: byte)
    requires |bs| % 2 == 0 && a != b
    ensures var s := Samples(bs + Zigzag(n, a, b));
            Count(s, (a, b)) >= n && Count(s, (b, a)) <= |bs|
  {
    var z := Zigzag(n, a, b);
    ZigzagCount(n, a, b);
    SplitCount(bs, z, (a, b));
    SplitCount(bs, z, (b, a));
  }

  /** Behind an odd number, they are the other way round. */
  lemma BehindOdd(bs: seq<byte>, n: nat, a: byte, b: byte)
    requires |bs| % 2 == 1 && n > 0 && a != b
    ensures var s := Samples(bs + Zigzag(n, a, b));
            Count(s, (b, a)) >= n - 1 && Count(s, (a, b)) <= |bs|
  {
    var z := Zigzag(n - 1, b, a);
    ZigzagBehind(bs, n, a, b);
    ZigzagCount(n - 1, b, a);
    LastByte(z, b);
    OddAndOne(|bs|);
    SplitCount(bs + [a], z + [b], (a, b));
    SplitCount(bs + [a], z + [b], (b, a));
  }

  lemma OddAndOne(n: nat)
    requires n % 2 == 1
    ensures (n + 1) % 2 == 0 && (n + 1) / 2 <= n
  {
  }

  lemma ZigzagBehind(bs: seq<byte>, n: nat, a: byte, b: byte)
    requires n > 0
    ensures bs + Zigzag(n, a, b) == (bs + [a]) + (Zigzag(n - 1, b, a) + [b])
  {
    ZigzagShift(n, a, b);
    Regroup(bs, [a], Zigzag(n - 1, b, a) + [b]);
  }

  lemma LastByte(bs: seq<byte>, last: byte)
    requires |bs| % 2 == 0
    ensures Samples(bs + [last]) == Samples(bs)
  {
    SamplesAppend(bs, [last]);
  }

  lemma NotASubseq(front: seq<byte>, gap: seq<byte>, n: nat, a: byte, b: byte)
    requires |gap| % 2 == 1 && n >= |front + gap| + 2 && a != b
    ensures !IsSubseq(Samples(front + Zigzag(n, a, b)), Samples((front + gap) + Zigzag(n, a, b)))
  {
    var all, z := front + gap, Zigzag(n, a, b);
    var s, t := Samples(front + z), Samples(all + z);
    if IsSubseq(s, t) {
      if |front| % 2 == 0 {
        BehindEven(front, n, a, b);
        BehindOdd(all, n, a, b);
        SubseqCounts(s, t, (a, b));
      } else {
        BehindOdd(front, n, a, b);
        BehindEven(all, n, a, b);
        SubseqCounts(s, t, (b, a));
      }
    }
  }

  // ---------- encryption under lag ----------

  /** From the channel to the plaintext at the far end: a client's loop writes through an
      encrypting writer, and an encrypting reader takes the wire in pieces. Under any lag the
      bytes read are the chunks delivered, as far as reading goes, if each was taken whole. */
  method EncryptedClient(ks: Keystream, rx: Receiver, rounds: seq<Round>, pieces: seq<Piece>)
    returns (out: seq<byte>, ghost client: Client, ghost writes: seq<Attempt>)
    requires rx.Valid()
    modifies rx`next, rx.channel, rx.channel.slots
    ensures Session(rx.channel.log, rx.channel.open, client, writes) ==
              SessionOf(Begin(old(rx.channel.log), old(rx.channel.open), old(rx.next)), rx.channel.slots.Length, rounds)
    ensures client.Accounted(rx.channel.log)
    ensures AllWhole(writes) ==>
              out == Concat(client.delivered)[..Min(Offered(pieces), |Concat(client.delivered)|)]
  {
    var writer := new EncryptedWriter(ks);
    var stream := new ClientStream(writer);
    ghost var s := Begin(rx.channel.log, rx.channel.open, rx.next);
    assert s.log[rx.next..rx.next] == [];
    SessionAccounted(s, rx.channel.slots.Length, rounds);
    client, writes := WriteClientLoop(stream, rx, rounds);
    var reader := new EncryptedReader(stream.Wire(), ks);
    out := ReadInPieces(reader, pieces);
    if AllWhole(writes) {
      WholeEach(ks, 0, writes);
      ReadsBack(ks, Concat(client.delivered), Offered(pieces), reader.inner, out);
    }
  }

  lemma ReadsBack(ks: Keystream, plain: seq<byte>, offered: nat, wire: seq<byte>, out: seq<byte>)
    requires wire == Mask(ks, 0, plain) && |out| == Min(offered, |wire|) && out == Mask(ks, 0, wire[0..|out|])
    ensures out == plain[..Min(offered, |plain|)]
  {
    assert wire[0..|out|] == Mask(ks, 0, plain[..|out|]);
    MaskTwice(ks, 0, plain[..|out|]);
  }
}
