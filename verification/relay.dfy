/** Any number of keyless proxies in series: each reads the one before it, broadcasts what
    it read, and writes it to the next (src/main.rs, run_proxy_multi). */
module Relay {
  import opened Bytes
  import opened Encryption
  import opened Broadcast
  import Proxy

  const READ_BUFFER: nat := 512 * 1024

  datatype Downstream = NotYet | Subscribed(client: Client)

  /** A stage that has connected to its upstream has taken the first skip bytes of it for the
      answer to its probe. taken counts all it has read. */
  datatype Stage = Stage(connected: bool, skip: nat, log: seq<Chunk>, taken: nat, down: Downstream) {
    function Output(): seq<byte>
    {
      if down.NotYet? then [] else Concat(down.client.delivered)
    }
  }

  /** source is all that the first stage's upstream ever sends behind its magic packet. */
  datatype Chain = Chain(source: seq<byte>, capacity: nat, stages: seq<Stage>) {
    function Upstream(i: nat): seq<byte>
      requires i < |stages|
    {
      if i == 0 then source else stages[i - 1].Output()
    }

    ghost predicate StageValid(i: nat)
      requires i < |stages|
    {
      && stages[i].skip <= stages[i].taken <= |Upstream(i)|
      && stages[i].skip <= 5 && (!stages[i].connected ==> stages[i].taken == 0)
      && Concat(stages[i].log) == Upstream(i)[stages[i].skip..stages[i].taken]
      && (stages[i].down.Subscribed? ==> stages[i].down.client.Accounted(stages[i].log))
    }

    ghost predicate Valid()
    {
      forall i :: 0 <= i < |stages| ==> StageValid(i)
    }
  }

  /** One stage connects, with n bytes in time for an answer to its probe, reads up to n bytes,
      admits its downstream, or serves it once. */
  datatype Step = Connect(i: nat, n: nat) | Read(i: nat, n: nat) | Admit(i: nat) | Serve(i: nat)

  function Next(c: Chain, step: Step): (r: Chain)
    requires c.Valid()
    ensures r.Valid() && r.source == c.source && |r.stages| == |c.stages|
  {
    if step.i >= |c.stages| then c else
    assert c.StageValid(step.i);
    var s := c.stages[step.i];
    match step
    case Connect(i, n) =>
      if s.connected then c
      else
        var k := Proxy.Consumed(c.Upstream(i), n, NoKey);
        var r := c.(stages := c.stages[i := s.(connected := true, skip := k, taken := k)]);
        assert r.Valid() by { ConnectValid(c, i, k, r); }
        r
    case Read(i, n) =>
      var k := Min(Min(n, READ_BUFFER), |c.Upstream(i)| - s.taken);
      if k == 0 || !s.connected then c
      else
        var t := s.(log := s.log + [c.Upstream(i)[s.taken..s.taken + k]], taken := s.taken + k);
        var r := c.(stages := c.stages[i := t]);
        assert r.Valid() by { ReadValid(c, i, k, r); }
        r
    case Admit(i) =>
      if s.down.Subscribed? || !s.connected then c
      else
        var r := c.(stages := c.stages[i := s.(down := Subscribed(Client(|s.log|, |s.log|, [], 0)))]);
        assert r.Valid() by { DownValid(c, i, r); }
        r
    case Serve(i) =>
      if s.down.NotYet? then c
      else
        var d := s.down.client.Recv(s.log, true, c.capacity);
        var r := c.(stages := c.stages[i := s.(down := Subscribed(d))]);
        assert r.Valid() by {
          RecvAccounted(s.down.client, s.log, true, c.capacity);
          RecvGrows(s.down.client, s.log, true, c.capacity);
          DownValid(c, i, r);
        }
        r
  }

  lemma ConnectValid(c: Chain, i: nat, k: nat, r: Chain)
    requires c.Valid() && i < |c.stages| && k <= 5 && k <= |c.Upstream(i)| && !c.stages[i].connected
    requires r == c.(stages := c.stages[i := c.stages[i].(connected := true, skip := k, taken := k)])
    ensures r.Valid()
  {
    forall j | 0 <= j < |r.stages|
      ensures r.StageValid(j)
    {
      assert c.StageValid(j);
      assert r.Upstream(j) == c.Upstream(j);
    }
  }

  lemma RecvGrows(c: Client, log: seq<Chunk>, open: bool, capacity: nat)
    requires c.Accounted(log)
    ensures Concat(c.delivered) <= Concat(c.Recv(log, open, capacity).delivered)
  {
    var r := LogRecv(log, open, capacity, c.cursor).0;
    if r.Got? {
      ConcatOne(c.delivered, r.chunk);
    }
  }

  lemma ReadValid(c: Chain, i: nat, k: nat, r: Chain)
    requires c.Valid() && i < |c.stages| && c.stages[i].taken + k <= |c.Upstream(i)| && c.stages[i].connected
    requires var s := c.stages[i];
             r == c.(stages := c.stages[i :=
               s.(log := s.log + [c.Upstream(i)[s.taken..s.taken + k]], taken := s.taken + k)])
    ensures r.Valid()
  {
    forall j | 0 <= j < |r.stages|
      ensures r.StageValid(j)
    {
      assert c.StageValid(j);
      assert r.Upstream(j) == c.Upstream(j);
      if j == i {
        var s := c.stages[i];
        var chunk := c.Upstream(i)[s.taken..s.taken + k];
        ConcatOne(s.log, chunk);
        assert c.Upstream(i)[s.skip..s.taken] + chunk == c.Upstream(i)[s.skip..s.taken + k];
        if s.down.Subscribed? {
          SendAccounted(s.down.client, s.log, [chunk]);
        }
      }
    }
  }

  lemma DownValid(c: Chain, i: nat, r: Chain)
    requires c.Valid() && i < |c.stages| == |r.stages| && r == c.(stages := r.stages)
    requires r.stages == c.stages[i := c.stages[i].(down := r.stages[i].down)]
    requires c.stages[i].Output() <= r.stages[i].Output()
    requires r.stages[i].down.Subscribed? ==> r.stages[i].down.client.Accounted(r.stages[i].log)
    ensures r.Valid()
  {
    forall j | 0 <= j < |r.stages|
      ensures r.StageValid(j)
    {
      assert c.StageValid(j);
      assert c.Upstream(j) <= r.Upstream(j);
    }
  }

  function Run(c: Chain, steps: seq<Step>): (r: Chain)
    requires c.Valid()
    ensures r.Valid() && r.source == c.source && |r.stages| == |c.stages|
    decreases |steps|
  {
    if steps == [] then c else Run(Next(c, steps[0]), steps[1..])
  }

  function Start(source: seq<byte>, capacity: nat, stages: nat): (c: Chain)
    ensures c.Valid() && c.source == source && |c.stages| == stages
  {
    var c := Chain(source, capacity, seq(stages, _ => Stage(false, 0, [], 0, NotYet)));
    assert forall i :: 0 <= i < |c.stages| ==> c.StageValid(i);
    c
  }

  // ---------- what the last client gets ----------

  lemma StretchSubseq<T>(s: seq<T>, a: nat, b: nat)
    requires a <= b <= |s|
    ensures IsSubseq(s[a..b], s)
  {
    SubseqMiddle(s[..a], s[a..b], s[b..]);
    assert s[..a] + s[a..b] + s[b..] == s;
  }

  lemma {:induction false} OutputSubseq(c: Chain, i: nat)
    requires c.Valid() && i < |c.stages|
    ensures IsSubseq(c.stages[i].Output(), c.source)
  {
    assert c.StageValid(i);
    var s, up := c.stages[i], c.Upstream(i);
    if s.down.Subscribed? {
      var d := s.down.client;
      StretchSubseq(s.log, d.start, d.cursor);
      SubseqTrans(d.delivered, s.log[d.start..d.cursor], s.log);
      ConcatSubseq(d.delivered, s.log);
      StretchSubseq(up, s.skip, s.taken);
      SubseqTrans(s.Output(), up[s.skip..s.taken], up);
      if i > 0 {
        OutputSubseq(c, i - 1);
        SubseqTrans(s.Output(), up, c.source);
      }
    }
  }

  /** For every number of stages, every way of cutting the bytes into reads at each hop and
      every pattern of lag, what any stage sends on is a subsequence of the first upstream's bytes. */
  lemma RelaySubseq(source: seq<byte>, capacity: nat, stages: nat, steps: seq<Step>, i: nat)
    requires i < stages
    ensures IsSubseq(Run(Start(source, capacity, stages), steps).stages[i].Output(), source)
  {
    OutputSubseq(Run(Start(source, capacity, stages), steps), i);
  }

  ghost predicate NoLagUpTo(c: Chain, i: nat)
  {
    forall j :: 0 <= j <= i && j < |c.stages| && c.stages[j].down.Subscribed? ==> c.stages[j].down.client.lagged == 0
  }

  /** s is t without some beginning and some end. */
  ghost predicate IsSlice(s: seq<byte>, t: seq<byte>)
  {
    exists a: nat, b: nat :: a <= b <= |t| && s == t[a..b]
  }

  lemma SliceTrans(r: seq<byte>, s: seq<byte>, t: seq<byte>)
    requires IsSlice(r, s) && IsSlice(s, t)
    ensures IsSlice(r, t)
  {
    var a: nat, b: nat :| a <= b <= |s| && r == s[a..b];
    var x: nat, y: nat :| x <= y <= |t| && s == t[x..y];
    var u := t[x + a..x + b];
    assert |r| == |u|;
    forall k | 0 <= k < |r|
      ensures r[k] == u[k]
    {
      assert r[k] == s[a + k] && s[a + k] == t[x + (a + k)];
    }
    assert r == u;
  }

  lemma StageSlice(log: seq<Chunk>, d: Client)
    requires d.Accounted(log) && d.lagged == 0
    ensures IsSlice(Concat(d.delivered), Concat(log))
  {
    var before, after := log[..d.start], log[d.cursor..];
    var out, all := Concat(d.delivered), Concat(log);
    assert before + d.delivered + after == log;
    ConcatAppend(before + d.delivered, after);
    ConcatAppend(before, d.delivered);
    assert all == Concat(before) + out + Concat(after);
    assert out == all[|Concat(before)|..|Concat(before)| + |out|];
  }

  lemma SliceOfStretch(s: seq<byte>, t: seq<byte>, m: nat, n: nat)
    requires m <= n <= |t| && IsSlice(s, t[m..n])
    ensures IsSlice(s, t)
  {
    SliceTrans(s, t[m..n], t);
  }

  lemma {:induction false} OutputSlice(c: Chain, i: nat)
    requires c.Valid() && i < |c.stages| && NoLagUpTo(c, i)
    ensures IsSlice(c.stages[i].Output(), c.source)
  {
    assert c.StageValid(i);
    var s := c.stages[i];
    if s.down.NotYet? {
      assert [] == c.source[0..0];
    } else {
      StageSlice(s.log, s.down.client);
      SliceOfStretch(s.Output(), c.Upstream(i), s.skip, s.taken);
      if i > 0 {
        OutputSlice(c, i - 1);
        SliceTrans(s.Output(), c.Upstream(i), c.source);
      }
    }
  }

  /** When no hop up to and including stage i ever lagged, it is one unbroken stretch of them. */
  lemma RelayContiguous(source: seq<byte>, capacity: nat, stages: nat, steps: seq<Step>, i: nat)
    requires i < stages && NoLagUpTo(Run(Start(source, capacity, stages), steps), i)
    ensures IsSlice(Run(Start(source, capacity, stages), steps).stages[i].Output(), source)
  {
    OutputSlice(Run(Start(source, capacity, stages), steps), i);
  }

  // ---------- nothing stays behind ----------

  lemma {:induction false} RunAppend(c: Chain, a: seq<Step>, b: seq<Step>)
    requires c.Valid()
    ensures Run(c, a + b) == Run(Run(c, a), b)
    decreases |a|
  {
    if a == [] {
      assert a + b == b;
    } else {
      assert (a + b)[1..] == a[1..] + b;
      RunAppend(Next(c, a[0]), a[1..], b);
    }
  }

  lemma RunOne(c: Chain, step: Step)
    requires c.Valid()
    ensures Run(c, [step]) == Next(c, step)
  {
    assert [step][1..] == [];
  }

  /** r is c with stage i changed, and that only in what it has read, logged and handed on. */
  ghost predicate OnlyStage(c: Chain, r: Chain, i: nat)
  {
    && i < |c.stages| == |r.stages| && r == c.(stages := c.stages[i := r.stages[i]])
    && r.stages[i].connected == c.stages[i].connected && r.stages[i].skip == c.stages[i].skip
    && c.stages[i].down.Subscribed? && r.stages[i].down.Subscribed?
    && r.stages[i].down.client.start == c.stages[i].down.client.start
  }

  ghost predicate Serving(c: Chain, i: nat)
  {
    c.Valid() && c.capacity > 0 && i < |c.stages| && c.stages[i].connected && c.stages[i].down.Subscribed?
  }

  function Pending(c: Chain, i: nat): int
    requires i < |c.stages| && c.stages[i].down.Subscribed?
  {
    |c.stages[i].log| - c.stages[i].down.client.cursor
  }

  /** The stage has read all that its upstream has sent, and its client is at the end of it. */
  ghost predicate Drained(c: Chain, i: nat)
    requires i < |c.stages|
  {
    && c.stages[i].down.Subscribed? && Pending(c, i) == 0
    && c.stages[i].taken == |c.Upstream(i)|
  }

  lemma ServeOnce(c: Chain, i: nat)
    requires Serving(c, i) && Pending(c, i) > 0
    ensures var r := Next(c, Serve(i));
            && OnlyStage(c, r, i) && r.stages[i] == c.stages[i].(down := r.stages[i].down)
            && 0 <= Pending(r, i) < Pending(c, i)
            && (Pending(c, i) <= c.capacity ==> r.stages[i].down.client.lagged == c.stages[i].down.client.lagged)
  {
    assert c.StageValid(i);
  }

  lemma {:induction false} ServesAll(c: Chain, i: nat) returns (steps: seq<Step>, r: Chain)
    requires Serving(c, i)
    ensures r == Run(c, steps) && Serving(r, i) && OnlyStage(c, r, i)
    ensures r.stages[i] == c.stages[i].(down := r.stages[i].down) && Pending(r, i) == 0
    ensures Pending(c, i) <= c.capacity ==> r.stages[i].down.client.lagged == c.stages[i].down.client.lagged
    decreases Pending(c, i)
  {
    assert c.StageValid(i);
    if Pending(c, i) == 0 {
      steps, r := [], c;
    } else {
      ServeOnce(c, i);
      var rest;
      rest, r := ServesAll(Next(c, Serve(i)), i);
      steps := [Serve(i)] + rest;
      assert steps[1..] == rest;
    }
  }

  lemma ReadOnce(c: Chain, i: nat)
    requires Serving(c, i) && c.stages[i].taken < |c.Upstream(i)|
    ensures var r := Next(c, Read(i, READ_BUFFER));
            && OnlyStage(c, r, i) && r.stages[i].down == c.stages[i].down
            && c.stages[i].taken < r.stages[i].taken && Pending(r, i) == Pending(c, i) + 1
  {
    assert c.StageValid(i);
  }

  /** Reading one buffer at a time and serving each at once, the client does not lag. */
  lemma {:induction false} ReadsAndServes(c: Chain, i: nat) returns (steps: seq<Step>, r: Chain)
    requires Serving(c, i) && Pending(c, i) == 0
    ensures r == Run(c, steps) && Serving(r, i) && OnlyStage(c, r, i) && Drained(r, i)
    ensures r.stages[i].down.client.lagged == c.stages[i].down.client.lagged
    decreases |c.Upstream(i)| - c.stages[i].taken
  {
    assert c.StageValid(i);
    if c.stages[i].taken == |c.Upstream(i)| {
      steps, r := [], c;
    } else {
      ReadOnce(c, i);
      var u := Next(c, Read(i, READ_BUFFER));
      ServeOnce(u, i);
      var v := Next(u, Serve(i));
      assert u.Upstream(i) == c.Upstream(i) == v.Upstream(i);
      assert v.StageValid(i);
      var rest;
      rest, r := ReadsAndServes(v, i);
      steps := [Read(i, READ_BUFFER)] + ([Serve(i)] + rest);
      assert steps[1..] == [Serve(i)] + rest && ([Serve(i)] + rest)[1..] == rest;
    }
  }

  /** Whatever the stages have got to, reading and serving alone bring the first k of them to
      the end of what their upstreams have sent. */
  lemma {:induction false} DrainsUpTo(c: Chain, k: nat) returns (steps: seq<Step>, r: Chain)
    requires k <= |c.stages| && c.Valid() && forall i :: 0 <= i < |c.stages| ==> Serving(c, i)
    ensures r == Run(c, steps) && r.source == c.source && |r.stages| == |c.stages|
    ensures forall i :: 0 <= i < |r.stages| ==> Serving(r, i) && SameLink(c, r, i)
    ensures forall i :: 0 <= i < k ==> Drained(r, i)
  {
    if k == 0 {
      steps, r := [], c;
      forall i | 0 <= i < |c.stages|
        ensures SameLink(c, c, i)
      {
        assert Serving(c, i);
      }
    } else {
      var first, u := DrainsUpTo(c, k - 1);
      var second, v := ServesAll(u, k - 1);
      var third;
      third, r := ReadsAndServes(v, k - 1);
      RunAppend(c, first, second + third);
      RunAppend(u, second, third);
      steps := first + (second + third);
      OtherStages(u, v, k - 1);
      OtherStages(v, r, k - 1);
      forall i | 0 <= i < |r.stages|
        ensures SameLink(c, r, i)
      {
        assert SameLink(c, u, i) && SameLink(u, v, i) && SameLink(v, r, i);
      }
    }
  }

  ghost predicate SameLink(c: Chain, r: Chain, i: nat)
  {
    && i < |c.stages| == |r.stages| && r.stages[i].connected == c.stages[i].connected && r.stages[i].skip == c.stages[i].skip
    && c.stages[i].down.Subscribed? && r.stages[i].down.Subscribed?
    && r.stages[i].down.client.start == c.stages[i].down.client.start
  }

  lemma OtherStages(c: Chain, r: Chain, i: nat)
    requires OnlyStage(c, r, i) && r.Valid() && forall j :: 0 <= j < |c.stages| ==> Serving(c, j)
    ensures forall j :: 0 <= j < |r.stages| ==> Serving(r, j) && SameLink(c, r, j)
    ensures forall j :: 0 <= j < i && Drained(c, j) ==> Drained(r, j)
  {
    forall j | 0 <= j < i && Drained(c, j)
      ensures Drained(r, j)
    {
      assert r.Upstream(j) == c.Upstream(j);
    }
    forall j | 0 <= j < |r.stages|
      ensures Serving(r, j) && SameLink(c, r, j)
    {
      assert Serving(c, j);
    }
  }

  lemma Drains(c: Chain) returns (steps: seq<Step>, r: Chain)
    requires c.Valid() && c.capacity > 0
    requires forall i :: 0 <= i < |c.stages| ==> c.stages[i].connected && c.stages[i].down.Subscribed?
    ensures r == Run(c, steps) && |r.stages| == |c.stages|
    ensures forall i :: 0 <= i < |r.stages| ==> Drained(r, i) && SameLink(c, r, i)
  {
    steps, r := DrainsUpTo(c, |c.stages|);
  }

  /** A stage that has come to the end, and whose client was there from the first byte and never
      lagged, has handed on all of its upstream behind the bytes it took while connecting. */
  lemma WholeOutput(c: Chain, i: nat)
    requires c.Valid() && i < |c.stages| && Drained(c, i)
    requires c.stages[i].down.client.start == 0 && c.stages[i].down.client.lagged == 0
    ensures c.stages[i].skip <= |c.Upstream(i)| && c.stages[i].Output() == c.Upstream(i)[c.stages[i].skip..]
  {
    assert c.StageValid(i);
    var s := c.stages[i];
    assert s.log[0..|s.log|] == s.log;
    assert c.Upstream(i)[s.skip..s.taken] == c.Upstream(i)[s.skip..];
  }

  lemma {:induction false} StartKept(c: Chain, steps: seq<Step>, i: nat)
    requires c.Valid() && i < |c.stages| && c.stages[i].down.Subscribed?
    ensures var r := Run(c, steps);
            r.stages[i].down.Subscribed? && r.stages[i].down.client.start == c.stages[i].down.client.start
    decreases |steps|
  {
    if steps != [] {
      StartKept(Next(c, steps[0]), steps[1..], i);
    }
  }

  /** A client that a stage has not had before and admits now is given, if it never lags, what
      the stage logs from now on. */
  lemma AdmittedFromHere(c: Chain, i: nat, steps: seq<Step>)
    requires c.Valid() && i < |c.stages| && c.stages[i].connected && c.stages[i].down.NotYet?
    ensures var r := Run(c, [Admit(i)] + steps);
            && r.stages[i].down.Subscribed?
            && var (log, d) := (r.stages[i].log, r.stages[i].down.client);
               d.lagged == 0 ==>
                 |c.stages[i].log| <= d.cursor <= |log| && d.delivered == log[|c.stages[i].log|..d.cursor]
  {
    var u := Next(c, Admit(i));
    RunOne(c, Admit(i));
    RunAppend(c, [Admit(i)], steps);
    StartKept(u, steps, i);
    assert Run(u, steps).StageValid(i);
  }

  /** However the bytes that wait at a stage are cut into reads of no more than a buffer, it
      can read them so, and broadcasts these reads. */
  lemma {:induction false} ReadsInAnyCut(c: Chain, i: nat, chunks: seq<Chunk>) returns (steps: seq<Step>, r: Chain)
    requires c.Valid() && i < |c.stages| && c.stages[i].connected
    requires forall j :: 0 <= j < |chunks| ==> 0 < |chunks[j]| <= READ_BUFFER
    requires c.stages[i].taken <= |c.Upstream(i)| && Concat(chunks) <= c.Upstream(i)[c.stages[i].taken..]
    ensures r == Run(c, steps) && |r.stages| == |c.stages| && r.stages[i].log == c.stages[i].log + chunks
    decreases |chunks|
  {
    if chunks == [] {
      steps, r := [], c;
      assert c.stages[i].log + [] == c.stages[i].log;
    } else {
      var step := Read(i, |chunks[0]|);
      ReadCut(c, i, chunks[0], Concat(chunks[1..]));
      var rest;
      rest, r := ReadsInAnyCut(Next(c, step), i, chunks[1..]);
      steps := [step] + rest;
      assert steps[1..] == rest;
      assert [chunks[0]] + chunks[1..] == chunks;
      Regroup(c.stages[i].log, [chunks[0]], chunks[1..]);
    }
  }

  lemma ReadCut(c: Chain, i: nat, chunk: seq<byte>, more: seq<byte>)
    requires c.Valid() && i < |c.stages| && c.stages[i].connected && 0 < |chunk| <= READ_BUFFER
    requires c.stages[i].taken <= |c.Upstream(i)| && chunk + more <= c.Upstream(i)[c.stages[i].taken..]
    ensures var u := Next(c, Read(i, |chunk|));
            && u.stages[i] == c.stages[i].(log := c.stages[i].log + [chunk], taken := c.stages[i].taken + |chunk|)
            && u.stages[i].taken <= |u.Upstream(i)| && more <= u.Upstream(i)[u.stages[i].taken..]
  {
    var up, at := c.Upstream(i), c.stages[i].taken;
    assert up[at..][..|chunk|] == chunk && up[at..at + |chunk|] == up[at..][..|chunk|];
    assert up[at + |chunk|..] == up[at..][|chunk|..];
  }

  /** What is left of a source when as many stages have connected to one another, each with so
      many bytes in time for an answer. */
  function Behind(source: seq<byte>, arrivals: seq<nat>): seq<byte>
  {
    if arrivals == [] then source
    else
      var n := |arrivals| - 1;
      var up := Behind(source, arrivals[..n]);
      up[Proxy.Consumed(up, arrivals[n], NoKey)..]
  }

  /** For every source, capacity, number of stages and answers there is a run in which each
      stage hands on all that comes to it. */
  lemma {:induction false} RelaysWhole(source: seq<byte>, capacity: nat, stages: nat, arrivals: seq<nat>)
    returns (steps: seq<Step>, r: Chain)
    requires capacity > 0 && |arrivals| <= stages
    ensures r == Run(Start(source, capacity, stages), steps) && r.capacity == capacity
    ensures forall i :: 0 <= i < |arrivals| ==> r.stages[i].Output() == Behind(source, arrivals[..i + 1])
    ensures forall i :: |arrivals| <= i < stages ==> r.stages[i] == Stage(false, 0, [], 0, NotYet)
    decreases |arrivals|
  {
    if arrivals == [] {
      steps, r := [], Start(source, capacity, stages);
    } else {
      var k := |arrivals| - 1;
      var front := arrivals[..k];
      var first, c := RelaysWhole(source, capacity, stages, front);
      var second;
      second, r := StageRelays(c, k, arrivals[k]);
      RunAppend(Start(source, capacity, stages), first, second);
      steps := first + second;
      assert c.Upstream(k) == Behind(source, front) by {
        assert k > 0 ==> front[..k - 1 + 1] == front;
      }
      assert arrivals[..k + 1] == arrivals;
      forall i | 0 <= i < k
        ensures r.stages[i].Output() == Behind(source, arrivals[..i + 1])
      {
        assert front[..i + 1] == arrivals[..i + 1];
      }
    }
  }

  lemma StageRelays(c: Chain, i: nat, n: nat) returns (steps: seq<Step>, r: Chain)
    requires c.Valid() && c.capacity > 0 && i < |c.stages| && c.stages[i] == Stage(false, 0, [], 0, NotYet)
    ensures r == Run(c, steps) && |r.stages| == |c.stages| && r == c.(stages := c.stages[i := r.stages[i]])
    ensures r.stages[i].Output() == c.Upstream(i)[Proxy.Consumed(c.Upstream(i), n, NoKey)..]
  {
    var v := Enters(c, i, n);
    var rest;
    rest, r := ReadsAndServes(v, i);
    assert r.Upstream(i) == c.Upstream(i);
    WholeOutput(r, i);
    var enter := [Connect(i, n)] + [Admit(i)];
    RunAppend(c, enter, rest);
    steps := enter + rest;
  }

  lemma Enters(c: Chain, i: nat, n: nat) returns (v: Chain)
    requires c.Valid() && c.capacity > 0 && i < |c.stages| && c.stages[i] == Stage(false, 0, [], 0, NotYet)
    ensures v == Run(c, [Connect(i, n)] + [Admit(i)]) && v == c.(stages := c.stages[i := v.stages[i]])
    ensures Serving(v, i) && Pending(v, i) == 0 && v.Upstream(i) == c.Upstream(i)
    ensures v.stages[i].skip == Proxy.Consumed(c.Upstream(i), n, NoKey)
    ensures v.stages[i].down.client.start == 0 && v.stages[i].down.client.lagged == 0
  {
    var u := Next(c, Connect(i, n));
    v := Next(u, Admit(i));
    assert v.Upstream(i) == u.Upstream(i) == c.Upstream(i);
    RunOne(u, Admit(i));
    RunOne(c, Connect(i, n));
    RunAppend(c, [Connect(i, n)], [Admit(i)]);
  }
}
