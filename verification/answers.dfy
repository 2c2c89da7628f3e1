/** A proxy behind a proxy: its probe is a frame like any other to the first, and the server's
    acknowledgement comes back among the samples, to be broadcast with them (src/main.rs). */
module Answers {
  import opened Bytes
  import opened Control
  import opened Encryption
  import FanOut
  import Proxy
  import CommandLink
  import ControlThreads

  /** mixed is a and b, each in its own order: what two threads write to one connection. */
  ghost predicate Shuffles(mixed: seq<byte>, a: seq<byte>, b: seq<byte>)
    decreases |mixed|
  {
    if mixed == [] then a == [] && b == []
    else
      || (a != [] && a[0] == mixed[0] && Shuffles(mixed[1..], a[1..], b))
      || (b != [] && b[0] == mixed[0] && Shuffles(mixed[1..], a, b[1..]))
  }

  lemma {:induction false} ShuffleLength(mixed: seq<byte>, a: seq<byte>, b: seq<byte>)
    requires Shuffles(mixed, a, b)
    ensures |mixed| == |a| + |b|
    decreases |mixed|
  {
    if mixed != [] {
      if a != [] && a[0] == mixed[0] && Shuffles(mixed[1..], a[1..], b) {
        ShuffleLength(mixed[1..], a[1..], b);
      } else {
        ShuffleLength(mixed[1..], a, b[1..]);
      }
    }
  }

  lemma {:induction false} ShuffleAlone(b: seq<byte>)
    ensures Shuffles(b, [], b)
  {
    if b != [] {
      ShuffleAlone(b[1..]);
    }
  }

  /** The last samples of the mixed stream are those of iq from position q on, from the first
      that begins there. */
  ghost predicate EndsAlike(mixed: seq<byte>, iq: seq<byte>, q: nat)
  {
    var (all, sent, k) := (FanOut.Samples(mixed), FanOut.Samples(iq), (q + 1) / 2);
    k <= |sent| ==> |sent| - k <= |all| && all[|all| - (|sent| - k)..] == sent[k..]
  }

  /** However replies are mixed into a stream of samples, behind the last of them the samples
      are those that were sent. */
  ghost predicate Harmless(replies: seq<byte>)
  {
    forall before: seq<byte>, iq: seq<byte>, q: nat ::
      q <= |iq| && Shuffles(before, iq[..q], replies) ==> EndsAlike(before + iq[q..], iq, q)
  }

  lemma EvenEndsAlike(before: seq<byte>, iq: seq<byte>, q: nat)
    requires q <= |iq| && |before| >= q && (|before| - q) % 2 == 0
    ensures EndsAlike(before + iq[q..], iq, q)
  {
    var k := (q + 1) / 2;
    FanOut.SampleCount(iq);
    if k <= |FanOut.Samples(iq)| {
      var front := before + iq[q..2 * k];
      assert before + iq[q..] == front + iq[2 * k..];
      FanOut.SamplesAppend(front, iq[2 * k..]);
      Proxy.EvenCutKeepsSamples(iq, 2 * k);
      LastPart(FanOut.Samples(front), FanOut.Samples(iq)[k..]);
    }
  }

  lemma LastPart<T>(a: seq<T>, b: seq<T>)
    ensures (a + b)[|a + b| - |b|..] == b
  {
  }

  lemma OddEndsOtherwise(before: seq<byte>)
    requires |before| % 2 == 1
    ensures !EndsAlike(before + [0, 1], [0, 1], 0)
  {
    var front, last := before[..|before| - 1], before[|before| - 1];
    assert before + [0, 1] == front + [last, 0, 1];
    FanOut.SamplesAppend(front, [last, 0, 1]);
    assert FanOut.Samples([last, 0, 1]) == [(last, 0)] + FanOut.Samples([last, 0, 1][2..]) == [(last, 0)];
    assert FanOut.Samples([0, 1]) == [(0, 1)] + FanOut.Samples([0, 1][2..]) == [(0, 1)];
    LastPart(FanOut.Samples(front), [(last, 0)]);
    LastPart([], [(0, 1)]);
  }

  /** That is so exactly when they are an even number of bytes. */
  lemma HarmlessIffEven(replies: seq<byte>)
    ensures Harmless(replies) <==> |replies| % 2 == 0
  {
    if |replies| % 2 == 0 {
      forall before: seq<byte>, iq: seq<byte>, q: nat | q <= |iq| && Shuffles(before, iq[..q], replies)
        ensures EndsAlike(before + iq[q..], iq, q)
      {
        ShuffleLength(before, iq[..q], replies);
        EvenEndsAlike(before, iq, q);
      }
    } else {
      var iq: seq<byte> := [0, 1];
      ShuffleAlone(replies);
      assert iq[..0] == [] && iq[0..] == iq;
      OddEndsOtherwise(replies);
    }
  }

  lemma {:induction false} AcksParity(n: nat)
    ensures |ControlThreads.Acks(n)| % 2 == n % 2
  {
    if n > 0 {
      AcksParity(n - 1);
    }
  }

  lemma AcksHarmlessIff(n: nat)
    ensures Harmless(ControlThreads.Acks(n)) <==> n % 2 == 0
  {
    HarmlessIffEven(ControlThreads.Acks(n));
    AcksParity(n);
  }

  /** What a server without a key sends back, over a whole session, leaves the samples behind it
      in place exactly when it has acknowledged an even number of probes. */
  lemma AnswersHarmlessIff(bytes: seq<byte>, limiter: Limiter, polls: seq<ControlThreads.Poll>)
    requires ControlThreads.AcksWork(polls)
    ensures var t := ControlThreads.Serve(NoKey, bytes, ControlThreads.Clear, limiter, polls);
            Harmless(t.replies) <==> ControlThreads.ProbesIn(t.frames) % 2 == 0
  {
    ControlThreads.ClearSession(bytes, limiter, polls);
    AcksHarmlessIff(ControlThreads.ProbesIn(ControlThreads.Serve(NoKey, bytes, ControlThreads.Clear, limiter, polls).frames));
  }

  /** What a first proxy makes of a second one's probe, and what the server does. */
  function Passes(first: Limiter, sentAt: nat): CommandLink.Session
  {
    CommandLink.SessionOf(first, [CommandLink.Takes(PROBE, sentAt, false, Written)])
  }

  function Answer(bytes: seq<byte>, server: Limiter, readAt: nat, reply: ControlThreads.Reply): ControlThreads.Trace
  {
    ControlThreads.Serve(NoKey, bytes, ControlThreads.Clear, server, [ControlThreads.Ready(readAt, false, reply)])
  }

  lemma ProbePasses(first: Limiter, sentAt: nat)
    ensures Concat(Passes(first, sentAt).frames) == if first.Allows(sentAt) then PROBE else []
  {
    var polls := [CommandLink.Takes(PROBE, sentAt, false, Written)];
    var rest := CommandLink.SessionOf(first.After(sentAt), polls[1..]);
    assert rest == CommandLink.Session([], [], CommandLink.Intact);
    assert CommandLink.SessionOf(first, polls).frames == if first.Allows(sentAt) then [PROBE] + [] else [];
    assert [PROBE] + [] == [PROBE] && [PROBE][1..] == [];
    assert Concat([PROBE]) == PROBE + Concat([PROBE][1..]);
  }

  lemma ProbeAnswered(bytes: seq<byte>, server: Limiter, readAt: nat, reply: ControlThreads.Reply)
    requires bytes in [PROBE, []] && reply.ack.Written?
    ensures Answer(bytes, server, readAt, reply).replies == if bytes == PROBE && server.Allows(readAt) then ACK else []
  {
    var polls := [ControlThreads.Ready(readAt, false, reply)];
    var p := ControlThreads.PassOver(NoKey, bytes, ControlThreads.Clear, server, polls[0]);
    if bytes == PROBE {
      assert PROBE[..5] == PROBE;
      assert p.did.replies == if server.Allows(readAt) then ACK else [];
      var rest := ControlThreads.Serve(NoKey, p.left, p.reading, p.limiter, polls[1..]);
      assert rest == ControlThreads.NOTHING;
      assert Answer(bytes, server, readAt, reply) == p.did.Plus(rest);
    }
  }

  /** A second proxy connects to a first and sends its probe, which the first takes for a
      command: the samples of all clients of the first stay in place exactly when one of
      the two limiters drops it. */
  lemma SecondProxyShiftsIff(first: Limiter, sentAt: nat, server: Limiter, readAt: nat, reply: ControlThreads.Reply)
    requires reply.ack.Written?
    ensures Harmless(Answer(Concat(Passes(first, sentAt).frames), server, readAt, reply).replies) <==>
            !first.Allows(sentAt) || !server.Allows(readAt)
  {
    ProbePasses(first, sentAt);
    var bytes := Concat(Passes(first, sentAt).frames);
    ProbeAnswered(bytes, server, readAt, reply);
    HarmlessIffEven(Answer(bytes, server, readAt, reply).replies);
  }
}
