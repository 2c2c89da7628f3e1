/** Command rate limiting and the shared AGC flag (src/control.rs). */
module Control {
  import opened Bytes

  const CMD_SET_FREQUENCY: byte := 0x01
  const CMD_SET_SAMPLE_RATE: byte := 0x02
  const CMD_SET_GAIN_MODE: byte := 0x03
  const CMD_SET_TUNER_GAIN: byte := 0x04
  const CMD_SET_PPM: byte := 0x05
  const CMD_SET_AGC: byte := 0x08
  const CMD_CHAIN_DETECT: byte := 0xF0

  const FREQ_MAX: nat := 2_200_000_000
  const SAMPLE_RATE_MAX: nat := 3_200_000
  const PPM_MIN: int := -200
  const PPM_MAX: int := 200
  const TUNER_GAIN_MIN: int := 0
  const TUNER_GAIN_MAX: int := 500

  /** 50 ms, in nanoseconds. */
  const COMMAND_RATE_LIMIT_INTERVAL: nat := 50_000_000

  type Frame = f: seq<byte> | |f| == 5 witness [0, 0, 0, 0, 0]

  /** The chain probe and its acknowledgement. */
  const PROBE: Frame := [CMD_CHAIN_DETECT, 0x50, 0x52, 0x4F, 0x58]
  const ACK: Frame := [CMD_CHAIN_DETECT, 0x00, 0x00, 0x00, 0x00]

  // ---------- the rate limiter ----------

  /** Instants are nanoseconds since the earliest instant the clock can represent. */
  datatype Limiter = Limiter(last: nat, interval: nat) {
    function Elapsed(now: nat): nat { if last <= now then now - last else 0 }

    predicate Allows(now: nat) { Elapsed(now) >= interval }

    function After(now: nat): Limiter { if Allows(now) then this.(last := now) else this }
  }

  /** now and later are the two readings a new limiter takes of the clock. */
  function Fresh(now: nat, later: nat, interval: nat): Limiter
  {
    Limiter(if now >= interval then now - interval else later, interval)
  }

  class RateLimiter {
    var lastCommand: nat
    const minInterval: nat

    function State(): Limiter reads this { Limiter(lastCommand, minInterval) }

    constructor (now: nat, later: nat, interval: nat)
      ensures State() == Fresh(now, later, interval)
    {
      minInterval := interval;
      lastCommand := if now >= interval then now - interval else later;
    }

    method Check(now: nat) returns (ok: bool)
      modifies this
      ensures ok == old(State()).Allows(now)
      ensures State() == old(State()).After(now)
    {
      var elapsed := if now >= lastCommand then now - lastCommand else 0;
      if elapsed >= minInterval {
        lastCommand := now;
        ok := true;
      } else {
        ok := false;
      }
    }
  }

  /** The clock readings, out of a history of them, at which a command is let through. */
  function Accepted(l: Limiter, times: seq<nat>): seq<nat>
    decreases |times|
  {
    if times == [] then []
    else (if l.Allows(times[0]) then [times[0]] else []) + Accepted(l.After(times[0]), times[1..])
  }

  ghost predicate Sorted(times: seq<nat>)
  {
    forall i, j :: 0 <= i < j < |times| ==> times[i] <= times[j]
  }

  /** Each time is at least one interval after the one before it. */
  ghost predicate Spaced(times: seq<nat>, interval: nat)
  {
    forall i :: 0 < i < |times| ==> times[i - 1] + interval <= times[i]
  }

  /** A new limiter passes its first command exactly when the clock could be wound
      back by one interval, or an interval has gone by since. */
  lemma FirstCommand(now: nat, later: nat, interval: nat, t: nat)
    requires now <= later <= t
    ensures Fresh(now, later, interval).Allows(t) <==> now >= interval || t - later >= interval
  {
  }

  lemma {:induction false} SpacedSpan(times: seq<nat>, interval: nat, i: nat, j: nat)
    requires Spaced(times, interval) && i <= j < |times|
    ensures times[i] + (j - i) * interval <= times[j]
    decreases j
  {
    if i < j {
      SpacedSpan(times, interval, i, j - 1);
      assert (j - i) * interval == (j - 1 - i) * interval + interval;
    }
  }

  lemma SpacedIsSorted(times: seq<nat>, interval: nat)
    requires Spaced(times, interval)
    ensures Sorted(times)
  {
    forall i: nat, j: nat | i < j < |times|
      ensures times[i] <= times[j]
    {
      SpacedSpan(times, interval, i, j);
      MulMonotone(0, j - i, interval);
    }
  }

  lemma {:induction false} AcceptedFacts(l: Limiter, times: seq<nat>)
    requires Sorted(times)
    ensures IsSubseq(Accepted(l, times), times)
    ensures Spaced(Accepted(l, times), l.interval)
    ensures Accepted(l, times) != [] ==> l.last + l.interval <= Accepted(l, times)[0] || l.interval == 0
    ensures Accepted(l, times) != [] ==> times[0] <= Accepted(l, times)[0]
    decreases |times|
  {
    if times != [] {
      var next := l.After(times[0]);
      AcceptedFacts(next, times[1..]);
      if l.Allows(times[0]) {
        var rest := Accepted(next, times[1..]);
        assert Accepted(l, times) == [times[0]] + rest;
        assert ([times[0]] + rest)[1..] == rest;
      } else {
        assert Accepted(l, times) == [] + Accepted(next, times[1..]) == Accepted(next, times[1..]);
      }
    }
  }

  /** In any window of length w the limiter lets through at most floor(w / interval) + 1. */
  lemma WindowBound(l: Limiter, times: seq<nat>, w: nat, i: nat, j: nat)
    requires Sorted(times) && l.interval > 0
    requires i <= j < |Accepted(l, times)|
    requires Accepted(l, times)[j] - Accepted(l, times)[i] <= w
    ensures j - i + 1 <= w / l.interval + 1
  {
    AcceptedFacts(l, times);
    SpacedInWindow(Accepted(l, times), l.interval, w, i, j);
  }

  lemma SpacedInWindow(times: seq<nat>, interval: nat, w: nat, i: nat, j: nat)
    requires Spaced(times, interval) && interval > 0 && i <= j < |times| && times[j] - times[i] <= w
    ensures j - i <= w / interval
  {
    SpacedSpan(times, interval, i, j);
    QuotientAtLeast(j - i, interval, w);
  }

  lemma QuotientAtLeast(k: nat, n: nat, w: nat)
    requires n > 0 && k * n <= w
    ensures k <= w / n
  {
    var q := w / n;
    assert w == n * q + w % n;
    assert w < (q + 1) * n;
    if q + 1 <= k {
      MulMonotone(q + 1, k, n);
    }
  }

  lemma MulMonotone(a: nat, b: nat, n: nat)
    requires a <= b
    ensures a * n <= b * n
  {
  }

  /** No choice of arrivals that keeps to the interval is larger than the limiter's. */
  lemma {:induction false} GreedyOptimal(l: Limiter, times: seq<nat>, chosen: seq<nat>)
    requires Sorted(times)
    requires IsSubseq(chosen, times) && Spaced(chosen, l.interval)
    requires chosen != [] ==> l.last + l.interval <= chosen[0]
    ensures |chosen| <= |Accepted(l, times)|
    decreases |times|
  {
    if chosen != [] {
      var t, rest := times[0], times[1..];
      if l.Allows(t) {
        var tail := chosen[1..];
        if !(chosen[0] == t && IsSubseq(tail, rest)) {
          SubseqTail(chosen, rest);
        }
        SubseqElement(chosen, times);
        GreedyOptimal(l.After(t), rest, tail);
      } else {
        GreedyOptimal(l, rest, chosen);
      }
    }
  }

  /** The first element of a subsequence of sorted times is no earlier than the first time. */
  lemma {:induction false} SubseqElement(s: seq<nat>, t: seq<nat>)
    requires s != [] && IsSubseq(s, t) && Sorted(t)
    ensures t[0] <= s[0]
    decreases |t|
  {
    if !(s[0] == t[0] && IsSubseq(s[1..], t[1..])) {
      SubseqElement(s, t[1..]);
    }
  }

  lemma {:induction false} SpacedAllAccepted(l: Limiter, times: seq<nat>)
    requires Spaced(times, l.interval)
    requires times != [] ==> l.last + l.interval <= times[0]
    ensures Accepted(l, times) == times
    decreases |times|
  {
    if times != [] {
      var rest := times[1..];
      assert Spaced(rest, l.interval) by {
        forall i | 0 < i < |rest|
          ensures rest[i - 1] + l.interval <= rest[i]
        {
          assert times[i] + l.interval <= times[i + 1];
        }
      }
      SpacedAllAccepted(l.After(times[0]), rest);
      assert times == [times[0]] + rest;
    }
  }

  /** A limiter drops nothing from sorted times exactly when they keep to its interval. */
  lemma DropsNothingIff(l: Limiter, times: seq<nat>)
    requires Sorted(times) && l.interval > 0
    ensures Accepted(l, times) == times <==>
            Spaced(times, l.interval) && (times != [] ==> l.last + l.interval <= times[0])
  {
    if Spaced(times, l.interval) && (times != [] ==> l.last + l.interval <= times[0]) {
      SpacedAllAccepted(l, times);
    } else {
      AcceptedFacts(l, times);
    }
  }

  /** Commands that passed one limiter pass a second, newer one of at least the same pace. */
  lemma SecondLimiterDropsNothing(l: Limiter, times: seq<nat>, second: Limiter)
    requires Sorted(times) && 0 < second.interval <= l.interval
    requires Accepted(l, times) != [] ==> second.last + second.interval <= Accepted(l, times)[0]
    ensures Accepted(second, Accepted(l, times)) == Accepted(l, times)
  {
    AcceptedFacts(l, times);
    var a := Accepted(l, times);
    SpacedIsSorted(a, l.interval);
    DropsNothingIff(second, a);
  }

  /** The same is false when the commands reach the second limiter after different delays:
      two commands 50 ms apart that arrive 49 ms apart lose the second one. */
  lemma JitterDropsCommands()
    ensures var ms := 1_000_000;
            var first := Accepted(Limiter(0, 50 * ms), [50 * ms, 100 * ms]);
            && first == [50 * ms, 100 * ms]
            && Accepted(Limiter(0, 50 * ms), [first[0] + 2 * ms, first[1] + ms]) == [52 * ms]
  {
    var ms := 1_000_000;
    var l := Limiter(0, 50 * ms);
    assert [50 * ms, 100 * ms][1..] == [100 * ms] && [100 * ms][1..] == [];
    assert [52 * ms, 101 * ms][1..] == [101 * ms] && [101 * ms][1..] == [];
    assert Accepted(l.After(50 * ms), [100 * ms]) == [100 * ms] + Accepted(Limiter(100 * ms, 50 * ms), []);
    assert Accepted(l.After(52 * ms), [101 * ms]) == [] + Accepted(l.After(52 * ms), []);
  }

  // ---------- frames through the limiter ----------

  type Arrival = (Frame, nat)

  /** The frames, out of those that reach a limiter, that it lets through. */
  function Passed(l: Limiter, arrivals: seq<Arrival>): seq<Arrival>
    decreases |arrivals|
  {
    if arrivals == [] then []
    else
      (if l.Allows(arrivals[0].1) then [arrivals[0]] else []) + Passed(l.After(arrivals[0].1), arrivals[1..])
  }

  function FramesOf(arrivals: seq<Arrival>): (frames: seq<Frame>)
    ensures |frames| == |arrivals|
  {
    if arrivals == [] then [] else [arrivals[0].0] + FramesOf(arrivals[1..])
  }

  function TimesOf(arrivals: seq<Arrival>): (times: seq<nat>)
    ensures |times| == |arrivals|
  {
    if arrivals == [] then [] else [arrivals[0].1] + TimesOf(arrivals[1..])
  }

  lemma {:induction false} TimeAt(arrivals: seq<Arrival>, i: nat)
    requires i < |arrivals|
    ensures TimesOf(arrivals)[i] == arrivals[i].1
  {
    if i > 0 {
      TimeAt(arrivals[1..], i - 1);
    }
  }

  lemma {:induction false} PassedAreAccepted(l: Limiter, arrivals: seq<Arrival>)
    ensures TimesOf(Passed(l, arrivals)) == Accepted(l, TimesOf(arrivals))
    ensures IsSubseq(Passed(l, arrivals), arrivals)
    ensures IsSubseq(FramesOf(Passed(l, arrivals)), FramesOf(arrivals))
    decreases |arrivals|
  {
    if arrivals != [] {
      var first, rest := arrivals[0], arrivals[1..];
      PassedAreAccepted(l.After(first.1), rest);
      assert TimesOf(arrivals)[1..] == TimesOf(rest);
      assert FramesOf(arrivals)[1..] == FramesOf(rest);
      var passed := Passed(l.After(first.1), rest);
      if l.Allows(first.1) {
        assert ([first] + passed)[1..] == passed;
        assert FramesOf([first] + passed)[1..] == FramesOf(passed);
      } else {
        assert [] + passed == passed && [] + TimesOf(passed) == TimesOf(passed);
      }
    }
  }

  /** The frames let through within any window of length w number floor(w / interval) + 1
      at the most. */
  lemma PassedInWindow(l: Limiter, arrivals: seq<Arrival>, w: nat, i: nat, j: nat)
    requires Sorted(TimesOf(arrivals)) && l.interval > 0
    requires i <= j < |Passed(l, arrivals)|
    requires Passed(l, arrivals)[j].1 - Passed(l, arrivals)[i].1 <= w
    ensures j - i + 1 <= w / l.interval + 1
  {
    PassedAreAccepted(l, arrivals);
    TimeAt(Passed(l, arrivals), i);
    TimeAt(Passed(l, arrivals), j);
    WindowBound(l, TimesOf(arrivals), w, i, j);
  }

  lemma AllPass(l: Limiter, arrivals: seq<Arrival>)
    requires Accepted(l, TimesOf(arrivals)) == TimesOf(arrivals)
    ensures Passed(l, arrivals) == arrivals
  {
    PassedAreAccepted(l, arrivals);
    SubseqFull(Passed(l, arrivals), arrivals);
  }

  /** None of the frames is dropped exactly when their times keep to the interval. */
  lemma AllPassIff(l: Limiter, arrivals: seq<Arrival>)
    requires Sorted(TimesOf(arrivals)) && l.interval > 0
    ensures FramesOf(Passed(l, arrivals)) == FramesOf(arrivals) <==>
            Spaced(TimesOf(arrivals), l.interval) && (arrivals != [] ==> l.last + l.interval <= arrivals[0].1)
  {
    var p := Passed(l, arrivals);
    PassedAreAccepted(l, arrivals);
    DropsNothingIff(l, TimesOf(arrivals));
    if |p| == |arrivals| {
      SubseqFull(p, arrivals);
    }
    if Accepted(l, TimesOf(arrivals)) == TimesOf(arrivals) {
      AllPass(l, arrivals);
    }
  }

  /** A second limiter that sees the frames a first one passed, at the same times, passes
      them all, if it is as new and of no slower pace. */
  lemma SecondPassesAll(l: Limiter, arrivals: seq<Arrival>, second: Limiter)
    requires Sorted(TimesOf(arrivals)) && 0 < second.interval <= l.interval
    requires Passed(l, arrivals) != [] ==> second.last + second.interval <= Passed(l, arrivals)[0].1
    ensures Passed(second, Passed(l, arrivals)) == Passed(l, arrivals)
  {
    var p := Passed(l, arrivals);
    PassedAreAccepted(l, arrivals);
    if p != [] {
      TimeAt(p, 0);
    }
    SecondLimiterDropsNothing(l, TimesOf(arrivals), second);
    AllPass(second, p);
  }

  // ---------- the AGC flag ----------

  class AgcState {
    var enabled: bool

    constructor ()
      ensures enabled
    {
      enabled := true;
    }

    /** True when the flag changed. */
    method Enable() returns (changed: bool)
      modifies this
      ensures enabled && changed == !old(enabled)
    {
      changed := !enabled;
      enabled := true;
    }

    method Disable() returns (changed: bool)
      modifies this
      ensures !enabled && changed == old(enabled)
    {
      changed := enabled;
      enabled := false;
    }
  }
}
