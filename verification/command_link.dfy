/** The command direction of an encrypted proxy link after the set-up: local masters come
    and go, the proxy encrypts and forwards their frames, and the server's control thread
    decrypts them (src/main.rs). */
module CommandLink {
  import opened Bytes
  import opened Control
  import opened Encryption
  import ControlThreads

  // ---------- one frame through the proxy ----------

  /** The forwarding thread's state: the cipher position is shared by all masters, and the
      limiter is new with each. */
  datatype Forwarder = Forwarder(pos: nat, limiter: Limiter)

  /** The limiter is asked before the cipher moves. None when the frame is dropped. */
  function Forward(ks: Keystream, f: Forwarder, frame: Frame, now: nat): (Forwarder, seq<byte>)
  {
    if !f.limiter.Allows(now) then (f, [])
    else (Forwarder(f.pos + 5, f.limiter.After(now)), Mask(ks, f.pos, frame))
  }

  // ---------- one master's session ----------

  /** A read from the master that timed out, or five bytes of it read at a clock reading;
      exit is the exit flag then, and write how forwarding them would go. */
  datatype Poll = Quiet | Takes(frame: Frame, now: nat, exit: bool, write: WriteOutcome)

  /** A frame whose write upstream broke off after some of its bytes. */
  datatype Torn = Intact | Torn(frame: Frame, write: WriteOutcome)

  /** The frames that reached the limiter, those forwarded, and the one that ended it all. */
  datatype Session = Session(arrived: seq<Arrival>, frames: seq<Frame>, torn: Torn)

  function SessionOf(l: Limiter, polls: seq<Poll>): Session
    decreases |polls|
  {
    if polls == [] then Session([], [], Intact)
    else match polls[0]
      case Quiet => SessionOf(l, polls[1..])
      case Takes(frame, now, exit, write) =>
        if exit then Session([], [], Intact)
        else if l.Allows(now) && !write.Completes(frame) then Session([(frame, now)], [], Torn(frame, write))
        else
          var rest := SessionOf(l.After(now), polls[1..]);
          Session([(frame, now)] + rest.arrived, if l.Allows(now) then [frame] + rest.frames else rest.frames, rest.torn)
  }

  /** What is forwarded, whole or torn, is exactly what the limiter passes. */
  lemma {:induction false} SessionIsPassed(l: Limiter, polls: seq<Poll>)
    ensures var s := SessionOf(l, polls);
            FramesOf(Passed(l, s.arrived)) == s.frames + if s.torn.Torn? then [s.torn.frame] else []
    decreases |polls|
  {
    if polls != [] {
      match polls[0]
      case Quiet => SessionIsPassed(l, polls[1..]);
      case Takes(frame, now, exit, write) =>
        if !exit && !(l.Allows(now) && !write.Completes(frame)) {
          SessionIsPassed(l.After(now), polls[1..]);
          var rest := SessionOf(l.After(now), polls[1..]);
          assert ([(frame, now)] + rest.arrived)[1..] == rest.arrived;
          FirstFrame((frame, now), Passed(l.After(now), rest.arrived));
          Regroup([frame], rest.frames, if rest.torn.Torn? then [rest.torn.frame] else []);
        } else if !exit {
          assert [(frame, now)][1..] == [];
          FirstFrame((frame, now), []);
        }
    }
  }

  /** The frames that the thread can read before it sees the exit flag, and how forwarding each
      would go. */
  function ReadBeforeExit(polls: seq<Poll>): seq<(Arrival, WriteOutcome)>
  {
    if polls == [] then []
    else match polls[0]
      case Quiet => ReadBeforeExit(polls[1..])
      case Takes(frame, now, exit, write) =>
        if exit then [] else [((frame, now), write)] + ReadBeforeExit(polls[1..])
  }

  function ArrivalsOf(all: seq<(Arrival, WriteOutcome)>): (arrivals: seq<Arrival>)
    ensures |arrivals| == |all|
  {
    if all == [] then [] else [all[0].0] + ArrivalsOf(all[1..])
  }

  /** Timeouts do not end the session: the limiter is asked about every frame there was time to
      read, unless one was torn, and then up to that one. */
  lemma {:induction false} SessionReads(l: Limiter, polls: seq<Poll>)
    ensures var (s, all) := (SessionOf(l, polls), ReadBeforeExit(polls));
            && |s.arrived| <= |all| && s.arrived == ArrivalsOf(all[..|s.arrived|])
            && (s.torn.Intact? ==> |s.arrived| == |all|)
            && (s.torn.Torn? ==>
                  && s.arrived != []
                  && var last := all[|s.arrived| - 1];
                     last == ((s.torn.frame, last.0.1), s.torn.write) && !last.1.Completes(last.0.0))
    decreases |polls|
  {
    if polls != [] {
      match polls[0]
      case Quiet => SessionReads(l, polls[1..]);
      case Takes(frame, now, exit, write) =>
        if !exit {
          var rest := ReadBeforeExit(polls[1..]);
          ArrivalsCons(((frame, now), write), rest, 0);
          if !(l.Allows(now) && !write.Completes(frame)) {
            SessionReads(l.After(now), polls[1..]);
            ArrivalsCons(((frame, now), write), rest, |SessionOf(l.After(now), polls[1..]).arrived|);
          }
        }
    }
  }

  lemma ArrivalsCons(first: (Arrival, WriteOutcome), rest: seq<(Arrival, WriteOutcome)>, k: nat)
    requires k <= |rest|
    ensures ArrivalsOf(([first] + rest)[..k + 1]) == [first.0] + ArrivalsOf(rest[..k])
  {
    assert ([first] + rest)[..k + 1] == [first] + rest[..k];
    assert ([first] + rest[..k])[1..] == rest[..k];
  }

  lemma FirstFrame(a: Arrival, rest: seq<Arrival>)
    ensures FramesOf([a] + rest) == [a.0] + FramesOf(rest) && [] + rest == rest
  {
    assert ([a] + rest)[1..] == rest;
  }

  class Link {
    var sent: seq<byte>

    constructor ()
      ensures sent == []
    {
      sent := [];
    }

    method WriteAll(buf: array<byte>, write: WriteOutcome) returns (ok: bool)
      modifies this
      ensures sent == old(sent) + write.Taken(buf[..])
      ensures ok == write.Completes(buf[..])
    {
      ok := write.Completes(buf[..]);
      sent := sent + write.Taken(buf[..]);
    }
  }

  function KeystreamOf(cipher: Cipher?): Keystream
  {
    if cipher == null then Plain() else cipher.ks
  }

  function PosOf(cipher: Cipher?): nat
    reads cipher
  {
    if cipher == null then 0 else cipher.pos
  }

  datatype Verdict = Dropped | Sent | WriteFailed

  /** One pass of a master's thread: the frame in the buffer is checked against the limiter,
      encrypted in place when there is a cipher, and written upstream. */
  method ForwardFrame(link: Link, cipher: Cipher?, limiter: RateLimiter, buf: array<byte>, now: nat, write: WriteOutcome,
                      ghost at: nat)
    returns (verdict: Verdict)
    requires buf.Length == 5 && (cipher != null ==> at == cipher.pos)
    modifies link, cipher, limiter, buf
    ensures limiter.State() == old(limiter.State()).After(now)
    ensures verdict.Dropped? ==> link.sent == old(link.sent) && PosOf(cipher) == old(PosOf(cipher))
    ensures verdict.Sent? ==> link.sent == old(link.sent) + Mask(KeystreamOf(cipher), at, old(buf[..]))
    ensures verdict.WriteFailed? ==> link.sent == old(link.sent) + write.Taken(Mask(KeystreamOf(cipher), at, old(buf[..])))
    ensures !verdict.Dropped? && cipher != null ==> cipher.pos == at + 5
    ensures var (f, bytes) := Forward(KeystreamOf(cipher), Forwarder(at, old(limiter.State())), old(buf[..]), now);
            && link.sent == old(link.sent) + write.Taken(bytes) && f.limiter == limiter.State()
            && (cipher != null ==> f.pos == cipher.pos)
    ensures verdict == if !old(limiter.State()).Allows(now) then Dropped
                       else if write.Completes(old(buf[..])) then Sent else WriteFailed
  {
    var ok := limiter.Check(now);
    if !ok {
      assert link.sent + [] == link.sent;
      return Dropped;
    }
    if cipher != null {
      cipher.ApplyKeystream(buf, 5);
      assert buf[..] == Mask(cipher.ks, old(cipher.pos), old(buf[..]));
    } else {
      MaskZero(Plain(), at, buf[..]);
    }
    ok := link.WriteAll(buf, write);
    verdict := if ok then Sent else WriteFailed;
  }

  /** The link carries base and then plain, encrypted from position start on. */
  ghost predicate Carried(link: Link, cipher: Cipher?, base: seq<byte>, start: nat, plain: seq<byte>)
    reads link, cipher
  {
    && link.sent == base + Mask(KeystreamOf(cipher), start, plain)
    && (cipher != null ==> cipher.pos == start + |plain|)
  }

  /** And then, if a write broke off, part of one frame more, which the cipher has passed. */
  ghost predicate CarriedAndTorn(link: Link, cipher: Cipher?, base: seq<byte>, start: nat, plain: seq<byte>, torn: Torn)
    reads link, cipher
  {
    if torn.Intact? then Carried(link, cipher, base, start, plain)
    else
      var ks, at := KeystreamOf(cipher), start + |plain|;
      && link.sent == base + Mask(ks, start, plain) + torn.write.Taken(Mask(ks, at, torn.frame))
      && (cipher != null ==> cipher.pos == at + 5)
  }

  lemma MaskOneMore(ks: Keystream, base: seq<byte>, start: nat, plain: seq<byte>, frame: seq<byte>)
    ensures base + Mask(ks, start, plain + frame) == base + Mask(ks, start, plain) + Mask(ks, start + |plain|, frame)
  {
    MaskAppend(ks, start, plain, frame);
    Regroup(base, Mask(ks, start, plain), Mask(ks, start + |plain|, frame));
  }

  /** One pass of the loop below: read a frame into the buffer and forward it. */
  method PassOn(link: Link, cipher: Cipher?, limiter: RateLimiter, buf: array<byte>,
                frame: Frame, now: nat, write: WriteOutcome,
                ghost base: seq<byte>, ghost start: nat, ghost plain: seq<byte>)
    returns (verdict: Verdict)
    requires buf.Length == 5 && Carried(link, cipher, base, start, plain)
    modifies link, cipher, limiter, buf
    ensures limiter.State() == old(limiter.State()).After(now)
    ensures verdict == if !old(limiter.State()).Allows(now) then Dropped
                       else if write.Completes(frame) then Sent else WriteFailed
    ensures verdict.Dropped? ==> Carried(link, cipher, base, start, plain)
    ensures verdict.Sent? ==> Carried(link, cipher, base, start, plain + frame)
    ensures verdict.WriteFailed? ==> CarriedAndTorn(link, cipher, base, start, plain, Torn(frame, write))
  {
    forall k | 0 <= k < 5 {
      buf[k] := frame[k];
    }
    assert buf[..] == frame;
    verdict := ForwardFrame(link, cipher, limiter, buf, now, write, start + |plain|);
    if verdict.Sent? {
      MaskOneMore(KeystreamOf(cipher), base, start, plain, frame);
    }
  }

  lemma SessionStep(l: Limiter, polls: seq<Poll>, i: nat, arrived: seq<Arrival>, frames: seq<Frame>)
    requires i < |polls|
    ensures var before, poll := Onto(arrived, frames, SessionOf(l, polls[i..])), polls[i];
            if poll.Quiet? then before == Onto(arrived, frames, SessionOf(l, polls[i + 1..]))
            else if poll.exit then before == Session(arrived, frames, Intact)
            else if l.Allows(poll.now) && !poll.write.Completes(poll.frame) then
              before == Session(arrived + [(poll.frame, poll.now)], frames, Torn(poll.frame, poll.write))
            else
              before == Onto(arrived + [(poll.frame, poll.now)], if l.Allows(poll.now) then frames + [poll.frame] else frames,
                             SessionOf(l.After(poll.now), polls[i + 1..]))
  {
    assert polls[i..][1..] == polls[i + 1..];
    assert arrived + [] == arrived && frames + [] == frames;
    match polls[i]
    case Quiet =>
    case Takes(frame, now, _, _) =>
      var rest := SessionOf(l.After(now), polls[i + 1..]);
      Regroup(arrived, [(frame, now)], rest.arrived);
      Regroup(frames, [frame], rest.frames);
  }

  function Onto(arrived: seq<Arrival>, frames: seq<Frame>, s: Session): Session
  {
    Session(arrived + s.arrived, frames + s.frames, s.torn)
  }

  /** One master's thread. The cipher, if there is one, is the same for all masters, and
      the limiter is new with each. */
  method ForwardMaster(link: Link, cipher: Cipher?, now: nat, later: nat, polls: seq<Poll>)
    modifies link, cipher
    ensures var s := SessionOf(Fresh(now, later, COMMAND_RATE_LIMIT_INTERVAL), polls);
            CarriedAndTorn(link, cipher, old(link.sent), old(PosOf(cipher)), Concat(s.frames), s.torn)
  {
    var limiter := new RateLimiter(now, later, COMMAND_RATE_LIMIT_INTERVAL);
    var buf := new byte[5];
    ghost var base, start := link.sent, PosOf(cipher);
    ghost var whole := SessionOf(limiter.State(), polls);
    ghost var arrived: seq<Arrival>, frames: seq<Frame> := [], [];
    assert polls[0..] == polls && Onto([], [], whole) == whole;
    assert base + [] == base;
    for i := 0 to |polls|
      invariant whole == Onto(arrived, frames, SessionOf(limiter.State(), polls[i..]))
      invariant Carried(link, cipher, base, start, Concat(frames))
    {
      SessionStep(limiter.State(), polls, i, arrived, frames);
      match polls[i]
      case Quiet =>
      case Takes(frame, at, exit, write) =>
        if exit {
          return;
        }
        var verdict := PassOn(link, cipher, limiter, buf, frame, at, write, base, start, Concat(frames));
        if verdict.WriteFailed? {
          return;
        }
        ConcatOne(frames, frame);
        arrived := arrived + [(frame, at)];
        frames := if verdict.Sent? then frames + [frame] else frames;
    }
    assert frames + [] == frames;
  }

  // ---------- the link as a step system ----------

  /** wire is all that was ever written to the link and taken how much of it the server has
      read. proxyKs and serverKs are the two ends' keystreams. */
  datatype State = State(
    family: Family, key: Key, proxyKs: Keystream, serverKs: Keystream,
    pos: nat, master: seq<Limiter>, wire: seq<byte>,
    taken: nat, serverPos: nat, serverLimiter: Limiter, rekeying: bool,
    offered: seq<Frame>, forwarded: seq<Frame>, decrypted: seq<Frame>, dispatched: seq<Frame>)

  function InFlight(s: State): nat
  {
    if s.taken <= |s.wire| then |s.wire| - s.taken else 0
  }

  /** Arrives is a frame from the master. Breaks is one whose write upstream fails after
      n < 5 bytes, which ends that master's thread. ReadTimesOut is a read by the server
      that gives up after n bytes. Rekeys is the nonce exchange that a dispatched 0xF0 frame
      leads to; RekeyFails is one that gives up after n of the nonce's bytes, or after all
      12 because the answer cannot be written. */
  datatype Step =
    | Connects(now: nat, later: nat) | Leaves | Arrives(frame: Frame, now: nat) | Breaks(frame: Frame, now: nat, n: nat)
    | Reads(now: nat) | ReadTimesOut(n: nat) | Rekeys | RekeyFails(n: nat)

  predicate Enabled(s: State, step: Step)
  {
    match step
    case Connects(_, _) => s.master == []
    case Leaves => s.master != []
    case Arrives(_, _) => s.master != []
    case Breaks(_, now, n) => s.master != [] && s.master[0].Allows(now) && n < 5
    case Reads(_) => !s.rekeying && InFlight(s) >= 5
    case ReadTimesOut(n) => !s.rekeying && n < 5 && n <= InFlight(s)
    case Rekeys => s.rekeying && InFlight(s) >= 12
    case RekeyFails(n) => s.rekeying && n <= 12 && n <= InFlight(s)
  }

  function Next(s: State, step: Step): State
    requires Enabled(s, step)
  {
    match step
    case Connects(now, later) => s.(master := [Fresh(now, later, COMMAND_RATE_LIMIT_INTERVAL)])
    case Leaves => s.(master := [])
    case Arrives(frame, now) =>
      var (f, bytes) := Forward(s.proxyKs, Forwarder(s.pos, s.master[0]), frame, now);
      s.(pos := f.pos, master := [f.limiter], wire := s.wire + bytes, offered := s.offered + [frame],
         forwarded := if bytes == [] then s.forwarded else s.forwarded + [frame])
    case Breaks(frame, now, n) =>
      var (f, bytes) := Forward(s.proxyKs, Forwarder(s.pos, s.master[0]), frame, now);
      s.(pos := f.pos, master := [], wire := s.wire + bytes[..n], offered := s.offered + [frame])
    case Reads(now) =>
      var frame: Frame := Mask(s.serverKs, s.serverPos, s.wire[s.taken..s.taken + 5]);
      var t := s.(taken := s.taken + 5, serverPos := s.serverPos + 5, decrypted := s.decrypted + [frame]);
      if !s.serverLimiter.Allows(now) then t
      else t.(serverLimiter := s.serverLimiter.After(now), dispatched := s.dispatched + [frame],
              rekeying := frame[0] == CMD_CHAIN_DETECT)
    case ReadTimesOut(n) => s.(taken := s.taken + n)
    case Rekeys =>
      var nonce: Nonce := s.wire[s.taken..s.taken + 12];
      s.(taken := s.taken + 12, serverKs := StreamOf(s.family, s.key, nonce), serverPos := 0, rekeying := false)
    case RekeyFails(n) => s.(taken := s.taken + n, rekeying := false)
  }

  ghost predicate Reaches(s: State, steps: seq<Step>, t: State)
    decreases |steps|
  {
    if steps == [] then s == t
    else Enabled(s, steps[0]) && Reaches(Next(s, steps[0]), steps[1..], t)
  }

  /** The link as the set-up leaves it, with both ends on the proxy's nonce. */
  function Start(family: Family, key: Key, nonce: Nonce, limiter: Limiter): State
  {
    var ks := StreamOf(family, key, nonce);
    State(family, key, ks, ks, 0, [], [], 0, 0, limiter, false, [], [], [], [])
  }

  // ---------- positions ----------

  /** A step that makes the two cipher positions part. */
  predicate Slips(step: Step)
  {
    match step
    case Breaks(_, _, _) => true
    case ReadTimesOut(n) => n > 0
    case Rekeys => true
    case RekeyFails(n) => n > 0
    case _ => false
  }

  ghost predicate Clean(steps: seq<Step>)
  {
    forall i :: 0 <= i < |steps| ==> !Slips(steps[i])
  }

  predicate InSync(s: State) { s.pos == s.serverPos + InFlight(s) }

  function Gap(s: State): int { s.pos - s.serverPos - InFlight(s) }

  lemma GapStep(s: State, step: Step)
    requires Enabled(s, step) && s.taken <= |s.wire|
    ensures var t := Next(s, step);
            && t.taken <= |t.wire|
            && Gap(s) <= Gap(t) && (Gap(s) == Gap(t) <==> !Slips(step))
  {
  }

  lemma {:induction false} GapOnlyGrows(s: State, steps: seq<Step>, t: State)
    requires Reaches(s, steps, t) && s.taken <= |s.wire|
    ensures t.taken <= |t.wire|
    ensures Gap(s) <= Gap(t)
    ensures Gap(s) == Gap(t) <==> Clean(steps)
    decreases |steps|
  {
    if steps != [] {
      GapStep(s, steps[0]);
      GapOnlyGrows(Next(s, steps[0]), steps[1..], t);
      if Clean(steps) {
        assert forall i :: 0 <= i < |steps| - 1 ==> steps[1..][i] == steps[i + 1];
      } else if Clean(steps[1..]) {
        assert forall i :: 0 < i < |steps| ==> steps[i] == steps[1..][i - 1];
      }
    }
  }

  /** After any run, the proxy's cipher position is the server's plus the bytes in flight
      exactly when no frame's write broke off, no server read gave up part way, and no
      second nonce was read. Drops by either limiter and reconnections do not matter. */
  lemma InSyncIffClean(s: State, steps: seq<Step>, t: State)
    requires s.pos == 0 && s.serverPos == 0 && s.wire == [] && s.taken == 0
    requires Reaches(s, steps, t)
    ensures InSync(t) <==> Clean(steps)
  {
    GapOnlyGrows(s, steps, t);
  }

  // ---------- frames ----------

  ghost predicate Faithful(s: State)
  {
    && s.serverKs == s.proxyKs && s.taken <= |s.wire| && InSync(s)
    && |s.decrypted| <= |s.forwarded|
    && s.decrypted == s.forwarded[..|s.decrypted|]
    && s.wire == Mask(s.proxyKs, 0, Concat(s.forwarded)) && s.pos == |s.wire| == 5 * |s.forwarded|
    && s.taken == s.serverPos == 5 * |s.decrypted|
    && IsSubseq(s.forwarded, s.offered) && IsSubseq(s.dispatched, s.decrypted)
  }

  lemma {:induction false} FramesLength(frames: seq<Frame>)
    ensures |Concat(frames)| == 5 * |frames|
  {
    if frames != [] {
      FramesLength(frames[1..]);
    }
  }

  lemma {:induction false} FrameAt(frames: seq<Frame>, i: nat)
    requires i < |frames|
    ensures |Concat(frames)| == 5 * |frames| && Concat(frames)[5 * i..5 * i + 5] == frames[i]
  {
    FramesLength(frames);
    FramesLength(frames[..i]);
    assert frames == frames[..i] + frames[i..];
    ConcatAppend(frames[..i], frames[i..]);
  }

  lemma PartDecrypts(ks: Keystream, plain: seq<byte>, from: nat, to: nat)
    requires from <= to <= |plain|
    ensures Mask(ks, from, Mask(ks, 0, plain)[from..to]) == plain[from..to]
  {
    assert Mask(ks, 0, plain)[from..to] == Mask(ks, from, plain[from..to]);
    MaskTwice(ks, from, plain[from..to]);
  }

  lemma FrameDecrypts(ks: Keystream, frames: seq<Frame>, n: nat)
    requires n < |frames|
    ensures |Concat(frames)| == 5 * |frames|
    ensures Mask(ks, 5 * n, Mask(ks, 0, Concat(frames))[5 * n..5 * n + 5]) == frames[n]
  {
    FrameAt(frames, n);
    PartDecrypts(ks, Concat(frames), 5 * n, 5 * n + 5);
  }

  lemma ArrivesKeeps(s: State, frame: Frame, now: nat)
    requires Faithful(s) && Enabled(s, Arrives(frame, now))
    ensures Faithful(Next(s, Arrives(frame, now)))
  {
    var t := Next(s, Arrives(frame, now));
    if s.master[0].Allows(now) {
      var all := Concat(s.forwarded);
      ConcatOne(s.forwarded, frame);
      MaskAppend(s.proxyKs, 0, all, frame);
      assert t.forwarded == s.forwarded + [frame] && t.wire == s.wire + Mask(s.proxyKs, s.pos, frame);
      assert t.wire == Mask(s.proxyKs, 0, Concat(t.forwarded)) && |t.wire| == |s.wire| + 5;
      assert t.forwarded[..|s.decrypted|] == s.forwarded[..|s.decrypted|];
      SubseqRefl([frame]);
      SubseqConcat(s.forwarded, s.offered, [frame], [frame]);
    } else {
      SubseqExtend(s.forwarded, s.offered, [frame]);
      assert s.wire + [] == s.wire;
      assert t == s.(offered := s.offered + [frame], master := t.master);
    }
  }

  /** The frame the server reads is the next one forwarded. */
  lemma FrameRead(s: State, now: nat)
    requires Faithful(s) && Enabled(s, Reads(now))
    ensures |s.decrypted| < |s.forwarded|
    ensures var t, frame := Next(s, Reads(now)), s.forwarded[|s.decrypted|];
            && t.decrypted == s.decrypted + [frame]
            && t.dispatched == (if s.serverLimiter.Allows(now) then s.dispatched + [frame] else s.dispatched)
            && t == s.(taken := s.taken + 5, serverPos := s.serverPos + 5, decrypted := t.decrypted,
                       serverLimiter := t.serverLimiter, dispatched := t.dispatched, rekeying := t.rekeying)
  {
    FrameDecrypts(s.proxyKs, s.forwarded, |s.decrypted|);
  }

  lemma ReadsKeeps(s: State, now: nat)
    requires Faithful(s) && Enabled(s, Reads(now))
    ensures Faithful(Next(s, Reads(now)))
  {
    FrameRead(s, now);
    var n := |s.decrypted|;
    var frame := s.forwarded[n];
    assert s.forwarded[..n + 1] == s.forwarded[..n] + [frame];
    SubseqRefl([frame]);
    SubseqConcat(s.dispatched, s.decrypted, [frame], [frame]);
    SubseqExtend(s.dispatched, s.decrypted, [frame]);
  }

  lemma {:induction false} CleanRunKeeps(s: State, steps: seq<Step>, t: State)
    requires Faithful(s) && Reaches(s, steps, t) && Clean(steps)
    ensures Faithful(t)
    decreases |steps|
  {
    if steps != [] {
      assert !Slips(steps[0]);
      match steps[0] {
        case Arrives(frame, now) => ArrivesKeeps(s, frame, now);
        case Reads(now) => ReadsKeeps(s, now);
        case _ =>
      }
      CleanTail(steps);
      CleanRunKeeps(Next(s, steps[0]), steps[1..], t);
    }
  }

  lemma CleanTail(steps: seq<Step>)
    requires steps != [] && Clean(steps)
    ensures Clean(steps[1..])
  {
    forall i | 0 <= i < |steps| - 1
      ensures !Slips(steps[1..][i])
    {
      assert !Slips(steps[i + 1]);
    }
  }

  /** After every clean run the frames the server has decrypted are the first of those the
      proxy forwarded, the bytes in flight decrypt to the rest, and what the server acts on
      is what the local masters sent with some frames left out. */
  lemma FramesInOrder(family: Family, key: Key, nonce: Nonce, limiter: Limiter, steps: seq<Step>, t: State)
    requires Reaches(Start(family, key, nonce, limiter), steps, t) && Clean(steps)
    ensures t.taken <= |t.wire| && |t.decrypted| <= |t.forwarded|
    ensures t.decrypted == t.forwarded[..|t.decrypted|]
    ensures Mask(t.serverKs, t.serverPos, t.wire[t.taken..]) == Concat(t.forwarded[|t.decrypted|..])
    ensures IsSubseq(t.dispatched, t.forwarded) && IsSubseq(t.forwarded, t.offered)
  {
    CleanRunKeeps(Start(family, key, nonce, limiter), steps, t);
    RestDecrypts(t.proxyKs, t.forwarded, |t.decrypted|);
    DispatchedInOrder(t.dispatched, t.forwarded, |t.decrypted|);
  }

  lemma DispatchedInOrder(dispatched: seq<Frame>, forwarded: seq<Frame>, n: nat)
    requires n <= |forwarded| && IsSubseq(dispatched, forwarded[..n])
    ensures IsSubseq(dispatched, forwarded)
  {
    SubseqExtend(dispatched, forwarded[..n], forwarded[n..]);
    assert forwarded[..n] + forwarded[n..] == forwarded;
  }

  lemma RestDecrypts(ks: Keystream, frames: seq<Frame>, n: nat)
    requires n <= |frames|
    ensures |Concat(frames)| == 5 * |frames|
    ensures Mask(ks, 5 * n, Mask(ks, 0, Concat(frames))[5 * n..]) == Concat(frames[n..])
  {
    var all, head, tail := Concat(frames), Concat(frames[..n]), Concat(frames[n..]);
    FramesLength(frames);
    FramesLength(frames[..n]);
    assert frames[..n] + frames[n..] == frames;
    ConcatAppend(frames[..n], frames[n..]);
    assert all[|head|..] == tail;
    PartDecrypts(ks, all, |head|, |all|);
    assert all[|head|..|all|] == tail && Mask(ks, 0, all)[|head|..|all|] == Mask(ks, 0, all)[|head|..];
  }

  // ---------- the server's steps are its control loop ----------

  /** How the rest of a history answers a probe. A reply's nonce goes the other way. */
  function ReplyIn(steps: seq<Step>): ControlThreads.Reply
  {
    var nonce: Nonce := seq(12, _ => 0);
    if steps == [] then ControlThreads.Reply(Written, 0, nonce, Written)
    else match steps[0]
      case Rekeys => ControlThreads.Reply(Written, 12, nonce, Written)
      case RekeyFails(n) => ControlThreads.Reply(Written, n, nonce, if n < 12 then Written else FailedAfter(0))
      case _ => ReplyIn(steps[1..])
  }

  /** The passes of the server's loop in a history. */
  function PollsOf(steps: seq<Step>): seq<ControlThreads.Poll>
  {
    if steps == [] then []
    else match steps[0]
      case Reads(now) => [ControlThreads.Ready(now, false, ReplyIn(steps[1..]))] + PollsOf(steps[1..])
      case ReadTimesOut(n) => [ControlThreads.Quiet(n)] + PollsOf(steps[1..])
      case _ => PollsOf(steps[1..])
  }

  function KeyingOf(s: State): Keying { Keyed(s.family, s.key) }

  /** What the loop's next pass will have to read of the wire, and with what: a pass that has
      found a probe is over when the probe has been answered. */
  function Resume(s: State, steps: seq<Step>, wire: seq<byte>): (seq<byte>, ControlThreads.Reading)
    requires s.taken <= |wire|
  {
    var reading := ControlThreads.Under(s.serverKs, s.serverPos);
    if !s.rekeying then (wire[s.taken..], reading)
    else
      var (_, left, after) := ControlThreads.Act(KeyingOf(s), PROBE, wire[s.taken..], reading, ReplyIn(steps));
      (left, after)
  }

  predicate IsPass(step: Step) { step.Reads? || step.ReadTimesOut? }

  lemma TakenFrom(wire: seq<byte>, all: seq<byte>, from: nat, n: nat)
    requires wire <= all && from + n <= |wire|
    ensures all[from..][..n] == wire[from..from + n] && all[from..][n..] == all[from + n..]
  {
  }

  /** Each read, in time or not, is one pass of the loop. */
  lemma PassStep(s: State, step: Step, rest: seq<Step>, wire: seq<byte>)
    requires s.taken <= |s.wire| && s.wire <= wire && IsPass(step) && Enabled(s, step)
    ensures var u, poll := Next(s, step), PollsOf([step] + rest)[0];
            var (left, reading) := Resume(u, rest, wire);
            var p := ControlThreads.PassOver(KeyingOf(s), wire[s.taken..], ControlThreads.Under(s.serverKs, s.serverPos),
                                             s.serverLimiter, poll);
            && p.GoesOn? && p.left == left && p.reading == reading && p.limiter == u.serverLimiter
            && u.dispatched == s.dispatched + p.did.frames && (poll.Ready? <==> step.Reads?)
            && u.decrypted == s.decrypted + if step.Reads? then [Mask(s.serverKs, s.serverPos, wire[s.taken..][..5])] else []
  {
    assert ([step] + rest)[1..] == rest;
    TakenFrom(s.wire, wire, s.taken, if step.Reads? then 5 else step.n);
    assert s.dispatched + [] == s.dispatched && s.decrypted + [] == s.decrypted;
  }

  /** No other step is, and the end of the exchange is where the pass found it would be. */
  lemma OtherStep(s: State, step: Step, rest: seq<Step>, wire: seq<byte>)
    requires s.taken <= |s.wire| && s.wire <= wire && !IsPass(step) && Enabled(s, step)
    ensures var u := Next(s, step);
            && u.taken <= |u.wire| && s.wire <= u.wire
            && Resume(s, [step] + rest, wire) == Resume(u, rest, wire) && PollsOf([step] + rest) == PollsOf(rest)
            && u.serverLimiter == s.serverLimiter && u.dispatched == s.dispatched && u.decrypted == s.decrypted
  {
    assert ([step] + rest)[1..] == rest;
    match step
    case Rekeys => TakenFrom(s.wire, wire, s.taken, 12);
    case RekeyFails(n) => TakenFrom(s.wire, wire, s.taken, n);
    case _ =>
  }

  /** From any state on, the frames decrypted and dispatched in a run are those that the
      server's loop reads and acts on, over the wire as the run leaves it. */
  lemma {:induction false} ServerIsServe(s: State, steps: seq<Step>, t: State)
    requires Reaches(s, steps, t) && s.taken <= |s.wire|
    ensures s.wire <= t.wire && s.dispatched <= t.dispatched && s.decrypted <= t.decrypted
    ensures ServesAs(s, steps, t.wire, t.dispatched[|s.dispatched|..], t.decrypted[|s.decrypted|..])
    decreases |steps|
  {
    if steps != [] {
      var step, rest, u := steps[0], steps[1..], Next(s, steps[0]);
      assert steps == [step] + rest;
      ServerIsServe(u, rest, t);
      var dispatched, decrypted := t.dispatched[|u.dispatched|..], t.decrypted[|u.decrypted|..];
      if IsPass(step) {
        PassStep(s, step, rest, t.wire);
        PassServed(s, step, rest, t.wire, dispatched, decrypted);
        TailSplit(s.dispatched, u.dispatched, t.dispatched);
        TailSplit(s.decrypted, u.decrypted, t.decrypted);
      } else {
        OtherStep(s, step, rest, t.wire);
      }
    }
  }

  ghost predicate ServesAs(s: State, steps: seq<Step>, wire: seq<byte>, dispatched: seq<Frame>, decrypted: seq<Frame>)
  {
    && s.taken <= |wire|
    && var (bytes, reading) := Resume(s, steps, wire);
       && ControlThreads.Serve(KeyingOf(s), bytes, reading, s.serverLimiter, PollsOf(steps)).frames == dispatched
       && FramesOf(ControlThreads.Arrived(KeyingOf(s), bytes, reading, s.serverLimiter, PollsOf(steps))) == decrypted
  }

  lemma PassServed(s: State, step: Step, rest: seq<Step>, wire: seq<byte>, dispatched: seq<Frame>, decrypted: seq<Frame>)
    requires s.taken <= |s.wire| && s.wire <= wire && IsPass(step) && Enabled(s, step)
    requires ServesAs(Next(s, step), rest, wire, dispatched, decrypted)
    ensures var u := Next(s, step);
            && s.dispatched <= u.dispatched && s.decrypted <= u.decrypted
            && ServesAs(s, [step] + rest, wire, u.dispatched[|s.dispatched|..] + dispatched,
                        u.decrypted[|s.decrypted|..] + decrypted)
  {
    PassStep(s, step, rest, wire);
    var u, polls := Next(s, step), PollsOf([step] + rest);
    assert ([step] + rest)[1..] == rest && polls[1..] == PollsOf(rest);
    var reading := ControlThreads.Under(s.serverKs, s.serverPos);
    var p := ControlThreads.PassOver(KeyingOf(s), wire[s.taken..], reading, s.serverLimiter, polls[0]);
    var arrived := ControlThreads.Arrived(KeyingOf(s), p.left, p.reading, p.limiter, PollsOf(rest));
    assert u.dispatched[|s.dispatched|..] == p.did.frames;
    if step.Reads? {
      FirstFrame((reading.Read(wire[s.taken..][..5]), step.now), arrived);
    } else {
      assert [] + arrived == arrived && [] + decrypted == decrypted;
      assert u.decrypted[|s.decrypted|..] == [];
    }
  }

  lemma TailSplit(a: seq<Frame>, b: seq<Frame>, c: seq<Frame>)
    requires a <= b <= c
    ensures c[|a|..] == b[|a|..] + c[|b|..]
  {
  }

  /** So after every clean run, what the server's loop acts on, of all that is on the wire, is
      a subsequence of what local masters sent, and what it reads is the first of what was
      forwarded. */
  lemma LoopActsInOrder(family: Family, key: Key, nonce: Nonce, limiter: Limiter, steps: seq<Step>, t: State)
    requires Reaches(Start(family, key, nonce, limiter), steps, t) && Clean(steps)
    ensures var ks, keying, polls := StreamOf(family, key, nonce), Keyed(family, key), PollsOf(steps);
            var under := ControlThreads.Under(ks, 0);
            && IsSubseq(ControlThreads.Serve(keying, t.wire, under, limiter, polls).frames, t.offered)
            && FramesOf(ControlThreads.Arrived(keying, t.wire, under, limiter, polls)) <= t.forwarded
  {
    var s := Start(family, key, nonce, limiter);
    ServerIsServe(s, steps, t);
    FramesInOrder(family, key, nonce, limiter, steps, t);
    SubseqTrans(t.dispatched, t.forwarded, t.offered);
    assert t.wire[0..] == t.wire && t.dispatched[0..] == t.dispatched && t.decrypted[0..] == t.decrypted;
  }

  // ---------- without chain probes from local masters ----------

  /** Complete writes upstream, reads that time out only between frames, and no 0xF0 frame
      from a local master: what has to be known of a history to call it safe beforehand. */
  ghost predicate Orderly(steps: seq<Step>)
  {
    forall i :: 0 <= i < |steps| ==>
      match steps[i]
      case Breaks(_, _, _) => false
      case ReadTimesOut(n) => n == 0
      case Arrives(frame, _) => frame[0] != CMD_CHAIN_DETECT
      case _ => true
  }

  ghost predicate NoProbes(s: State)
  {
    !s.rekeying && forall i :: 0 <= i < |s.forwarded| ==> s.forwarded[i][0] != CMD_CHAIN_DETECT
  }

  lemma OrderlyTail(steps: seq<Step>)
    requires steps != [] && Orderly(steps)
    ensures Orderly(steps[1..])
  {
    assert forall i :: 0 <= i < |steps| - 1 ==> steps[1..][i] == steps[i + 1];
  }

  lemma OrderlyStep(s: State, steps: seq<Step>)
    requires Faithful(s) && NoProbes(s) && steps != [] && Orderly(steps) && Enabled(s, steps[0])
    ensures !Slips(steps[0])
    ensures Faithful(Next(s, steps[0])) && NoProbes(Next(s, steps[0]))
  {
    match steps[0] {
      case Arrives(frame, now) => ArrivesKeeps(s, frame, now);
      case Reads(now) =>
        ReadsKeeps(s, now);
        var t := Next(s, Reads(now));
        assert t.decrypted[|s.decrypted|] == s.forwarded[|s.decrypted|];
      case _ =>
    }
  }

  lemma {:induction false} OrderlyIsClean(s: State, steps: seq<Step>, t: State)
    requires Faithful(s) && NoProbes(s) && Orderly(steps) && Reaches(s, steps, t)
    ensures Clean(steps)
    decreases |steps|
  {
    if steps != [] {
      OrderlyStep(s, steps);
      OrderlyTail(steps);
      OrderlyIsClean(Next(s, steps[0]), steps[1..], t);
      assert forall i :: 0 < i < |steps| ==> steps[i] == steps[1..][i - 1];
    }
  }

  /** Then the positions agree throughout, whatever the interleaving. */
  lemma OrderlyRunsStayInSync(family: Family, key: Key, nonce: Nonce, limiter: Limiter, steps: seq<Step>, t: State)
    requires Reaches(Start(family, key, nonce, limiter), steps, t) && Orderly(steps)
    ensures Clean(steps) && InSync(t)
  {
    var s := Start(family, key, nonce, limiter);
    OrderlyIsClean(s, steps, t);
    InSyncIffClean(s, steps, t);
  }

  // ---------- what there is to read can be read ----------

  /** In step, the server can read at any time exactly when a forwarded frame is not yet read. */
  lemma ReadableIff(s: State, now: nat)
    requires Faithful(s) && !s.rekeying
    ensures Enabled(s, Reads(now)) <==> |s.decrypted| < |s.forwarded|
  {
  }

  ghost predicate OnlyReads(steps: seq<Step>)
  {
    forall i :: 0 <= i < |steps| ==> steps[i].Reads?
  }

  /** Reading alone brings the server to the end of what was forwarded. */
  lemma {:induction false} Drains(s: State) returns (steps: seq<Step>, t: State)
    requires Faithful(s) && NoProbes(s)
    ensures Reaches(s, steps, t) && OnlyReads(steps)
    ensures t.decrypted == t.forwarded == s.forwarded && InFlight(t) == 0
    decreases |s.forwarded| - |s.decrypted|
  {
    if |s.decrypted| == |s.forwarded| {
      steps, t := [], s;
    } else {
      var step := Reads(0);
      ReadableIff(s, 0);
      FrameRead(s, 0);
      assert Orderly([step]);
      OrderlyStep(s, [step]);
      var rest;
      rest, t := Drains(Next(s, step));
      steps := [step] + rest;
      assert steps[1..] == rest;
    }
  }

  /** After every orderly run, every frame forwarded is read, or can be by reading alone. */
  lemma OrderlyRunsDrain(family: Family, key: Key, nonce: Nonce, limiter: Limiter, steps: seq<Step>, t: State)
    returns (more: seq<Step>, u: State)
    requires Reaches(Start(family, key, nonce, limiter), steps, t) && Orderly(steps)
    ensures Reaches(t, more, u) && OnlyReads(more)
    ensures u.decrypted == u.forwarded == t.forwarded && InFlight(u) == 0
  {
    OrderlyKeeps(Start(family, key, nonce, limiter), steps, t);
    more, u := Drains(t);
  }

  lemma {:induction false} OrderlyKeeps(s: State, steps: seq<Step>, t: State)
    requires Faithful(s) && NoProbes(s) && Orderly(steps) && Reaches(s, steps, t)
    ensures Faithful(t) && NoProbes(t)
    decreases |steps|
  {
    if steps != [] {
      OrderlyStep(s, steps);
      OrderlyTail(steps);
      OrderlyKeeps(Next(s, steps[0]), steps[1..], t);
    }
  }

  // ---------- what the two loops do, the steps can do ----------

  /** Every session of a local master is a run: timeouts, the exit flag and a torn write
      included, it puts on the link what the forwarding thread does. */
  lemma MasterIsRun(s: State, now: nat, later: nat, polls: seq<Poll>) returns (steps: seq<Step>, t: State)
    requires s.master == []
    ensures Reaches(s, steps, t)
    ensures t == After(s, SessionOf(Fresh(now, later, COMMAND_RATE_LIMIT_INTERVAL), polls))
  {
    var connect := Connects(now, later);
    var u, l := Next(s, connect), Fresh(now, later, COMMAND_RATE_LIMIT_INTERVAL);
    var rest;
    rest, t := SessionIsRun(u, l, polls);
    steps := [connect] + rest;
    assert steps[1..] == rest;
    AfterConnect(s, u, SessionOf(l, polls));
  }

  lemma AfterConnect(s: State, u: State, session: Session)
    requires u == s.(master := u.master)
    ensures After(u, session) == After(s, session)
  {
  }

  /** The link when a master's session is over. */
  function After(s: State, session: Session): State
  {
    var at := s.pos + |Concat(session.frames)|;
    var whole := s.wire + Mask(s.proxyKs, s.pos, Concat(session.frames));
    var t := s.(master := [], offered := s.offered + FramesOf(session.arrived), forwarded := s.forwarded + session.frames);
    if session.torn.Intact? then t.(pos := at, wire := whole)
    else t.(pos := at + 5, wire := whole + session.torn.write.Taken(Mask(s.proxyKs, at, session.torn.frame)))
  }

  lemma {:induction false} SessionIsRun(s: State, l: Limiter, polls: seq<Poll>) returns (steps: seq<Step>, t: State)
    requires s.master == [l]
    ensures Reaches(s, steps, t) && t == After(s, SessionOf(l, polls))
    decreases |polls|
  {
    if polls == [] || (polls[0].Takes? && polls[0].exit) {
      steps, t := [Leaves], Next(s, Leaves);
      NothingForwarded(s);
    } else if polls[0].Quiet? {
      steps, t := SessionIsRun(s, l, polls[1..]);
    } else {
      var frame, now, write := polls[0].frame, polls[0].now, polls[0].write;
      if l.Allows(now) && !write.Completes(frame) {
        var step := Breaks(frame, now, Min(write.n, 4));
        steps, t := [step], Next(s, step);
        TornForwarded(s, frame, now, write);
      } else {
        var step := Arrives(frame, now);
        var u := Next(s, step);
        var rest;
        rest, t := SessionIsRun(u, l.After(now), polls[1..]);
        steps := [step] + rest;
        assert steps[1..] == rest;
        if l.Allows(now) {
          OneForwarded(s, l, frame, now, SessionOf(l.After(now), polls[1..]));
        } else {
          OneDropped(s, l, frame, now, SessionOf(l.After(now), polls[1..]));
        }
      }
    }
  }

  lemma NothingForwarded(s: State)
    ensures After(s, Session([], [], Intact)) == s.(master := [])
  {
    var none: seq<Frame> := [];
    assert Concat(none) == [] && Mask(s.proxyKs, s.pos, []) == [];
    assert s.wire + [] == s.wire && s.offered + [] == s.offered && s.forwarded + [] == s.forwarded;
  }

  lemma TornForwarded(s: State, frame: Frame, now: nat, write: WriteOutcome)
    requires |s.master| == 1 && s.master[0].Allows(now) && !write.Completes(frame)
    ensures After(s, Session([(frame, now)], [], Torn(frame, write))) == Next(s, Breaks(frame, now, Min(write.n, 4)))
  {
    var none: seq<Frame> := [];
    assert Concat(none) == [] && Mask(s.proxyKs, s.pos, []) == [];
    assert s.wire + [] == s.wire && s.forwarded + [] == s.forwarded;
    FirstFrame((frame, now), []);
  }

  lemma OneForwarded(s: State, l: Limiter, frame: Frame, now: nat, rest: Session)
    requires s.master == [l] && l.Allows(now)
    ensures After(Next(s, Arrives(frame, now)), rest) ==
              After(s, Session([(frame, now)] + rest.arrived, [frame] + rest.frames, rest.torn))
  {
    var u := Next(s, Arrives(frame, now));
    FirstFrame((frame, now), rest.arrived);
    Regroup(s.offered, [frame], FramesOf(rest.arrived));
    WireOneMore(s.proxyKs, s.pos, s.wire, frame, rest.frames);
    Regroup(s.forwarded, [frame], rest.frames);
    OneLonger(s, u, frame, now, rest);
  }

  lemma OneDropped(s: State, l: Limiter, frame: Frame, now: nat, rest: Session)
    requires s.master == [l] && !l.Allows(now)
    ensures After(Next(s, Arrives(frame, now)), rest) ==
              After(s, Session([(frame, now)] + rest.arrived, rest.frames, rest.torn))
  {
    FirstFrame((frame, now), rest.arrived);
    Regroup(s.offered, [frame], FramesOf(rest.arrived));
    assert s.wire + [] == s.wire;
    assert Next(s, Arrives(frame, now)) == s.(offered := s.offered + [frame]);
  }

  lemma OneLonger(s: State, u: State, frame: Frame, now: nat, rest: Session)
    requires u == s.(pos := s.pos + 5, master := u.master, wire := u.wire, offered := u.offered, forwarded := u.forwarded)
    requires u.offered + FramesOf(rest.arrived) == s.offered + FramesOf([(frame, now)] + rest.arrived)
    requires u.forwarded + rest.frames == s.forwarded + ([frame] + rest.frames)
    requires |Concat([frame] + rest.frames)| == 5 + |Concat(rest.frames)|
    requires u.wire + Mask(s.proxyKs, s.pos + 5, Concat(rest.frames)) == s.wire + Mask(s.proxyKs, s.pos, Concat([frame] + rest.frames))
    ensures After(u, rest) == After(s, Session([(frame, now)] + rest.arrived, [frame] + rest.frames, rest.torn))
  {
  }

  lemma WireOneMore(ks: Keystream, pos: nat, wire: seq<byte>, frame: Frame, frames: seq<Frame>)
    ensures |Concat([frame] + frames)| == 5 + |Concat(frames)|
    ensures (wire + Mask(ks, pos, frame)) + Mask(ks, pos + 5, Concat(frames)) == wire + Mask(ks, pos, Concat([frame] + frames))
  {
    var all := Concat(frames);
    assert ([frame] + frames)[1..] == frames;
    assert Concat([frame] + frames) == frame + all;
    MaskAppend(ks, pos, frame, all);
    Regroup(wire, Mask(ks, pos, frame), Mask(ks, pos + 5, all));
  }

  /** And every run of the server's loop over what is on the link is one: timeouts and failing
      exchanges included, the steps decrypt and dispatch the frames that the loop does. */
  lemma {:induction false} ServeIsRun(s: State, polls: seq<ControlThreads.Poll>) returns (steps: seq<Step>, t: State)
    requires !s.rekeying && s.taken <= |s.wire|
    ensures Reaches(s, steps, t) && t.taken <= |t.wire| && !t.rekeying
    ensures s.dispatched <= t.dispatched && s.decrypted <= t.decrypted
    ensures var (bytes, under) := (s.wire[s.taken..], ControlThreads.Under(s.serverKs, s.serverPos));
            && ControlThreads.Serve(KeyingOf(s), bytes, under, s.serverLimiter, polls).frames == t.dispatched[|s.dispatched|..]
            && FramesOf(ControlThreads.Arrived(KeyingOf(s), bytes, under, s.serverLimiter, polls)) == t.decrypted[|s.decrypted|..]
    decreases |polls|
  {
    var under := ControlThreads.Under(s.serverKs, s.serverPos);
    if polls == [] || ControlThreads.PassOver(KeyingOf(s), s.wire[s.taken..], under, s.serverLimiter, polls[0]).Stops? {
      steps, t := [], s;
    } else {
      var first, u := PassIsRun(s, polls[0]);
      var rest;
      rest, t := ServeIsRun(u, polls[1..]);
      RunsAppend(s, first, u, rest, t);
      steps := first + rest;
      PassThenServe(s, polls, u);
      TailSplit(s.dispatched, u.dispatched, t.dispatched);
      TailSplit(s.decrypted, u.decrypted, t.decrypted);
    }
  }

  lemma {:induction false} RunsAppend(s: State, a: seq<Step>, t: State, b: seq<Step>, u: State)
    requires Reaches(s, a, t) && Reaches(t, b, u)
    ensures Reaches(s, a + b, u)
    decreases |a|
  {
    if a == [] {
      assert a + b == b;
    } else {
      assert (a + b)[1..] == a[1..] + b;
      RunsAppend(Next(s, a[0]), a[1..], t, b, u);
    }
  }

  /** What a pass makes of the server's end. */
  ghost predicate PassMakes(s: State, poll: ControlThreads.Poll, u: State)
    requires s.taken <= |s.wire|
  {
    var under := ControlThreads.Under(s.serverKs, s.serverPos);
    var p := ControlThreads.PassOver(KeyingOf(s), s.wire[s.taken..], under, s.serverLimiter, poll);
    && p.GoesOn? && !u.rekeying && u.wire == s.wire && KeyingOf(u) == KeyingOf(s)
    && u.taken <= |u.wire| && u.wire[u.taken..] == p.left
    && ControlThreads.Under(u.serverKs, u.serverPos) == p.reading && u.serverLimiter == p.limiter
    && u.dispatched == s.dispatched + p.did.frames
    && u.decrypted == s.decrypted + if poll.Ready? then [under.Read(s.wire[s.taken..][..5])] else []
  }

  lemma PassIsRun(s: State, poll: ControlThreads.Poll) returns (steps: seq<Step>, u: State)
    requires !s.rekeying && s.taken <= |s.wire|
    requires ControlThreads.PassOver(KeyingOf(s), s.wire[s.taken..], ControlThreads.Under(s.serverKs, s.serverPos),
                                     s.serverLimiter, poll).GoesOn?
    ensures Reaches(s, steps, u) && PassMakes(s, poll, u)
  {
    if poll.Quiet? {
      var n := Min(Min(poll.lost, 4), |s.wire| - s.taken);
      steps, u := [ReadTimesOut(n)], Next(s, ReadTimesOut(n));
      TakenFrom(s.wire, s.wire, s.taken, n);
      assert s.dispatched + [] == s.dispatched && s.decrypted + [] == s.decrypted;
    } else {
      var v := Next(s, Reads(poll.now));
      if v.rekeying {
        var answer := AnswerTo(v, poll.reply);
        steps, u := [Reads(poll.now), answer], Next(v, answer);
        assert steps[1..] == [answer] && [answer][1..] == [];
        ProbePass(s, poll, answer);
      } else {
        steps, u := [Reads(poll.now)], v;
        FramePass(s, poll);
      }
    }
  }

  /** The step that a reply to a probe comes to. */
  function AnswerTo(s: State, reply: ControlThreads.Reply): Step
  {
    var n := Min(reply.ready, InFlight(s));
    if n < 12 then RekeyFails(n) else if !reply.answer.Completes(reply.nonce) then RekeyFails(12) else Rekeys
  }

  lemma FramePass(s: State, poll: ControlThreads.Poll)
    requires !s.rekeying && s.taken <= |s.wire| && poll.Ready? && !poll.exit && InFlight(s) >= 5
    requires !Next(s, Reads(poll.now)).rekeying
    ensures PassMakes(s, poll, Next(s, Reads(poll.now)))
  {
    TakenFrom(s.wire, s.wire, s.taken, 5);
    assert s.dispatched + [] == s.dispatched;
  }

  lemma ProbePass(s: State, poll: ControlThreads.Poll, answer: Step)
    requires !s.rekeying && s.taken <= |s.wire| && poll.Ready? && !poll.exit && InFlight(s) >= 5
    requires var v := Next(s, Reads(poll.now));
             v.rekeying && answer == AnswerTo(v, poll.reply)
    ensures var v := Next(s, Reads(poll.now));
            Enabled(v, answer) && PassMakes(s, poll, Next(v, answer))
  {
    var v := Next(s, Reads(poll.now));
    TakenFrom(s.wire, s.wire, s.taken, 5);
    TakenFrom(s.wire, s.wire, v.taken, if answer.Rekeys? then 12 else answer.n);
  }

  lemma PassThenServe(s: State, polls: seq<ControlThreads.Poll>, u: State)
    requires s.taken <= |s.wire| && polls != [] && PassMakes(s, polls[0], u)
    ensures s.dispatched <= u.dispatched && s.decrypted <= u.decrypted
    ensures var (under, after) := (ControlThreads.Under(s.serverKs, s.serverPos), ControlThreads.Under(u.serverKs, u.serverPos));
            && ControlThreads.Serve(KeyingOf(s), s.wire[s.taken..], under, s.serverLimiter, polls).frames ==
                 u.dispatched[|s.dispatched|..]
                 + ControlThreads.Serve(KeyingOf(u), u.wire[u.taken..], after, u.serverLimiter, polls[1..]).frames
            && FramesOf(ControlThreads.Arrived(KeyingOf(s), s.wire[s.taken..], under, s.serverLimiter, polls)) ==
                 u.decrypted[|s.decrypted|..]
                 + FramesOf(ControlThreads.Arrived(KeyingOf(u), u.wire[u.taken..], after, u.serverLimiter, polls[1..]))
  {
    var under := ControlThreads.Under(s.serverKs, s.serverPos);
    var after := ControlThreads.Under(u.serverKs, u.serverPos);
    var arrived := ControlThreads.Arrived(KeyingOf(u), u.wire[u.taken..], after, u.serverLimiter, polls[1..]);
    if polls[0].Ready? {
      FirstFrame((under.Read(s.wire[s.taken..][..5]), polls[0].now), arrived);
    } else {
      assert u.decrypted[|s.decrypted|..] == [] && [] + arrived == arrived && [] + FramesOf(arrived) == FramesOf(arrived);
    }
  }

  // ---------- and with one ----------

  lemma {:induction false} ReachesAppend(s: State, steps: seq<Step>, t: State, step: Step)
    requires Reaches(s, steps, t) && Enabled(t, step)
    ensures Reaches(s, steps + [step], Next(t, step))
    decreases |steps|
  {
    if steps != [] {
      ReachesAppend(Next(s, steps[0]), steps[1..], t, step);
      assert (steps + [step])[1..] == steps[1..] + [step];
    }
  }

  const TUNE: Frame := [CMD_SET_FREQUENCY, 0, 0, 0, 0]

  ghost predicate Untroubled(steps: seq<Step>)
  {
    forall i :: 0 <= i < |steps| ==> !steps[i].Breaks? && !steps[i].ReadTimesOut? && !steps[i].RekeyFails?
  }

  /** Whatever the keystreams, a probe from a local master that the server acts on, with 12
      more bytes behind it, is followed by an exchange after which the positions never
      agree again. */
  lemma ProbeSlips(s: State, now: nat)
    requires Faithful(s) && !s.rekeying && InFlight(s) >= 17 && s.serverLimiter.Allows(now)
    requires |s.decrypted| < |s.forwarded| && s.forwarded[|s.decrypted|][0] == CMD_CHAIN_DETECT
    ensures Enabled(s, Reads(now)) && Enabled(Next(s, Reads(now)), Rekeys)
    ensures Next(s, Reads(now)).decrypted == s.decrypted + [s.forwarded[|s.decrypted|]]
    ensures var u := Next(Next(s, Reads(now)), Rekeys);
            forall steps, v :: Reaches(u, steps, v) ==> !InSync(v)
  {
    FrameRead(s, now);
    var t := Next(s, Reads(now));
    assert t.decrypted[|s.decrypted|] == s.forwarded[|s.decrypted|];
    var u := Next(t, Rekeys);
    assert Gap(u) == u.taken > 0;
    forall steps, v | Reaches(u, steps, v)
      ensures !InSync(v)
    {
      GapOnlyGrows(u, steps, v);
    }
  }

  lemma OneArrival(s: State, steps: seq<Step>, t: State, frame: Frame, now: nat) returns (more: seq<Step>, u: State)
    requires Reaches(s, steps, t) && Untroubled(steps) && Faithful(t)
    requires |t.master| == 1 && t.master[0].Allows(now)
    ensures Reaches(s, more, u) && Untroubled(more) && Faithful(u)
    ensures u == t.(pos := u.pos, master := [Limiter(now, t.master[0].interval)], wire := u.wire,
                    offered := t.offered + [frame], forwarded := t.forwarded + [frame])
  {
    ReachesAppend(s, steps, t, Arrives(frame, now));
    ArrivesKeeps(t, frame, now);
    more, u := steps + [Arrives(frame, now)], Next(t, Arrives(frame, now));
    assert |u.wire| > |t.wire|;
  }

  /** A master's probe and four more frames, all on their way to the server. */
  lemma ProbeSent(s: State) returns (steps: seq<Step>, t: State)
    requires Faithful(s) && s.master == []
    ensures Reaches(s, steps, t) && Untroubled(steps) && Faithful(t)
    ensures t == s.(pos := t.pos, master := t.master, wire := t.wire, offered := t.offered,
                    forwarded := s.forwarded + [PROBE] + [TUNE] + [TUNE] + [TUNE] + [TUNE])
  {
    var i := COMMAND_RATE_LIMIT_INTERVAL;
    ReachesAppend(s, [], s, Connects(i, i));
    steps, t := [] + [Connects(i, i)], Next(s, Connects(i, i));
    steps, t := OneArrival(s, steps, t, PROBE, i);
    steps, t := OneArrival(s, steps, t, TUNE, 2 * i);
    steps, t := OneArrival(s, steps, t, TUNE, 3 * i);
    steps, t := OneArrival(s, steps, t, TUNE, 4 * i);
    steps, t := OneArrival(s, steps, t, TUNE, 5 * i);
  }

  /** A reading at which a limiter lets a frame through. */
  function Due(l: Limiter): nat { l.last + l.interval }

  /** For every cipher, key, nonce and limiter of the server there is such a run, with no write
      cut short and no read timing out: a local master sends a probe and then four frames, and
      the server takes 12 bytes of the frames for a nonce. */
  lemma ProbeBreaksLink(family: Family, key: Key, nonce: Nonce, l: Limiter) returns (steps: seq<Step>, t: State)
    ensures Reaches(Start(family, key, nonce, l), steps, t) && Untroubled(steps)
    ensures t.forwarded == [PROBE, TUNE, TUNE, TUNE, TUNE] && t.decrypted == [PROBE]
    ensures forall more, u :: Reaches(t, more, u) ==> !InSync(u)
    ensures t.wire == Mask(StreamOf(family, key, nonce), 0, Concat(t.forwarded)) && |t.wire| == 25
    ensures t.taken == 17 && t.serverPos == 0 && t.serverKs == StreamOf(family, key, t.wire[5..17])
    ensures !t.rekeying && t.serverLimiter == Limiter(Due(l), l.interval)
  {
    var s := Start(family, key, nonce, l);
    var none: seq<Frame> := [];
    assert Concat(none) == [];
    var t0;
    steps, t0 := ProbeSent(s);
    assert t0.forwarded == [PROBE, TUNE, TUNE, TUNE, TUNE];
    steps, t := ProbeTaken(s, steps, t0, l);
  }

  lemma ProbeTaken(s: State, steps: seq<Step>, t: State, l: Limiter) returns (more: seq<Step>, u: State)
    requires Reaches(s, steps, t) && Untroubled(steps) && Faithful(t) && !t.rekeying
    requires t.decrypted == [] && |t.forwarded| == 5 && t.forwarded[0] == PROBE && t.serverLimiter == l
    ensures Reaches(s, more, u) && Untroubled(more)
    ensures forall steps, v :: Reaches(u, steps, v) ==> !InSync(v)
    ensures u.forwarded == t.forwarded && u.wire == t.wire && |t.wire| == 25 && u.decrypted == [PROBE]
    ensures u.taken == 17 && u.serverPos == 0 && u.serverKs == StreamOf(t.family, t.key, t.wire[5..17])
    ensures !u.rekeying && u.serverLimiter == Limiter(Due(l), l.interval)
  {
    var read := Reads(Due(l));
    ProbeSlips(t, Due(l));
    var v := Next(t, read);
    ReachesAppend(s, steps, t, read);
    ReachesAppend(s, steps + [read], v, Rekeys);
    more, u := steps + [read] + [Rekeys], Next(v, Rekeys);
  }

  function Zero(): Family { (k, n, i) => 0 }

  /** With a keystream of zeros it can be seen what comes of it: the next frame that the
      server decrypts, and acts on one interval later, is one that nobody sent. */
  lemma BogusFrame(key: Key, nonce: Nonce, l: Limiter) returns (steps: seq<Step>, t: State)
    ensures Reaches(Start(Zero(), key, nonce, l), steps, t) && Untroubled(steps)
    ensures t.forwarded == [PROBE, TUNE, TUNE, TUNE, TUNE]
    ensures t.decrypted == [PROBE, [0, 0, 0, CMD_SET_FREQUENCY, 0]]
    ensures t.dispatched != [] && t.dispatched[|t.dispatched| - 1] == [0, 0, 0, CMD_SET_FREQUENCY, 0]
  {
    var s := Start(Zero(), key, nonce, l);
    var u;
    steps, u := ProbeBreaksLink(Zero(), key, nonce, l);
    FiveFrames(PROBE, TUNE, TUNE, TUNE, TUNE);
    MaskZero(s.proxyKs, 0, Concat(u.forwarded));
    var bytes: Frame := u.wire[17..22];
    assert bytes == [0, 0, 0, CMD_SET_FREQUENCY, 0];
    MaskZero(u.serverKs, 0, bytes);
    var read := Reads(Due(u.serverLimiter));
    ReachesAppend(s, steps, u, read);
    steps, t := steps + [read], Next(u, read);
  }

  lemma FiveFrames(a: Frame, b: Frame, c: Frame, d: Frame, e: Frame)
    ensures Concat([a, b, c, d, e]) == a + (b + (c + (d + e)))
  {
    assert [e][1..] == [] && Concat([e]) == e + [];
    assert [d, e][1..] == [e] && Concat([d, e]) == d + e;
    assert [c, d, e][1..] == [d, e] && Concat([c, d, e]) == c + (d + e);
    assert [b, c, d, e][1..] == [c, d, e] && Concat([b, c, d, e]) == b + (c + (d + e));
    assert [a, b, c, d, e][1..] == [b, c, d, e];
  }
}
