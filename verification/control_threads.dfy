/** The two control loops of the server, over a connection: the single-client one, and the
    multi-client one, which also answers the nonce exchange and then decrypts (src/main.rs). */
module ControlThreads {
  import opened Bytes
  import opened Control
  import opened Encryption
  import opened Commands

  /** How answering a chain probe would go: the acknowledgement's write, how many bytes of
      the peer's nonce come in time, the nonce drawn, and the write that sends it. */
  datatype Reply = Reply(ack: WriteOutcome, ready: nat, nonce: Nonce, answer: WriteOutcome) {
    predicate Works() { ack.Completes(ACK) && ready >= 12 && answer.Completes(nonce) }
  }

  /** One pass of a loop: the read gives up, having taken lost bytes of a frame, or goes ahead
      at a clock reading, with the exit flag up or not. */
  datatype Poll = Quiet(lost: nat) | Ready(now: nat, exit: bool, reply: Reply)

  datatype Reading = Clear | Under(ks: Keystream, pos: nat) {
    function Read(bs: seq<byte>): seq<byte> { if Clear? then bs else Mask(ks, pos, bs) }
    function After(n: nat): Reading { if Clear? then this else Under(ks, pos + n) }
  }

  /** The frames acted on, the bytes sent back, and the nonce pairs stored for the IQ writer. */
  datatype Trace = Trace(frames: seq<Frame>, replies: seq<byte>, stored: seq<(Nonce, Nonce)>) {
    function Plus(t: Trace): Trace
    {
      Trace(frames + t.frames, replies + t.replies, stored + t.stored)
    }
  }

  const NOTHING: Trace := Trace([], [], [])

  /** What a frame that passed the limiter leads to, and where reading goes on from. A failed
      acknowledgement does not keep the nonces from being exchanged; without the peer's nonce
      or a complete answer there is no cipher. */
  function Act(keying: Keying, frame: Frame, rest: seq<byte>, reading: Reading, reply: Reply): (Trace, seq<byte>, Reading)
  {
    var ack := reply.ack.Taken(ACK);
    if frame[0] != CMD_CHAIN_DETECT then (Trace([frame], [], []), rest, reading)
    else if keying.NoKey? then (Trace([frame], ack, []), rest, reading)
    else if Min(reply.ready, |rest|) < 12 then (Trace([frame], ack, []), rest[Min(reply.ready, |rest|)..], reading)
    else if !reply.answer.Completes(reply.nonce) then
      (Trace([frame], ack + reply.answer.Taken(reply.nonce), []), rest[12..], reading)
    else
      var peer: Nonce := rest[..12];
      (Trace([frame], ack + reply.nonce, [(reply.nonce, peer)]), rest[12..],
       Under(StreamOf(keying.family, keying.key, peer), 0))
  }

  datatype Pass = Stops | GoesOn(did: Trace, left: seq<byte>, reading: Reading, limiter: Limiter)

  /** One pass of the loop. A frame is decrypted before the limiter sees it, so that a dropped
      frame still moves the cipher; bytes lost to a read that gave up do not move it. */
  function PassOver(keying: Keying, bytes: seq<byte>, reading: Reading, limiter: Limiter, poll: Poll): Pass
  {
    if poll.Quiet? then GoesOn(NOTHING, bytes[Min(Min(poll.lost, 4), |bytes|)..], reading, limiter)
    else if |bytes| < 5 || poll.exit then Stops
    else
      var frame: Frame, rest, next := reading.Read(bytes[..5]), bytes[5..], reading.After(5);
      if !limiter.Allows(poll.now) then GoesOn(NOTHING, rest, next, limiter)
      else
        var (did, left, after) := Act(keying, frame, rest, next, poll.reply);
        GoesOn(did, left, after, limiter.After(poll.now))
  }

  /** All that a control thread does with the bytes of its connection. */
  function Serve(keying: Keying, bytes: seq<byte>, reading: Reading, limiter: Limiter, polls: seq<Poll>): Trace
    decreases |polls|
  {
    if polls == [] then NOTHING
    else
      var p := PassOver(keying, bytes, reading, limiter, polls[0]);
      if p.Stops? then NOTHING else p.did.Plus(Serve(keying, p.left, p.reading, p.limiter, polls[1..]))
  }

  // ---------- the limiter in the loop ----------

  /** The frames that reach the limiter, and when. */
  function Arrived(keying: Keying, bytes: seq<byte>, reading: Reading, limiter: Limiter, polls: seq<Poll>): seq<Arrival>
    decreases |polls|
  {
    if polls == [] then []
    else
      var p := PassOver(keying, bytes, reading, limiter, polls[0]);
      if p.Stops? then []
      else
        (if polls[0].Ready? then [(reading.Read(bytes[..5]), polls[0].now)] else [])
        + Arrived(keying, p.left, p.reading, p.limiter, polls[1..])
  }

  lemma ArrivedPass(keying: Keying, bytes: seq<byte>, reading: Reading, limiter: Limiter, poll: Poll, rest: seq<Arrival>)
    requires PassOver(keying, bytes, reading, limiter, poll).GoesOn? && poll.Ready?
    ensures var p, frame := PassOver(keying, bytes, reading, limiter, poll), reading.Read(bytes[..5]);
            && p.limiter == limiter.After(poll.now)
            && p.did.frames == (if limiter.Allows(poll.now) then [frame] else [])
            && FramesOf(Passed(limiter, [(frame, poll.now)] + rest)) == p.did.frames + FramesOf(Passed(p.limiter, rest))
  {
    var arrival: Arrival := (reading.Read(bytes[..5]), poll.now);
    assert ([arrival] + rest)[1..] == rest;
    var passed := Passed(limiter.After(poll.now), rest);
    assert ([arrival] + passed)[1..] == passed;
    assert [] + passed == passed && [] + FramesOf(passed) == FramesOf(passed);
  }

  /** The frames a control thread acts on are those, out of the ones it reads, that the
      limiter lets through. */
  lemma {:induction false} ActedArePassed(
    keying: Keying, bytes: seq<byte>, reading: Reading, limiter: Limiter, polls: seq<Poll>)
    ensures Serve(keying, bytes, reading, limiter, polls).frames ==
              FramesOf(Passed(limiter, Arrived(keying, bytes, reading, limiter, polls)))
    decreases |polls|
  {
    if polls != [] {
      match PassOver(keying, bytes, reading, limiter, polls[0])
      case Stops =>
      case GoesOn(did, left, after, next) =>
        ActedArePassed(keying, left, after, next, polls[1..]);
        var arrived := Arrived(keying, left, after, next, polls[1..]);
        NothingPlus(Serve(keying, left, after, next, polls[1..]));
        if polls[0].Ready? {
          ArrivedPass(keying, bytes, reading, limiter, polls[0], arrived);
        } else {
          assert [] + arrived == arrived;
        }
    }
  }

  /** So that in any window of length w it acts on floor(w / interval) + 1 of them at most:
      frames i to j of those acted on came at the times of these two. */
  lemma ActedInWindow(keying: Keying, bytes: seq<byte>, reading: Reading, limiter: Limiter, polls: seq<Poll>,
                      w: nat, i: nat, j: nat)
    requires Sorted(TimesOf(Arrived(keying, bytes, reading, limiter, polls))) && limiter.interval > 0
    requires i <= j < |Serve(keying, bytes, reading, limiter, polls).frames|
    ensures var passed := Passed(limiter, Arrived(keying, bytes, reading, limiter, polls));
            && |passed| == |Serve(keying, bytes, reading, limiter, polls).frames|
            && (passed[j].1 - passed[i].1 <= w ==> j - i + 1 <= w / limiter.interval + 1)
  {
    ActedArePassed(keying, bytes, reading, limiter, polls);
    var arrived := Arrived(keying, bytes, reading, limiter, polls);
    if Passed(limiter, arrived)[j].1 - Passed(limiter, arrived)[i].1 <= w {
      PassedInWindow(limiter, arrived, w, i, j);
    }
  }

  /** The loop acts on all the frames it reads exactly when they keep to the interval, from the
      limiter's last reading on. */
  lemma NothingDroppedIff(keying: Keying, bytes: seq<byte>, reading: Reading, limiter: Limiter, polls: seq<Poll>)
    requires Sorted(TimesOf(Arrived(keying, bytes, reading, limiter, polls))) && limiter.interval > 0
    ensures var arrived := Arrived(keying, bytes, reading, limiter, polls);
            Serve(keying, bytes, reading, limiter, polls).frames == FramesOf(arrived) <==>
              && Spaced(TimesOf(arrived), limiter.interval)
              && (arrived != [] ==> limiter.last + limiter.interval <= arrived[0].1)
  {
    ActedArePassed(keying, bytes, reading, limiter, polls);
    AllPassIff(limiter, Arrived(keying, bytes, reading, limiter, polls));
  }

  /** Frames that a proxy's limiter passed, and that reach a server's at the same times, are
      all acted on, if the server's limiter is as new and of no slower pace. */
  lemma NothingDroppedTwice(first: Limiter, sent: seq<Arrival>,
                            keying: Keying, bytes: seq<byte>, reading: Reading, limiter: Limiter, polls: seq<Poll>)
    requires Sorted(TimesOf(sent)) && 0 < limiter.interval <= first.interval
    requires Passed(first, sent) != [] ==> limiter.last + limiter.interval <= Passed(first, sent)[0].1
    requires Arrived(keying, bytes, reading, limiter, polls) == Passed(first, sent)
    ensures Serve(keying, bytes, reading, limiter, polls).frames == FramesOf(Passed(first, sent))
  {
    ActedArePassed(keying, bytes, reading, limiter, polls);
    SecondPassesAll(first, sent, limiter);
  }

  // ---------- the threads ----------

  class Connection {
    const incoming: seq<byte>
    var pos: nat
    var replies: seq<byte>

    predicate Valid() reads this { pos <= |incoming| }

    function Left(): seq<byte>
      requires Valid()
      reads this
    {
      incoming[pos..]
    }

    constructor (incoming: seq<byte>)
      ensures Valid() && this.incoming == incoming && pos == 0 && replies == []
    {
      this.incoming := incoming;
      pos, replies := 0, [];
    }

    /** Of what is left, ready bytes come in time; a read that fails has taken them. */
    method ReadExact(n: nat, ready: nat) returns (ok: bool, bs: seq<byte>)
      requires Valid()
      modifies this`pos
      ensures Valid() && ok == (n <= Min(ready, |old(Left())|))
      ensures ok ==> bs == old(Left())[..n] && Left() == old(Left())[n..]
      ensures !ok ==> Left() == old(Left())[Min(ready, |old(Left())|)..]
    {
      var got := Min(Min(ready, |incoming| - pos), n);
      ok := got == n;
      bs := incoming[pos..pos + got];
      pos := pos + got;
    }

    method WriteAll(bs: seq<byte>, write: WriteOutcome) returns (ok: bool)
      requires Valid()
      modifies this`replies
      ensures Valid() && replies == old(replies) + write.Taken(bs) && ok == write.Completes(bs)
    {
      replies := replies + write.Taken(bs);
      ok := write.Completes(bs);
    }
  }

  /** The nonces shared with the IQ writer; the last pair is the one it will find. */
  class SharedNonces {
    var stored: seq<(Nonce, Nonce)>

    constructor ()
      ensures stored == []
    {
      stored := [];
    }
  }

  function ReadingOf(cipher: Cipher?): Reading
    reads cipher
  {
    if cipher == null then Clear else Under(cipher.ks, cipher.pos)
  }

  datatype FrameRead = GotFrame | GaveUp | Ended

  /** Reads a frame into buf and decrypts it there when there is a cipher. A read that gives
      up has lost what it took. */
  method ReadFrame(conn: Connection, cipher: Cipher?, buf: array<byte>, poll: Poll) returns (r: FrameRead)
    requires conn.Valid() && buf.Length == 5
    modifies conn`pos, cipher, buf
    ensures conn.Valid()
    ensures r == if poll.Quiet? then GaveUp else if |old(conn.Left())| < 5 then Ended else GotFrame
    ensures r.GotFrame? ==>
              && buf[..] == old(ReadingOf(cipher)).Read(old(conn.Left())[..5])
              && ReadingOf(cipher) == old(ReadingOf(cipher)).After(5)
              && conn.Left() == old(conn.Left())[5..]
    ensures !r.GotFrame? ==> ReadingOf(cipher) == old(ReadingOf(cipher))
    ensures r.GaveUp? ==> conn.Left() == old(conn.Left())[Min(Min(poll.lost, 4), |old(conn.Left())|)..]
  {
    var ok, bs := conn.ReadExact(5, if poll.Quiet? then Min(poll.lost, 4) else |conn.incoming|);
    if !ok {
      return if poll.Quiet? then GaveUp else Ended;
    }
    forall k | 0 <= k < 5 {
      buf[k] := bs[k];
    }
    assert buf[..] == bs;
    if cipher != null {
      cipher.ApplyKeystream(buf, 5);
      assert buf[..] == Mask(cipher.ks, old(cipher.pos), bs);
    }
    r := GotFrame;
  }

  /** The chain probe branch of the multi-client loop: acknowledge, and with a key take the
      peer's nonce, send our own and store both. */
  method AnswerProbe(conn: Connection, keying: Keying, reply: Reply, cipher: Cipher?, nonces: SharedNonces,
                     ghost frame: Frame)
    returns (next: Cipher?)
    requires conn.Valid() && frame[0] == CMD_CHAIN_DETECT
    modifies conn`pos, conn`replies, nonces
    ensures conn.Valid() && (next == cipher || fresh(next))
    ensures var (t, left, reading) := Act(keying, frame, old(conn.Left()), old(ReadingOf(cipher)), reply);
            && conn.replies == old(conn.replies) + t.replies && conn.Left() == left
            && nonces.stored == old(nonces.stored) + t.stored && ReadingOf(next) == reading
  {
    next := cipher;
    var ok := conn.WriteAll(ACK, reply.ack);
    if keying.Keyed? {
      var peer;
      ok, peer := conn.ReadExact(12, reply.ready);
      if ok {
        ghost var ack, said := reply.ack.Taken(ACK), reply.answer.Taken(reply.nonce);
        Regroup(old(conn.replies), ack, said);
        ok := conn.WriteAll(reply.nonce, reply.answer);
        if ok {
          nonces.stored := nonces.stored + [(reply.nonce, peer)];
          next := new Cipher(StreamOf(keying.family, keying.key, peer));
        }
      }
    }
  }

  /** All of what one frame that passed the limiter leads to. */
  method ActOn(conn: Connection, device: Device, nonces: SharedNonces, keying: Keying, reply: Reply,
               cipher: Cipher?, buf: array<byte>)
    returns (next: Cipher?, ghost t: Trace)
    requires conn.Valid() && device.Valid() && buf.Length == 5
    modifies conn`pos, conn`replies, device, device.agc, nonces
    ensures conn.Valid() && device.Valid() && (next == cipher || fresh(next))
    ensures Act(keying, buf[..], old(conn.Left()), old(ReadingOf(cipher)), reply) == (t, conn.Left(), ReadingOf(next))
    ensures device.acted == old(device.acted) + t.frames
    ensures conn.replies == old(conn.replies) + t.replies && nonces.stored == old(nonces.stored) + t.stored
  {
    next := cipher;
    ghost var frame: Frame := buf[..];
    t := Act(keying, frame, conn.Left(), ReadingOf(cipher), reply).0;
    assert t.frames == [frame];
    if buf[0] == CMD_CHAIN_DETECT {
      device.NoteProbe(frame);
      next := AnswerProbe(conn, keying, reply, cipher, nonces, frame);
    } else {
      assert conn.replies + [] == conn.replies && nonces.stored + [] == nonces.stored;
      device.Handle(buf);
    }
  }

  /** Serve over the polls from i on, after done has been done. */
  lemma ServeStep(keying: Keying, bytes: seq<byte>, reading: Reading, limiter: Limiter, polls: seq<Poll>, i: nat, done: Trace)
    requires i < |polls|
    ensures var p := PassOver(keying, bytes, reading, limiter, polls[i]);
            done.Plus(Serve(keying, bytes, reading, limiter, polls[i..])) ==
              if p.Stops? then done
              else done.Plus(p.did).Plus(Serve(keying, p.left, p.reading, p.limiter, polls[i + 1..]))
  {
    assert polls[i..][1..] == polls[i + 1..];
    var p := PassOver(keying, bytes, reading, limiter, polls[i]);
    if p.GoesOn? {
      PlusAssoc(done, p.did, Serve(keying, p.left, p.reading, p.limiter, polls[i + 1..]));
    }
  }

  /** What the device, the peer and the IQ writer have seen is what had happened before the
      loop and then done. */
  ghost predicate Seen(conn: Connection, device: Device, stored: seq<(Nonce, Nonce)>, before: Trace, done: Trace)
    reads conn, device, device.agc
  {
    && conn.Valid() && device.Valid()
    && before.Plus(done) == Trace(device.acted, conn.replies, stored)
  }

  /** One pass of the multi-client loop. */
  method OnePass(conn: Connection, device: Device, nonces: SharedNonces, keying: Keying, poll: Poll, limiter: RateLimiter,
                 cipher: Cipher?, buf: array<byte>, ghost before: Trace, ghost done: Trace)
    returns (stop: bool, next: Cipher?, ghost did: Trace)
    requires Seen(conn, device, nonces.stored, before, done) && buf.Length == 5
    modifies conn`pos, conn`replies, device, device.agc, nonces, limiter, cipher, buf
    ensures next == cipher || fresh(next)
    ensures Seen(conn, device, nonces.stored, before, done.Plus(did))
    ensures PassOver(keying, old(conn.Left()), old(ReadingOf(cipher)), old(limiter.State()), poll)
              == if stop then Stops else GoesOn(did, conn.Left(), ReadingOf(next), limiter.State())
    ensures stop ==> did == NOTHING
  {
    stop, next, did := false, cipher, NOTHING;
    PlusAssoc(before, done, NOTHING);
    PlusNothing(before.Plus(done));
    var r := ReadFrame(conn, cipher, buf, poll);
    if r.Ended? || (r.GotFrame? && poll.exit) {
      stop := true;
    } else if r.GotFrame? {
      var allowed := limiter.Check(poll.now);
      if allowed {
        next, did := ActOn(conn, device, nonces, keying, poll.reply, cipher, buf);
        PlusAssoc(before, done, did);
      }
    }
  }

  method ServeMulti(conn: Connection, device: Device, nonces: SharedNonces, keying: Keying,
                    now: nat, later: nat, polls: seq<Poll>)
    returns (ghost done: Trace)
    requires conn.Valid() && device.Valid()
    modifies conn, device, device.agc, nonces
    ensures done == Serve(keying, old(conn.Left()), Clear, Fresh(now, later, COMMAND_RATE_LIMIT_INTERVAL), polls)
    ensures Seen(conn, device, nonces.stored, old(Trace(device.acted, conn.replies, nonces.stored)), done)
  {
    var limiter := new RateLimiter(now, later, COMMAND_RATE_LIMIT_INTERVAL);
    var buf, cipher: Cipher? := new byte[5], null;
    ghost var all := Serve(keying, conn.Left(), Clear, limiter.State(), polls);
    ghost var before := Trace(device.acted, conn.replies, nonces.stored);
    done := NOTHING;
    NothingPlus(all);
    PlusNothing(before);
    assert polls[0..] == polls;
    for i := 0 to |polls|
      invariant cipher == null || fresh(cipher)
      invariant Seen(conn, device, nonces.stored, before, done)
      invariant all == done.Plus(Serve(keying, conn.Left(), ReadingOf(cipher), limiter.State(), polls[i..]))
    {
      ServeStep(keying, conn.Left(), ReadingOf(cipher), limiter.State(), polls, i, done);
      var stop;
      ghost var did;
      stop, cipher, did := OnePass(conn, device, nonces, keying, polls[i], limiter, cipher, buf, before, done);
      PlusNothing(done);
      if stop {
        return;
      }
      done := done.Plus(did);
    }
    PlusNothing(done);
  }

  /** One pass of the single-client loop, which has no cipher and answers a probe itself. */
  method SinglePass(conn: Connection, device: Device, poll: Poll, limiter: RateLimiter, buf: array<byte>,
                    ghost before: Trace, ghost done: Trace)
    returns (stop: bool, ghost did: Trace)
    requires Seen(conn, device, [], before, done) && buf.Length == 5
    modifies conn`pos, conn`replies, device, device.agc, limiter, buf
    ensures Seen(conn, device, [], before, done.Plus(did))
    ensures PassOver(NoKey, old(conn.Left()), Clear, old(limiter.State()), poll)
              == if stop then Stops else GoesOn(did, conn.Left(), Clear, limiter.State())
    ensures stop ==> did == NOTHING
  {
    stop, did := false, NOTHING;
    PlusAssoc(before, done, NOTHING);
    PlusNothing(before.Plus(done));
    var r := ReadFrame(conn, null, buf, poll);
    if r.Ended? || (r.GotFrame? && poll.exit) {
      stop := true;
    } else if r.GotFrame? {
      var allowed := limiter.Check(poll.now);
      if allowed {
        ghost var frame: Frame := buf[..];
        did := Act(NoKey, frame, conn.Left(), Clear, poll.reply).0;
        PlusAssoc(before, done, did);
        if buf[0] == CMD_CHAIN_DETECT {
          device.NoteProbe(frame);
          var ok := conn.WriteAll(ACK, poll.reply.ack);
        } else {
          assert conn.replies + [] == conn.replies;
          device.Handle(buf);
        }
      }
    }
  }

  /** The single-client loop does what the multi-client one does without a key. */
  method ServeSingle(conn: Connection, device: Device, now: nat, later: nat, polls: seq<Poll>)
    returns (ghost done: Trace)
    requires conn.Valid() && device.Valid()
    modifies conn, device, device.agc
    ensures done == Serve(NoKey, old(conn.Left()), Clear, Fresh(now, later, COMMAND_RATE_LIMIT_INTERVAL), polls)
    ensures conn.Valid() && device.Valid() && done.stored == []
    ensures device.acted == old(device.acted) + done.frames
    ensures conn.replies == old(conn.replies) + done.replies
  {
    var limiter := new RateLimiter(now, later, COMMAND_RATE_LIMIT_INTERVAL);
    var buf := new byte[5];
    ghost var all := Serve(NoKey, conn.Left(), Clear, limiter.State(), polls);
    ghost var before := Trace(device.acted, conn.replies, []);
    done := NOTHING;
    NothingPlus(all);
    PlusNothing(before);
    assert polls[0..] == polls;
    for i := 0 to |polls|
      invariant Seen(conn, device, [], before, done)
      invariant all == done.Plus(Serve(NoKey, conn.Left(), Clear, limiter.State(), polls[i..]))
    {
      ServeStep(NoKey, conn.Left(), Clear, limiter.State(), polls, i, done);
      var stop;
      ghost var did;
      stop, did := SinglePass(conn, device, polls[i], limiter, buf, before, done);
      PlusNothing(done);
      if stop {
        return;
      }
      done := done.Plus(did);
    }
    PlusNothing(done);
  }

  lemma PlusNothing(t: Trace)
    ensures t.Plus(NOTHING) == t
  {
  }

  lemma NothingPlus(t: Trace)
    ensures NOTHING.Plus(t) == t
  {
  }

  lemma PlusAssoc(a: Trace, b: Trace, c: Trace)
    ensures a.Plus(b.Plus(c)) == a.Plus(b).Plus(c)
  {
    assert a.frames + (b.frames + c.frames) == (a.frames + b.frames) + c.frames;
    assert a.replies + (b.replies + c.replies) == (a.replies + b.replies) + c.replies;
    assert a.stored + (b.stored + c.stored) == (a.stored + b.stored) + c.stored;
  }

  // ---------- what the bytes of a connection come to ----------

  /** The frames of a byte stream that arrives in the clear; a last partial one is none. */
  function FramesIn(bytes: seq<byte>): seq<Frame>
  {
    if |bytes| < 5 then [] else [bytes[..5]] + FramesIn(bytes[5..])
  }

  function ProbesIn(frames: seq<Frame>): nat
  {
    if frames == [] then 0 else (if frames[0][0] == CMD_CHAIN_DETECT then 1 else 0) + ProbesIn(frames[1..])
  }

  function Acks(n: nat): seq<byte> { if n == 0 then [] else ACK + Acks(n - 1) }

  /** No read gives up part way through a frame. */
  predicate AtBoundaries(polls: seq<Poll>)
  {
    forall p :: p in polls && p.Quiet? ==> p.lost == 0
  }

  lemma BoundariesTail(polls: seq<Poll>)
    requires polls != [] && AtBoundaries(polls)
    ensures AtBoundaries(polls[1..]) && (polls[0].Quiet? ==> polls[0].lost == 0)
  {
    assert polls[0] in polls && forall p :: p in polls[1..] ==> p in polls;
  }

  predicate AcksWork(polls: seq<Poll>)
  {
    forall p :: p in polls && p.Ready? ==> p.reply.ack.Written?
  }

  /** One pass over a stream in the clear, without a key. */
  lemma ClearPass(bytes: seq<byte>, limiter: Limiter, poll: Poll)
    ensures match PassOver(NoKey, bytes, Clear, limiter, poll)
            case Stops => true
            case GoesOn(did, left, reading, _) =>
              && reading == Clear
              && (poll.Quiet? ==> did == NOTHING && (poll.lost == 0 ==> left == bytes))
              && (poll.Ready? ==>
                    && |bytes| >= 5 && left == bytes[5..]
                    && (did == NOTHING
                        || did == Trace([bytes[..5]], if bytes[0] == CMD_CHAIN_DETECT then poll.reply.ack.Taken(ACK) else [], [])))
  {
  }

  lemma OneMoreFrame(first: Frame, acted: seq<Frame>, all: seq<Frame>)
    ensures IsSubseq(acted, all) ==> IsSubseq([first] + acted, [first] + all) && IsSubseq(acted, [first] + all)
    ensures ProbesIn([first] + acted) == ProbesIn(acted) + if first[0] == CMD_CHAIN_DETECT then 1 else 0
  {
    assert ([first] + acted)[1..] == acted && ([first] + all)[1..] == all;
  }

  lemma PartOfAck(ack: seq<byte>, more: seq<byte>, n: nat)
    requires ack <= ACK && IsSubseq(more, Acks(n))
    ensures IsSubseq(ack + more, Acks(n + 1))
  {
    SubseqRefl(ack);
    SubseqExtend(ack, ack, ACK[|ack|..]);
    assert ack + ACK[|ack|..] == ACK;
    SubseqConcat(ack, ACK, more, Acks(n));
  }

  /** Without a key, either loop sends back one acknowledgement for each chain probe it acts
      on and nothing else, or parts of them if writes fail; and if no read gives up part way
      through a frame, what it acts on are the frames of the stream with some left out. */
  lemma ClearSession(bytes: seq<byte>, limiter: Limiter, polls: seq<Poll>)
    ensures var t := Serve(NoKey, bytes, Clear, limiter, polls);
            && t.stored == [] && IsSubseq(t.replies, Acks(ProbesIn(t.frames)))
            && (AcksWork(polls) ==> t.replies == Acks(ProbesIn(t.frames)))
            && (AtBoundaries(polls) ==> IsSubseq(t.frames, FramesIn(bytes)))
  {
    ClearReplies(bytes, limiter, polls);
    if AtBoundaries(polls) {
      ClearFrames(bytes, limiter, polls);
    }
  }

  /** The acknowledgements that were sent for so many probes. */
  ghost predicate Answered(t: Trace, allWork: bool)
  {
    && t.stored == [] && IsSubseq(t.replies, Acks(ProbesIn(t.frames)))
    && (allWork ==> t.replies == Acks(ProbesIn(t.frames)))
  }

  lemma {:induction false} ClearReplies(bytes: seq<byte>, limiter: Limiter, polls: seq<Poll>)
    ensures Answered(Serve(NoKey, bytes, Clear, limiter, polls), AcksWork(polls))
    decreases |polls|
  {
    if polls != [] {
      ClearPass(bytes, limiter, polls[0]);
      match PassOver(NoKey, bytes, Clear, limiter, polls[0])
      case Stops =>
      case GoesOn(did, left, _, next) =>
        ClearReplies(left, next, polls[1..]);
        AcksTail(polls);
        var rest := Serve(NoKey, left, Clear, next, polls[1..]);
        if did == NOTHING {
          NothingPlus(rest);
        } else {
          OneMoreAnswered(bytes[..5], polls[0].reply.ack, rest, AcksWork(polls[1..]), AcksWork(polls));
        }
    }
  }

  lemma AcksTail(polls: seq<Poll>)
    requires polls != []
    ensures AcksWork(polls) ==> AcksWork(polls[1..]) && (polls[0].Ready? ==> polls[0].reply.ack.Written?)
  {
    assert polls[0] in polls && forall p :: p in polls[1..] ==> p in polls;
  }

  lemma OneMoreAnswered(first: Frame, write: WriteOutcome, rest: Trace, work: bool, allWork: bool)
    requires Answered(rest, work) && (allWork ==> work && write.Written?)
    ensures Answered(Trace([first], if first[0] == CMD_CHAIN_DETECT then write.Taken(ACK) else [], []).Plus(rest), allWork)
  {
    OneMoreFrame(first, rest.frames, []);
    if first[0] == CMD_CHAIN_DETECT {
      PartOfAck(write.Taken(ACK), rest.replies, ProbesIn(rest.frames));
    } else {
      assert [] + rest.replies == rest.replies;
    }
  }

  lemma {:induction false} ClearFrames(bytes: seq<byte>, limiter: Limiter, polls: seq<Poll>)
    requires AtBoundaries(polls)
    ensures IsSubseq(Serve(NoKey, bytes, Clear, limiter, polls).frames, FramesIn(bytes))
    decreases |polls|
  {
    if polls != [] {
      BoundariesTail(polls);
      ClearPass(bytes, limiter, polls[0]);
      match PassOver(NoKey, bytes, Clear, limiter, polls[0])
      case Stops =>
      case GoesOn(did, left, _, next) =>
        ClearFrames(left, next, polls[1..]);
        var rest := Serve(NoKey, left, Clear, next, polls[1..]);
        NothingPlus(rest);
        if polls[0].Ready? {
          OneMoreFrame(bytes[..5], rest.frames, FramesIn(left));
        }
    }
  }

  ghost predicate NoProbe(frames: seq<Frame>)
  {
    forall i :: 0 <= i < |frames| ==> frames[i][0] != CMD_CHAIN_DETECT
  }

  lemma NoProbeTail(frames: seq<Frame>)
    requires frames != [] && NoProbe(frames)
    ensures NoProbe(frames[1..]) && frames == [frames[0]] + frames[1..]
  {
    assert forall i :: 0 <= i < |frames| - 1 ==> frames[1..][i] == frames[i + 1];
  }

  /** One pass over a stream encrypted from the position that the cipher is at. */
  lemma DecryptingPass(keying: Keying, ks: Keystream, pos: nat, frames: seq<Frame>, limiter: Limiter, poll: Poll)
    requires NoProbe(frames) && (poll.Quiet? ==> poll.lost == 0)
    ensures match PassOver(keying, Mask(ks, pos, Concat(frames)), Under(ks, pos), limiter, poll)
            case Stops => poll.Ready? && (frames == [] || poll.exit)
            case GoesOn(did, left, reading, next) =>
              if poll.Quiet? then
                did == NOTHING && left == Mask(ks, pos, Concat(frames)) && reading == Under(ks, pos) && next == limiter
              else
                && frames != [] && !poll.exit && (did == NOTHING || did == Trace([frames[0]], [], []))
                && left == Mask(ks, pos + 5, Concat(frames[1..])) && reading == Under(ks, pos + 5)
  {
    if frames != [] {
      assert frames[0][0] != CMD_CHAIN_DETECT;
      FrameOff(ks, pos, frames);
    }
  }

  lemma FrameOff(ks: Keystream, pos: nat, frames: seq<Frame>)
    requires frames != []
    ensures var bytes := Mask(ks, pos, Concat(frames));
            |bytes| >= 5 && Mask(ks, pos, bytes[..5]) == frames[0] && bytes[5..] == Mask(ks, pos + 5, Concat(frames[1..]))
  {
    var frame, rest := frames[0], Concat(frames[1..]);
    MaskAppend(ks, pos, frame, rest);
    MaskTwice(ks, pos, frame);
    assert (Mask(ks, pos, frame) + Mask(ks, pos + 5, rest))[..5] == Mask(ks, pos, frame);
  }

  // ---------- which frames a loop reads ----------

  /** How many reads go ahead before the exit flag is seen. */
  function ReadyPolls(polls: seq<Poll>): nat
  {
    if polls == [] then 0
    else match polls[0]
      case Quiet(_) => ReadyPolls(polls[1..])
      case Ready(_, exit, _) => if exit then 0 else 1 + ReadyPolls(polls[1..])
  }

  lemma TakeOneMore(first: Frame, rest: seq<Frame>, k: nat)
    ensures ([first] + rest)[..Min(k + 1, |rest| + 1)] == [first] + rest[..Min(k, |rest|)]
  {
  }

  /** Without a key and with reads that give up only between frames, the loop reads the frames
      of the stream one for each read that goes ahead, until the exit flag or the stream's end
      stops it: timeouts and the limiter do not. */
  lemma {:induction false} ClearReads(bytes: seq<byte>, limiter: Limiter, polls: seq<Poll>)
    requires AtBoundaries(polls)
    ensures FramesOf(Arrived(NoKey, bytes, Clear, limiter, polls)) ==
              FramesIn(bytes)[..Min(ReadyPolls(polls), |FramesIn(bytes)|)]
    decreases |polls|
  {
    if polls != [] {
      BoundariesTail(polls);
      var p, rest := PassOver(NoKey, bytes, Clear, limiter, polls[0]), polls[1..];
      if polls[0].Quiet? {
        assert p == GoesOn(NOTHING, bytes, Clear, limiter);
        ClearReads(bytes, limiter, rest);
        assert [] + Arrived(NoKey, bytes, Clear, limiter, rest) == Arrived(NoKey, bytes, Clear, limiter, rest);
      } else if |bytes| >= 5 && !polls[0].exit {
        ClearPass(bytes, limiter, polls[0]);
        ClearReads(p.left, p.limiter, rest);
        var first: Arrival := (bytes[..5], polls[0].now);
        FirstArrival(first, Arrived(NoKey, p.left, Clear, p.limiter, rest));
        TakeOneMore(bytes[..5], FramesIn(bytes[5..]), ReadyPolls(rest));
      }
    }
  }

  lemma FirstArrival(a: Arrival, rest: seq<Arrival>)
    ensures FramesOf([a] + rest) == [a.0] + FramesOf(rest)
  {
    assert ([a] + rest)[1..] == rest;
  }

  /** What is read under a cipher from a stream encrypted from the same position on. */
  function ReadUnder(keying: Keying, ks: Keystream, pos: nat, frames: seq<Frame>, limiter: Limiter, polls: seq<Poll>): seq<Frame>
  {
    FramesOf(Arrived(keying, Mask(ks, pos, Concat(frames)), Under(ks, pos), limiter, polls))
  }

  lemma ReadUnderStep(keying: Keying, ks: Keystream, pos: nat, frames: seq<Frame>, limiter: Limiter, polls: seq<Poll>)
    returns (next: Limiter)
    requires NoProbe(frames) && polls != [] && (polls[0].Quiet? ==> polls[0].lost == 0)
    ensures ReadUnder(keying, ks, pos, frames, limiter, polls) ==
              if polls[0].Quiet? then ReadUnder(keying, ks, pos, frames, limiter, polls[1..])
              else if frames == [] || polls[0].exit then []
              else [frames[0]] + ReadUnder(keying, ks, pos + 5, frames[1..], next, polls[1..])
  {
    next := limiter;
    DecryptingPass(keying, ks, pos, frames, limiter, polls[0]);
    match PassOver(keying, Mask(ks, pos, Concat(frames)), Under(ks, pos), limiter, polls[0])
    case Stops =>
    case GoesOn(_, left, reading, after) =>
      var arrived := Arrived(keying, left, reading, after, polls[1..]);
      assert [] + arrived == arrived;
      next := after;
      if polls[0].Ready? {
        FrameOff(ks, pos, frames);
        FirstArrival((frames[0], polls[0].now), arrived);
      }
  }

  /** Under a cipher in step with the sender, they are the frames sent. */
  lemma {:induction false} DecryptingReads(
    keying: Keying, ks: Keystream, pos: nat, frames: seq<Frame>, limiter: Limiter, polls: seq<Poll>)
    requires NoProbe(frames) && AtBoundaries(polls)
    ensures ReadUnder(keying, ks, pos, frames, limiter, polls) == frames[..Min(ReadyPolls(polls), |frames|)]
    decreases |polls|
  {
    if polls != [] {
      BoundariesTail(polls);
      var next := ReadUnderStep(keying, ks, pos, frames, limiter, polls);
      if polls[0].Quiet? {
        DecryptingReads(keying, ks, pos, frames, limiter, polls[1..]);
      } else if frames != [] && !polls[0].exit {
        NoProbeTail(frames);
        DecryptingReads(keying, ks, pos + 5, frames[1..], next, polls[1..]);
        TakeOneMore(frames[0], frames[1..], ReadyPolls(polls[1..]));
      }
    }
  }

  /** A read that gives up part way through a frame is as if the bytes it took had never come. */
  lemma LostBytesAreGone(keying: Keying, bytes: seq<byte>, reading: Reading, limiter: Limiter, lost: nat, polls: seq<Poll>)
    requires lost < 5
    ensures Serve(keying, bytes, reading, limiter, [Quiet(lost)] + polls) ==
              Serve(keying, bytes[Min(lost, |bytes|)..], reading, limiter, polls)
  {
    assert ([Quiet(lost)] + polls)[1..] == polls;
    NothingPlus(Serve(keying, bytes[Min(lost, |bytes|)..], reading, limiter, polls));
  }

  /** So without a key the frames acted on are those, out of the frames of the stream that there
      was time to read, that the limiter lets through. */
  lemma ClearActs(bytes: seq<byte>, limiter: Limiter, polls: seq<Poll>)
    requires AtBoundaries(polls)
    ensures var arrived := Arrived(NoKey, bytes, Clear, limiter, polls);
            && Serve(NoKey, bytes, Clear, limiter, polls).frames == FramesOf(Passed(limiter, arrived))
            && FramesOf(arrived) == FramesIn(bytes)[..Min(ReadyPolls(polls), |FramesIn(bytes)|)]
  {
    ActedArePassed(NoKey, bytes, Clear, limiter, polls);
    ClearReads(bytes, limiter, polls);
  }

  /** Under a cipher whose position is that of the sender, the frames acted on are those
      sent with some left out, and nothing is sent back. */
  lemma {:induction false} DecryptingSession(
    keying: Keying, ks: Keystream, pos: nat, frames: seq<Frame>, limiter: Limiter, polls: seq<Poll>)
    requires NoProbe(frames) && AtBoundaries(polls)
    ensures var t := Serve(keying, Mask(ks, pos, Concat(frames)), Under(ks, pos), limiter, polls);
            IsSubseq(t.frames, frames) && t.replies == [] && t.stored == []
    decreases |polls|
  {
    if polls != [] {
      BoundariesTail(polls);
      DecryptingPass(keying, ks, pos, frames, limiter, polls[0]);
      match PassOver(keying, Mask(ks, pos, Concat(frames)), Under(ks, pos), limiter, polls[0])
      case Stops =>
      case GoesOn(did, left, reading, next) =>
        var later := Serve(keying, left, reading, next, polls[1..]);
        NothingPlus(later);
        if polls[0].Quiet? {
          DecryptingSession(keying, ks, pos, frames, next, polls[1..]);
        } else {
          NoProbeTail(frames);
          DecryptingSession(keying, ks, pos + 5, frames[1..], next, polls[1..]);
          OneMoreFrame(frames[0], later.frames, frames[1..]);
        }
    }
  }

  /** What becomes of one probe, when the server has a key: nonces are stored exactly when the
      peer's came whole and in time and ours could be sent, whatever became of the
      acknowledgement; and only then does reading go on under a cipher. */
  lemma ProbeAnsweredIff(family: Family, key: Key, probe: Frame, rest: seq<byte>, limiter: Limiter, poll: Poll)
    requires probe[0] == CMD_CHAIN_DETECT && poll.Ready? && !poll.exit && limiter.Allows(poll.now)
    ensures var p := PassOver(Keyed(family, key), probe + rest, Clear, limiter, poll);
            var n := Min(12, Min(poll.reply.ready, |rest|));
            var works := n == 12 && poll.reply.answer.Completes(poll.reply.nonce);
            && p.GoesOn? && p.did.frames == [probe] && p.left == rest[n..] && p.limiter.last == poll.now
            && p.did.stored == (if works then [(poll.reply.nonce, rest[..12])] else [])
            && p.reading == (if works then Under(StreamOf(family, key, rest[..12]), 0) else Clear)
            && p.did.replies == poll.reply.ack.Taken(ACK) + if n == 12 then poll.reply.answer.Taken(poll.reply.nonce) else []
  {
    assert (probe + rest)[..5] == probe && (probe + rest)[5..] == rest;
    assert poll.reply.ack.Taken(ACK) + [] == poll.reply.ack.Taken(ACK);
  }

  /** A keyed session, from a proxy's probe on: when the probe passes the limiter and the
      answer to it works, the proxy's nonce is stored with the server's, the proxy is sent the
      acknowledgement and the server's nonce, and the frames acted on after the probe are, in
      order, frames the proxy encrypted under its nonce. */
  lemma EncryptedSession(
    family: Family, key: Key, probe: Frame, peer: Nonce, frames: seq<Frame>, limiter: Limiter, polls: seq<Poll>)
    requires probe[0] == CMD_CHAIN_DETECT && NoProbe(frames) && AtBoundaries(polls)
    requires polls != [] && polls[0].Ready? && !polls[0].exit && limiter.Allows(polls[0].now) && polls[0].reply.Works()
    ensures var bytes := probe + peer + Mask(StreamOf(family, key, peer), 0, Concat(frames));
            var t := Serve(Keyed(family, key), bytes, Clear, limiter, polls);
            && t.frames != [] && t.frames[0] == probe && IsSubseq(t.frames[1..], frames)
            && t.replies == ACK + polls[0].reply.nonce && t.stored == [(polls[0].reply.nonce, peer)]
  {
    var ks := StreamOf(family, key, peer);
    var sent, nonce := Mask(ks, 0, Concat(frames)), polls[0].reply.nonce;
    var bytes := probe + peer + sent;
    assert bytes[..5] == probe && bytes[5..] == peer + sent;
    assert (peer + sent)[..12] == peer && (peer + sent)[12..] == sent;
    var p := PassOver(Keyed(family, key), bytes, Clear, limiter, polls[0]);
    assert p == GoesOn(Trace([probe], ACK + nonce, [(nonce, peer)]), sent, Under(ks, 0), p.limiter);
    BoundariesTail(polls);
    DecryptingSession(Keyed(family, key), ks, 0, frames, p.limiter, polls[1..]);
    var rest := Serve(Keyed(family, key), sent, Under(ks, 0), p.limiter, polls[1..]);
    assert p.did.Plus(rest).frames == [probe] + rest.frames;
  }
}
