/** The bounded broadcast channel that every client reads from, and the loop that copies
    it to one client (src/stream.rs). The channel itself is the one of the tokio crate. */
module Broadcast {
  import opened Bytes
  import opened Encryption

  type Chunk = seq<byte>

  // ---------- what a receiver sees, told over a log that never forgets ----------

  datatype Received = Got(chunk: Chunk) | Empty | Closed | Lagged(missed: nat)

  /** The position of the oldest chunk that a channel of this capacity still holds. */
  function Oldest(sent: nat, capacity: nat): nat
  {
    if sent <= capacity then 0 else sent - capacity
  }

  function LogRecv(log: seq<Chunk>, open: bool, capacity: nat, cursor: nat): (Received, nat)
    requires cursor <= |log|
  {
    if cursor < Oldest(|log|, capacity) then
      (Lagged(Oldest(|log|, capacity) - cursor), Oldest(|log|, capacity))
    else if cursor < |log| then (Got(log[cursor]), cursor + 1)
    else (if open then Empty else Closed, cursor)
  }

  // ---------- the ring that is really there ----------

  lemma NoMultipleBetween(k: int, n: nat)
    ensures k * n <= 0 || n <= k * n
  {
  }

  lemma SlotsDistinct(i: nat, j: nat, capacity: nat)
    requires 0 < capacity && i < j < i + capacity
    ensures i % capacity != j % capacity
  {
    var q, r := i / capacity, j / capacity;
    assert i == q * capacity + i % capacity;
    assert j == r * capacity + j % capacity;
    assert r * capacity - q * capacity == (r - q) * capacity;
    NoMultipleBetween(r - q, capacity);
  }

  class Channel {
    const slots: array<Chunk>
    var tail: nat
    var open: bool
    ghost var log: seq<Chunk>

    ghost predicate Valid()
      reads this, slots
    {
      && 0 < slots.Length
      && tail == |log|
      && forall i {:trigger log[i]} :: Oldest(tail, slots.Length) <= i < tail ==>
           slots[i % slots.Length] == log[i]
    }

    constructor (capacity: nat)
      requires 0 < capacity
      ensures Valid() && fresh(slots) && slots.Length == capacity
      ensures log == [] && open
    {
      slots := new Chunk[capacity](_ => []);
      tail := 0;
      open := true;
      log := [];
    }

    /** Never blocks and never fails: the oldest slot is overwritten. */
    method Send(chunk: Chunk)
      requires Valid()
      modifies this`tail, this`log, slots
      ensures Valid() && log == old(log) + [chunk]
    {
      var at := tail % slots.Length;
      forall i | Oldest(tail + 1, slots.Length) <= i < tail
        ensures i % slots.Length != at
      {
        SlotsDistinct(i, tail, slots.Length);
      }
      slots[at] := chunk;
      tail := tail + 1;
      log := log + [chunk];
    }

    method Close()
      requires Valid()
      modifies this`open
      ensures Valid() && !open
    {
      open := false;
    }
  }

  class Receiver {
    const channel: Channel
    var next: nat

    ghost predicate Valid()
      reads this, channel, channel.slots
    {
      channel.Valid() && next <= channel.tail
    }

    /** Subscribing starts at the present end of the channel. */
    constructor (channel: Channel)
      requires channel.Valid()
      ensures Valid() && this.channel == channel && next == |channel.log|
    {
      this.channel := channel;
      next := channel.tail;
    }

    /** The ring gives every receiver what the unbounded log would. */
    method TryRecv() returns (r: Received)
      requires Valid()
      modifies this`next
      ensures Valid()
      ensures (r, next) == LogRecv(channel.log, channel.open, channel.slots.Length, old(next))
    {
      var capacity := channel.slots.Length;
      if channel.tail - next > capacity {
        var oldest := channel.tail - capacity;
        r := Lagged(oldest - next);
        next := oldest;
      } else if next < channel.tail {
        r := Got(channel.slots[next % capacity]);
        assert channel.log[next] == channel.slots[next % capacity];
        next := next + 1;
      } else {
        r := if channel.open then Empty else Closed;
      }
    }
  }

  // ---------- one client ----------

  /** A client's whole history: where it subscribed, where it has got to, the chunks
      written to it and the number reported to it as missed. */
  datatype Client = Client(start: nat, cursor: nat, delivered: seq<Chunk>, lagged: nat) {
    /** One pass of the writer loop. */
    function Recv(log: seq<Chunk>, open: bool, capacity: nat): Client
      requires cursor <= |log|
    {
      var (r, next) := LogRecv(log, open, capacity, cursor);
      match r
      case Got(chunk) => Client(start, next, delivered + [chunk], lagged)
      case Lagged(n) => Client(start, next, delivered, lagged + n)
      case _ => this
    }

    ghost predicate Accounted(log: seq<Chunk>)
    {
      && start <= cursor <= |log|
      && |delivered| + lagged == cursor - start
      && IsSubseq(delivered, log[start..cursor])
      && (lagged == 0 ==> delivered == log[start..cursor])
    }
  }

  lemma RecvAccounted(c: Client, log: seq<Chunk>, open: bool, capacity: nat)
    requires c.Accounted(log)
    ensures c.Recv(log, open, capacity).Accounted(log)
  {
    var d := c.Recv(log, open, capacity);
    var was, added := log[c.start..c.cursor], log[c.cursor..d.cursor];
    assert log[d.start..d.cursor] == was + added;
    match LogRecv(log, open, capacity, c.cursor).0
    case Got(chunk) =>
      assert added == [chunk];
      SubseqRefl([chunk]);
      SubseqConcat(c.delivered, was, [chunk], added);
    case _ =>
      SubseqExtend(c.delivered, was, added);
  }

  lemma SendAccounted(c: Client, log: seq<Chunk>, more: seq<Chunk>)
    requires c.Accounted(log)
    ensures c.Accounted(log + more)
  {
    assert (log + more)[c.start..c.cursor] == log[c.start..c.cursor];
  }

  // ---------- the stream a client is written through ----------

  /** The client's connection itself, or an encrypting writer around it. */
  class ClientStream {
    const writer: EncryptedWriter?
    var plain: seq<byte>
    /** How many bytes have been offered to the connection. */
    ghost var offered: nat

    ghost predicate Valid()
      reads this, writer, if writer == null then {} else {writer.cipher}
    {
      writer != null ==> offered == writer.cipher.pos
    }

    function Wire(): seq<byte>
      reads this, writer
    {
      if writer == null then plain else writer.inner
    }

    function Stream(): Keystream
      reads writer
    {
      if writer == null then Plain() else writer.cipher.ks
    }

    /** What has been sent since the wire held base and at bytes had been offered. */
    ghost predicate Carries(base: seq<byte>, at: nat, writes: seq<Attempt>)
      reads this, writer
    {
      var w := PushEach(Stream(), at, writes);
      Wire() == base + w.wire && offered == w.pos
    }

    constructor (writer: EncryptedWriter?)
      ensures Valid() && this.writer == writer && (writer == null ==> Wire() == [] && offered == 0)
    {
      this.writer := writer;
      plain := [];
      offered := if writer == null then 0 else writer.cipher.pos;
    }

    method WriteAll(buf: seq<byte>, events: seq<WriteEvent>) returns (status: WriteStatus)
      requires Valid()
      modifies this`plain, this`offered, writer, if writer == null then {} else {writer.cipher}
      ensures Valid()
      ensures var w := Encryption.WriteAll(Stream(), old(offered), buf, events);
              Wire() == old(Wire()) + w.wire && offered == w.pos && status == w.status
    {
      if writer != null {
        status := writer.PushAll(buf, events);
        offered := writer.cipher.pos;
        return;
      }
      var left, i := buf, 0;
      ghost var base, w := plain, Encryption.WriteAll(Plain(), offered, buf, events);
      while left != [] && i < |events|
        invariant i <= |events|
        invariant var v := Encryption.WriteAll(Plain(), offered, left, events[i..]);
                  base + w.wire == plain + v.wire && w.pos == v.pos && w.status == v.status
      {
        MaskZero(Plain(), offered, left);
        assert events[i..][1..] == events[i + 1..];
        offered := offered + |left|;
        var n := if events[i].Took? then Min(events[i].n, |left|) else 0;
        if events[i].Broken? || (events[i].Took? && n == 0) {
          return Failed;
        }
        plain := plain + left[..n];
        left := left[n..];
        i := i + 1;
      }
      status := if left == [] then Done else Blocked;
    }
  }

  // ---------- the writer loop ----------

  /** What happens around one pass of the loop: the producer sends some chunks and may close
      the channel, the exit flag may be up, and the connection treats a write in some way. */
  datatype Round = Round(sends: seq<Chunk>, closes: bool, exit: bool, events: seq<WriteEvent>)

  /** The channel and the client after a run of the loop, and the writes it made. */
  datatype Session = Session(log: seq<Chunk>, open: bool, client: Client, writes: seq<Attempt>)

  /** One pass, and whether the loop ends with it: lag and an empty channel do not end it;
      the exit flag, a closed channel and a write that does not complete do. */
  function Pass(s: Session, capacity: nat, round: Round): (r: (Session, bool))
    requires s.client.cursor <= |s.log|
    ensures r.0.client.cursor <= |r.0.log|
  {
    var log, open := s.log + round.sends, s.open && !round.closes;
    if round.exit then (Session(log, open, s.client, []), true)
    else
      var client := s.client.Recv(log, open, capacity);
      match LogRecv(log, open, capacity, s.client.cursor).0
      case Got(chunk) =>
        var write := Attempt(chunk, round.events);
        (Session(log, open, client, [write]), !Completes(write))
      case Closed => (Session(log, open, client, []), true)
      case _ => (Session(log, open, client, []), false)
  }

  /** The loop; s.writes are those made before. */
  function SessionOf(s: Session, capacity: nat, rounds: seq<Round>): Session
    requires s.client.cursor <= |s.log|
    decreases |rounds|
  {
    if rounds == [] then s
    else
      var (t, stops) := Pass(s, capacity, rounds[0]);
      var u := t.(writes := s.writes + t.writes);
      if stops then u else SessionOf(u, capacity, rounds[1..])
  }

  /** Which does not depend on what it is encrypted with. */
  predicate Completes(write: Attempt)
  {
    Encryption.WriteAll(Plain(), 0, write.buf, write.events).status == Done
  }

  lemma PassAccounted(s: Session, capacity: nat, round: Round)
    requires s.client.Accounted(s.log)
    ensures var t := Pass(s, capacity, round).0;
            && s.log <= t.log && t.client.Accounted(t.log) && t.client.start == s.client.start
            && t.client.delivered == s.client.delivered + Bufs(t.writes)
  {
    var log, open := s.log + round.sends, s.open && !round.closes;
    SendAccounted(s.client, s.log, round.sends);
    RecvAccounted(s.client, log, open, capacity);
    assert s.client.delivered + [] == s.client.delivered;
    var writes := Pass(s, capacity, round).0.writes;
    if writes != [] {
      assert writes[1..] == [];
    }
  }

  /** The account that a client's history keeps. */
  ghost predicate Kept(s: Session)
  {
    s.client.Accounted(s.log) && s.client.delivered == Bufs(s.writes)
  }

  /** The client's account holds throughout, and the chunks it was given are those written. */
  lemma {:induction false} SessionAccounted(s: Session, capacity: nat, rounds: seq<Round>)
    requires Kept(s)
    ensures var t := SessionOf(s, capacity, rounds);
            s.log <= t.log && Kept(t) && t.client.start == s.client.start
    decreases |rounds|
  {
    if rounds != [] {
      PassAccounted(s, capacity, rounds[0]);
      var (t, stops) := Pass(s, capacity, rounds[0]);
      var u := t.(writes := s.writes + t.writes);
      BufsConcat(s.writes, t.writes);
      if !stops {
        SessionAccounted(u, capacity, rounds[1..]);
      }
    }
  }

  // ---------- when the loop ends ----------

  function SendsOf(rounds: seq<Round>): seq<Chunk>
  {
    if rounds == [] then [] else rounds[0].sends + SendsOf(rounds[1..])
  }

  /** The exit flag is up, or the channel is closed and drained, or a chunk that is still
      there is due and the connection does not take it all. */
  predicate Ends(s: Session, capacity: nat, round: Round)
  {
    var log, cursor := s.log + round.sends, s.client.cursor;
    || round.exit
    || (!(s.open && !round.closes) && cursor == |log|)
    || (Oldest(|log|, capacity) <= cursor < |log| && Accepts(round.events) < |log[cursor]|)
  }

  lemma PassEnds(s: Session, capacity: nat, round: Round)
    requires s.client.cursor <= |s.log|
    ensures Pass(s, capacity, round).1 <==> Ends(s, capacity, round)
    ensures Pass(s, capacity, round).0.log == s.log + round.sends
  {
    var log, cursor := s.log + round.sends, s.client.cursor;
    if cursor < |log| {
      DoneIffAccepted(Plain(), 0, log[cursor], round.events);
    }
  }

  /** The loop before round k. */
  function Before(s: Session, capacity: nat, rounds: seq<Round>, k: nat): Session
    requires s.client.cursor <= |s.log| && k <= |rounds|
  {
    SessionOf(s, capacity, rounds[..k])
  }

  ghost predicate GoesOnUntil(s: Session, capacity: nat, rounds: seq<Round>, k: nat)
    requires s.client.cursor <= |s.log| && k <= |rounds|
  {
    forall j :: 0 <= j < k ==> !Ends(Before(s, capacity, rounds, j), capacity, rounds[j])
  }

  /** The session after one round. */
  function After(s: Session, capacity: nat, round: Round): Session
    requires s.client.cursor <= |s.log|
  {
    var t := Pass(s, capacity, round).0;
    t.(writes := s.writes + t.writes)
  }

  /** What a run of at least one round makes of the first. */
  lemma FirstRound(s: Session, capacity: nat, rounds: seq<Round>, k: nat)
    requires s.client.cursor <= |s.log| && 0 < k <= |rounds|
    ensures var u := After(s, capacity, rounds[0]);
            && Before(s, capacity, rounds, k)
                 == (if Ends(s, capacity, rounds[0]) then u else Before(u, capacity, rounds[1..], k - 1))
            && SendsOf(rounds[..k]) == rounds[0].sends + SendsOf(rounds[1..][..k - 1])
  {
    PassEnds(s, capacity, rounds[0]);
    assert rounds[..k][1..] == rounds[1..][..k - 1];
  }

  lemma GoesOnTail(s: Session, capacity: nat, rounds: seq<Round>, k: nat)
    requires s.client.cursor <= |s.log| && 0 < k <= |rounds| && GoesOnUntil(s, capacity, rounds, k)
    ensures !Ends(s, capacity, rounds[0]) && GoesOnUntil(After(s, capacity, rounds[0]), capacity, rounds[1..], k - 1)
  {
    assert rounds[..0] == [] && Before(s, capacity, rounds, 0) == s;
    assert !Ends(Before(s, capacity, rounds, 0), capacity, rounds[0]);
    forall j | 0 <= j < k - 1
      ensures !Ends(Before(After(s, capacity, rounds[0]), capacity, rounds[1..], j), capacity, rounds[1..][j])
    {
      FirstRound(s, capacity, rounds, j + 1);
      assert !Ends(Before(s, capacity, rounds, j + 1), capacity, rounds[j + 1]);
    }
  }

  lemma {:induction false} LogUntil(s: Session, capacity: nat, rounds: seq<Round>, k: nat)
    requires s.client.cursor <= |s.log| && k <= |rounds| && GoesOnUntil(s, capacity, rounds, k)
    ensures Before(s, capacity, rounds, k).log == s.log + SendsOf(rounds[..k])
    decreases k
  {
    if k == 0 {
      assert rounds[..0] == [] && s.log + [] == s.log;
    } else {
      var u := After(s, capacity, rounds[0]);
      PassEnds(s, capacity, rounds[0]);
      GoesOnTail(s, capacity, rounds, k);
      LogUntil(u, capacity, rounds[1..], k - 1);
      FirstRound(s, capacity, rounds, k);
      Regroup(s.log, rounds[0].sends, SendsOf(rounds[1..][..k - 1]));
    }
  }

  lemma {:induction false} EndsAt(s: Session, capacity: nat, rounds: seq<Round>, k: nat)
    requires s.client.cursor <= |s.log| && k < |rounds| && EndsFirst(s, capacity, rounds, k)
    ensures SessionOf(s, capacity, rounds) == Before(s, capacity, rounds, k + 1)
    ensures SessionOf(s, capacity, rounds).log == s.log + SendsOf(rounds[..k + 1])
    decreases k
  {
    var u, rest := After(s, capacity, rounds[0]), rounds[1..];
    PassEnds(s, capacity, rounds[0]);
    FirstRound(s, capacity, rounds, |rounds|);
    FirstRound(s, capacity, rounds, k + 1);
    assert rounds[..|rounds|] == rounds && rest[..|rest|] == rest;
    if k == 0 {
      assert rounds[..0] == [] && rest[..0] == [] && s.log + (rounds[0].sends + []) == s.log + rounds[0].sends;
    } else {
      GoesOnTail(s, capacity, rounds, k);
      FirstRound(s, capacity, rounds, k);
      EndsAt(u, capacity, rest, k - 1);
      Regroup(s.log, rounds[0].sends, SendsOf(rest[..k]));
    }
  }

  /** Round k is the first that ends the loop. */
  ghost predicate EndsFirst(s: Session, capacity: nat, rounds: seq<Round>, k: nat)
    requires s.client.cursor <= |s.log| && k < |rounds|
  {
    GoesOnUntil(s, capacity, rounds, k) && Ends(Before(s, capacity, rounds, k), capacity, rounds[k])
  }

  /** The loop runs for as long as none of its rounds ends it, and the first that does is its
      last: what it has taken of the channel's history shows how many rounds it has run. */
  lemma LoopEndsExactly(s: Session, capacity: nat, rounds: seq<Round>)
    requires s.client.cursor <= |s.log|
    ensures GoesOnUntil(s, capacity, rounds, |rounds|) ==>
              SessionOf(s, capacity, rounds).log == s.log + SendsOf(rounds)
    ensures forall k: nat :: k < |rounds| && EndsFirst(s, capacity, rounds, k) ==>
              && SessionOf(s, capacity, rounds) == Before(s, capacity, rounds, k + 1)
              && SessionOf(s, capacity, rounds).log == s.log + SendsOf(rounds[..k + 1])
  {
    assert rounds[..|rounds|] == rounds;
    if GoesOnUntil(s, capacity, rounds, |rounds|) {
      LogUntil(s, capacity, rounds, |rounds|);
    }
    forall k: nat | k < |rounds| && EndsFirst(s, capacity, rounds, k)
      ensures && SessionOf(s, capacity, rounds) == Before(s, capacity, rounds, k + 1)
              && SessionOf(s, capacity, rounds).log == s.log + SendsOf(rounds[..k + 1])
    {
      EndsAt(s, capacity, rounds, k);
    }
  }

  // ---------- what a loop left alone comes to ----------

  /** No exit flag, no close, and a connection that takes every chunk. */
  ghost predicate Smooth(rounds: seq<Round>, chunks: seq<Chunk>)
  {
    && (forall r :: r in rounds ==> !r.exit && !r.closes)
    && (forall r, c :: r in rounds && c in chunks ==> |c| <= Accepts(r.events))
  }

  /** How many rounds without sends the client needs to catch up. */
  function Behind(s: Session, capacity: nat): nat
  {
    if s.client.cursor < Oldest(|s.log|, capacity) then capacity + 1
    else if s.client.cursor <= |s.log| then |s.log| - s.client.cursor else 0
  }

  lemma SmoothTail(log: seq<Chunk>, rounds: seq<Round>)
    requires rounds != [] && Smooth(rounds, log + SendsOf(rounds))
    ensures var round, rest := rounds[0], rounds[1..];
            && log + SendsOf(rounds) == (log + round.sends) + SendsOf(rest)
            && !round.exit && !round.closes && Smooth(rest, (log + round.sends) + SendsOf(rest))
            && forall c :: c in log + round.sends ==> |c| <= Accepts(round.events)
  {
    var round, rest := rounds[0], rounds[1..];
    Regroup(log, round.sends, SendsOf(rest));
    assert round in rounds && forall r :: r in rest ==> r in rounds;
    assert forall c :: c in log + round.sends ==> c in log + SendsOf(rounds);
  }

  lemma SmoothPass(s: Session, capacity: nat, round: Round)
    requires capacity > 0 && s.client.cursor <= |s.log| && s.open && !round.exit && !round.closes
    requires forall c :: c in s.log + round.sends ==> |c| <= Accepts(round.events)
    ensures var (t, stops) := Pass(s, capacity, round);
            && !stops && t.open && t.log == s.log + round.sends && t.client.start == s.client.start
            && (round.sends == [] ==> Behind(t, capacity) <= if Behind(s, capacity) == 0 then 0 else Behind(s, capacity) - 1)
  {
    PassEnds(s, capacity, round);
    assert s.log + [] == s.log;
  }

  /** After any rounds, capacity + 1 more without sends bring the client to the end of the
      channel: nothing of what was sent is still to come. */
  lemma {:induction false} CatchesUp(s: Session, capacity: nat, rounds: seq<Round>, quiet: nat)
    requires capacity > 0 && s.client.cursor <= |s.log| && s.open
    requires Smooth(rounds, s.log + SendsOf(rounds)) && quiet <= |rounds|
    requires forall i :: |rounds| - quiet <= i < |rounds| ==> rounds[i].sends == []
    requires quiet > capacity || (quiet == |rounds| && quiet >= Behind(s, capacity))
    ensures var t := SessionOf(s, capacity, rounds);
            t.log == s.log + SendsOf(rounds) && t.client.cursor == |t.log| && t.client.start == s.client.start
    decreases |rounds|
  {
    if rounds == [] {
      assert s.log + [] == s.log;
    } else {
      var round, rest := rounds[0], rounds[1..];
      SmoothTail(s.log, rounds);
      SmoothPass(s, capacity, round);
      var t := Pass(s, capacity, round).0;
      var u := t.(writes := s.writes + t.writes);
      assert Behind(u, capacity) == Behind(t, capacity) <= capacity + 1;
      var left := Min(quiet, |rest|);
      assert forall i :: |rest| - left <= i < |rest| ==> rest[i] == rounds[i + 1];
      CatchesUp(u, capacity, rest, left);
    }
  }

  /** So that delivered and lagged together are all that was sent since the subscription. */
  lemma AllAccountedFor(log: seq<Chunk>, cursor: nat, capacity: nat, rounds: seq<Round>, quiet: nat)
    requires capacity > 0 && cursor <= |log|
    requires Smooth(rounds, log + SendsOf(rounds)) && capacity < quiet <= |rounds|
    requires forall i :: |rounds| - quiet <= i < |rounds| ==> rounds[i].sends == []
    ensures var t := SessionOf(Begin(log, true, cursor), capacity, rounds);
            |t.client.delivered| + t.client.lagged == |log| + |SendsOf(rounds)| - cursor
  {
    var s := Begin(log, true, cursor);
    assert log[cursor..cursor] == [];
    CatchesUp(s, capacity, rounds, quiet);
    SessionAccounted(s, capacity, rounds);
  }

  /** Where a new client's loop starts. */
  function Begin(log: seq<Chunk>, open: bool, cursor: nat): Session
  {
    Session(log, open, Client(cursor, cursor, [], 0), [])
  }

  method WriteClientLoop(stream: ClientStream, rx: Receiver, rounds: seq<Round>)
    returns (ghost client: Client, ghost writes: seq<Attempt>)
    requires rx.Valid() && stream.Valid()
    modifies rx`next, rx.channel, rx.channel.slots,
             stream, stream.writer, if stream.writer == null then {} else {stream.writer.cipher}
    ensures rx.Valid() && stream.Valid() && client.cursor == rx.next
    ensures Session(rx.channel.log, rx.channel.open, client, writes) ==
              SessionOf(Begin(old(rx.channel.log), old(rx.channel.open), old(rx.next)), rx.channel.slots.Length, rounds)
    ensures stream.Carries(old(stream.Wire()), old(stream.offered), writes)
  {
    ghost var at, base := stream.offered, stream.Wire();
    ghost var capacity := rx.channel.slots.Length;
    ghost var s := Begin(rx.channel.log, rx.channel.open, rx.next);
    ghost var whole := SessionOf(s, capacity, rounds);
    client, writes := s.client, [];
    assert rounds[0..] == rounds && base + [] == base;
    var i, stops := 0, false;
    while i < |rounds| && !stops
      invariant i <= |rounds| && rx.Valid() && stream.Valid() && client.cursor == rx.next
      invariant s == Session(rx.channel.log, rx.channel.open, client, writes)
      invariant whole == if stops then s else SessionOf(s, capacity, rounds[i..])
      invariant stream.Carries(base, at, writes)
      invariant !stops ==> PushEach(stream.Stream(), at, writes).status == Done
    {
      assert rounds[i..][1..] == rounds[i + 1..];
      stops, client, writes := OnePass(stream, rx, rounds[i], base, at, client, writes);
      s := Session(rx.channel.log, rx.channel.open, client, writes);
      i := i + 1;
    }
  }

  /** One pass of the loop. */
  method OnePass(stream: ClientStream, rx: Receiver, round: Round,
                 ghost base: seq<byte>, ghost at: nat, ghost client: Client, ghost writes: seq<Attempt>)
    returns (stops: bool, ghost next: Client, ghost done: seq<Attempt>)
    requires rx.Valid() && stream.Valid() && client.cursor == rx.next
    requires stream.Carries(base, at, writes) && PushEach(stream.Stream(), at, writes).status == Done
    modifies rx`next, rx.channel, rx.channel.slots,
             stream, stream.writer, if stream.writer == null then {} else {stream.writer.cipher}
    ensures rx.Valid() && stream.Valid() && next.cursor == rx.next
    ensures var (t, end) := Pass(Session(old(rx.channel.log), old(rx.channel.open), client, writes),
                                 rx.channel.slots.Length, round);
            && stops == end && done == writes + t.writes
            && t == Session(rx.channel.log, rx.channel.open, next, t.writes)
    ensures stream.Carries(base, at, done)
    ensures !stops ==> PushEach(stream.Stream(), at, done).status == Done
  {
    assert writes + [] == writes;
    stops, next, done := false, client, writes;
    Produce(rx.channel, round);
    if round.exit {
      stops := true;
      return;
    }
    var r;
    r, next := Take(rx, client);
    match r
    case Got(chunk) =>
      var status := Deliver(stream, chunk, round.events, base, at, writes);
      done := writes + [Attempt(chunk, round.events)];
      stops := status != Done;
    case Empty =>
    case Closed => stops := true;
    case Lagged(_) =>
  }

  /** What one more write adds to the wire, and how it ends. */
  lemma WriteOneMore(ks: Keystream, at: nat, base: seq<byte>, writes: seq<Attempt>, write: Attempt)
    requires PushEach(ks, at, writes).status == Done
    ensures var (before, after) := (PushEach(ks, at, writes), PushEach(ks, at, writes + [write]));
            var one := Encryption.WriteAll(ks, before.pos, write.buf, write.events);
            && base + after.wire == base + before.wire + one.wire
            && after.pos == one.pos && after.status == one.status
            && (one.status == Done <==> Completes(write))
  {
    PushOneMore(ks, at, writes, write);
    var before := PushEach(ks, at, writes);
    Regroup(base, before.wire, Encryption.WriteAll(ks, before.pos, write.buf, write.events).wire);
    StatusIgnoresCipher(ks, Plain(), before.pos, 0, write.buf, write.events);
  }

  /** One chunk to the client. */
  method Deliver(stream: ClientStream, chunk: Chunk, events: seq<WriteEvent>,
                 ghost base: seq<byte>, ghost at: nat, ghost writes: seq<Attempt>) returns (status: WriteStatus)
    requires stream.Valid() && stream.Carries(base, at, writes) && PushEach(stream.Stream(), at, writes).status == Done
    modifies stream, stream.writer, if stream.writer == null then {} else {stream.writer.cipher}
    ensures stream.Valid() && stream.Carries(base, at, writes + [Attempt(chunk, events)])
    ensures status == PushEach(stream.Stream(), at, writes + [Attempt(chunk, events)]).status
    ensures status == Done <==> Completes(Attempt(chunk, events))
  {
    WriteOneMore(stream.Stream(), at, base, writes, Attempt(chunk, events));
    status := stream.WriteAll(chunk, events);
  }

  /** One receive, with the client's history kept in step. */
  method Take(rx: Receiver, ghost client: Client) returns (r: Received, ghost next: Client)
    requires rx.Valid() && client.cursor == rx.next
    modifies rx`next
    ensures rx.Valid() && next.cursor == rx.next
    ensures r == LogRecv(rx.channel.log, rx.channel.open, rx.channel.slots.Length, client.cursor).0
    ensures next == client.Recv(rx.channel.log, rx.channel.open, rx.channel.slots.Length)
  {
    r := rx.TryRecv();
    next := client.Recv(rx.channel.log, rx.channel.open, rx.channel.slots.Length);
  }

  /** The producer's part of a round. */
  method Produce(channel: Channel, round: Round)
    requires channel.Valid()
    modifies channel`tail, channel`log, channel`open, channel.slots
    ensures channel.Valid() && channel.log == old(channel.log) + round.sends
    ensures channel.open == (old(channel.open) && !round.closes)
  {
    for j := 0 to |round.sends|
      invariant channel.Valid() && channel.log == old(channel.log) + round.sends[..j]
      invariant channel.open == old(channel.open)
    {
      channel.Send(round.sends[j]);
    }
    assert round.sends[..|round.sends|] == round.sends;
    if round.closes {
      channel.Close();
    }
  }

  // ---------- what the client reads ----------

  /** A client in the clear is sent the chunks it was given, one after another, or the
      beginning of them if the last write did not complete. */
  lemma PlainSession(at: nat, writes: seq<Attempt>)
    ensures var w := PushEach(Plain(), at, writes);
            && w.wire <= Concat(Bufs(writes))
            && (w.status == Done ==> w.wire == Concat(Bufs(writes)))
  {
    PlainEach(Plain(), at, writes);
  }

  /** What an encrypted client is sent decrypts to the chunks it was given, under every
      keystream, exactly when the connection took each of them whole. */
  lemma SessionDecrypts(log: seq<Chunk>, open: bool, cursor: nat, capacity: nat, rounds: seq<Round>)
    requires cursor <= |log|
    ensures var t := SessionOf(Begin(log, open, cursor), capacity, rounds);
            (forall ks: Keystream :: Decrypts(ks, t)) <==> AllWhole(t.writes)
  {
    var s := Begin(log, open, cursor);
    var t := SessionOf(s, capacity, rounds);
    assert log[cursor..cursor] == [];
    SessionAccounted(s, capacity, rounds);
    EachRecoveredIffWhole(0, t.writes);
    assert forall ks: Keystream :: Decrypts(ks, t) <==> EachRecovered(ks, 0, t.writes);
  }

  ghost predicate Decrypts(ks: Keystream, t: Session)
  {
    var w := PushEach(ks, 0, t.writes);
    w.status == Done && Mask(ks, 0, w.wire) == Concat(t.client.delivered)
  }
}
