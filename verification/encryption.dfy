/** The stream cipher and the two wrappers around it (src/encryption.rs). The cipher is
    ChaCha20 (section 2.4 of RFC 8439); only its use as a keystream indexed by position
    is modelled, so every result holds for any keystream. */
module Encryption {
  import opened Bytes

  type Key = k: seq<byte> | |k| == 32 witness seq(32, _ => 0)
  type Nonce = n: seq<byte> | |n| == 12 witness seq(12, _ => 0)

  type Keystream = nat -> byte
  type Family = (Key, Nonce, nat) -> byte

  function StreamOf(family: Family, key: Key, nonce: Nonce): Keystream
  {
    (i: nat) => family(key, nonce, i)
  }

  /** A shared key, if the program was given one. */
  datatype Keying = NoKey | Keyed(family: Family, key: Key)

  /** bs with the keystream from position pos on applied to it. */
  function Mask(ks: Keystream, pos: nat, bs: seq<byte>): (r: seq<byte>)
    ensures |r| == |bs|
  {
    seq(|bs|, i requires 0 <= i < |bs| => XorByte(bs[i], ks(pos + i)))
  }

  lemma MaskTwice(ks: Keystream, pos: nat, bs: seq<byte>)
    ensures Mask(ks, pos, Mask(ks, pos, bs)) == bs
  {
    var m := Mask(ks, pos, bs);
    forall i | 0 <= i < |bs|
      ensures Mask(ks, pos, m)[i] == bs[i]
    {
      XorTwice(bs[i], ks(pos + i));
    }
  }

  lemma MaskAppend(ks: Keystream, pos: nat, a: seq<byte>, b: seq<byte>)
    ensures Mask(ks, pos, a + b) == Mask(ks, pos, a) + Mask(ks, pos + |a|, b)
  {
  }

  // ---------- the cipher object ----------

  class Cipher {
    const ks: Keystream
    var pos: nat

    constructor (ks: Keystream)
      ensures this.ks == ks && pos == 0
    {
      this.ks := ks;
      pos := 0;
    }

    /** Encrypts or decrypts the first n bytes of buf in place. */
    method ApplyKeystream(buf: array<byte>, n: nat)
      requires n <= buf.Length
      modifies this`pos, buf
      ensures buf[..] == Mask(ks, old(pos), old(buf[..n])) + old(buf[n..])
      ensures pos == old(pos) + n
    {
      ghost var was := buf[..];
      for i := 0 to n
        invariant pos == old(pos) + i
        invariant forall k :: 0 <= k < i ==> buf[k] == XorByte(was[k], ks(old(pos) + k))
        invariant forall k :: i <= k < buf.Length ==> buf[k] == was[k]
      {
        buf[i] := XorByte(buf[i], ks(pos));
        pos := pos + 1;
      }
      assert buf[..n] == Mask(ks, old(pos), was[..n]);
      assert buf[n..] == was[n..];
      assert buf[..] == buf[..n] + buf[n..];
    }
  }

  // ---------- reading ----------

  /** What a reader that decrypts segment by segment returns, whatever the segments. */
  function ReadSegments(ks: Keystream, pos: nat, segments: seq<seq<byte>>): seq<byte>
    decreases |segments|
  {
    if segments == [] then []
    else Mask(ks, pos, segments[0]) + ReadSegments(ks, pos + |segments[0]|, segments[1..])
  }

  lemma {:induction false} SegmentsDoNotMatter(ks: Keystream, pos: nat, segments: seq<seq<byte>>)
    ensures ReadSegments(ks, pos, segments) == Mask(ks, pos, Concat(segments))
    decreases |segments|
  {
    if segments != [] {
      var first, rest := segments[0], segments[1..];
      SegmentsDoNotMatter(ks, pos + |first|, rest);
      MaskAppend(ks, pos, first, Concat(rest));
      assert Concat(segments) == first + Concat(rest);
    }
  }

  class EncryptedReader {
    const cipher: Cipher
    const inner: seq<byte>
    var taken: nat

    predicate Valid() reads this { taken <= |inner| }

    constructor (inner: seq<byte>, ks: Keystream)
      ensures Valid() && fresh(cipher) && cipher.ks == ks && cipher.pos == 0
      ensures this.inner == inner && taken == 0
    {
      cipher := new Cipher(ks);
      this.inner := inner;
      taken := 0;
    }

    /** The inner stream hands over at most ready bytes and at most a buffer full. */
    method Read(buf: array<byte>, ready: nat) returns (n: nat)
      requires Valid()
      modifies this`taken, cipher`pos, buf
      ensures Valid() && n == Min(Min(ready, buf.Length), |inner| - old(taken))
      ensures taken == old(taken) + n && cipher.pos == old(cipher.pos) + n
      ensures buf[..n] == Mask(cipher.ks, old(cipher.pos), inner[old(taken)..taken])
      ensures buf[n..] == old(buf[n..])
    {
      n := Min(Min(ready, buf.Length), |inner| - taken);
      forall i | 0 <= i < n {
        buf[i] := inner[taken + i];
      }
      assert buf[..n] == inner[taken..taken + n];
      cipher.ApplyKeystream(buf, n);
      taken := taken + n;
    }
  }

  /** What one read finds: the size of the caller's buffer and the bytes that are ready. */
  datatype Piece = Piece(size: nat, ready: nat)

  /** How many bytes a number of reads take when there are enough. */
  function Offered(pieces: seq<Piece>): nat
  {
    if pieces == [] then 0 else Min(pieces[0].size, pieces[0].ready) + Offered(pieces[1..])
  }

  /** Reading again and again takes all that is offered, and the pieces of ciphertext make no
      difference to the plaintext. */
  method ReadInPieces(reader: EncryptedReader, pieces: seq<Piece>) returns (out: seq<byte>)
    requires reader.Valid()
    modifies reader`taken, reader.cipher`pos
    ensures reader.Valid() && old(reader.taken) <= reader.taken
    ensures |out| == Min(Offered(pieces), |reader.inner| - old(reader.taken))
    ensures out == Mask(reader.cipher.ks, old(reader.cipher.pos), reader.inner[old(reader.taken)..reader.taken])
    ensures reader.cipher.pos == old(reader.cipher.pos) + |out|
  {
    ghost var ks, at, from := reader.cipher.ks, reader.cipher.pos, reader.taken;
    out := [];
    assert pieces[0..] == pieces;
    for i := 0 to |pieces|
      invariant reader.Valid() && from <= reader.taken
      invariant |out| + Min(Offered(pieces[i..]), |reader.inner| - reader.taken)
                  == Min(Offered(pieces), |reader.inner| - from)
      invariant reader.cipher.pos == at + |out|
      invariant out == Mask(ks, at, reader.inner[from..reader.taken])
    {
      assert pieces[i..][1..] == pieces[i + 1..];
      MaskStretch(ks, at, reader.inner, from, reader.taken);
      var got := ReadPiece(reader, pieces[i]);
      out := out + got;
    }
  }

  method ReadPiece(reader: EncryptedReader, piece: Piece) returns (got: seq<byte>)
    requires reader.Valid()
    modifies reader`taken, reader.cipher`pos
    ensures reader.Valid() && |got| == Min(Min(piece.size, piece.ready), |reader.inner| - old(reader.taken))
    ensures reader.taken == old(reader.taken) + |got| && reader.cipher.pos == old(reader.cipher.pos) + |got|
    ensures got == Mask(reader.cipher.ks, old(reader.cipher.pos), reader.inner[old(reader.taken)..reader.taken])
  {
    var buf := new byte[piece.size];
    var n := reader.Read(buf, piece.ready);
    got := buf[..n];
  }

  /** Decrypting on from where a stretch has been decrypted. */
  lemma MaskStretch(ks: Keystream, at: nat, bs: seq<byte>, from: nat, was: nat)
    requires from <= was <= |bs|
    ensures forall to :: was <= to <= |bs| ==>
              Mask(ks, at, bs[from..was]) + Mask(ks, at + (was - from), bs[was..to]) == Mask(ks, at, bs[from..to])
  {
    forall to | was <= to <= |bs|
      ensures Mask(ks, at, bs[from..was]) + Mask(ks, at + (was - from), bs[was..to]) == Mask(ks, at, bs[from..to])
    {
      assert bs[from..was] + bs[was..to] == bs[from..to];
      MaskAppend(ks, at, bs[from..was], bs[was..to]);
    }
  }

  // ---------- writing ----------

  /** What the inner stream does with one write call. */
  datatype WriteEvent = Took(n: nat) | Interrupted | Broken

  datatype WriteStatus = Done | Blocked | Failed

  datatype Pushed = Pushed(wire: seq<byte>, pos: nat, status: WriteStatus)

  /** write_all over an encrypting writer: the bytes the inner stream accepted, the
      cipher position, and the outcome. Every attempt encrypts all that is left. */
  function WriteAll(ks: Keystream, pos: nat, buf: seq<byte>, events: seq<WriteEvent>): Pushed
    decreases |events|
  {
    if buf == [] then Pushed([], pos, Done)
    else if events == [] then Pushed([], pos, Blocked)
    else match events[0]
      case Broken => Pushed([], pos + |buf|, Failed)
      case Interrupted => WriteAll(ks, pos + |buf|, buf, events[1..])
      case Took(n) =>
        var k := Min(n, |buf|);
        if k == 0 then Pushed([], pos + |buf|, Failed)
        else
          var rest := WriteAll(ks, pos + |buf|, buf[k..], events[1..]);
          Pushed(Mask(ks, pos, buf)[..k] + rest.wire, rest.pos, rest.status)
  }

  class EncryptedWriter {
    const cipher: Cipher
    var inner: seq<byte>

    constructor (ks: Keystream)
      ensures fresh(cipher) && cipher.ks == ks && cipher.pos == 0 && inner == []
    {
      cipher := new Cipher(ks);
      inner := [];
    }

    /** One write: none when the inner stream failed or was interrupted. */
    method Write(buf: seq<byte>, event: WriteEvent) returns (n: nat)
      modifies this`inner, cipher`pos
      ensures n == if event.Took? then Min(event.n, |buf|) else 0
      ensures inner == old(inner) + Mask(cipher.ks, old(cipher.pos), buf)[..n]
      ensures cipher.pos == old(cipher.pos) + |buf|
    {
      var encrypted := new byte[|buf|](i requires 0 <= i < |buf| => buf[i]);
      assert encrypted[..] == buf;
      cipher.ApplyKeystream(encrypted, encrypted.Length);
      n := if event.Took? then Min(event.n, |buf|) else 0;
      assert encrypted[..] == Mask(cipher.ks, old(cipher.pos), buf);
      inner := inner + encrypted[..n];
    }

    method PushAll(buf: seq<byte>, events: seq<WriteEvent>) returns (status: WriteStatus)
      modifies this`inner, cipher`pos
      ensures var w := WriteAll(cipher.ks, old(cipher.pos), buf, events);
              inner == old(inner) + w.wire && cipher.pos == w.pos && status == w.status
    {
      var left, i := buf, 0;
      ghost var w := WriteAll(cipher.ks, cipher.pos, buf, events);
      while left != [] && i < |events|
        invariant i <= |events|
        invariant var v := WriteAll(cipher.ks, cipher.pos, left, events[i..]);
                  old(inner) + w.wire == inner + v.wire && w.pos == v.pos && w.status == v.status
      {
        ghost var before := inner;
        var n := Write(left, events[i]);
        assert events[i..][1..] == events[i + 1..];
        if events[i].Broken? || (events[i].Took? && n == 0) {
          return Failed;
        }
        left := left[n..];
        i := i + 1;
      }
      status := if left == [] then Done else Blocked;
    }
  }

  // ---------- one buffer ----------

  /** The inner stream takes the buffer in one go. */
  predicate Whole(buf: seq<byte>, events: seq<WriteEvent>)
  {
    buf == [] || (events != [] && events[0].Took? && events[0].n >= |buf|)
  }

  /** Such a buffer is sent under consecutive positions. */
  lemma WholeWriteIsMask(ks: Keystream, pos: nat, buf: seq<byte>, events: seq<WriteEvent>)
    requires Whole(buf, events)
    ensures WriteAll(ks, pos, buf, events) == Pushed(Mask(ks, pos, buf), pos + |buf|, Done)
  {
    if buf != [] {
      assert buf[|buf|..] == [];
      assert Mask(ks, pos, buf)[..|buf|] + [] == Mask(ks, pos, buf);
    }
  }

  /** How many bytes the inner stream takes before it fails; an interrupted write does not. */
  function Accepts(events: seq<WriteEvent>): nat
  {
    if events == [] then 0
    else match events[0]
      case Broken => 0
      case Interrupted => Accepts(events[1..])
      case Took(n) => if n == 0 then 0 else n + Accepts(events[1..])
  }

  /** A write completes exactly when the inner stream takes as many bytes as there are, however
      they are cut and interrupted, and otherwise sends as many as it takes. */
  lemma {:induction false} DoneIffAccepted(ks: Keystream, pos: nat, buf: seq<byte>, events: seq<WriteEvent>)
    ensures WriteAll(ks, pos, buf, events).status == Done <==> |buf| <= Accepts(events)
    ensures |WriteAll(ks, pos, buf, events).wire| == Min(|buf|, Accepts(events))
    decreases |events|
  {
    if buf != [] && events != [] {
      match events[0]
      case Broken =>
      case Interrupted => DoneIffAccepted(ks, pos + |buf|, buf, events[1..]);
      case Took(n) => DoneIffAccepted(ks, pos + |buf|, buf[Min(n, |buf|)..], events[1..]);
    }
  }

  /** How a write ends does not depend on what it encrypts with. */
  lemma {:induction false} StatusIgnoresCipher(
    a: Keystream, b: Keystream, p: nat, q: nat, buf: seq<byte>, events: seq<WriteEvent>)
    ensures WriteAll(a, p, buf, events).status == WriteAll(b, q, buf, events).status
    decreases |events|
  {
    if buf != [] && events != [] {
      match events[0]
      case Broken =>
      case Interrupted => StatusIgnoresCipher(a, b, p + |buf|, q + |buf|, buf, events[1..]);
      case Took(n) => StatusIgnoresCipher(a, b, p + |buf|, q + |buf|, buf[Min(n, |buf|)..], events[1..]);
    }
  }

  /** The keystream of a stream in the clear. */
  function Plain(): Keystream { (i: nat) => 0 }

  ghost predicate ZeroFrom(ks: Keystream, pos: nat)
  {
    forall i: nat :: pos <= i ==> ks(i) == 0
  }

  lemma MaskZero(ks: Keystream, pos: nat, bs: seq<byte>)
    requires ZeroFrom(ks, pos)
    ensures Mask(ks, pos, bs) == bs
  {
  }

  lemma {:induction false} PlainWire(ks: Keystream, pos: nat, buf: seq<byte>, events: seq<WriteEvent>)
    requires ZeroFrom(ks, pos)
    ensures var w := WriteAll(ks, pos, buf, events);
            && w.wire <= buf && ZeroFrom(ks, w.pos)
            && (w.status == Done ==> w.wire == buf)
    decreases |events|
  {
    if buf != [] && events != [] {
      MaskZero(ks, pos, buf);
      match events[0]
      case Broken =>
      case Interrupted => PlainWire(ks, pos + |buf|, buf, events[1..]);
      case Took(n) =>
        var k := Min(n, |buf|);
        PlainWire(ks, pos + |buf|, buf[k..], events[1..]);
        assert buf[..k] + buf[k..] == buf;
    }
  }

  /** The keystream that is zero everywhere except at one position. */
  function Spike(at: nat): Keystream
  {
    (i: nat) => if i == at then 1 else 0
  }

  lemma FlippedBit(b: byte)
    ensures XorByte(b, 1) != b
  {
    XorStep(b, 1);
  }

  /** Decryption at the receiver's position gives back what was written. */
  ghost predicate Recovered(ks: Keystream, pos: nat, buf: seq<byte>, events: seq<WriteEvent>)
  {
    var w := WriteAll(ks, pos, buf, events);
    w.status == Done && Mask(ks, pos, w.wire) == buf
  }

  /** A completed write survives decryption under every keystream exactly when the
      inner stream took the whole buffer at once: a short or interrupted write moves the
      cipher on by the bytes offered, not by the bytes accepted. */
  lemma RecoveredIffWhole(pos: nat, buf: seq<byte>, events: seq<WriteEvent>)
    ensures (forall ks: Keystream :: Recovered(ks, pos, buf, events)) <==> Whole(buf, events)
  {
    if Whole(buf, events) {
      forall ks: Keystream
        ensures Recovered(ks, pos, buf, events)
      {
        WholeWriteIsMask(ks, pos, buf, events);
        MaskTwice(ks, pos, buf);
      }
    } else {
      ShortWriteCounterexample(pos, buf, events);
    }
  }

  /** How many bytes the first inner write takes. */
  function FirstTaken(events: seq<WriteEvent>): nat
  {
    if events != [] && events[0].Took? then events[0].n else 0
  }

  lemma ShortWriteCounterexample(pos: nat, buf: seq<byte>, events: seq<WriteEvent>)
    requires !Whole(buf, events)
    ensures !Recovered(Spike(pos + FirstTaken(events)), pos, buf, events)
  {
    var k := FirstTaken(events);
    var ks := Spike(pos + k);
    if WriteAll(ks, pos, buf, events).status == Done {
      Garbled(pos, buf, events);
      FlippedBit(buf[k]);
    }
  }

  /** The first byte not taken at once goes out in the clear, past the spike. */
  lemma Garbled(pos: nat, buf: seq<byte>, events: seq<WriteEvent>)
    requires !Whole(buf, events)
    requires WriteAll(Spike(pos + FirstTaken(events)), pos, buf, events).status == Done
    ensures var k := FirstTaken(events);
            var w := WriteAll(Spike(pos + k), pos, buf, events);
            k < |buf| && k < |w.wire| && w.wire[k] == buf[k]
  {
    var k := FirstTaken(events);
    var ks := Spike(pos + k);
    var w := WriteAll(ks, pos, buf, events);
    PlainWire(ks, pos + |buf|, buf[k..], events[1..]);
    assert buf[0..] == buf;
    assert w.wire == Mask(ks, pos, buf)[..k] + buf[k..];
  }

  // ---------- one buffer after another ----------

  datatype Attempt = Attempt(buf: seq<byte>, events: seq<WriteEvent>)

  /** A write_all of each buffer in turn, until one does not complete. */
  function PushEach(ks: Keystream, pos: nat, attempts: seq<Attempt>): Pushed
    decreases |attempts|
  {
    if attempts == [] then Pushed([], pos, Done)
    else
      var first := WriteAll(ks, pos, attempts[0].buf, attempts[0].events);
      if first.status != Done then first
      else
        var rest := PushEach(ks, first.pos, attempts[1..]);
        Pushed(first.wire + rest.wire, rest.pos, rest.status)
  }

  function Bufs(attempts: seq<Attempt>): (bufs: seq<seq<byte>>)
    ensures |bufs| == |attempts|
  {
    if attempts == [] then [] else [attempts[0].buf] + Bufs(attempts[1..])
  }

  lemma {:induction false} BufsConcat(a: seq<Attempt>, b: seq<Attempt>)
    ensures Bufs(a + b) == Bufs(a) + Bufs(b)
  {
    if a == [] {
      assert a + b == b;
    } else {
      assert (a + b)[1..] == a[1..] + b;
      BufsConcat(a[1..], b);
    }
  }

  lemma {:induction false} PushOneMore(ks: Keystream, pos: nat, attempts: seq<Attempt>, last: Attempt)
    requires PushEach(ks, pos, attempts).status == Done
    ensures var before := PushEach(ks, pos, attempts);
            var one := WriteAll(ks, before.pos, last.buf, last.events);
            PushEach(ks, pos, attempts + [last]) == Pushed(before.wire + one.wire, one.pos, one.status)
    decreases |attempts|
  {
    if attempts == [] {
      assert [last][1..] == [];
      var one := WriteAll(ks, pos, last.buf, last.events);
      assert one.wire + [] == one.wire;
    } else {
      var first := WriteAll(ks, pos, attempts[0].buf, attempts[0].events);
      assert (attempts + [last])[1..] == attempts[1..] + [last];
      PushOneMore(ks, first.pos, attempts[1..], last);
      var before := PushEach(ks, first.pos, attempts[1..]);
      Regroup(first.wire, before.wire, WriteAll(ks, before.pos, last.buf, last.events).wire);
    }
  }

  /** In the clear, the wire is the buffers one after another, or a beginning of them. */
  lemma {:induction false} PlainEach(ks: Keystream, pos: nat, attempts: seq<Attempt>)
    requires ZeroFrom(ks, pos)
    ensures var w := PushEach(ks, pos, attempts);
            w.wire <= Concat(Bufs(attempts)) && (w.status == Done ==> w.wire == Concat(Bufs(attempts)))
    decreases |attempts|
  {
    if attempts != [] {
      PlainWire(ks, pos, attempts[0].buf, attempts[0].events);
      var first := WriteAll(ks, pos, attempts[0].buf, attempts[0].events);
      if first.status == Done {
        PlainEach(ks, first.pos, attempts[1..]);
      }
    }
  }

  predicate AllWhole(attempts: seq<Attempt>)
  {
    forall a :: a in attempts ==> Whole(a.buf, a.events)
  }

  lemma {:induction false} WholeEach(ks: Keystream, pos: nat, attempts: seq<Attempt>)
    requires AllWhole(attempts)
    ensures var plain := Concat(Bufs(attempts));
            PushEach(ks, pos, attempts) == Pushed(Mask(ks, pos, plain), pos + |plain|, Done)
    decreases |attempts|
  {
    if attempts != [] {
      var buf, rest := attempts[0].buf, Concat(Bufs(attempts[1..]));
      WholeWriteIsMask(ks, pos, buf, attempts[0].events);
      WholeEach(ks, pos + |buf|, attempts[1..]);
      MaskAppend(ks, pos, buf, rest);
    }
  }

  ghost predicate EachRecovered(ks: Keystream, pos: nat, attempts: seq<Attempt>)
  {
    var w := PushEach(ks, pos, attempts);
    w.status == Done && Mask(ks, pos, w.wire) == Concat(Bufs(attempts))
  }

  /** A whole run of writes decrypts to what was written under every keystream exactly
      when each of them was taken whole. */
  lemma EachRecoveredIffWhole(pos: nat, attempts: seq<Attempt>)
    ensures (forall ks: Keystream :: EachRecovered(ks, pos, attempts)) <==> AllWhole(attempts)
  {
    if AllWhole(attempts) {
      forall ks: Keystream
        ensures EachRecovered(ks, pos, attempts)
      {
        WholeEach(ks, pos, attempts);
        MaskTwice(ks, pos, Concat(Bufs(attempts)));
      }
    } else {
      var ks := SomeGarbled(pos, attempts);
    }
  }

  lemma {:induction false} SomeGarbled(pos: nat, attempts: seq<Attempt>) returns (ks: Keystream)
    requires !AllWhole(attempts)
    ensures !EachRecovered(ks, pos, attempts)
    decreases |attempts|
  {
    var buf, events, rest := attempts[0].buf, attempts[0].events, attempts[1..];
    if Whole(buf, events) {
      assert !AllWhole(rest) by {
        var a :| a in attempts && !Whole(a.buf, a.events);
        assert a in rest;
      }
      ks := SomeGarbled(pos + |buf|, rest);
      WholeWriteIsMask(ks, pos, buf, events);
      var after := PushEach(ks, pos + |buf|, rest);
      MaskAppend(ks, pos, Mask(ks, pos, buf), after.wire);
      MaskTwice(ks, pos, buf);
      SameTail(buf, Mask(ks, pos + |buf|, after.wire), Concat(Bufs(rest)));
    } else {
      var k := FirstTaken(events);
      ks := Spike(pos + k);
      var w := PushEach(ks, pos, attempts);
      if w.status == Done {
        Garbled(pos, buf, events);
        FlippedBit(buf[k]);
        assert Concat(Bufs(attempts))[k] == buf[k];
        assert Mask(ks, pos, w.wire)[k] == XorByte(buf[k], 1);
      }
    }
  }

  lemma SameTail(a: seq<byte>, b: seq<byte>, c: seq<byte>)
    ensures a + b == a + c ==> b == c
  {
    if a + b == a + c {
      assert b == (a + b)[|a|..] && c == (a + c)[|a|..];
    }
  }
}
