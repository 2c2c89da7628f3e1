/** connect_upstream as one thread sees it: the magic packet, the chain probe and its
    answer, the nonce exchange, and the ciphers (src/proxy.rs). */
module Proxy {
  import opened Bytes
  import opened Control
  import opened Encryption
  import Handshake
  import FanOut

  /** incoming is all that the upstream ever sends. */
  class Socket {
    const incoming: seq<byte>
    var pos: nat
    var sent: seq<byte>

    predicate Valid() reads this { pos <= |incoming| }

    constructor (incoming: seq<byte>)
      ensures Valid() && this.incoming == incoming && pos == 0 && sent == []
    {
      this.incoming := incoming;
      pos, sent := 0, [];
    }

    /** Of what is left, ready bytes arrive before the read gives up; a read that gives up
        has taken them all the same. */
    method ReadExact(buf: array<byte>, ready: nat) returns (ok: bool)
      requires Valid()
      modifies this`pos, buf
      ensures Valid() && ok == (buf.Length <= Min(ready, |incoming| - old(pos)))
      ensures ok ==> pos == old(pos) + buf.Length && buf[..] == incoming[old(pos)..pos]
      ensures !ok ==> pos == old(pos) + Min(ready, |incoming| - old(pos))
    {
      var n := Min(Min(ready, |incoming| - pos), buf.Length);
      forall i | 0 <= i < n {
        buf[i] := incoming[pos + i];
      }
      ok := n == buf.Length;
      pos := pos + n;
    }

    method WriteAll(bs: seq<byte>, write: WriteOutcome) returns (ok: bool)
      requires Valid()
      modifies this`sent
      ensures Valid() && sent == old(sent) + write.Taken(bs) && ok == write.Completes(bs)
    {
      sent := sent + write.Taken(bs);
      ok := write.Completes(bs);
    }
  }

  /** Whether the connection comes about, how many bytes arrive in time for each of the three
      reads, and how the two writes go. */
  datatype Conditions = Conditions(
    connects: bool, magic: nat, probe: WriteOutcome, ack: nat, answer: WriteOutcome, nonce: nat)

  datatype Upstream = NoUpstream | Connected(magic: Nonce, isChain: bool, readCipher: Cipher?, writeCipher: Cipher?)

  /** The upstream counts as a chain when five bytes come after the magic packet in time
      and the first is the probe's opcode. */
  predicate IsChain(incoming: seq<byte>, ack: nat)
  {
    |incoming| >= 17 && ack >= 5 && incoming[12] == CMD_CHAIN_DETECT
  }

  predicate Exchanges(incoming: seq<byte>, ack: nat, keying: Keying)
  {
    keying.Keyed? && IsChain(incoming, ack)
  }

  method ConnectUpstream(sock: Socket, keying: Keying, nonce: Nonce, c: Conditions) returns (up: Upstream)
    requires sock.Valid() && sock.pos == 0 && sock.sent == []
    modifies sock
    ensures up.NoUpstream? <==>
              || !c.connects || Min(c.magic, |sock.incoming|) < 12 || c.probe != Written
              || (Exchanges(sock.incoming, c.ack, keying)
                  && (c.answer != Written || Min(c.nonce, |sock.incoming| - 17) < 12))
    ensures up.Connected? ==>
              && sock.Valid() && up.magic == sock.incoming[..12]
              && (up.isChain <==> |sock.incoming[12..]| >= 5 && c.ack >= 5 && sock.incoming[12..][0] == CMD_CHAIN_DETECT)
              && ((up.readCipher != null) <==> Exchanges(sock.incoming, c.ack, keying))
              && ((up.writeCipher != null) <==> Exchanges(sock.incoming, c.ack, keying))
              && sock.pos == 12 + Consumed(sock.incoming[12..], c.ack, keying)
    ensures up.Connected? && up.readCipher == null ==> sock.sent == PROBE
    ensures up.Connected? && up.readCipher != null ==>
              && sock.pos == 29 && sock.sent == PROBE + nonce
              && up.readCipher.ks == StreamOf(keying.family, keying.key, sock.incoming[17..29]) && up.readCipher.pos == 0
              && up.writeCipher.ks == StreamOf(keying.family, keying.key, nonce) && up.writeCipher.pos == 0
  {
    if !c.connects {
      return NoUpstream;
    }
    var magic := new byte[12];
    var ok := sock.ReadExact(magic, c.magic);
    if !ok {
      return NoUpstream;
    }
    ok := sock.WriteAll(PROBE, c.probe);
    if !ok {
      return NoUpstream;
    }
    var ack := new byte[5];
    ok := sock.ReadExact(ack, c.ack);
    var isChain := ok && ack[0] == CMD_CHAIN_DETECT;
    var r, w: Cipher? := null, null;
    if isChain && keying.Keyed? {
      ok := sock.WriteAll(nonce, c.answer);
      if !ok {
        return NoUpstream;
      }
      var peer := new byte[12];
      ok := sock.ReadExact(peer, c.nonce);
      if !ok {
        return NoUpstream;
      }
      r := new Cipher(StreamOf(keying.family, keying.key, peer[..]));
      w := new Cipher(StreamOf(keying.family, keying.key, nonce));
    }
    up := Connected(magic[..], isChain, r, w);
  }

  /** How many bytes behind the magic packet are read before the proxy starts to relay. */
  function Consumed(behind: seq<byte>, ack: nat, keying: Keying): nat
  {
    if |behind| >= 5 && ack >= 5 && behind[0] == CMD_CHAIN_DETECT && keying.Keyed? then 17
    else Min(5, Min(ack, |behind|))
  }

  /** Against a server that follows the script of the handshake, the proxy finds a chain,
      reads under the server's nonce, and is left with the encrypted IQ alone. */
  lemma MeetsHandshake(c: Handshake.Config, iq: seq<byte>, incoming: seq<byte>, ack: nat)
    requires incoming == Handshake.Script(c, iq) && ack >= 5
    ensures IsChain(incoming, ack) && |incoming| >= 29 && incoming[..12] == c.magic
    ensures StreamOf(c.family, c.key, incoming[17..29]) == c.IqStream()
    ensures incoming[29..] == Mask(c.IqStream(), 0, iq)
  {
    assert incoming[17..29] == c.serverNonce;
  }

  // ---------- an upstream that is not a chain ----------

  lemma EvenCutKeepsSamples(iq: seq<byte>, k: nat)
    requires k % 2 == 0 && k <= |iq|
    ensures k / 2 <= |FanOut.Samples(iq)| && FanOut.Samples(iq[k..]) == FanOut.Samples(iq)[k / 2..]
  {
    FanOut.SamplesAppend(iq[..k], iq[k..]);
    assert iq[..k] + iq[k..] == iq;
    FanOut.SampleCount(iq[..k]);
  }

  /** Whether cutting k bytes off the front of any stream leaves the rest of its samples. */
  ghost predicate CutIsHarmless(k: nat)
  {
    forall iq: seq<byte> :: k <= |iq| ==>
      k / 2 <= |FanOut.Samples(iq)| && FanOut.Samples(iq[k..]) == FanOut.Samples(iq)[k / 2..]
  }

  /** A plain upstream's first bytes are taken for the answer to the probe and never relayed.
      What is relayed still consists of the samples the upstream sent exactly when an even
      number of bytes were taken so. */
  lemma HarmlessIffEven(k: nat)
    ensures CutIsHarmless(k) <==> k % 2 == 0
  {
    if k % 2 == 0 {
      forall iq: seq<byte> | k <= |iq|
        ensures k / 2 <= |FanOut.Samples(iq)| && FanOut.Samples(iq[k..]) == FanOut.Samples(iq)[k / 2..]
      {
        EvenCutKeepsSamples(iq, k);
      }
    } else {
      OddCutCounts(seq(k + 1, _ => 0), k);
    }
  }

  lemma OddCutCounts(iq: seq<byte>, k: nat)
    requires |iq| == k + 1 && k % 2 == 1
    ensures FanOut.Samples(iq[k..]) == [] && |FanOut.Samples(iq)[..]| == k / 2 + 1
  {
    FanOut.SampleCount(iq);
  }

  /** So what a proxy relays of a plain upstream, whose first bytes are samples and no answer,
      still consists of the samples it sent exactly when an even number of bytes came in time
      for an answer: none, two or four. An upstream already streaming has five ready. */
  lemma PlainRelayIff(iq: seq<byte>, ack: nat, keying: Keying)
    ensures CutIsHarmless(Consumed(iq, ack, keying)) <==> Min(5, Min(ack, |iq|)) % 2 == 0
  {
    HarmlessIffEven(Consumed(iq, ack, keying));
  }

  /** When it is streaming, a proxy with a key loses 17 bytes of one whose first is 0xF0. */
  lemma StreamingUpstreamLosesFive(iq: seq<byte>, ack: nat, keying: Keying)
    requires |iq| >= 5 && ack >= 5
    ensures Consumed(iq, ack, keying) == (if keying.Keyed? && iq[0] == CMD_CHAIN_DETECT then 17 else 5)
    ensures !CutIsHarmless(Consumed(iq, ack, keying))
  {
    PlainRelayIff(iq, ack, keying);
  }
}
