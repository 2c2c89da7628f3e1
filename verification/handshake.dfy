/** The set-up of an encrypted proxy link, as the steps of the threads at its two ends: the
    connecting proxy, and the server's acceptor, control thread and IQ writer
    (src/proxy.rs, src/encryption.rs, src/main.rs). */
module Handshake {
  import opened Bytes
  import opened Control
  import opened Encryption

  /** What a run is about: the shared key, the magic packet, and the nonces drawn. */
  datatype Config = Config(family: Family, key: Key, magic: Nonce, proxyNonce: Nonce, serverNonce: Nonce) {
    function IqStream(): Keystream { StreamOf(family, key, serverNonce) }
  }

  /** Where connect_upstream stands. */
  datatype Proxy = WantsMagic | WillProbe | WantsAck | WillSendNonce | WantsNonce
                 | Linked(readNonce: Nonce, writeNonce: Nonce) | Plain

  /** Where the control thread stands; n counts the bytes of a write already made. */
  datatype Serving = NotStarted | WantsProbe(limiter: Limiter) | Acking(n: nat) | WantsPeer
                   | Answering(peer: Nonce, n: nat) | WillStore(peer: Nonce) | Ready(peer: Nonce)

  /** Each direction is its whole history and the number of bytes its reader has taken.
      cached is the magic packet the proxy has read; iqNonce is the nonce the IQ writer
      found stored, and iq all that it has written. */
  datatype State = State(
    proxy: Proxy, cached: seq<byte>, magicSent: nat, serving: Serving, stored: seq<(Nonce, Nonce)>,
    iqNonce: seq<Nonce>, iq: seq<byte>,
    down: seq<byte>, downRead: nat, up: seq<byte>, upRead: nat)

  function Start(): State
  {
    State(WantsMagic, [], 0, NotStarted, [], [], [], [], 0, [], 0)
  }

  /** Writes are made in pieces of k bytes; now and later are clock readings. */
  datatype Step =
    | SendMagic(k: nat) | StartControl(now: nat, later: nat)
    | ReadProbe(now: nat) | SendAck(k: nat) | ReadPeer | SendAnswer(k: nat) | Store
    | IqLooks | IqSends(chunk: seq<byte>)
    | TakeMagic | Probe | TakeAck | SendNonce | TakeNonce

  function Unread(all: seq<byte>, taken: nat): nat
  {
    if taken <= |all| then |all| - taken else 0
  }

  predicate Enabled(s: State, step: Step)
  {
    match step
    case SendMagic(k) => 0 < k <= 12 - s.magicSent
    case StartControl(now, later) => s.magicSent == 12 && s.serving.NotStarted?
    case ReadProbe(now) => s.serving.WantsProbe? && Unread(s.up, s.upRead) >= 5
    case SendAck(k) => s.serving.Acking? && 0 < k <= 5 - s.serving.n
    case ReadPeer => s.serving.WantsPeer? && Unread(s.up, s.upRead) >= 12
    case SendAnswer(k) => s.serving.Answering? && 0 < k <= 12 - s.serving.n
    case Store => s.serving.WillStore?
    case IqLooks => s.iqNonce == [] && s.stored != []
    case IqSends(chunk) => s.iqNonce != []
    case TakeMagic => s.proxy.WantsMagic? && Unread(s.down, s.downRead) >= 12
    case Probe => s.proxy.WillProbe?
    case TakeAck => s.proxy.WantsAck? && Unread(s.down, s.downRead) >= 5
    case SendNonce => s.proxy.WillSendNonce?
    case TakeNonce => s.proxy.WantsNonce? && Unread(s.down, s.downRead) >= 12
  }

  function Next(c: Config, s: State, step: Step): State
    requires Enabled(s, step)
  {
    match step
    case SendMagic(k) =>
      s.(magicSent := s.magicSent + k, down := s.down + c.magic[s.magicSent..s.magicSent + k])
    case StartControl(now, later) => s.(serving := WantsProbe(Fresh(now, later, COMMAND_RATE_LIMIT_INTERVAL)))
    case ReadProbe(now) =>
      var frame := s.up[s.upRead..s.upRead + 5];
      var t := s.(upRead := s.upRead + 5);
      if !s.serving.limiter.Allows(now) then t
      else if frame[0] == CMD_CHAIN_DETECT then t.(serving := Acking(0))
      else t.(serving := WantsProbe(s.serving.limiter.After(now)))
    case SendAck(k) =>
      var n := s.serving.n + k;
      s.(down := s.down + ACK[s.serving.n..n], serving := if n < 5 then Acking(n) else WantsPeer)
    case ReadPeer =>
      s.(upRead := s.upRead + 12, serving := Answering(s.up[s.upRead..s.upRead + 12], 0))
    case SendAnswer(k) =>
      var n := s.serving.n + k;
      s.(down := s.down + c.serverNonce[s.serving.n..n],
         serving := if n < 12 then Answering(s.serving.peer, n) else WillStore(s.serving.peer))
    case Store => s.(stored := [(c.serverNonce, s.serving.peer)], serving := Ready(s.serving.peer))
    case IqLooks => s.(iqNonce := [s.stored[0].0])
    case IqSends(chunk) =>
      var ks := StreamOf(c.family, c.key, s.iqNonce[0]);
      s.(down := s.down + Mask(ks, |s.iq|, chunk), iq := s.iq + chunk)
    case TakeMagic =>
      s.(cached := s.down[s.downRead..s.downRead + 12], downRead := s.downRead + 12, proxy := WillProbe)
    case Probe => s.(up := s.up + PROBE, proxy := WantsAck)
    case TakeAck =>
      var ack: Frame := s.down[s.downRead..s.downRead + 5];
      s.(downRead := s.downRead + 5, proxy := if ack[0] == CMD_CHAIN_DETECT then WillSendNonce else Plain)
    case SendNonce => s.(up := s.up + c.proxyNonce, proxy := WantsNonce)
    case TakeNonce =>
      s.(downRead := s.downRead + 12, proxy := Linked(s.down[s.downRead..s.downRead + 12], c.proxyNonce))
  }

  // ---------- what every step keeps ----------

  function AckSent(s: State): nat
  {
    match s.serving
    case NotStarted => 0
    case WantsProbe(_) => 0
    case Acking(n) => Min(n, 5)
    case _ => 5
  }

  function AnswerSent(s: State): nat
  {
    match s.serving
    case Answering(_, n) => Min(n, 12)
    case WillStore(_) => 12
    case Ready(_) => 12
    case _ => 0
  }

  /** The bytes the three server threads have put on the wire so far, in order. */
  function Sent(c: Config, s: State): seq<byte>
  {
    c.magic[..Min(s.magicSent, 12)] + ACK[..AckSent(s)] + c.serverNonce[..AnswerSent(s)]
    + Mask(c.IqStream(), 0, s.iq)
  }

  function TakenByProxy(p: Proxy): nat
  {
    match p
    case WantsMagic => 0
    case WillProbe => 12
    case WantsAck => 12
    case Linked(_, _) => 29
    case _ => 17
  }

  function SentByProxy(c: Config, p: Proxy): seq<byte>
  {
    match p
    case WantsMagic => []
    case WillProbe => []
    case WantsNonce => PROBE + c.proxyNonce
    case Linked(_, _) => PROBE + c.proxyNonce
    case _ => PROBE
  }

  function TakenByServer(s: Serving): nat
  {
    match s
    case NotStarted => 0
    case WantsProbe(_) => 0
    case Acking(_) => 5
    case WantsPeer => 5
    case _ => 17
  }

  /** The server's limiter has dropped the probe. */
  predicate Dropped(s: State) { s.serving.WantsProbe? && s.upRead == 5 }

  ghost predicate Inv(c: Config, s: State)
  {
    && s.magicSent <= 12 && (!s.serving.NotStarted? ==> s.magicSent == 12)
    && (s.serving.WantsProbe? ==> s.serving.limiter.interval == COMMAND_RATE_LIMIT_INTERVAL)
    && (s.serving.Acking? ==> s.serving.n < 5)
    && (s.serving.Answering? ==> s.serving.n < 12 && s.serving.peer == c.proxyNonce)
    && (s.serving.WillStore? ==> s.serving.peer == c.proxyNonce)
    && (s.serving.Ready? ==> s.serving.peer == c.proxyNonce)
    && s.stored == (if s.serving.Ready? then [(c.serverNonce, c.proxyNonce)] else [])
    && (s.iqNonce == [] || (s.serving.Ready? && s.iqNonce == [c.serverNonce]))
    && (s.iqNonce == [] ==> s.iq == [])
    && s.down == Sent(c, s) && s.downRead == TakenByProxy(s.proxy) <= |s.down|
    && s.up == SentByProxy(c, s.proxy) && (s.upRead == TakenByServer(s.serving) || Dropped(s)) && s.upRead <= |s.up|
    && !s.proxy.Plain? && (s.proxy.Linked? ==> s.proxy == Linked(c.serverNonce, c.proxyNonce))
    && s.cached == (if s.proxy.WantsMagic? then [] else c.magic)
  }

  lemma TakeMore(front: seq<byte>, bs: seq<byte>, n: nat, k: nat)
    requires n + k <= |bs|
    ensures front + bs[..n + k] == front + bs[..n] + bs[n..n + k]
  {
  }

  lemma AcceptorKeeps(c: Config, s: State, k: nat)
    requires Inv(c, s) && Enabled(s, SendMagic(k))
    ensures Inv(c, Next(c, s, SendMagic(k)))
  {
    TakeMore([], c.magic, s.magicSent, k);
  }

  lemma AckKeeps(c: Config, s: State, k: nat)
    requires Inv(c, s) && Enabled(s, SendAck(k))
    ensures Inv(c, Next(c, s, SendAck(k)))
  {
    TakeMore(c.magic, ACK, s.serving.n, k);
  }

  lemma AnswerKeeps(c: Config, s: State, k: nat)
    requires Inv(c, s) && Enabled(s, SendAnswer(k))
    ensures Inv(c, Next(c, s, SendAnswer(k)))
  {
    TakeMore(c.magic + ACK, c.serverNonce, s.serving.n, k);
  }

  lemma ControlKeeps(c: Config, s: State, step: Step)
    requires Inv(c, s) && Enabled(s, step)
    requires step.StartControl? || step.ReadProbe? || step.ReadPeer? || step.Store?
    ensures Inv(c, Next(c, s, step))
  {
    match step
    case ReadProbe(now) => assert s.up[0..5] == PROBE;
    case ReadPeer => assert s.up[5..17] == c.proxyNonce;
    case _ =>
  }

  lemma IqKeeps(c: Config, s: State, step: Step)
    requires Inv(c, s) && Enabled(s, step) && (step.IqLooks? || step.IqSends?)
    ensures Inv(c, Next(c, s, step))
  {
    match step
    case IqSends(chunk) =>
      var ks, front := c.IqStream(), c.magic[..12] + ACK[..5] + c.serverNonce[..12];
      MaskAppend(ks, 0, s.iq, chunk);
      Regroup(front, Mask(ks, 0, s.iq), Mask(ks, |s.iq|, chunk));
    case _ =>
  }

  lemma ProxyKeeps(c: Config, s: State, step: Step)
    requires Inv(c, s) && Enabled(s, step)
    requires step.TakeMagic? || step.Probe? || step.TakeAck? || step.SendNonce? || step.TakeNonce?
    ensures Inv(c, Next(c, s, step))
  {
    SentIsScript(c, s);
    match step
    case TakeMagic => assert s.down[0..12] == c.magic;
    case TakeAck => assert s.down[12..17] == ACK;
    case TakeNonce => assert s.down[17..29] == c.serverNonce;
    case _ =>
  }

  /** All that the server sends on one connection. */
  function Script(c: Config, iq: seq<byte>): seq<byte>
  {
    c.magic + ACK + c.serverNonce + Mask(c.IqStream(), 0, iq)
  }

  lemma SentIsScript(c: Config, s: State)
    requires Inv(c, s)
    ensures s.down <= Script(c, s.iq)
  {
  }

  lemma StepKeeps(c: Config, s: State, step: Step)
    requires Inv(c, s) && Enabled(s, step)
    ensures Inv(c, Next(c, s, step))
  {
    match step
    case IqLooks => IqKeeps(c, s, step);
    case IqSends(_) => IqKeeps(c, s, step);
    case TakeMagic => ProxyKeeps(c, s, step);
    case Probe => ProxyKeeps(c, s, step);
    case TakeAck => ProxyKeeps(c, s, step);
    case SendNonce => ProxyKeeps(c, s, step);
    case TakeNonce => ProxyKeeps(c, s, step);
    case SendMagic(k) => AcceptorKeeps(c, s, k);
    case SendAck(k) => AckKeeps(c, s, k);
    case SendAnswer(k) => AnswerKeeps(c, s, k);
    case _ => ControlKeeps(c, s, step);
  }

  // ---------- whole runs ----------

  ghost predicate Reaches(c: Config, s: State, steps: seq<Step>, t: State)
    decreases |steps|
  {
    if steps == [] then s == t
    else Enabled(s, steps[0]) && Reaches(c, Next(c, s, steps[0]), steps[1..], t)
  }

  lemma {:induction false} RunKeeps(c: Config, s: State, steps: seq<Step>, t: State)
    requires Inv(c, s) && Reaches(c, s, steps, t)
    ensures Inv(c, t)
    decreases |steps|
  {
    if steps != [] {
      StepKeeps(c, s, steps[0]);
      RunKeeps(c, Next(c, s, steps[0]), steps[1..], t);
    }
  }

  /** In every reachable state, whatever the order of the threads' steps and however their
      writes are cut up, the bytes from server to proxy are the beginning of magic packet,
      acknowledgement, server nonce, encrypted IQ; and a proxy that has finished holds the
      nonces that the server reads commands and writes IQ with. */
  lemma Agreement(c: Config, steps: seq<Step>, t: State)
    requires Reaches(c, Start(), steps, t)
    ensures t.down <= Script(c, t.iq) && t.downRead <= |t.down| && !t.proxy.Plain?
    ensures t.proxy.Linked? ==>
              && t.proxy == Linked(c.serverNonce, c.proxyNonce) && t.cached == c.magic
              && t.down[t.downRead..] == Mask(c.IqStream(), 0, t.iq)
    ensures t.proxy.Linked? && t.stored != [] ==> t.stored[0] == (t.proxy.readNonce, t.proxy.writeNonce)
    ensures t.proxy.Linked? && t.iqNonce != [] ==> t.iqNonce[0] == t.proxy.readNonce
    ensures t.iq != [] ==> t.stored != []
  {
    RunKeeps(c, Start(), steps, t);
    SentIsScript(c, t);
    if t.proxy.Linked? {
      assert t.down == (c.magic + ACK + c.serverNonce) + Mask(c.IqStream(), 0, t.iq);
    }
  }

  // ---------- no deadlock ----------

  predicate Done(s: State) { s.proxy.Linked? && s.serving.Ready? }

  predicate IsHandshake(step: Step) { !step.IqLooks? && !step.IqSends? }

  function Measure(s: State): nat
  {
    var acceptor := if s.magicSent <= 12 then 12 - s.magicSent else 0;
    var control := match s.serving
      case NotStarted => 21
      case WantsProbe(_) => if Dropped(s) then 14 else 20
      case Acking(n) => 19 - Min(n, 5)
      case WantsPeer => 14
      case Answering(_, n) => 13 - Min(n, 12)
      case WillStore(_) => 1
      case Ready(_) => 0;
    var proxy := match s.proxy
      case WantsMagic => 5
      case WillProbe => 4
      case WantsAck => 3
      case WillSendNonce => 2
      case WantsNonce => 1
      case _ => 0;
    acceptor + control + proxy
  }

  /** Every step of the set-up brings it nearer its end. */
  lemma StepDecreases(c: Config, s: State, step: Step)
    requires Inv(c, s) && Enabled(s, step)
    ensures IsHandshake(step) ==> Measure(Next(c, s, step)) < Measure(s)
    ensures !IsHandshake(step) ==> Measure(Next(c, s, step)) == Measure(s)
  {
    SentIsScript(c, s);
    if step.ReadProbe? {
      assert s.up[0..5] == PROBE;
    }
  }

  /** The set-up is not stuck unless the probe was dropped: until it is done, some thread can
      take a step of it that does not drop the probe. */
  lemma SomeStepEnabled(c: Config, s: State) returns (step: Step)
    requires Inv(c, s) && !Done(s) && !Dropped(s)
    ensures IsHandshake(step) && Enabled(s, step) && !Dropped(Next(c, s, step))
    ensures |Next(c, s, step).down| <= |s.down| + 1
  {
    match s.proxy
    case WantsMagic => step := if s.magicSent < 12 then SendMagic(1) else TakeMagic;
    case WillProbe => step := Probe;
    case WillSendNonce => step := SendNonce;
    case WantsAck =>
      step := match s.serving
        case NotStarted => StartControl(0, 0)
        case WantsProbe(l) => ReadProbe(l.last + COMMAND_RATE_LIMIT_INTERVAL)
        case Acking(_) => SendAck(1)
        case _ => TakeAck;
      if s.serving.WantsProbe? {
        assert s.up[0..5] == PROBE;
      }
    case WantsNonce =>
      step := match s.serving
        case WantsPeer => ReadPeer
        case Answering(_, _) => SendAnswer(1)
        case WillStore(_) => Store
        case _ => TakeNonce;
    case _ => step := Store;
  }

  lemma {:induction false} Completes(c: Config, s: State) returns (steps: seq<Step>, t: State)
    requires Inv(c, s) && !Dropped(s)
    ensures Reaches(c, s, steps, t) && Done(t)
    ensures t.iq == s.iq && t.iqNonce == s.iqNonce && Inv(c, t)
    decreases Measure(s)
  {
    if Done(s) {
      steps, t := [], s;
    } else {
      var step := SomeStepEnabled(c, s);
      StepKeeps(c, s, step);
      StepDecreases(c, s, step);
      var rest;
      rest, t := Completes(c, Next(c, s, step));
      steps := [step] + rest;
    }
  }

  function HandshakeSteps(steps: seq<Step>): nat
  {
    if steps == [] then 0 else (if IsHandshake(steps[0]) then 1 else 0) + HandshakeSteps(steps[1..])
  }

  lemma {:induction false} StepsBounded(c: Config, s: State, steps: seq<Step>, t: State)
    requires Inv(c, s) && Reaches(c, s, steps, t)
    ensures HandshakeSteps(steps) + Measure(t) <= Measure(s)
    decreases |steps|
  {
    if steps != [] {
      StepKeeps(c, s, steps[0]);
      StepDecreases(c, s, steps[0]);
      StepsBounded(c, Next(c, s, steps[0]), steps[1..], t);
    }
  }

  // ---------- exactly when it completes ----------

  /** The limiter of the control thread, and the clock reading at which the probe is checked. */
  function LimiterIn(steps: seq<Step>): seq<Limiter>
  {
    if steps == [] then []
    else match steps[0]
      case StartControl(now, later) => [Fresh(now, later, COMMAND_RATE_LIMIT_INTERVAL)]
      case _ => LimiterIn(steps[1..])
  }

  function CheckIn(steps: seq<Step>): seq<nat>
  {
    if steps == [] then []
    else match steps[0]
      case ReadProbe(now) => [now]
      case _ => CheckIn(steps[1..])
  }

  /** The probe is the first command that a new limiter sees. */
  predicate FirstCheckPasses(steps: seq<Step>)
  {
    LimiterIn(steps) == [] || CheckIn(steps) == [] || LimiterIn(steps)[0].Allows(CheckIn(steps)[0])
  }

  predicate Checked(s: State) { Dropped(s) || !(s.serving.NotStarted? || s.serving.WantsProbe?) }

  /** A probe is checked once, and a dropped one stays dropped. */
  lemma {:induction false} CheckedOnce(c: Config, s: State, steps: seq<Step>, t: State)
    requires Inv(c, s) && Checked(s) && Reaches(c, s, steps, t)
    ensures Checked(t) && CheckIn(steps) == [] && (Dropped(t) <==> Dropped(s))
    decreases |steps|
  {
    if steps != [] {
      SentIsScript(c, s);
      StepKeeps(c, s, steps[0]);
      CheckedOnce(c, Next(c, s, steps[0]), steps[1..], t);
    }
  }

  lemma {:induction false} WaitingDecides(c: Config, s: State, steps: seq<Step>, t: State)
    requires Inv(c, s) && s.serving.WantsProbe? && !Dropped(s) && Reaches(c, s, steps, t)
    ensures Dropped(t) <==> CheckIn(steps) != [] && !s.serving.limiter.Allows(CheckIn(steps)[0])
    decreases |steps|
  {
    if steps != [] {
      var u := Next(c, s, steps[0]);
      StepKeeps(c, s, steps[0]);
      if steps[0].ReadProbe? {
        assert s.up[0..5] == PROBE;
        CheckedOnce(c, u, steps[1..], t);
      } else {
        WaitingDecides(c, u, steps[1..], t);
      }
    }
  }

  lemma {:induction false} StartDecides(c: Config, s: State, steps: seq<Step>, t: State)
    requires Inv(c, s) && s.serving.NotStarted? && Reaches(c, s, steps, t)
    ensures Dropped(t) <==> !FirstCheckPasses(steps)
    decreases |steps|
  {
    if steps != [] {
      var u := Next(c, s, steps[0]);
      StepKeeps(c, s, steps[0]);
      if steps[0].StartControl? {
        WaitingDecides(c, u, steps[1..], t);
      } else {
        StartDecides(c, u, steps[1..], t);
      }
    }
  }

  ghost predicate CanComplete(c: Config, s: State)
  {
    exists more, u :: Reaches(c, s, more, u) && Done(u)
  }

  lemma DroppedIsStuck(c: Config, s: State, step: Step)
    requires Inv(c, s) && Dropped(s) && IsHandshake(step)
    ensures !Enabled(s, step)
  {
    SentIsScript(c, s);
  }

  /** Every run has at most 38 steps of the set-up. It can be continued to the end of the set-up
      exactly when the limiter has not dropped the probe, and until that end some step of the
      set-up is enabled; when it has, none is. */
  lemma NoDeadlock(c: Config, steps: seq<Step>, t: State)
    requires Reaches(c, Start(), steps, t)
    ensures HandshakeSteps(steps) <= 38
    ensures CanComplete(c, t) <==> FirstCheckPasses(steps)
    ensures !Done(t) ==> ((exists step :: IsHandshake(step) && Enabled(t, step)) <==> FirstCheckPasses(steps))
  {
    RunKeeps(c, Start(), steps, t);
    StepsBounded(c, Start(), steps, t);
    StartDecides(c, Start(), steps, t);
    if Dropped(t) {
      forall step | IsHandshake(step)
        ensures !Enabled(t, step)
      {
        DroppedIsStuck(c, t, step);
      }
      forall more, u | Reaches(c, t, more, u)
        ensures !Done(u)
      {
        CheckedOnce(c, t, more, u);
      }
    } else {
      var more, u := Completes(c, t);
      if !Done(t) {
        var step := SomeStepEnabled(c, t);
      }
    }
  }

  // ---------- and what then flows ----------

  lemma {:induction false} ReachesAppend(c: Config, s: State, a: seq<Step>, t: State, b: seq<Step>, u: State)
    requires Reaches(c, s, a, t) && Reaches(c, t, b, u)
    ensures Reaches(c, s, a + b, u)
    decreases |a|
  {
    if a == [] {
      assert a + b == b;
    } else {
      assert (a + b)[1..] == a[1..] + b;
      ReachesAppend(c, Next(c, s, a[0]), a[1..], t, b, u);
    }
  }

  /** The IQ writer, when the set-up is done. */
  lemma IqSent(c: Config, s: State, chunk: seq<byte>) returns (steps: seq<Step>, t: State)
    requires Inv(c, s) && Done(s)
    ensures Reaches(c, s, steps, t) && Inv(c, t) && Done(t) && t.iq == s.iq + chunk
  {
    var looked := if s.iqNonce == [] then [IqLooks] else [];
    var u := if s.iqNonce == [] then Next(c, s, IqLooks) else s;
    assert Reaches(c, s, looked, u);
    if s.iqNonce == [] {
      StepKeeps(c, s, IqLooks);
    }
    StepKeeps(c, u, IqSends(chunk));
    t := Next(c, u, IqSends(chunk));
    assert [IqSends(chunk)][1..] == [];
    assert Reaches(c, u, [IqSends(chunk)], t);
    ReachesAppend(c, s, looked, u, [IqSends(chunk)], t);
    steps := looked + [IqSends(chunk)];
  }

  lemma DoneIsScript(c: Config, s: State)
    requires Inv(c, s) && Done(s)
    ensures s.down == Script(c, s.iq)
  {
  }

  /** From every reachable state in which the probe has not been dropped, the set-up can be
      completed and any chunk of IQ sent behind it. */
  lemma IqFlows(c: Config, past: seq<Step>, s: State, chunk: seq<byte>) returns (steps: seq<Step>, t: State)
    requires Reaches(c, Start(), past, s) && FirstCheckPasses(past)
    ensures Reaches(c, s, steps, t) && Done(t)
    ensures t.iq == s.iq + chunk && t.down == Script(c, t.iq)
  {
    RunKeeps(c, Start(), past, s);
    StartDecides(c, Start(), past, s);
    var first, u := Completes(c, s);
    var rest;
    rest, t := IqSent(c, u, chunk);
    ReachesAppend(c, s, first, u, rest, t);
    steps := first + rest;
    DoneIsScript(c, t);
  }

  /** A byte at a time, the set-up can be brought to any length of what is sent before IQ. */
  lemma {:induction false} ReachesLength(c: Config, s: State, n: nat) returns (steps: seq<Step>, t: State)
    requires Inv(c, s) && !Dropped(s) && s.iq == [] && |s.down| <= n <= 29
    ensures Reaches(c, s, steps, t) && Inv(c, t) && !Dropped(t) && t.iq == [] && |t.down| == n
    decreases Measure(s)
  {
    if |s.down| == n {
      steps, t := [], s;
    } else {
      if Done(s) {
        DoneIsScript(c, s);
      }
      var step := SomeStepEnabled(c, s);
      StepKeeps(c, s, step);
      StepDecreases(c, s, step);
      var rest;
      rest, t := ReachesLength(c, Next(c, s, step), n);
      steps := [step] + rest;
      assert steps[1..] == rest;
    }
  }

  ghost predicate Reachable(c: Config, wire: seq<byte>)
  {
    exists steps, t :: Reaches(c, Start(), steps, t) && t.down == wire
  }

  lemma PrefixReachable(c: Config, iq: seq<byte>, n: nat)
    requires n <= |Script(c, iq)|
    ensures Reachable(c, Script(c, iq)[..n])
  {
    var steps, t := ReachesLength(c, Start(), Min(n, 29));
    SentIsScript(c, t);
    ScriptTake(c, iq, n);
    if n <= 29 {
      assert t.down == Script(c, [])[..n];
    } else {
      var first, u := Completes(c, t);
      var rest, v := IqSent(c, u, iq[..n - 29]);
      ReachesAppend(c, Start(), steps, t, first, u);
      ReachesAppend(c, Start(), steps + first, u, rest, v);
      DoneIsScript(c, v);
      assert v.iq == iq[..n - 29];
    }
  }

  lemma ScriptTake(c: Config, iq: seq<byte>, n: nat)
    requires n <= |Script(c, iq)|
    ensures if n <= 29 then n <= |Script(c, [])| && Script(c, iq)[..n] == Script(c, [])[..n]
            else Script(c, iq)[..n] == Script(c, iq[..n - 29])
  {
    var ks, head := c.IqStream(), c.magic + ACK + c.serverNonce;
    if n > 29 {
      MaskAppend(ks, 0, iq[..n - 29], iq[n - 29..]);
      assert iq[..n - 29] + iq[n - 29..] == iq;
      TakeOfConcat(head, Mask(ks, 0, iq), n);
    } else {
      assert Script(c, iq)[..n] == head[..n] == Script(c, [])[..n];
    }
  }

  /** What the proxy can have been sent, over all runs, are exactly the beginnings of magic
      packet, acknowledgement, server nonce, encrypted IQ, for any IQ and cut anywhere. */
  lemma ReachableIff(c: Config, wire: seq<byte>)
    ensures Reachable(c, wire) <==> exists iq: seq<byte> :: wire <= Script(c, iq)
  {
    if Reachable(c, wire) {
      var steps, t :| Reaches(c, Start(), steps, t) && t.down == wire;
      Agreement(c, steps, t);
    }
    if exists iq: seq<byte> :: wire <= Script(c, iq) {
      var iq: seq<byte> :| wire <= Script(c, iq);
      PrefixReachable(c, iq, |wire|);
      assert Script(c, iq)[..|wire|] == wire;
    }
  }

  /** With a clock that does not run backwards the limiter passes the probe exactly when the
      clock had run for an interval before the control thread started, or one has gone by since. */
  lemma ClockDecides(steps: seq<Step>, now: nat, later: nat, at: nat)
    requires LimiterIn(steps) == [Fresh(now, later, COMMAND_RATE_LIMIT_INTERVAL)] && CheckIn(steps) == [at]
    requires now <= later <= at
    ensures FirstCheckPasses(steps) <==>
              now >= COMMAND_RATE_LIMIT_INTERVAL || at - later >= COMMAND_RATE_LIMIT_INTERVAL
  {
    FirstCommand(now, later, COMMAND_RATE_LIMIT_INTERVAL, at);
  }

  // ---------- the exchange on its own ----------

  /** nonce_exchange sends first; server_nonce_exchange receives first. */
  datatype Manner = SendFirst | ReceiveFirst

  datatype Peer = Peer(manner: Manner, nonce: Nonce, sent: bool, got: seq<Nonce>)

  datatype Pair = Pair(a: Peer, b: Peer)

  datatype Move = Sends(first: bool) | Receives(first: bool)

  function Mover(p: Pair, first: bool): Peer { if first then p.a else p.b }

  predicate CanMove(p: Pair, m: Move)
  {
    var (me, other) := (Mover(p, m.first), Mover(p, !m.first));
    match m
    case Sends(_) => !me.sent && (me.manner.SendFirst? || me.got != [])
    case Receives(_) => me.got == [] && other.sent && (me.manner.ReceiveFirst? || me.sent)
  }

  function Moved(p: Pair, m: Move): Pair
    requires CanMove(p, m)
  {
    var (me, other) := (Mover(p, m.first), Mover(p, !m.first));
    var after := if m.Sends? then me.(sent := true) else me.(got := [other.nonce]);
    if m.first then p.(a := after) else p.(b := after)
  }

  ghost predicate PairReaches(p: Pair, moves: seq<Move>, q: Pair)
    decreases |moves|
  {
    if moves == [] then p == q
    else CanMove(p, moves[0]) && PairReaches(Moved(p, moves[0]), moves[1..], q)
  }

  predicate Exchanged(p: Pair) { p.a.sent && p.b.sent && p.a.got != [] && p.b.got != [] }

  ghost predicate PairInv(p: Pair, a: Peer, b: Peer)
  {
    && p.a == a.(sent := p.a.sent, got := p.a.got) && p.b == b.(sent := p.b.sent, got := p.b.got)
    && (p.a.got == [] || (p.a.got == [b.nonce] && p.b.sent))
    && (p.b.got == [] || (p.b.got == [a.nonce] && p.a.sent))
    && (a.manner.ReceiveFirst? && p.a.sent ==> p.a.got != [])
    && (b.manner.ReceiveFirst? && p.b.sent ==> p.b.got != [])
    && (a.manner.SendFirst? && p.a.got != [] ==> p.a.sent)
    && (b.manner.SendFirst? && p.b.got != [] ==> p.b.sent)
  }

  lemma {:induction false} PairRunKeeps(p: Pair, moves: seq<Move>, q: Pair, a: Peer, b: Peer)
    requires PairInv(p, a, b) && PairReaches(p, moves, q)
    ensures PairInv(q, a, b)
    decreases |moves|
  {
    if moves != [] {
      PairRunKeeps(Moved(p, moves[0]), moves[1..], q, a, b);
    }
  }

  predicate Stuck(p: Pair)
  {
    && !Exchanged(p)
    && !CanMove(p, Sends(true)) && !CanMove(p, Sends(false))
    && !CanMove(p, Receives(true)) && !CanMove(p, Receives(false))
  }

  ghost predicate NeverStuck(p: Pair)
  {
    forall moves: seq<Move>, q: Pair :: PairReaches(p, moves, q) ==> !Stuck(q)
  }

  lemma StuckAtOnce(p: Pair)
    requires Stuck(p)
    ensures !NeverStuck(p)
  {
    var moves: seq<Move> := [];
    assert PairReaches(p, moves, p);
  }

  /** Two peers exchanging nonces never get stuck short of the exchange, after any run,
      exactly when at least one of them sends first; and each ends with the other's nonce. */
  lemma ExchangeIff(a: Peer, b: Peer)
    requires !a.sent && !b.sent && a.got == [] && b.got == []
    ensures NeverStuck(Pair(a, b)) <==> a.manner.SendFirst? || b.manner.SendFirst?
    ensures forall moves, q :: PairReaches(Pair(a, b), moves, q) && Exchanged(q) ==>
              q.a.got == [b.nonce] && q.b.got == [a.nonce]
  {
    forall moves, q | PairReaches(Pair(a, b), moves, q)
      ensures PairInv(q, a, b)
    {
      PairRunKeeps(Pair(a, b), moves, q, a, b);
    }
    if a.manner.ReceiveFirst? && b.manner.ReceiveFirst? {
      StuckAtOnce(Pair(a, b));
    }
  }
}
