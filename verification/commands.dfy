/** The control threads of the server: 5-byte command frames are read, decrypted when the
    link is encrypted, rate limited, validated and turned into device calls (src/main.rs,
    src/control.rs). */
module Commands {
  import opened Bytes
  import opened Control

  // ---------- one frame ----------

  datatype Call = CenterFreq(hz: nat) | SampleRate(rate: nat) | TunerGain(gain: int) | SetPpm(ppm: int)
                | EnableAgc | DisableAgc

  function Unsigned(payload: seq<byte>): nat { BeValue(payload) }

  /** Two's complement. */
  function Signed(payload: seq<byte>): int
    requires |payload| == 4
  {
    var v := BeValue(payload);
    if v < 0x8000_0000 then v else v - TWO_TO_32
  }

  predicate InRange(call: Call)
  {
    match call
    case CenterFreq(hz) => hz <= FREQ_MAX
    case SampleRate(rate) => rate <= SAMPLE_RATE_MAX
    case TunerGain(gain) => TUNER_GAIN_MIN <= gain <= TUNER_GAIN_MAX
    case SetPpm(ppm) => PPM_MIN <= ppm <= PPM_MAX
    case _ => true
  }

  /** The request a frame makes, before validation. */
  function Request(f: Frame): seq<Call>
  {
    var payload := f[1..];
    if f[0] == CMD_SET_FREQUENCY then [CenterFreq(Unsigned(payload))]
    else if f[0] == CMD_SET_SAMPLE_RATE then [SampleRate(Unsigned(payload))]
    else if f[0] == CMD_SET_GAIN_MODE then [if Signed(payload) > 0 then DisableAgc else EnableAgc]
    else if f[0] == CMD_SET_TUNER_GAIN then [TunerGain(Signed(payload))]
    else if f[0] == CMD_SET_PPM then [SetPpm(Signed(payload))]
    else if f[0] == CMD_SET_AGC then [if Unsigned(payload) == 1 then EnableAgc else DisableAgc]
    else []
  }

  /** The device call a frame leads to, if any. */
  function CallOf(f: Frame): seq<Call>
  {
    var r := Request(f);
    if r != [] && InRange(r[0]) then r else []
  }

  predicate Unknown(f: Frame) { Request(f) == [] && f[0] != CMD_CHAIN_DETECT }

  // ---------- the frame for a call ----------

  function Be32(n: nat): seq<byte> { BeBytes(n, 4) }

  function Word(v: int): nat
    requires -0x8000_0000 <= v < TWO_TO_32
  {
    if v >= 0 then v else v + TWO_TO_32
  }

  /** The frame a client sends to ask for a call; gain mode is the other way to ask for AGC. */
  function FrameFor(call: Call): Frame
    requires InRange(call)
  {
    match call
    case CenterFreq(hz) => [CMD_SET_FREQUENCY] + Be32(hz)
    case SampleRate(rate) => [CMD_SET_SAMPLE_RATE] + Be32(rate)
    case TunerGain(gain) => [CMD_SET_TUNER_GAIN] + Be32(Word(gain))
    case SetPpm(ppm) => [CMD_SET_PPM] + Be32(Word(ppm))
    case EnableAgc => [CMD_SET_AGC] + Be32(1)
    case DisableAgc => [CMD_SET_AGC] + Be32(0)
  }

  lemma WordFits(payload: seq<byte>)
    requires |payload| == 4
    ensures BeValue(payload) < TWO_TO_32 && Be32(BeValue(payload)) == payload
  {
    BeInverse(payload);
    BeBound(payload);
    PowLimits();
  }

  lemma WordReads(n: nat)
    requires n < TWO_TO_32
    ensures BeValue(Be32(n)) == n
  {
    PowLimits();
    BeRoundTrip(n, 4);
  }

  /** A setting reaches the device exactly when the frame is the encoding of an in-range
      value, big-endian and in two's complement where it is signed. */
  lemma SettingIff(f: Frame, call: Call)
    requires !call.EnableAgc? && !call.DisableAgc?
    ensures CallOf(f) == [call] <==> InRange(call) && f == FrameFor(call)
  {
    assert f == [f[0]] + f[1..];
    WordFits(f[1..]);
    if InRange(call) {
      match call
      case CenterFreq(hz) => WordReads(hz);
      case SampleRate(rate) => WordReads(rate);
      case TunerGain(gain) => WordReads(Word(gain));
      case SetPpm(ppm) => WordReads(Word(ppm));
    }
  }

  /** What a frame sets, told from its bytes: opcode 1 the frequency up to 2.2 GHz, 2 the sample
      rate up to 3.2 MHz, 4 the gain from 0 to 500, 5 the correction from -200 to 200, and no
      other sets anything; what is out of range is not sent to the device. */
  lemma FrameSets(f: Frame)
    ensures var v := BeValue(f[1..]);
            var signed := if v < 0x8000_0000 then v else v - 0x1_0000_0000;
            Ask(f) ==
              if f[0] == 1 && v <= 2_200_000_000 then [(Frequency, v)]
              else if f[0] == 2 && v <= 3_200_000 then [(Rate, v)]
              else if f[0] == 4 && 0 <= signed <= 500 then [(Gain, signed)]
              else if f[0] == 5 && -200 <= signed <= 200 then [(Correction, signed)]
              else []
    ensures Unknown(f) <==> f[0] !in {1, 2, 3, 4, 5, 8, 0xF0}
  {
    WordFits(f[1..]);
  }

  /** The numbers that can reach the device. */
  lemma {:induction false} CallsAreBounded(frames: seq<Frame>)
    ensures forall i :: 0 <= i < |CallsOf(frames)| ==>
              match CallsOf(frames)[i]
              case CenterFreq(hz) => hz <= 2_200_000_000
              case SampleRate(rate) => rate <= 3_200_000
              case TunerGain(gain) => 0 <= gain <= 500
              case SetPpm(ppm) => -200 <= ppm <= 200
              case _ => true
  {
    if frames != [] {
      CallsAreBounded(frames[..|frames| - 1]);
    }
  }

  /** The two AGC commands have opposite senses: gain mode positive and AGC anything but 1
      both turn it off. */
  lemma AgcIff(f: Frame)
    ensures CallOf(f) == [DisableAgc] <==>
              (f[0] == CMD_SET_GAIN_MODE && 0 < BeValue(f[1..]) < 0x8000_0000)
              || (f[0] == CMD_SET_AGC && BeValue(f[1..]) != 1)
    ensures CallOf(f) == [EnableAgc] <==>
              (f[0] == CMD_SET_GAIN_MODE && !(0 < BeValue(f[1..]) < 0x8000_0000))
              || (f[0] == CMD_SET_AGC && BeValue(f[1..]) == 1)
  {
    WordFits(f[1..]);
  }

  // ---------- histories of calls ----------

  function CallsOf(frames: seq<Frame>): seq<Call>
  {
    if frames == [] then [] else CallsOf(frames[..|frames| - 1]) + CallOf(frames[|frames| - 1])
  }

  function UnknownIn(frames: seq<Frame>): nat
  {
    if frames == [] then 0
    else UnknownIn(frames[..|frames| - 1]) + if Unknown(frames[|frames| - 1]) then 1 else 0
  }

  /** Every value that reaches the device is in range. */
  lemma {:induction false} AllInRange(frames: seq<Frame>)
    ensures forall i :: 0 <= i < |CallsOf(frames)| ==> InRange(CallsOf(frames)[i])
  {
    if frames != [] {
      AllInRange(frames[..|frames| - 1]);
    }
  }

  datatype Setting = Frequency | Rate | Gain | Correction

  function Sets(call: Call): seq<(Setting, int)>
  {
    match call
    case CenterFreq(hz) => [(Frequency, hz)]
    case SampleRate(rate) => [(Rate, rate)]
    case TunerGain(gain) => [(Gain, gain)]
    case SetPpm(ppm) => [(Correction, ppm)]
    case _ => []
  }

  /** The device's settings after a history of calls that all succeed. */
  function SettingsAfter(calls: seq<Call>): map<Setting, int>
  {
    if calls == [] then map[]
    else
      var before, s := SettingsAfter(calls[..|calls| - 1]), Sets(calls[|calls| - 1]);
      if s == [] then before else before[s[0].0 := s[0].1]
  }

  type Asks = s: seq<(Setting, int)> | |s| <= 1

  /** What each frame asks to have set, if it is in range. */
  function AsksOf(frames: seq<Frame>): (asks: seq<Asks>)
    ensures |asks| == |frames|
  {
    if frames == [] then []
    else AsksOf(frames[..|frames| - 1]) + [Ask(frames[|frames| - 1])]
  }

  function Ask(f: Frame): Asks
  {
    if CallOf(f) == [] then [] else Sets(CallOf(f)[0])
  }

  /** Of all the requests, i is the last for setting k, and asks for value v. */
  ghost predicate LastToSet(asks: seq<Asks>, i: nat, k: Setting, v: int)
  {
    && i < |asks| && asks[i] == [(k, v)]
    && forall j :: i < j < |asks| ==> asks[j] == [] || asks[j][0].0 != k
  }

  predicate Has(s: map<Setting, int>, k: Setting, v: int) { k in s && s[k] == v }

  /** After any history of accepted frames, each setting of the device is the one in the
      last in-range frame for it, and is untouched if there was none. */
  lemma {:induction false} LastFrameWins(frames: seq<Frame>, k: Setting, v: int)
    ensures Has(SettingsAfter(CallsOf(frames)), k, v) <==> exists i: nat :: LastToSet(AsksOf(frames), i, k, v)
  {
    if frames != [] {
      var front, last := frames[..|frames| - 1], frames[|frames| - 1];
      LastFrameWins(front, k, v);
      assert CallsOf(frames) == CallsOf(front) + CallOf(last);
      assert AsksOf(frames) == AsksOf(front) + [Ask(last)];
      SettingStep(CallsOf(front), CallOf(last), Ask(last), k, v);
      LastToSetStep(AsksOf(front), Ask(last), k, v);
    }
  }

  lemma LastToSetStep(asks: seq<Asks>, last: Asks, k: Setting, v: int)
    ensures (exists i: nat :: LastToSet(asks + [last], i, k, v)) <==>
              last == [(k, v)] || ((last == [] || last[0].0 != k) && exists i: nat :: LastToSet(asks, i, k, v))
  {
    var n, all := |asks|, asks + [last];
    if last == [(k, v)] {
      assert LastToSet(all, n, k, v);
    }
    if i: nat :| LastToSet(asks, i, k, v) && (last == [] || last[0].0 != k) {
      assert LastToSet(all, i, k, v);
    }
    if i: nat :| LastToSet(all, i, k, v) && i < n {
      assert all[n] == last;
      assert forall j :: 0 <= j < n ==> asks[j] == all[j];
      assert LastToSet(asks, i, k, v);
    }
  }

  lemma SettingStep(calls: seq<Call>, more: seq<Call>, ask: Asks, k: Setting, v: int)
    requires |more| <= 1 && ask == if more == [] then [] else Sets(more[0])
    ensures Has(SettingsAfter(calls + more), k, v) <==>
              ask == [(k, v)] || ((ask == [] || ask[0].0 != k) && Has(SettingsAfter(calls), k, v))
  {
    if more == [] {
      assert calls + more == calls;
    } else {
      assert (calls + more)[..|calls|] == calls;
      assert ask == [] || ask == [(ask[0].0, ask[0].1)];
    }
  }

  // ---------- AGC ----------

  function AgcOf(call: Call): seq<bool>
  {
    match call
    case EnableAgc => [true]
    case DisableAgc => [false]
    case _ => []
  }

  /** The last AGC request in a history of calls; AGC counts as on before any. */
  function AgcAfter(calls: seq<Call>): bool
  {
    if calls == [] then true
    else
      var a := AgcOf(calls[|calls| - 1]);
      if a == [] then AgcAfter(calls[..|calls| - 1]) else a[0]
  }

  /** The changes among the AGC requests. */
  function Changes(calls: seq<Call>): seq<bool>
  {
    if calls == [] then []
    else
      var front, a := calls[..|calls| - 1], AgcOf(calls[|calls| - 1]);
      Changes(front) + if a == [] || a[0] == AgcAfter(front) then [] else a
  }

  /** Changes are off, on, off, on, ... */
  lemma {:induction false} ChangesAlternate(calls: seq<Call>)
    ensures forall i :: 0 <= i < |Changes(calls)| ==> Changes(calls)[i] == (i % 2 == 1)
    ensures AgcAfter(calls) == (|Changes(calls)| % 2 == 0)
  {
    if calls != [] {
      ChangesAlternate(calls[..|calls| - 1]);
    }
  }

  lemma AgcStep(calls: seq<Call>, call: Call)
    ensures AgcAfter(calls + [call]) == if AgcOf(call) == [] then AgcAfter(calls) else AgcOf(call)[0]
    ensures Changes(calls + [call]) == Changes(calls)
              + if AgcOf(call) == [] || AgcOf(call)[0] == AgcAfter(calls) then [] else AgcOf(call)
  {
    assert (calls + [call])[..|calls|] == calls;
  }

  // ---------- the device and the handler ----------

  /** The device handle, the shared AGC flag and what is announced about it. acted is the
      history of the frames that control threads have acted on, from all masters. */
  class Device {
    var calls: seq<Call>
    const agc: AgcState
    var announced: seq<bool>
    var unknown: nat
    ghost var acted: seq<Frame>

    /** The calls are those of the frames, the flag is the last AGC request sent to the
        device, and every change of the flag and nothing else was announced. */
    ghost predicate Valid()
      reads this, agc
    {
      && calls == CallsOf(acted) && unknown == UnknownIn(acted)
      && agc.enabled == AgcAfter(calls) && announced == Changes(calls)
    }

    constructor ()
      ensures Valid() && fresh(agc) && acted == []
    {
      agc := new AgcState();
      calls, announced, unknown, acted := [], [], 0, [];
    }

    method Perform(call: Call)
      requires AgcOf(call) == [] && agc.enabled == AgcAfter(calls) && announced == Changes(calls)
      modifies this`calls
      ensures agc.enabled == AgcAfter(calls) && announced == Changes(calls)
      ensures calls == old(calls) + [call]
    {
      AgcStep(calls, call);
      calls := calls + [call];
    }

    method TurnAgc(on: bool)
      requires agc.enabled == AgcAfter(calls) && announced == Changes(calls)
      modifies this`calls, this`announced, agc
      ensures agc.enabled == AgcAfter(calls) && announced == Changes(calls)
      ensures calls == old(calls) + [if on then EnableAgc else DisableAgc]
    {
      AgcStep(calls, if on then EnableAgc else DisableAgc);
      var changed;
      if on {
        changed := agc.Enable();
      } else {
        changed := agc.Disable();
      }
      if changed {
        announced := announced + [on];
      }
      calls := calls + [if on then EnableAgc else DisableAgc];
    }

    /** The arms of both control loops, on a frame that is not a chain probe. */
    method Dispatch(buf: array<byte>)
      requires buf.Length == 5 && buf[0] != CMD_CHAIN_DETECT
      requires agc.enabled == AgcAfter(calls) && announced == Changes(calls)
      modifies this`calls, this`announced, this`unknown, agc
      ensures agc.enabled == AgcAfter(calls) && announced == Changes(calls)
      ensures calls == old(calls) + CallOf(buf[..])
      ensures unknown == old(unknown) + if Unknown(buf[..]) then 1 else 0
    {
      var cmd, payload := buf[0], buf[1..];
      assert buf[..][1..] == payload;
      assert calls + [] == calls;
      if cmd == CMD_SET_FREQUENCY {
        var freq := BeValue(payload);
        if freq > FREQ_MAX {
          return;
        }
        Perform(CenterFreq(freq));
      } else if cmd == CMD_SET_SAMPLE_RATE {
        var rate := BeValue(payload);
        if rate > SAMPLE_RATE_MAX {
          return;
        }
        Perform(SampleRate(rate));
      } else if cmd == CMD_SET_GAIN_MODE {
        var gainMode := Signed(payload);
        TurnAgc(!(gainMode > 0));
      } else if cmd == CMD_SET_TUNER_GAIN {
        var gain := Signed(payload);
        if gain < TUNER_GAIN_MIN || TUNER_GAIN_MAX < gain {
          return;
        }
        Perform(TunerGain(gain));
      } else if cmd == CMD_SET_PPM {
        var ppm := Signed(payload);
        if ppm < PPM_MIN || PPM_MAX < ppm {
          return;
        }
        Perform(SetPpm(ppm));
      } else if cmd == CMD_SET_AGC {
        TurnAgc(BeValue(payload) == 1);
      } else {
        unknown := unknown + 1;
      }
    }

    method Handle(buf: array<byte>)
      requires Valid() && buf.Length == 5 && buf[0] != CMD_CHAIN_DETECT
      modifies this, agc
      ensures Valid() && acted == old(acted) + [buf[..]]
    {
      FramesStep(acted, buf[..]);
      Dispatch(buf);
      acted := acted + [buf[..]];
    }

    /** A chain probe is acted on, but not by the device. */
    ghost method NoteProbe(frame: Frame)
      requires Valid() && frame[0] == CMD_CHAIN_DETECT
      modifies this`acted
      ensures Valid() && acted == old(acted) + [frame]
    {
      assert CallOf(frame) == [] && !Unknown(frame);
      FramesStep(acted, frame);
      assert calls + [] == calls;
      acted := acted + [frame];
    }
  }

  lemma FramesStep(frames: seq<Frame>, f: Frame)
    ensures CallsOf(frames + [f]) == CallsOf(frames) + CallOf(f)
    ensures UnknownIn(frames + [f]) == UnknownIn(frames) + if Unknown(f) then 1 else 0
  {
    assert (frames + [f])[..|frames|] == frames;
  }
}
