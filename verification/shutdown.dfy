/** The shutdown token: a channel of capacity one that the signal handler, the device read
    callback and the main thread send to without blocking, and that the cancel thread
    receives from once (src/main.rs). */
module Shutdown {
  /** The cancel thread: blocked in recv, then stopping the device, then ended. */
  datatype Cancel = Waiting | Stopping | Ended

  datatype Main = Working | Joining | Joined

  /** full: the channel holds a token. The receiver lives as long as the cancel thread. */
  datatype State = State(full: bool, cancel: Cancel, main: Main, readCancelled: bool, exit: bool)

  function Start(): State { State(false, Waiting, Working, false, false) }

  /** try_send: false when the channel is full or its receiver is gone. */
  function TrySend(s: State): (State, bool)
  {
    if s.full || s.cancel.Ended? then (s, false) else (s.(full := true), true)
  }

  /** Which of the two serve modes; they differ in what the signal handler does. */
  datatype Mode = Single | Multi

  datatype Step = Signal | CallbackFails | MainSends | CancelReceives | CancelEnds | MainJoins

  predicate Enabled(s: State, step: Step)
  {
    match step
    case MainSends => s.main.Working?
    case CancelReceives => s.cancel.Waiting? && s.full
    case CancelEnds => s.cancel.Stopping?
    case MainJoins => s.main.Joining? && s.cancel.Ended?
    case _ => true
  }

  function Next(mode: Mode, s: State, step: Step): State
    requires Enabled(s, step)
  {
    match step
    case Signal =>
      var (t, sent) := TrySend(s);
      if mode.Multi? || !sent then t.(exit := true) else t
    case CallbackFails => TrySend(s).0
    case MainSends => TrySend(s).0.(main := Joining)
    case CancelReceives => s.(full := false, cancel := Stopping)
    case CancelEnds => s.(cancel := Ended, readCancelled := true, exit := true)
    case MainJoins => s.(main := Joined)
  }

  ghost predicate Reaches(mode: Mode, s: State, steps: seq<Step>, t: State)
    decreases |steps|
  {
    if steps == [] then s == t
    else Enabled(s, steps[0]) && Reaches(mode, Next(mode, s, steps[0]), steps[1..], t)
  }

  ghost predicate Inv(s: State)
  {
    && (!s.main.Working? ==> s.full || !s.cancel.Waiting?)
    && (s.cancel.Ended? ==> s.readCancelled && s.exit)
    && (s.main.Joined? ==> s.cancel.Ended?)
  }

  lemma {:induction false} RunKeeps(mode: Mode, s: State, steps: seq<Step>, t: State)
    requires Inv(s) && Reaches(mode, s, steps, t)
    ensures Inv(t)
    decreases |steps|
  {
    if steps != [] {
      RunKeeps(mode, Next(mode, s, steps[0]), steps[1..], t);
    }
  }

  /** The steps that bring main's join nearer: at most two of the cancel thread's and then
      the join itself. */
  function ToJoin(s: State): seq<Step>
  {
    match s.cancel
    case Waiting => [CancelReceives, CancelEnds, MainJoins]
    case Stopping => [CancelEnds, MainJoins]
    case Ended => [MainJoins]
  }

  /** Whatever the signals, failed callbacks and interleaving, when main is at the join a
      token is queued or the cancel thread has received one, so the join is never a
      deadlock: the cancel thread's own remaining steps and then the join are enabled, and
      after it the device read has been cancelled and the exit flag is up. */
  lemma JoinReturns(mode: Mode, steps: seq<Step>, s: State) returns (t: State)
    requires Reaches(mode, Start(), steps, s) && s.main.Joining?
    ensures s.full || !s.cancel.Waiting?
    ensures Reaches(mode, s, ToJoin(s), t)
    ensures t.main.Joined? && t.readCancelled && t.exit
  {
    RunKeeps(mode, Start(), steps, s);
    t := s;
    var left := ToJoin(s);
    if s.cancel.Waiting? {
      t := Next(mode, t, CancelReceives);
      assert left[1..] == ToJoin(t);
    }
    if !s.cancel.Ended? {
      assert ToJoin(t)[1..] == [MainJoins];
      t := Next(mode, t, CancelEnds);
    }
    assert [MainJoins][1..] == [];
    t := Next(mode, t, MainJoins);
  }

  // ---------- what a signal does ----------

  predicate AsksToStop(step: Step) { step.Signal? || step.CallbackFails? || step.MainSends? }

  /** Someone has asked to stop: a token is queued, or the cancel thread has had one. */
  predicate Asked(s: State) { s.full || !s.cancel.Waiting? }

  lemma {:induction false} AskedFor(mode: Mode, s: State, steps: seq<Step>, t: State)
    requires Inv(s) && Reaches(mode, s, steps, t)
    ensures Asked(s) || (exists i :: 0 <= i < |steps| && AsksToStop(steps[i])) <==> Asked(t)
    ensures s.exit ==> t.exit
    ensures mode.Multi? && (exists i :: 0 <= i < |steps| && steps[i] == Signal) ==> t.exit
    decreases |steps|
  {
    if steps != [] {
      AskedFor(mode, Next(mode, s, steps[0]), steps[1..], t);
      assert steps == [steps[0]] + steps[1..];
      assert forall i :: 0 < i < |steps| ==> steps[i] == steps[1..][i - 1];
      assert forall i :: 0 <= i < |steps| - 1 ==> steps[1..][i] == steps[i + 1];
    }
  }

  /** The steps left to the cancel thread when it has been asked to stop. */
  function ToStop(s: State): seq<Step>
  {
    match s.cancel
    case Waiting => [CancelReceives, CancelEnds]
    case Stopping => [CancelEnds]
    case Ended => []
  }

  /** In every reachable state after a signal, a failed callback or main's own token, and in no
      other, the cancel thread can go on by itself to cancel the device read and raise the
      exit flag; in multi-client mode a signal has raised it at once. */
  lemma SignalStops(mode: Mode, steps: seq<Step>, s: State)
    requires Reaches(mode, Start(), steps, s)
    ensures (exists i :: 0 <= i < |steps| && AsksToStop(steps[i])) <==> CanStop(mode, s)
    ensures mode.Multi? && (exists i :: 0 <= i < |steps| && steps[i] == Signal) ==> s.exit
  {
    RunKeeps(mode, Start(), steps, s);
    AskedFor(mode, Start(), steps, s);
    if Asked(s) {
      var t := s;
      if s.cancel.Waiting? {
        t := Next(mode, t, CancelReceives);
        assert ToStop(s)[1..] == [CancelEnds];
      }
      if !s.cancel.Ended? {
        assert [CancelEnds][1..] == [];
        t := Next(mode, t, CancelEnds);
      }
      assert Reaches(mode, s, ToStop(s), t);
    }
  }

  /** A signal raises the exit flag at once in multi-client mode, and in single-client mode
      exactly when its token finds no place. */
  lemma SignalExitsIff(mode: Mode, s: State)
    ensures Next(mode, s, Signal).exit <==> s.exit || mode.Multi? || s.full || s.cancel.Ended?
    ensures Asked(Next(mode, s, Signal))
  {
  }

  ghost predicate CanStop(mode: Mode, s: State)
  {
    exists t :: Reaches(mode, s, ToStop(s), t) && t.readCancelled && t.exit
  }
}
