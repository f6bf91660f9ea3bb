/**
 * The two-strike hysteresis of the connectivity monitor: a failed probe
 * escalates ACTIVE -> INTERMEDIATE -> DEACTIVE, and only the second of
 * those steps pulses the relay; a successful probe resets to ACTIVE.
 */
module Hysteresis {

  /** The ping state; its ordinal (0, 1, 2) is what the status report shows. */
  datatype PingState = Active | Intermediate | Deactive

  function Ordinal(s: PingState): (n: int)
    ensures 0 <= n <= 2
    ensures n == 0 <==> s == Active
    ensures n == 2 <==> s == Deactive
  {
    match s
    case Active => 0
    case Intermediate => 1
    case Deactive => 2
  }

  /** One evaluation: the state it leads to and whether it pulsed the relay. */
  datatype Step = Step(state: PingState, pulse: bool)

  /** The probe-and-transition of the loop, given the probe's outcome. */
  function OnProbe(s: PingState, probeOk: bool): Step
  {
    if !probeOk then
      if s == Intermediate then Step(Deactive, true)
      else if s == Active then Step(Intermediate, false)
      else Step(s, false)
    else
      Step(Active, false)
  }

  /** The state after a run of evaluations, and how many pulses they made. */
  datatype Trace = Trace(state: PingState, pulses: nat)

  function Run(s: PingState, probes: seq<bool>): Trace
    decreases |probes|
  {
    if probes == [] then Trace(s, 0)
    else
      var step := OnProbe(s, probes[0]);
      var rest := Run(step.state, probes[1..]);
      Trace(rest.state, rest.pulses + if step.pulse then 1 else 0)
  }

  /** n failed probes in a row. */
  function Failures(n: nat): (f: seq<bool>)
    ensures |f| == n && forall i :: 0 <= i < n ==> !f[i]
  {
    seq(n, _ => false)
  }

  /** The number of successful probes in a run. */
  function Successes(probes: seq<bool>): nat
    decreases |probes|
  {
    if probes == [] then 0 else (if probes[0] then 1 else 0) + Successes(probes[1..])
  }

  /**
   * Consecutive failures: from ACTIVE the second one pulses and the machine
   * latches in DEACTIVE, from INTERMEDIATE the first one does, and from
   * DEACTIVE none does.
   */
  lemma {:induction false} ConsecutiveFailures(s: PingState, n: nat)
    ensures s == Active ==>
      Run(s, Failures(n)) == (if n == 0 then Trace(Active, 0) else if n == 1 then Trace(Intermediate, 0) else Trace(Deactive, 1))
    ensures s == Intermediate ==>
      Run(s, Failures(n)) == (if n == 0 then Trace(Intermediate, 0) else Trace(Deactive, 1))
    ensures s == Deactive ==> Run(s, Failures(n)) == Trace(Deactive, 0)
    decreases n
  {
    if n > 0 {
      assert Failures(n)[1..] == Failures(n - 1);
      ConsecutiveFailures(OnProbe(s, false).state, n - 1);
    }
  }

  /**
   * Every pulse after the first needs a successful probe before it: a run
   * pulses at most once more than it has successes, and not at all more
   * when it starts in DEACTIVE.
   */
  lemma {:induction false} PulseBound(s: PingState, probes: seq<bool>)
    ensures Run(s, probes).pulses <= Successes(probes) + if s == Deactive then 0 else 1
    decreases |probes|
  {
    if probes != [] {
      PulseBound(OnProbe(s, probes[0]).state, probes[1..]);
    }
  }

  /** Without a successful probe, the relay is pulsed at most once. */
  lemma AtMostOnePulseWithoutSuccess(s: PingState, probes: seq<bool>)
    requires forall i :: 0 <= i < |probes| ==> !probes[i]
    ensures Run(s, probes).pulses <= 1
  {
    PulseBound(s, probes);
    assert probes == Failures(|probes|);
    NoSuccesses(|probes|);
  }

  lemma {:induction false} NoSuccesses(n: nat)
    ensures Successes(Failures(n)) == 0
  {
    if n > 0 {
      assert Failures(n)[1..] == Failures(n - 1);
      NoSuccesses(n - 1);
    }
  }

  /** Running two stretches of probes is running the first, then the second. */
  lemma {:induction false} RunAppend(s: PingState, p: seq<bool>, q: seq<bool>)
    ensures Run(s, p + q) ==
      Trace(Run(Run(s, p).state, q).state, Run(s, p).pulses + Run(Run(s, p).state, q).pulses)
    decreases |p|
  {
    if p == [] {
      assert p + q == q;
    } else {
      assert (p + q)[1..] == p[1..] + q;
      RunAppend(OnProbe(s, p[0]).state, p[1..], q);
    }
  }

  /** A successful probe resets to ACTIVE whatever came before it, without pulsing. */
  lemma SuccessResets(s: PingState, probes: seq<bool>)
    ensures Run(s, probes + [true]) == Trace(Active, Run(s, probes).pulses)
  {
    RunAppend(s, probes, [true]);
  }
}
