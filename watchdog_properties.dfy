/**
 * What the watchdog promises over several loop passes and requests: the
 * evaluations follow the hysteresis machine, a reboot deadline fires once
 * and the last request wins, the OTA window keeps its first deadline and
 * closes on time, the status countdowns behave, and the configuration
 * survives a restart.
 */
module WatchdogProperties {
  import opened ConfigRecord
  import opened Hysteresis
  import opened Relay
  import opened Timers
  import opened WatchdogState
  import opened InternetBoxWatchdog

  /** Successive evaluations, each a clock reading and the probe's outcome. */
  function PingSteps(d: Device, steps: seq<(nat, bool)>): Device
    decreases |steps|
  {
    if steps == [] then d else PingSteps(PingStep(d, steps[0].0, steps[0].1), steps[1..])
  }

  /** Every step comes strictly more than a period after the one before it. */
  predicate EachDue(d: Device, steps: seq<(nat, bool)>)
  {
    && (|steps| > 0 ==> steps[0].0 > d.lastChecked + d.pingPeriod as int * MILLIS_PER_SECOND)
    && forall i :: 0 < i < |steps| ==> steps[i].0 > steps[i - 1].0 + d.pingPeriod as int * MILLIS_PER_SECOND
  }

  function Outcomes(steps: seq<(nat, bool)>): (probes: seq<bool>)
    ensures |probes| == |steps| && forall i :: 0 <= i < |steps| ==> probes[i] == steps[i].1
  {
    seq(|steps|, i requires 0 <= i < |steps| => steps[i].1)
  }

  /**
   * When every step is due, the loop's evaluations are exactly the
   * hysteresis machine run over the probe outcomes: same final state, and
   * the relay gets exactly the machine's pulses.
   */
  lemma {:induction false} DueStepsFollowRun(d: Device, steps: seq<(nat, bool)>)
    requires EachDue(d, steps)
    ensures PingSteps(d, steps).pingState == Run(d.pingState, Outcomes(steps)).state
    ensures Pulses(PingSteps(d, steps).relay) == Pulses(d.relay) + Run(d.pingState, Outcomes(steps)).pulses
    decreases |steps|
  {
    if steps != [] {
      var e := PingStep(d, steps[0].0, steps[0].1);
      if |steps| > 1 {
        assert steps[1..][0] == steps[1];
      }
      forall i | 0 < i < |steps[1..]|
        ensures steps[1..][i].0 > steps[1..][i - 1].0 + e.pingPeriod as int * MILLIS_PER_SECOND
      {
        assert steps[1..][i] == steps[i + 1];
      }
      DueStepsFollowRun(e, steps[1..]);
      assert Outcomes(steps)[1..] == Outcomes(steps[1..]);
    }
  }

  /**
   * With a 3-second period, three failed probes in successive periods
   * pulse the relay once and leave the monitor DEACTIVE.
   */
  lemma ThreeFailedPeriods(d: Device)
    requires d.pingState == Active && d.pingPeriod == 3 && d.lastChecked == 0
    ensures PingSteps(d, [(3001, false), (6002, false), (9003, false)]).pingState == Deactive
    ensures Pulses(PingSteps(d, [(3001, false), (6002, false), (9003, false)]).relay) == Pulses(d.relay) + 1
  {
  }

  /**
   * Missed periods coalesce: after an evaluation at `now`, nothing is
   * evaluated again until a full period later, whatever the probe says.
   */
  lemma OneEvaluationPerPeriod(d: Device, now: nat, probeOk: bool, later: nat, laterOk: bool)
    requires Due(d, now)
    requires later <= now + d.pingPeriod as int * MILLIS_PER_SECOND
    ensures PingStep(d, now, probeOk).lastChecked == now
    ensures PingStep(PingStep(d, now, probeOk), later, laterOk) == PingStep(d, now, probeOk)
  {
  }

  /**
   * The loop fires an armed reboot deadline exactly when it has passed,
   * clearing it first; otherwise the deadline is left as it was.
   */
  lemma RebootFiresOnce(d: Device, now: nat, probeOk: bool)
    requires !d.restarted
    ensures LoopStep(d, now, probeOk).restarted <==> d.rebootRequested != 0 && now > d.rebootRequested
    ensures LoopStep(d, now, probeOk).restarted ==> LoopStep(d, now, probeOk).rebootRequested == 0
    ensures !LoopStep(d, now, probeOk).restarted ==> LoopStep(d, now, probeOk).rebootRequested == d.rebootRequested
  {
  }

  /** Of two reboot requests, only the later one's deadline counts. */
  lemma LastRebootRequestWins(d: Device, n1: nat, t1: int, n2: nat, t2: int, now: nat, probeOk: bool)
    requires !d.restarted && t1 != 0 && t2 != 0
    requires n2 + t2 * MILLIS_PER_SECOND != 0
    ensures LoopStep(RequestReboot(RequestReboot(d, n1, t1), n2, t2), now, probeOk).restarted
            <==> now > n2 + t2 * MILLIS_PER_SECOND
  {
  }

  /** Successive "enable" requests. */
  function Enables(d: Device, times: seq<nat>): Device
    decreases |times|
  {
    if times == [] then d else Enables(EnableOta(d, times[0], true, false), times[1..])
  }

  /**
   * Enabling OTA while it is on changes nothing: the countdown is not
   * restarted and a pending teardown is not cancelled.
   */
  lemma {:induction false} EnableWhileOnIsNoOp(d: Device, times: seq<nat>)
    requires d.otaActive
    ensures Enables(d, times) == d
    decreases |times|
  {
    if times != [] {
      EnableWhileOnIsNoOp(EnableOta(d, times[0], true, false), times[1..]);
    }
  }

  /** The first enable sets the 10-minute deadline and later enables keep it. */
  lemma FirstEnableWins(d: Device, n: nat, times: seq<nat>)
    requires !d.otaActive
    ensures Enables(d, [n] + times).otaActive
    ensures Enables(d, [n] + times).otaOnTimer == n + OTA_TIMER * MILLIS_PER_SECOND
  {
    assert ([n] + times)[1..] == times;
    EnableWhileOnIsNoOp(EnableOta(d, n, true, false), times);
  }

  /**
   * A soft "off" on an active window is carried out by the next loop pass
   * (unless the board restarts in it), even if enables come in between.
   */
  lemma SoftDisableTearsDownOnNextLoop(d: Device, n: nat, times: seq<nat>, now: nat, probeOk: bool)
    requires Consistent(d) && d.otaActive && !d.restarted
    requires now > OTA_TEARDOWN
    ensures LoopStep(Enables(OtaHandler(d, n, "off"), times), now, probeOk).restarted ||
            (!LoopStep(Enables(OtaHandler(d, n, "off"), times), now, probeOk).otaActive &&
             LoopStep(Enables(OtaHandler(d, n, "off"), times), now, probeOk).otaOnTimer == 0)
  {
  }

  /**
   * An "on" request with OTA off opens a window that the loop closes as
   * soon as the clock passes the 10-minute deadline, and not before.
   */
  lemma OtaWindowCloses(d: Device, n: nat, now: nat, probeOk: bool)
    requires Consistent(d) && !d.otaActive && !d.restarted && d.rebootRequested == 0
    ensures !LoopStep(OtaHandler(d, n, "on"), now, probeOk).restarted
    ensures LoopStep(OtaHandler(d, n, "on"), now, probeOk).otaActive <==> now <= n + OTA_TIMER * MILLIS_PER_SECOND
  {
  }

  /** "toggle" is "on" when OTA is off and the soft "off" when it is on. */
  lemma ToggleIsOnOrOff(d: Device, n: nat)
    ensures OtaHandler(d, n, "toggle") == OtaHandler(d, n, if d.otaActive then "off" else "on")
  {
  }

  /**
   * Right after a reboot request the status reports the full delay; the
   * countdown never rises, and reads zero once the deadline is reached.
   */
  lemma RebootCountdown(d: Device, n: nat, now1: nat, now2: nat)
    requires n <= now1 <= now2
    ensures Status(RequestReboot(d, n, REBOOT_TIMER), n).reboot
    ensures Status(RequestReboot(d, n, REBOOT_TIMER), n).rebootTimer == REBOOT_TIMER
    ensures Status(RequestReboot(d, n, REBOOT_TIMER), now2).rebootTimer
            <= Status(RequestReboot(d, n, REBOOT_TIMER), now1).rebootTimer
    ensures now2 >= n + REBOOT_TIMER * MILLIS_PER_SECOND ==>
            Status(RequestReboot(d, n, REBOOT_TIMER), now2).rebootTimer == 0
  {
  }

  /**
   * commit, a restart, and setup: the board comes back with the committed
   * period and the first min(64, length) bytes of a NUL-free address.
   */
  method ConfigSurvivesRestart(eeprom: array<byte>, address: Bytes, period: int32)
    returns (loadedPeriod: int32, loadedAddress: Bytes)
    requires eeprom.Length == RECORD_SIZE
    requires forall i :: 0 <= i < |address| ==> address[i] != 0
    modifies eeprom
    ensures loadedPeriod == period
    ensures loadedAddress == address[..StoredLength(address)]
  {
    var before := new Watchdog(eeprom);
    before.Setup();
    before.Commit(address, period);
    assert before.pingAddress == address;
    var after := new Watchdog(eeprom);
    after.Setup();
    RoundTrip(old(eeprom[..]), period, address);
    loadedPeriod, loadedAddress := after.pingPeriod, after.pingAddress;
  }
}
