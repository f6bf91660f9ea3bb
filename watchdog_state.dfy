/**
 * The watchdog's global state as a value, `Device`, and one function per
 * operation of the loop and the request handlers saying what it does to
 * that state.
 *
 * Time is the millisecond clock as an unbounded natural number; a probe's
 * outcome is an input; a restart of the board sets the terminal flag
 * `restarted`, after which no handler and no loop step runs.
 */
module WatchdogState {
  import opened ConfigRecord
  import opened Hysteresis
  import opened Relay
  import opened Timers

  /** How long the OTA window stays open, in seconds. */
  const OTA_TIMER: nat := 10 * 60
  /** The delay the reboot request uses, in seconds. */
  const REBOOT_TIMER: int := 3
  /** The probe period before any configuration is loaded, in seconds. */
  const DEFAULT_PING_PERIOD: int32 := 3
  /** The otaOnTimer value a soft disable leaves, so that the next loop step tears OTA down. */
  const OTA_TEARDOWN: int := 1

  datatype Option<T> = None | Some(value: T)

  datatype Device = Device(
    pingAddress: Bytes,
    pingPeriod: int32,
    pingState: PingState,
    lastChecked: nat,
    rebootRequested: int,
    otaActive: bool,
    otaOnTimer: int,
    relay: Writes,
    restarted: bool)

  /**
   * What every operation keeps: the OTA deadline is set exactly while OTA is
   * on, and the relay pin is settled (every HIGH followed by a LOW).
   */
  predicate Consistent(d: Device)
  {
    && (d.otaActive <==> d.otaOnTimer != 0)
    && d.otaOnTimer >= 0
    && Settled(d.relay)
  }

  /** The globals' initial values, before setup runs. */
  function Boot(): (d: Device)
    ensures Consistent(d) && !d.restarted
  {
    Device([], DEFAULT_PING_PERIOD, Active, 0, 0, false, 0, [], false)
  }

  /** The period gate of the loop: strictly more than the period since the last evaluation. */
  predicate Due(d: Device, now: nat)
  {
    now > d.lastChecked + d.pingPeriod as int * MILLIS_PER_SECOND
  }

  /**
   * The probe-and-transition part of the loop. When the gate is open it
   * moves the ping state, pulses the relay on the INTERMEDIATE failure, and
   * records the time whatever the outcome; nothing else changes.
   */
  function PingStep(d: Device, now: nat, probeOk: bool): (e: Device)
    ensures e == d.(pingState := e.pingState, relay := e.relay, lastChecked := e.lastChecked)
    ensures !Due(d, now) ==> e == d
    ensures Due(d, now) ==> e.pingState == OnProbe(d.pingState, probeOk).state
    ensures e.lastChecked == if Due(d, now) then now else d.lastChecked
    ensures Pulses(e.relay) == Pulses(d.relay) + if Due(d, now) && !probeOk && d.pingState == Intermediate then 1 else 0
    ensures Settled(d.relay) ==> Settled(e.relay) && !Level(e.relay)
    ensures Due(d, now) && probeOk ==> e.pingState == Active
    ensures Consistent(d) ==> Consistent(e)
  {
    if Due(d, now) then
      var step := OnProbe(d.pingState, probeOk);
      var writes := if step.pulse then PULSE else [];
      PulsesAppend(d.relay, writes);
      if Settled(d.relay) then
        SettledAppend(d.relay, writes);
        SettledIsIdle(d.relay + writes);
        d.(pingState := step.state, relay := d.relay + writes, lastChecked := now)
      else
        d.(pingState := step.state, relay := d.relay + writes, lastChecked := now)
    else
      if Settled(d.relay) then
        SettledIsIdle(d.relay);
        d
      else
        d
  }

  /**
   * requestReboot: a zero delay restarts at once; any other delay replaces
   * the pending deadline with now plus the delay.
   */
  function RequestReboot(d: Device, now: nat, timer: int): (e: Device)
    ensures e == d.(rebootRequested := e.rebootRequested, restarted := e.restarted)
    ensures timer == 0 ==> e.restarted && e.rebootRequested == d.rebootRequested
    ensures timer != 0 ==> e.restarted == d.restarted && e.rebootRequested - now == timer * MILLIS_PER_SECOND
  {
    if timer == 0 then d.(restarted := true)
    else d.(rebootRequested := now + timer * MILLIS_PER_SECOND)
  }

  /** The loop's deadline check: a deadline that has passed is cleared, then the board restarts. */
  function RebootDue(d: Device, now: nat): (e: Device)
    ensures e == d.(rebootRequested := e.rebootRequested, restarted := e.restarted)
    ensures d.rebootRequested != 0 && now > d.rebootRequested ==> e.restarted && e.rebootRequested == 0
    ensures !(d.rebootRequested != 0 && now > d.rebootRequested) ==> e == d
  {
    if d.rebootRequested != 0 && now > d.rebootRequested then
      RequestReboot(d.(rebootRequested := 0), now, 0)
    else
      d
  }

  /**
   * enableOTA. Enabling opens the window only when OTA is off, so a second
   * enable neither restarts the countdown nor cancels a pending teardown.
   * Disabling does nothing when OTA is off; otherwise a forced disable tears
   * OTA down at once and a soft one leaves the teardown to the next loop step.
   */
  function EnableOta(d: Device, now: nat, enable: bool, forceCommit: bool): (e: Device)
    ensures e == d.(otaActive := e.otaActive, otaOnTimer := e.otaOnTimer)
    ensures enable ==> e.otaActive
    ensures enable && !d.otaActive ==> e.otaOnTimer == now + OTA_TIMER * MILLIS_PER_SECOND
    ensures enable == d.otaActive ==> e == d
    ensures !enable && d.otaActive && forceCommit ==> !e.otaActive && e.otaOnTimer == 0
    ensures !enable && d.otaActive && !forceCommit ==> e.otaActive && e.otaOnTimer == OTA_TEARDOWN
    ensures Consistent(d) ==> Consistent(e)
  {
    if enable then
      if !d.otaActive then d.(otaActive := true, otaOnTimer := now + OTA_TIMER * MILLIS_PER_SECOND)
      else d
    else if d.otaActive then
      if forceCommit then d.(otaActive := false, otaOnTimer := 0)
      else d.(otaOnTimer := OTA_TEARDOWN)
    else
      d
  }

  /** ota_handler: "on", "off" and "toggle"; any other action changes nothing. */
  function OtaHandler(d: Device, now: nat, action: string): (e: Device)
    ensures action == "on" ==> e == EnableOta(d, now, true, false)
    ensures action == "off" ==> e == EnableOta(d, now, false, false)
    ensures action == "toggle" ==> e == EnableOta(d, now, !d.otaActive, false)
    ensures action !in {"on", "off", "toggle"} ==> e == d
  {
    if action == "on" then EnableOta(d, now, true, false)
    else if action == "off" then EnableOta(d, now, false, false)
    else if action == "toggle" then EnableOta(d, now, !d.otaActive, false)
    else d
  }

  /** The loop's OTA expiry: a set deadline that has passed forces OTA down. */
  function OtaDue(d: Device, now: nat): (e: Device)
    ensures e == d.(otaActive := e.otaActive, otaOnTimer := e.otaOnTimer)
    ensures Consistent(d) && d.otaOnTimer != 0 && now > d.otaOnTimer ==> !e.otaActive && e.otaOnTimer == 0
    ensures !(d.otaOnTimer != 0 && now > d.otaOnTimer) ==> e == d
    ensures Consistent(d) ==> Consistent(e)
  {
    if d.otaOnTimer != 0 && now > d.otaOnTimer then EnableOta(d, now, false, true) else d
  }

  /**
   * One pass of the loop: the periodic evaluation, then the reboot deadline
   * (a restart ends the pass), then the OTA expiry. The configuration is
   * never touched.
   */
  function LoopStep(d: Device, now: nat, probeOk: bool): (e: Device)
    ensures e.pingAddress == d.pingAddress && e.pingPeriod == d.pingPeriod
    ensures Consistent(d) ==> Consistent(e)
  {
    var a := PingStep(d, now, probeOk);
    var b := RebootDue(a, now);
    if b.restarted then b else OtaDue(b, now)
  }

  /** The fields of the status report that the core computes. */
  datatype StatusReport = StatusReport(
    ota: bool,
    otaTimer: int,
    pingAddress: Bytes,
    pingPeriod: int32,
    pingState: int,
    reboot: bool,
    rebootTimer: int)

  /**
   * status_handler's report. The OTA flag is whether OTA is on, the reboot
   * flag whether a deadline is armed; each countdown is the whole seconds
   * left to its own deadline, never negative; a running reboot countdown
   * implies the reboot flag, and, in a consistent state, a running OTA
   * countdown implies OTA is on.
   */
  function Status(d: Device, now: nat): (r: StatusReport)
    ensures r.ota == d.otaActive
    ensures r.reboot <==> d.rebootRequested > 0
    ensures r.otaTimer == RemainingSeconds(d.otaOnTimer, now) && r.rebootTimer == RemainingSeconds(d.rebootRequested, now)
    ensures r.pingAddress == d.pingAddress && r.pingPeriod == d.pingPeriod
    ensures r.otaTimer >= 0 && r.rebootTimer >= 0
    ensures r.rebootTimer > 0 ==> r.reboot
    ensures Consistent(d) && r.otaTimer > 0 ==> r.ota
    ensures r.pingState == Ordinal(d.pingState)
  {
    StatusReport(
      d.otaActive,
      RemainingSeconds(d.otaOnTimer, now),
      d.pingAddress,
      d.pingPeriod,
      Ordinal(d.pingState),
      d.rebootRequested > 0,
      RemainingSeconds(d.rebootRequested, now))
  }
}
