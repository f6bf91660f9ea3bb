/**
 * The watchdog's globals as the fields of class `Watchdog`. Each method, a
 * request handler or a piece of the loop, states the new fields in full:
 * either as a WatchdogState function of the old ones (RequestReboot,
 * EnableOta, OtaHandler, PingStep, LoopStep, Status) or directly.
 */
module InternetBoxWatchdog {
  import opened ConfigRecord
  import opened Hysteresis
  import opened Relay
  import opened Timers
  import opened WatchdogState

  /** The watchdog's globals, updated in place by the loop and the handlers. */
  class Watchdog {
    var pingAddress: Bytes
    var pingPeriod: int32
    var pingState: PingState
    /** The loop's static lastChecked. */
    var lastChecked: nat
    var rebootRequested: int
    /** Whether the OTA object exists (OTA != NULL). */
    var otaActive: bool
    var otaOnTimer: int
    /** The levels written to the relay pin so far. */
    var relay: Writes
    /** The board has restarted; nothing runs any more. */
    var restarted: bool
    /** The emulated EEPROM region holding the configuration record. */
    const eeprom: array<byte>

    function Model(): Device
      reads this
    {
      Device(pingAddress, pingPeriod, pingState, lastChecked, rebootRequested,
             otaActive, otaOnTimer, relay, restarted)
    }

    ghost predicate Valid()
      reads this
    {
      eeprom.Length == RECORD_SIZE && Consistent(Model())
    }

    /** The globals' initializers, over the EEPROM region the board keeps across restarts. */
    constructor (eeprom: array<byte>)
      requires eeprom.Length == RECORD_SIZE
      ensures Valid() && Model() == Boot() && this.eeprom == eeprom
    {
      pingAddress := [];
      pingPeriod := DEFAULT_PING_PERIOD;
      pingState := Active;
      lastChecked := 0;
      rebootRequested := 0;
      otaActive := false;
      otaOnTimer := 0;
      relay := [];
      restarted := false;
      this.eeprom := eeprom;
    }

    /** setup: drive the relay LOW, then load the period and the address from the record. */
    method Setup()
      requires Valid()
      modifies this
      ensures Valid() && !Level(relay)
      ensures Model() == old(Model()).(relay := old(relay) + [false],
                                       pingPeriod := DecodePeriod(eeprom[..]),
                                       pingAddress := DecodeAddress(eeprom[..]))
    {
      SettledAppend(relay, [false]);
      relay := relay + [false];
      SettledIsIdle(relay);
      pingPeriod := ReadPeriod(eeprom);
      pingAddress := ReadAddress(eeprom);
    }

    /** doSwitch: one pulse, after which the pin is LOW again. */
    method DoSwitch()
      requires Valid()
      modifies this
      ensures Valid() && !Level(relay)
      ensures Model() == old(Model()).(relay := old(relay) + PULSE)
      ensures Pulses(relay) == Pulses(old(relay)) + 1
    {
      OnePulse(relay);
      relay := relay + [true];
      relay := relay + [false];
    }

    /** switch_handler. */
    method Switch()
      requires Valid() && !restarted
      modifies this
      ensures Valid() && !Level(relay)
      ensures Model() == old(Model()).(relay := old(relay) + PULSE)
    {
      DoSwitch();
    }

    /** rearm_handler: back to ACTIVE, no pulse, nothing else changes. */
    method Rearm()
      requires Valid() && !restarted
      modifies this
      ensures Valid() && pingState == Active
      ensures Model() == old(Model()).(pingState := Active)
    {
      pingState := Active;
    }

    method RequestReboot(now: nat, timer: int)
      requires Valid() && !restarted
      modifies this
      ensures Valid()
      ensures Model() == WatchdogState.RequestReboot(old(Model()), now, timer)
    {
      if timer == 0 {
        restarted := true;
      } else {
        rebootRequested := now + timer * MILLIS_PER_SECOND;
      }
    }

    /** reboot_handler: a reboot after the default delay. */
    method Reboot(now: nat)
      requires Valid() && !restarted
      modifies this
      ensures Valid()
      ensures Model() == WatchdogState.RequestReboot(old(Model()), now, REBOOT_TIMER)
    {
      RequestReboot(now, REBOOT_TIMER);
    }

    method EnableOta(now: nat, enable: bool, forceCommit: bool)
      requires Valid() && !restarted
      modifies this
      ensures Valid()
      ensures Model() == WatchdogState.EnableOta(old(Model()), now, enable, forceCommit)
    {
      if enable {
        if !otaActive {
          otaActive := true;
          otaOnTimer := now + OTA_TIMER * MILLIS_PER_SECOND;
        }
      } else {
        if otaActive {
          if forceCommit {
            otaActive := false;
            otaOnTimer := 0;
          } else {
            otaOnTimer := OTA_TEARDOWN;
          }
        }
      }
    }

    method OtaHandler(now: nat, action: string)
      requires Valid() && !restarted
      modifies this
      ensures Valid()
      ensures Model() == WatchdogState.OtaHandler(old(Model()), now, action)
    {
      if action == "on" {
        EnableOta(now, true, false);
      } else if action == "off" {
        EnableOta(now, false, false);
      } else if action == "toggle" {
        EnableOta(now, !otaActive, false);
      }
    }

    /**
     * commit_handler: the new address (untruncated) and period take effect
     * in memory, and the record is rewritten.
     */
    method Commit(address: Bytes, period: int32)
      requires Valid() && !restarted
      modifies this, eeprom
      ensures Valid()
      ensures Model() == old(Model()).(pingAddress := address, pingPeriod := period)
      ensures eeprom[..] == Encode(old(eeprom[..]), period, address)
    {
      pingAddress := address;
      pingPeriod := period;
      WriteRecord(eeprom, pingPeriod, pingAddress);
    }

    /**
     * check_handler: probes the given address, or the configured one, and
     * answers 200 when it is reachable, 404 otherwise; the state is untouched.
     */
    method CheckHandler(address: Option<Bytes>, reachable: Bytes -> bool) returns (code: int)
      requires Valid() && !restarted
      ensures code == 200 || code == 404
      ensures code == 200 <==> reachable(if address.Some? then address.value else pingAddress)
    {
      var target := if address.Some? then address.value else pingAddress;
      code := if reachable(target) then 200 else 404;
    }

    /** status_handler. */
    method StatusHandler(now: nat) returns (report: StatusReport)
      requires Valid() && !restarted
      ensures report == Status(Model(), now)
    {
      report := Status(Model(), now);
    }

    /** The periodic evaluation of the loop. */
    method PingCheck(now: nat, probeOk: bool)
      requires Valid() && !restarted
      modifies this
      ensures Valid()
      ensures Model() == PingStep(old(Model()), now, probeOk)
    {
      if now > lastChecked + pingPeriod as int * MILLIS_PER_SECOND {
        if !probeOk {
          if pingState == Intermediate {
            DoSwitch();
            pingState := Deactive;
          } else if pingState == Active {
            pingState := Intermediate;
          }
        } else {
          pingState := Active;
        }
        lastChecked := now;
      }
    }

    /** One pass of loop, with `now` the clock reading and `probeOk` what check would return. */
    method Loop(now: nat, probeOk: bool)
      requires Valid() && !restarted
      modifies this
      ensures Valid()
      ensures Model() == LoopStep(old(Model()), now, probeOk)
    {
      PingCheck(now, probeOk);
      if rebootRequested != 0 && now > rebootRequested {
        rebootRequested := 0;
        RequestReboot(now, 0);
        return;
      }
      if otaOnTimer != 0 && now > otaOnTimer {
        EnableOta(now, false, true);
      }
    }
  }
}
