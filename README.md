# InternetBoxWatchdog in Dafny

A model of the firmware of an ESP8266 relay board that watches an Internet
box. The loop probes a configured address every `PingPeriod` seconds. Two
failed probes in successive periods pulse the relay once, which power-cycles
the box. The monitor then stays DEACTIVE until a probe succeeds or a `rearm`
request arrives. The same loop fires a deferred reboot and closes a 10-minute
OTA (over-the-air update) window. A `commit` request stores the probe address
and period in a 69-byte EEPROM record, and `setup` reads that record back at
boot.

Files and modules:

- `config_record.dfy`, module `ConfigRecord`: the EEPROM record. It holds a
  4-byte little-endian period, at most 64 address bytes and a NUL. The write
  loop (`WriteRecord`) and the read loop (`ReadAddress`) work on an `array`.
  Both are proved against `Encode` and `DecodeAddress`, and the round trip is
  proved on those functions.
- `hysteresis.dfy`, module `Hysteresis`: the ACTIVE / INTERMEDIATE / DEACTIVE
  machine (`OnProbe`), and `Run` over a sequence of probe outcomes, with its
  lemmas.
- `relay.dfy`, module `Relay`: the relay pin as the log of levels written to
  it. `Settled` says every HIGH is followed at once by a LOW.
- `timers.dfy`, module `Timers`: C's truncating division and the
  remaining-seconds formula of the status report.
- `watchdog_state.dfy`, module `WatchdogState`: the globals as one value,
  `Device`, with one function per operation of the loop and the handlers.
- `watchdog.dfy`, module `InternetBoxWatchdog`: class `Watchdog`, whose fields
  are the globals. Each handler and each piece of the loop is a method whose
  `ensures` gives the new fields in full: either as a `WatchdogState` function
  of the old fields (`RequestReboot`, `EnableOta`, `OtaHandler`, `PingStep`
  for `PingCheck`, `LoopStep` for `Loop`, `Status` for `StatusHandler`), or
  directly (`Setup`, `DoSwitch`, `Switch`, `Rearm`, `Commit`, `CheckHandler`).
- `watchdog_properties.dfy`, module `WatchdogProperties`: properties that span
  several loop passes or requests.

Modelling choices:

- The clock `millis()` is a natural number passed in as `now`.
- The probe `check(PingAddress)` is the boolean `probeOk` given to the loop.
  `check_handler` takes the probe as a function from address to reachability.
- `ESP.restart()` sets the terminal flag `restarted`. Nothing runs after it,
  so the handlers and the loop require `!restarted`, and a restart inside the
  loop ends that pass.
- The OTA object pointer is the flag `otaActive`.
- The relay is the sequence of levels written to its pin.
- `PingPeriod` is a 32-bit `int32`. The address is a byte sequence, as an
  Arduino `String` is.
- The EEPROM is an `array<byte>` of `RECORD_SIZE` (69) bytes that survives a
  restart.

What the code does at some points the model relies on:

- The evaluation gate at line 440 is a strict `>` on
  `lastChecked + PingPeriod*1000`, computed on the 32-bit clock.
- `commit_handler` (lines 229-241) stores the period and the first 64 address
  bytes without checking either, and keeps the whole address in memory.
- `ota_handler`'s `off` (line 166) calls `enableOTA(false)` without forcing,
  which sets `otaOnTimer` to 1 (line 157); the next loop pass then tears OTA
  down. Only the expiry in the loop (line 463) forces an immediate teardown.
- `toggle` (line 169) is `enableOTA(OTA == NULL)`: "on" when OTA is off and
  the soft "off" when it is on.

## Model

| member | source | states |
|---|---|---|
| ConfigRecord.StoredLength | src/InternetBoxWatchdog.cpp:234 | the number of stored address bytes is at most MAX_URL (64) and at most the length, and equals the length when that is below 64 |
| ConfigRecord.UntilNul | src/InternetBoxWatchdog.cpp:425-429 | the decoded address is a prefix of the bytes read, contains no NUL, and stops only at a NUL or at the end of the 65 bytes |
| ConfigRecord.UntilNulIs | src/InternetBoxWatchdog.cpp:425-429 | any NUL-free prefix that ends at a NUL or at the end is exactly what the read loop returns |
| ConfigRecord.UntilNulStopsAtTerminator | src/InternetBoxWatchdog.cpp:237 | the bytes after the written NUL are never read back |
| ConfigRecord.PeriodRoundTrip | src/InternetBoxWatchdog.cpp:233 | reading back the four little-endian bytes EEPROM.put writes gives the same 32-bit period, negative values included |
| ConfigRecord.RoundTrip | src/InternetBoxWatchdog.cpp:229-241 | decoding an encoded record gives the period, and the stored prefix of the address up to its first NUL; for a NUL-free address that is its first min(64, length) bytes; never more than 64 bytes |
| ConfigRecord.WriteRecord | src/InternetBoxWatchdog.cpp:232-239 | the write loop leaves the EEPROM equal to Encode: the period at offset 0, the first min(64, length) address bytes at offset 4, a NUL after them, and the rest untouched |
| ConfigRecord.ReadAddress | src/InternetBoxWatchdog.cpp:424-429 | the read loop, up to 65 bytes from offset 4 with a break on NUL, returns DecodeAddress of the EEPROM |
| ConfigRecord.ReadPeriod | src/InternetBoxWatchdog.cpp:422-423 | EEPROM.get of the period returns DecodePeriod of the EEPROM |
| Hysteresis.Ordinal | src/InternetBoxWatchdog.cpp:33 | the ping state is reported as its ordinal: 0 exactly for ACTIVE, 2 exactly for DEACTIVE, and so 1 for INTERMEDIATE |
| Hysteresis.ConsecutiveFailures | src/InternetBoxWatchdog.cpp:441-449 | from ACTIVE, n failures give INTERMEDIATE with no pulse (n = 1), and DEACTIVE with exactly one pulse (n >= 2, three failures included); from INTERMEDIATE, one or more failures give DEACTIVE and one pulse; DEACTIVE stays DEACTIVE with no pulse |
| Hysteresis.PulseBound | src/InternetBoxWatchdog.cpp:441-452 | over any run of probes the relay pulses at most once more than the number of successful probes, and not at all more when the run starts in DEACTIVE |
| Hysteresis.AtMostOnePulseWithoutSuccess | src/InternetBoxWatchdog.cpp:441-449 | a run of failures alone, from any state, pulses the relay at most once |
| Hysteresis.RunAppend | src/InternetBoxWatchdog.cpp:439-454 | evaluating two stretches of probes is evaluating the first and then the second from where it left off; the pulses add up |
| Hysteresis.SuccessResets | src/InternetBoxWatchdog.cpp:450-452 | a successful probe leaves ACTIVE whatever came before, and adds no pulse |
| Relay.SettledIsIdle | src/InternetBoxWatchdog.cpp:252-256 | a pin on which every HIGH is followed by a LOW is idle (LOW) |
| Relay.SettledAppend | src/InternetBoxWatchdog.cpp:252-256 | appending settled writes (a pulse, or setup's LOW) keeps the pin settled |
| Relay.OnePulse | src/InternetBoxWatchdog.cpp:252-256 | one doSwitch adds exactly one pulse and leaves the output LOW |
| Timers.RemainingSeconds | src/InternetBoxWatchdog.cpp:274 | MAX(0, int((deadline - now) / 1000)) with C's truncating division is never negative, is zero exactly when less than a second is left, and otherwise counts the whole seconds left |
| Timers.RemainingNonIncreasing | src/InternetBoxWatchdog.cpp:280 | for a fixed deadline the countdown never rises as the clock advances |
| WatchdogState.Boot | src/InternetBoxWatchdog.cpp:31-57 | the initial globals (ACTIVE, period 3, no reboot pending, OTA off) are consistent and not restarted |
| WatchdogState.PingStep | src/InternetBoxWatchdog.cpp:439-454 | a closed gate changes nothing; an open one moves the ping state as the hysteresis machine OnProbe does and changes only the ping state, the relay and lastChecked; lastChecked becomes now exactly when the gate is open, whatever the probe says; one pulse is added exactly for a failure in INTERMEDIATE; a success resets to ACTIVE; the relay ends LOW |
| WatchdogState.RequestReboot | src/InternetBoxWatchdog.cpp:62-70 | a zero delay restarts; any other delay overwrites the deadline with now + delay*1000, so the last caller wins; nothing else changes |
| WatchdogState.RebootDue | src/InternetBoxWatchdog.cpp:456-459 | a set deadline that has strictly passed is cleared to 0 and the board restarts; otherwise nothing changes |
| WatchdogState.EnableOta | src/InternetBoxWatchdog.cpp:136-160 | enabling with OTA off sets the deadline to now + 600 s; enabling with OTA on, or disabling with OTA off, changes nothing; a forced disable turns OTA off with the deadline 0; a soft disable keeps OTA on with the deadline 1; only the OTA fields change and consistency is kept |
| WatchdogState.OtaHandler | src/InternetBoxWatchdog.cpp:161-172 | "on" enables, "off" soft-disables, "toggle" is enableOTA(OTA == NULL), and any other action changes nothing |
| WatchdogState.OtaDue | src/InternetBoxWatchdog.cpp:462-464 | a set OTA deadline that has strictly passed turns OTA off with the deadline 0; otherwise nothing changes |
| WatchdogState.LoopStep | src/InternetBoxWatchdog.cpp:435-465 | a loop pass keeps the consistency invariant and never touches the configured address and period |
| WatchdogState.Status | src/InternetBoxWatchdog.cpp:263-283 | ota is whether OTA is on; reboot is exactly rebootRequested > 0; each countdown is RemainingSeconds to its own deadline and never negative; the address and period are the configured ones; a running reboot countdown implies the reboot flag; in a consistent state a running OTA countdown implies OTA is on; ping_state is the state's ordinal |
| InternetBoxWatchdog.Watchdog.constructor | src/InternetBoxWatchdog.cpp:31-57 | the globals start at their initializers over the given EEPROM |
| InternetBoxWatchdog.Watchdog.Setup | src/InternetBoxWatchdog.cpp:419-430 | the relay is driven LOW, and the period and address are loaded from the EEPROM record; nothing else changes |
| InternetBoxWatchdog.Watchdog.DoSwitch | src/InternetBoxWatchdog.cpp:252-256 | writes HIGH then LOW: exactly one more pulse, and the output is LOW on return |
| InternetBoxWatchdog.Watchdog.Switch | src/InternetBoxWatchdog.cpp:258-261 | a manual switch is one pulse ending LOW, and nothing else changes |
| InternetBoxWatchdog.Watchdog.Rearm | src/InternetBoxWatchdog.cpp:247-250 | the ping state becomes ACTIVE with no pulse and nothing else changes, so rearming twice is rearming once |
| InternetBoxWatchdog.Watchdog.RequestReboot | src/InternetBoxWatchdog.cpp:62-70 | changes the fields as WatchdogState.RequestReboot |
| InternetBoxWatchdog.Watchdog.Reboot | src/InternetBoxWatchdog.cpp:129-132 | arms the reboot deadline with the default 3-second delay |
| InternetBoxWatchdog.Watchdog.EnableOta | src/InternetBoxWatchdog.cpp:136-160 | changes the fields as WatchdogState.EnableOta |
| InternetBoxWatchdog.Watchdog.OtaHandler | src/InternetBoxWatchdog.cpp:161-172 | changes the fields as WatchdogState.OtaHandler |
| InternetBoxWatchdog.Watchdog.Commit | src/InternetBoxWatchdog.cpp:229-241 | the in-memory address is the untruncated one and the period is the given one; the EEPROM becomes Encode of its old content; nothing else changes |
| InternetBoxWatchdog.Watchdog.CheckHandler | src/InternetBoxWatchdog.cpp:243-245 | answers 200 when the given address, or else the configured one, is reachable, and 404 otherwise; the state is not changed |
| InternetBoxWatchdog.Watchdog.StatusHandler | src/InternetBoxWatchdog.cpp:263-283 | reports WatchdogState.Status of the current state and changes nothing |
| InternetBoxWatchdog.Watchdog.PingCheck | src/InternetBoxWatchdog.cpp:439-454 | changes the fields as WatchdogState.PingStep |
| InternetBoxWatchdog.Watchdog.Loop | src/InternetBoxWatchdog.cpp:435-465 | changes the fields as WatchdogState.LoopStep and keeps the invariant |
| WatchdogProperties.DueStepsFollowRun | src/InternetBoxWatchdog.cpp:439-454 | when every loop pass is due, the passes end in the state the hysteresis machine reaches on the probe outcomes, and add exactly its pulses to the relay |
| WatchdogProperties.ThreeFailedPeriods | src/InternetBoxWatchdog.cpp:439-454 | with a 3-second period, failures at 3.001 s, 6.002 s and 9.003 s pulse the relay exactly once and leave DEACTIVE |
| WatchdogProperties.OneEvaluationPerPeriod | src/InternetBoxWatchdog.cpp:439-454 | after an evaluation at now, lastChecked is now whatever the outcome, and no pass before now + period*1000 evaluates again, so missed periods coalesce |
| WatchdogProperties.RebootFiresOnce | src/InternetBoxWatchdog.cpp:456-459 | a loop pass restarts exactly when a set deadline has strictly passed, clearing it to 0 first; otherwise the deadline is left as it was |
| WatchdogProperties.LastRebootRequestWins | src/InternetBoxWatchdog.cpp:62-70 | after two reboot requests, a loop pass restarts exactly when the second deadline has passed |
| WatchdogProperties.EnableWhileOnIsNoOp | src/InternetBoxWatchdog.cpp:138-147 | any number of enables while OTA is on change nothing: the countdown is not reset and a pending teardown is not cancelled |
| WatchdogProperties.FirstEnableWins | src/InternetBoxWatchdog.cpp:136-147 | the first enable sets the deadline to its time + 600 s, and later enables keep it |
| WatchdogProperties.SoftDisableTearsDownOnNextLoop | src/InternetBoxWatchdog.cpp:155-157 | after a soft "off" on an active window, and any enables after it, the next loop pass turns OTA off with the deadline 0, unless the board restarts in that pass |
| WatchdogProperties.OtaWindowCloses | src/InternetBoxWatchdog.cpp:462-464 | an "on" with OTA off opens a window that a loop pass closes exactly when the clock is past the 10-minute deadline |
| WatchdogProperties.ToggleIsOnOrOff | src/InternetBoxWatchdog.cpp:168-170 | "toggle" is "on" when OTA is off and the soft "off" when it is on |
| WatchdogProperties.RebootCountdown | src/InternetBoxWatchdog.cpp:279-280 | right after a 3-second reboot request the status shows the reboot flag and 3 seconds; the countdown never rises and is 0 once the deadline is reached |
| WatchdogProperties.ConfigSurvivesRestart | src/InternetBoxWatchdog.cpp:422-430 | commit, a restart and setup bring back the committed period and the first min(64, length) bytes of a NUL-free address |

## Left out

- WiFi association and the captive portal (lines 417 and 467-477) are network I/O. So is `wifi_handler` (lines 123-127), which erases the stored network identity with `system_restore` before its immediate restart.
- The HTTP layer is not modelled: routing, `server.send` and the responses (lines 380-409). Neither is the static HTML and JavaScript of `usage_handler` and `info_handler` (lines 202-227, 285-378). The only status code modelled is `check_handler`'s 200/404.
- The probe internals of `check` (lines 80-121) are left out: name resolution, the callbacks of the ping library and the spin-wait. The probe's outcome is an input. The code returns false when resolution fails, and otherwise returns whether any reply arrived.
- Firmware upload (`update_handler` and the POST route, lines 176-199 and 395-406) is flash I/O. That includes the reboot the POST route requests. The `ArduinoOTA` object's `begin`, `handle` and password hash are library code. OTA is modelled only as present or absent.
- Platform effects are left out: the real-time wait of `delay`, the pin hardware behind `digitalWrite` and `pinMode`, and `Serial` logging. Restart is a terminal flag.
- The status fields that come from the platform are left out: version, ssid, rssi, ip, mac and chipId.
- `EEPROM.begin`, `commit` and `end` are left out. The array stands for the flash content after the commit, and its bytes before any commit are whatever the array holds.
- `String::toInt` parsing of the period (line 231) is library code. The period is an `int32` argument, and, as in the code, it is not validated.
- WatchdogState.PingStep: does not model 32-bit unsigned clock arithmetic. Time is unbounded, so the model has no `millis()` wraparound. There is also no overflow of `lastChecked + PingPeriod*1000`, and no unsigned conversion of a negative period.
- WatchdogState.RequestReboot: does not model 32-bit overflow of `millis() + timer*1000`. The deadline is an unbounded integer.
- WatchdogState.Status: does not model the narrowing `int(...)` cast of the countdowns. Deadlines minus `now` are taken to fit in 32 bits.
