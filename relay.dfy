/**
 * The relay output, seen as the sequence of levels written to its pin
 * (true is HIGH). doSwitch writes HIGH, waits RELAY_SWITCHING_TIME
 * (3000 ms; the wait itself is not modelled), and writes LOW, so every
 * HIGH is followed at once by a LOW.
 */
module Relay {

  type Writes = seq<bool>

  /** The writes of one doSwitch call. */
  const PULSE: Writes := [true, false]

  /** The level the pin was last driven to; LOW before any write. */
  function Level(w: Writes): bool
  {
    if w == [] then false else w[|w| - 1]
  }

  /** Every HIGH write is immediately followed by a LOW write. */
  predicate Settled(w: Writes)
  {
    forall i :: 0 <= i < |w| && w[i] ==> i + 1 < |w| && !w[i + 1]
  }

  /** The number of pulses: HIGH writes. */
  function Pulses(w: Writes): nat
    decreases |w|
  {
    if w == [] then 0 else (if w[0] then 1 else 0) + Pulses(w[1..])
  }

  /** A settled pin is idle (LOW). */
  lemma SettledIsIdle(w: Writes)
    requires Settled(w)
    ensures !Level(w)
  {
  }

  /** Appending a settled stretch, such as one pulse or one LOW write, keeps the pin settled. */
  lemma SettledAppend(a: Writes, b: Writes)
    requires Settled(a) && Settled(b)
    ensures Settled(a + b)
  {
  }

  /** Pulses are counted write by write, so they add up over concatenation. */
  lemma {:induction false} PulsesAppend(a: Writes, b: Writes)
    ensures Pulses(a + b) == Pulses(a) + Pulses(b)
    decreases |a|
  {
    if a == [] {
      assert a + b == b;
    } else {
      assert (a + b)[1..] == a[1..] + b;
      PulsesAppend(a[1..], b);
    }
  }

  /** One doSwitch adds exactly one pulse and leaves the pin LOW. */
  lemma OnePulse(w: Writes)
    requires Settled(w)
    ensures Settled(w + PULSE) && !Level(w + PULSE)
    ensures Pulses(w + PULSE) == Pulses(w) + 1
  {
    SettledAppend(w, PULSE);
    PulsesAppend(w, PULSE);
  }
}
