/**
 * The configuration record kept in the emulated EEPROM: a 4-byte period at
 * offset 0, then the probe address, at most MAX_URL bytes, then a NUL.
 * commit_handler writes it, setup reads it back at boot.
 */
module ConfigRecord {

  newtype byte = x: int | 0 <= x < 256

  /** The C `int` of the ESP8266: 32 bits, two's complement. */
  newtype int32 = x: int | -0x8000_0000 <= x < 0x8000_0000

  /** An Arduino String is a sequence of bytes. */
  type Bytes = seq<byte>

  const MAX_URL: nat := 64
  /** sizeof(int) on the target. */
  const INT_SIZE: nat := 4
  /** The size handed to EEPROM.begin: period, address, terminator. */
  const RECORD_SIZE: nat := INT_SIZE + MAX_URL + 1

  /** The four bytes EEPROM.put copies for an int, least significant first. */
  function LittleEndian(x: int32): (b: Bytes)
    ensures |b| == INT_SIZE
  {
    var u := if x < 0 then x as int + 0x1_0000_0000 else x as int;
    var q1 := u / 256;
    var q2 := q1 / 256;
    var q3 := q2 / 256;
    [(u % 256) as byte, (q1 % 256) as byte, (q2 % 256) as byte, q3 as byte]
  }

  /** The int EEPROM.get rebuilds from four bytes, least significant first. */
  function FromLittleEndian(b: Bytes): int32
    requires |b| == INT_SIZE
  {
    var u := b[0] as int + 256 * (b[1] as int + 256 * (b[2] as int + 256 * b[3] as int));
    if u >= 0x8000_0000 then (u - 0x1_0000_0000) as int32 else u as int32
  }

  /** The number of address bytes commit_handler stores: MIN(MAX_URL, length). */
  function StoredLength(address: Bytes): (n: nat)
    ensures n <= MAX_URL && n <= |address|
    ensures n < MAX_URL ==> n == |address|
  {
    if MAX_URL < |address| then MAX_URL else |address|
  }

  /**
   * The record after commit_handler: the period, the first StoredLength
   * address bytes, a NUL; the bytes after the NUL keep what they held.
   */
  function Encode(store: Bytes, period: int32, address: Bytes): (r: Bytes)
    requires |store| == RECORD_SIZE
    ensures |r| == RECORD_SIZE
  {
    var n := StoredLength(address);
    LittleEndian(period) + address[..n] + [0] + store[INT_SIZE + n + 1..]
  }

  /** The bytes before the first NUL, or all of them when there is none. */
  function UntilNul(s: Bytes): (r: Bytes)
    ensures |r| <= |s| && r == s[..|r|]
    ensures forall i :: 0 <= i < |r| ==> r[i] != 0
    ensures |r| < |s| ==> s[|r|] == 0
  {
    if s == [] || s[0] == 0 then [] else [s[0]] + UntilNul(s[1..])
  }

  /** The period setup reads from offset 0. */
  function DecodePeriod(store: Bytes): int32
    requires |store| == RECORD_SIZE
  {
    FromLittleEndian(store[..INT_SIZE])
  }

  /** The address setup reads: up to MAX_URL + 1 bytes from offset 4, stopping at a NUL. */
  function DecodeAddress(store: Bytes): Bytes
    requires |store| == RECORD_SIZE
  {
    UntilNul(store[INT_SIZE..])
  }

  /** Any prefix free of NUL that ends at a NUL, or at the end, is what UntilNul returns. */
  lemma UntilNulIs(s: Bytes, k: nat)
    requires k <= |s|
    requires forall i :: 0 <= i < k ==> s[i] != 0
    requires k == |s| || s[k] == 0
    ensures UntilNul(s) == s[..k]
  {
  }

  /** A NUL ends the scan: whatever follows it is never read. */
  lemma UntilNulStopsAtTerminator(a: Bytes, tail: Bytes)
    ensures UntilNul(a + [0] + tail) == UntilNul(a)
  {
    var s := a + [0] + tail;
    var k := |UntilNul(a)|;
    assert s[..k] == a[..k];
    assert s[k] == 0;
    UntilNulIs(s, k);
  }

  /** EEPROM.get gives back the int EEPROM.put stored, negative values included. */
  lemma PeriodRoundTrip(x: int32)
    ensures FromLittleEndian(LittleEndian(x)) == x
  {
  }

  /**
   * Reading back what commit_handler wrote gives the period and the stored
   * prefix of the address up to its first NUL; for an address without NUL,
   * exactly its first min(MAX_URL, length) bytes.
   */
  lemma RoundTrip(store: Bytes, period: int32, address: Bytes)
    requires |store| == RECORD_SIZE
    ensures DecodePeriod(Encode(store, period, address)) == period
    ensures DecodeAddress(Encode(store, period, address)) == UntilNul(address[..StoredLength(address)])
    ensures (forall i :: 0 <= i < |address| ==> address[i] != 0) ==>
              DecodeAddress(Encode(store, period, address)) == address[..StoredLength(address)]
    ensures |DecodeAddress(Encode(store, period, address))| <= MAX_URL
  {
    var n := StoredLength(address);
    var r := Encode(store, period, address);
    assert r[..INT_SIZE] == LittleEndian(period);
    PeriodRoundTrip(period);
    var tail := store[INT_SIZE + n + 1..];
    assert r[INT_SIZE..] == address[..n] + [0] + tail;
    UntilNulStopsAtTerminator(address[..n], tail);
    if forall i :: 0 <= i < |address| ==> address[i] != 0 {
      UntilNulIs(address[..n], n);
    }
  }

  /** commit_handler's writes: EEPROM.put of the period, the address loop, the NUL. */
  method WriteRecord(store: array<byte>, period: int32, address: Bytes)
    requires store.Length == RECORD_SIZE
    modifies store
    ensures store[..] == Encode(old(store[..]), period, address)
  {
    var b := LittleEndian(period);
    store[0], store[1], store[2], store[3] := b[0], b[1], b[2], b[3];
    var size := StoredLength(address);
    for i := 0 to size
      invariant store[..INT_SIZE] == b
      invariant store[INT_SIZE..INT_SIZE + i] == address[..i]
      invariant forall j :: INT_SIZE + i <= j < RECORD_SIZE ==> store[j] == old(store[j])
    {
      store[INT_SIZE + i] := address[i];
    }
    store[INT_SIZE + size] := 0;
    ghost var s := store[..];
    assert s == s[..INT_SIZE] + s[INT_SIZE..INT_SIZE + size] + [s[INT_SIZE + size]] + s[INT_SIZE + size + 1..];
    assert s[INT_SIZE + size + 1..] == old(store[..])[INT_SIZE + size + 1..];
  }

  /** setup's read loop: at most MAX_URL + 1 bytes from offset 4, breaking on a NUL. */
  method ReadAddress(store: array<byte>) returns (address: Bytes)
    requires store.Length == RECORD_SIZE
    ensures address == DecodeAddress(store[..])
  {
    address := [];
    var i := 0;
    while i < MAX_URL + 1
      invariant 0 <= i <= MAX_URL + 1
      invariant address == store[INT_SIZE..INT_SIZE + i]
      invariant forall j :: INT_SIZE <= j < INT_SIZE + i ==> store[j] != 0
    {
      var val := store[INT_SIZE + i];
      if val == 0 {
        break;
      }
      address := address + [val];
      i := i + 1;
    }
    UntilNulIs(store[INT_SIZE..], i);
  }

  /** setup's EEPROM.get of the period at offset 0. */
  method ReadPeriod(store: array<byte>) returns (period: int32)
    requires store.Length == RECORD_SIZE
    ensures period == DecodePeriod(store[..])
  {
    period := FromLittleEndian(store[..INT_SIZE]);
  }
}
