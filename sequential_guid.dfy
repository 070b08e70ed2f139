/** `SimpleCRUD.SequentialGuid` (SimpleCRUD.cs): a random Guid whose first
    six bytes are overwritten with the low bytes of the current date and
    time, so that keys generated later tend to sort later. The random bytes
    and the clock are parameters; what is modelled is the byte splice and
    the text `Guid.ToString()` produces for the insert statement. */
module Guids {

  newtype byte = x: int | 0 <= x < 256

  /** The sixteen bytes of `Guid.ToByteArray()`. */
  type GuidBytes = s: seq<byte> | |s| == 16 witness [0, 0, 0, 0, 0, 0, 0, 0, 0, 0, 0, 0, 0, 0, 0, 0]

  /** `Guid.Empty`. */
  const EmptyGuid: GuidBytes := [0, 0, 0, 0, 0, 0, 0, 0, 0, 0, 0, 0, 0, 0, 0, 0]

  /** The fields of `DateTime.Now` the splice reads. */
  datatype Clock = Clock(year: int, month: int, day: int, hour: int, minute: int, second: int)

  /** The unchecked `(byte)` cast of an `int`: its low eight bits, which is
      the Euclidean remainder by 256 for negative values too. */
  function ToByte(n: int): (b: byte)
    ensures 0 <= n < 256 ==> b as int == n
    ensures (b as int - n) % 256 == 0
  {
    (n % 256) as byte
  }

  /** Where each clock field is written: `bytes[3] = Year`, `bytes[2] =
      Month`, `bytes[1] = Day`, `bytes[0] = Hour`, `bytes[5] = Minute`,
      `bytes[4] = Second`. */
  function TimeBytes(c: Clock): (t: seq<byte>)
    ensures |t| == 6
  {
    [ToByte(c.hour), ToByte(c.day), ToByte(c.month), ToByte(c.year), ToByte(c.second), ToByte(c.minute)]
  }

  /** `SequentialGuid()` for the random Guid `random` read at time `c`. */
  function SequentialGuid(random: GuidBytes, c: Clock): (g: GuidBytes)
  {
    TimeBytes(c) + random[6..]
  }

  /** The first six bytes carry the time and the last ten stay random. */
  lemma SplicedBytes(random: GuidBytes, c: Clock)
    ensures SequentialGuid(random, c)[..6] == TimeBytes(c)
    ensures SequentialGuid(random, c)[6..] == random[6..]
    ensures SequentialGuid(random, c)[3] == ToByte(c.year) && SequentialGuid(random, c)[0] == ToByte(c.hour)
  {
    assert (TimeBytes(c) + random[6..])[..6] == TimeBytes(c);
  }

  /** Two Guids made at the same second differ only where their random
      bytes differ. */
  lemma SameSecondSamePrefix(r1: GuidBytes, r2: GuidBytes, c: Clock)
    ensures SequentialGuid(r1, c)[..6] == SequentialGuid(r2, c)[..6]
    ensures SequentialGuid(r1, c) == SequentialGuid(r2, c) <==> r1[6..] == r2[6..]
  {
    SplicedBytes(r1, c);
    SplicedBytes(r2, c);
    if r1[6..] == r2[6..] {
      assert SequentialGuid(r1, c) == TimeBytes(c) + r1[6..];
    }
  }

  /** A reading `DateTime.Now` can give: a year of the Gregorian range
      `DateTime` covers, and a month, day, hour, minute and second in their
      calendar ranges. */
  predicate ValidClock(c: Clock)
  {
    1 <= c.year <= 9999 && 1 <= c.month <= 12 && 1 <= c.day <= 31 &&
    0 <= c.hour < 24 && 0 <= c.minute < 60 && 0 <= c.second < 60
  }

  /** Every field but the year fits a byte, so the splice stores it exactly;
      the year keeps its low eight bits. */
  lemma ValidClockBytes(c: Clock)
    requires ValidClock(c)
    ensures TimeBytes(c) == [c.hour as byte, c.day as byte, c.month as byte, (c.year % 256) as byte,
                             c.second as byte, c.minute as byte]
  {
  }

  /** The month byte of a real date is never zero, so the generated Guid is
      never `Guid.Empty`: `Insert` does not replace an empty key by another
      empty key. (The year byte alone would not do: 2048 is a multiple of
      256.) */
  lemma NeverEmpty(random: GuidBytes, c: Clock)
    requires ValidClock(c)
    ensures SequentialGuid(random, c) != EmptyGuid
  {
    SplicedBytes(random, c);
    assert SequentialGuid(random, c)[2] == TimeBytes(c)[2] == ToByte(c.month) != 0;
  }

  // ----- the "D" text format -----

  function HexDigit(n: int): char
    requires 0 <= n < 16
  {
    "0123456789abcdef"[n]
  }

  function Hex(b: byte): string
  {
    [HexDigit(b as int / 16), HexDigit(b as int % 16)]
  }

  function HexOf(g: GuidBytes, order: seq<int>): string
    requires forall k :: 0 <= k < |order| ==> 0 <= order[k] < 16
  {
    if |order| == 0 then "" else Hex(g[order[0]]) + HexOf(g, order[1..])
  }

  /** `Guid.ToString()`: five groups of lower-case hex digits separated by
      '-'; the first three groups print their bytes in reverse order
      (the Guid stores them little-endian). */
  function GuidText(g: GuidBytes): string
  {
    HexOf(g, [3, 2, 1, 0]) + "-" + HexOf(g, [5, 4]) + "-" + HexOf(g, [7, 6]) + "-" +
    HexOf(g, [8, 9]) + "-" + HexOf(g, [10, 11, 12, 13, 14, 15])
  }

  lemma {:induction false} HexOfShape(g: GuidBytes, order: seq<int>)
    requires forall k :: 0 <= k < |order| ==> 0 <= order[k] < 16
    ensures |HexOf(g, order)| == 2 * |order|
    ensures forall i :: 0 <= i < |HexOf(g, order)| ==> HexOf(g, order)[i] in "0123456789abcdef"
  {
    if |order| > 0 {
      HexOfShape(g, order[1..]);
      var h := Hex(g[order[0]]);
      assert h[0] in "0123456789abcdef" && h[1] in "0123456789abcdef";
    }
  }

  /** The text has the 36 characters of the "D" format and holds only hex
      digits and dashes, so it cannot close the quoted literal
      `select '<guid>' as id` that `Insert` wraps it in. */
  lemma GuidTextShape(g: GuidBytes)
    ensures |GuidText(g)| == 36
    ensures '\'' !in GuidText(g)
  {
    HexOfShape(g, [3, 2, 1, 0]);
    HexOfShape(g, [5, 4]);
    HexOfShape(g, [7, 6]);
    HexOfShape(g, [8, 9]);
    HexOfShape(g, [10, 11, 12, 13, 14, 15]);
  }
}
