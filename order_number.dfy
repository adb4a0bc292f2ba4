/** The order number that PosService.CreateOrderAsync stamps on a new order:
    "ORD-" + UtcNow as yyyyMMdd-HHmmss + "-" + the first four characters of a fresh GUID. */
module OrderNumber {
  import opened Wrappers
  import opened Models

  predicate IsDigit(c: char)
  {
    '0' <= c <= '9'
  }

  predicate IsLowerHex(c: char)
  {
    IsDigit(c) || 'a' <= c <= 'f'
  }

  /** The text `Guid.ToString()` yields (format "D"): 32 lower-case hex digits in groups
      8-4-4-4-12 separated by hyphens. */
  predicate IsGuidText(g: string)
  {
    && |g| == 36
    && (forall i :: 0 <= i < 36 && (i == 8 || i == 13 || i == 18 || i == 23) ==> g[i] == '-')
    && (forall i :: 0 <= i < 36 && i != 8 && i != 13 && i != 18 && i != 23 ==> IsLowerHex(g[i]))
  }

  function Pow10(width: nat): (p: nat)
    ensures p >= 1
  {
    if width == 0 then 1 else 10 * Pow10(width - 1)
  }

  function DigitChar(d: int): (c: char)
    requires 0 <= d < 10
    ensures IsDigit(c)
  {
    ('0' as int + d) as char
  }

  /** `n` in decimal, left-padded with zeros to exactly `width` characters, as a custom
      format specifier such as `yyyy` or `MM` prints a date field. */
  function Padded(n: nat, width: nat): (s: string)
    requires n < Pow10(width)
    ensures |s| == width
    ensures forall i :: 0 <= i < |s| ==> IsDigit(s[i])
  {
    if width == 0 then ""
    else
      assert n / 10 < Pow10(width - 1);
      Padded(n / 10, width - 1) + [DigitChar(n % 10)]
  }

  /** The value of a string of decimal digits, most significant first. */
  function DigitsValue(s: string): nat
    requires forall i :: 0 <= i < |s| ==> IsDigit(s[i])
  {
    if s == [] then 0
    else
      assert IsDigit(s[|s| - 1]);
      10 * DigitsValue(s[..|s| - 1]) + (s[|s| - 1] as int - '0' as int)
  }

  lemma {:induction false} PaddedRoundTrip(n: nat, width: nat)
    requires n < Pow10(width)
    ensures DigitsValue(Padded(n, width)) == n
  {
    if width > 0 {
      var s := Padded(n, width);
      assert s[..|s| - 1] == Padded(n / 10, width - 1);
      PaddedRoundTrip(n / 10, width - 1);
    }
  }

  /** The date and time fields the order number shows: down to the second, no ticks. */
  datatype Stamp = Stamp(year: int, month: int, day: int, hour: int, minute: int, second: int)

  function StampOf(t: DateTime): Stamp
  {
    Stamp(t.year, t.month, t.day, t.hour, t.minute, t.second)
  }

  /** The interpolated string of Services/PosService.cs:43. */
  function FormatOrderNumber(now: DateTime, guid: string): (r: string)
    requires ValidDateTime(now) && IsGuidText(guid)
    ensures |r| == 24
    ensures r[..4] == "ORD-" && r[12] == '-' && r[19] == '-'
    ensures forall i :: 4 <= i < 12 || 13 <= i < 19 ==> IsDigit(r[i])
    ensures forall i :: 20 <= i < 24 ==> IsLowerHex(r[i])
  {
    "ORD-"
      + Padded(now.year, 4) + Padded(now.month, 2) + Padded(now.day, 2)
      + "-"
      + Padded(now.hour, 2) + Padded(now.minute, 2) + Padded(now.second, 2)
      + "-"
      + guid[..4]
  }

  /** Reads an order number back: the reference against which the format is checked. */
  function ParseOrderNumber(s: string): (r: Option<(Stamp, string)>)
    ensures r.Some? ==> |s| == 24 && |r.value.1| == 4
  {
    if |s| == 24 && s[..4] == "ORD-" && s[12] == '-' && s[19] == '-'
       && (forall i | 4 <= i < 19 :: i != 12 ==> IsDigit(s[i]))
    then
      Some((Stamp(DigitsValue(s[4..8]), DigitsValue(s[8..10]), DigitsValue(s[10..12]),
                  DigitsValue(s[13..15]), DigitsValue(s[15..17]), DigitsValue(s[17..19])),
            s[20..]))
    else None
  }

  /** Every order number parses back to the second-resolution stamp and the GUID prefix it was made of. */
  lemma ParseFormatted(now: DateTime, guid: string)
    requires ValidDateTime(now) && IsGuidText(guid)
    ensures ParseOrderNumber(FormatOrderNumber(now, guid)) == Some((StampOf(now), guid[..4]))
  {
    var r := FormatOrderNumber(now, guid);
    assert r[4..8] == Padded(now.year, 4);
    assert r[8..10] == Padded(now.month, 2);
    assert r[10..12] == Padded(now.day, 2);
    assert r[13..15] == Padded(now.hour, 2);
    assert r[15..17] == Padded(now.minute, 2);
    assert r[17..19] == Padded(now.second, 2);
    assert r[20..] == guid[..4];
    PaddedRoundTrip(now.year, 4);
    PaddedRoundTrip(now.month, 2);
    PaddedRoundTrip(now.day, 2);
    PaddedRoundTrip(now.hour, 2);
    PaddedRoundTrip(now.minute, 2);
    PaddedRoundTrip(now.second, 2);
  }

  /** Two order numbers coincide exactly when they were made in the same second from GUIDs
      sharing their first four characters: ticks play no part. */
  lemma OrderNumberCollision(t1: DateTime, g1: string, t2: DateTime, g2: string)
    requires ValidDateTime(t1) && IsGuidText(g1) && ValidDateTime(t2) && IsGuidText(g2)
    ensures FormatOrderNumber(t1, g1) == FormatOrderNumber(t2, g2)
        <==> StampOf(t1) == StampOf(t2) && g1[..4] == g2[..4]
  {
    ParseFormatted(t1, g1);
    ParseFormatted(t2, g2);
  }
}
