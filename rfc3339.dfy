/**
 * `CGI#timeforRFC3339`: reads the six calendar fields of the compact
 * `YYYYMMDDTHHMMSSZ` profile of RFC 3339 section 5.6 at fixed character
 * offsets. Nothing is validated: the `T` and `Z` are never looked at, and a
 * field that is short or missing reads as whatever `to_i` makes of it.
 * Turning the fields into seconds (`Time.gm`) is done by the caller.
 */
module Rfc3339 {
  import opened Wrappers
  import opened RubyString

  datatype CivilTime = CivilTime(year: int, month: int, day: int, hour: int, minute: int, second: int)

  /** `s[first..last].to_i`, with `nil.to_i` being 0. */
  function FieldAt(s: string, first: nat, last: nat): int
    requires first <= last
  {
    NilToI(Slice(s, first, last))
  }

  /** The calendar fields of a compact timestamp, as `timeforRFC3339` reads them. */
  function TimeFields(s: string): CivilTime
  {
    CivilTime(FieldAt(s, 0, 3), FieldAt(s, 4, 5), FieldAt(s, 6, 7),
              FieldAt(s, 9, 10), FieldAt(s, 11, 12), FieldAt(s, 13, 14))
  }

  /** `n` written with exactly `width` decimal digits, zero-padded on the left. */
  function Pad(n: nat, width: nat): (s: string)
    ensures |s| == width && AllDigits(s)
  {
    if width == 0 then "" else Pad(n / 10, width - 1) + [DigitChar(n % 10)]
  }

  /** A calendar time every field of which fits its place in the compact form. */
  predicate Writable(c: CivilTime)
  {
    0 <= c.year < 10000 && 0 <= c.month < 100 && 0 <= c.day < 100 &&
    0 <= c.hour < 100 && 0 <= c.minute < 100 && 0 <= c.second < 100
  }

  /** The compact form `YYYYMMDDTHHMMSSZ` of a calendar time. */
  function FormatTimestamp(c: CivilTime): (s: string)
    requires Writable(c)
    ensures |s| == 16 && s[8] == 'T' && s[15] == 'Z'
  {
    Pad(c.year, 4) + (Pad(c.month, 2) + (Pad(c.day, 2) + ("T" +
    (Pad(c.hour, 2) + (Pad(c.minute, 2) + (Pad(c.second, 2) + "Z"))))))
  }

  lemma {:induction false} DecimalValuePad(n: nat, width: nat)
    requires n < Pow10(width)
    ensures DecimalValue(Pad(n, width)) == n
  {
    if width > 0 {
      var s := Pad(n, width);
      assert s[..|s| - 1] == Pad(n / 10, width - 1);
      DecimalValuePad(n / 10, width - 1);
    }
  }

  /** `to_i` reads back a zero-padded field. */
  lemma ToIPad(n: nat, width: nat)
    requires 0 < width && n < Pow10(width)
    ensures ToI(Pad(n, width)) == n
  {
    ToIOfDigits(Pad(n, width));
    DecimalValuePad(n, width);
  }

  /** Where each part of the compact form sits, whatever its digits are. */
  lemma Layout(y: string, m: string, d: string, h: string, mi: string, sec: string)
    requires |y| == 4 && |m| == 2 && |d| == 2 && |h| == 2 && |mi| == 2 && |sec| == 2
    ensures var s := y + (m + (d + ("T" + (h + (mi + (sec + "Z"))))));
      s[0..4] == y && s[4..6] == m && s[6..8] == d &&
      s[9..11] == h && s[11..13] == mi && s[13..15] == sec
  {
  }

  /** A zero-padded field at its offset reads back as the number it encodes. */
  lemma FieldIs(s: string, first: nat, width: nat, n: nat)
    requires 0 < width && n < Pow10(width) && first + width <= |s|
    requires s[first..first + width] == Pad(n, width)
    ensures FieldAt(s, first, first + width - 1) == n
  {
    ToIPad(n, width);
  }

  /** The date fields of a formatted timestamp read back. */
  lemma DateFieldsFormat(c: CivilTime)
    requires Writable(c)
    ensures var s := FormatTimestamp(c);
      FieldAt(s, 0, 3) == c.year && FieldAt(s, 4, 5) == c.month && FieldAt(s, 6, 7) == c.day
  {
    var s := FormatTimestamp(c);
    Layout(Pad(c.year, 4), Pad(c.month, 2), Pad(c.day, 2), Pad(c.hour, 2), Pad(c.minute, 2), Pad(c.second, 2));
    assert Pow10(2) == 100 && Pow10(4) == 10000;
    FieldIs(s, 0, 4, c.year);
    FieldIs(s, 4, 2, c.month);
    FieldIs(s, 6, 2, c.day);
  }

  /** The time-of-day fields of a formatted timestamp read back. */
  lemma ClockFieldsFormat(c: CivilTime)
    requires Writable(c)
    ensures var s := FormatTimestamp(c);
      FieldAt(s, 9, 10) == c.hour && FieldAt(s, 11, 12) == c.minute && FieldAt(s, 13, 14) == c.second
  {
    var s := FormatTimestamp(c);
    Layout(Pad(c.year, 4), Pad(c.month, 2), Pad(c.day, 2), Pad(c.hour, 2), Pad(c.minute, 2), Pad(c.second, 2));
    assert Pow10(2) == 100;
    FieldIs(s, 9, 2, c.hour);
    FieldIs(s, 11, 2, c.minute);
    FieldIs(s, 13, 2, c.second);
  }

  /** Reading the fields of a formatted timestamp gives back the calendar time. */
  lemma TimeFieldsFormat(c: CivilTime)
    requires Writable(c)
    ensures TimeFields(FormatTimestamp(c)) == c
  {
    DateFieldsFormat(c);
    ClockFieldsFormat(c);
  }

  /** Two strings that agree on a range agree on every range inside it. */
  lemma SubSlice(s: string, t: string, a: nat, b: nat, lo: nat, hi: nat)
    requires a <= lo <= hi <= b <= |s| && b <= |t|
    requires s[a..b] == t[a..b]
    ensures s[lo..hi] == t[lo..hi]
  {
    forall i | lo <= i < hi
      ensures s[i] == t[i]
    {
      assert s[i] == s[a..b][i - a];
      assert t[i] == t[a..b][i - a];
    }
    assert s[lo..hi] == t[lo..hi];
  }

  /** A field reads only the characters at its own offsets. */
  lemma FieldAtLocal(s: string, t: string, first: nat, last: nat)
    requires first <= last && last < |s| && last < |t|
    requires s[first..last + 1] == t[first..last + 1]
    ensures FieldAt(s, first, last) == FieldAt(t, first, last)
  {
  }

  /** The date fields read only characters 0-7. */
  lemma DateFieldsLocal(s: string, t: string)
    requires |s| >= 15 && |t| >= 15 && s[..8] == t[..8]
    ensures FieldAt(s, 0, 3) == FieldAt(t, 0, 3) && FieldAt(s, 4, 5) == FieldAt(t, 4, 5)
    ensures FieldAt(s, 6, 7) == FieldAt(t, 6, 7)
  {
    assert s[0..8] == s[..8] && t[0..8] == t[..8];
    SubSlice(s, t, 0, 8, 0, 4);
    FieldAtLocal(s, t, 0, 3);
    SubSlice(s, t, 0, 8, 4, 6);
    FieldAtLocal(s, t, 4, 5);
    SubSlice(s, t, 0, 8, 6, 8);
    FieldAtLocal(s, t, 6, 7);
  }

  /** The time-of-day fields read only characters 9-14. */
  lemma ClockFieldsLocal(s: string, t: string)
    requires |s| >= 15 && |t| >= 15 && s[9..15] == t[9..15]
    ensures FieldAt(s, 9, 10) == FieldAt(t, 9, 10) && FieldAt(s, 11, 12) == FieldAt(t, 11, 12)
    ensures FieldAt(s, 13, 14) == FieldAt(t, 13, 14)
  {
    SubSlice(s, t, 9, 15, 9, 11);
    FieldAtLocal(s, t, 9, 10);
    SubSlice(s, t, 9, 15, 11, 13);
    FieldAtLocal(s, t, 11, 12);
    SubSlice(s, t, 9, 15, 13, 15);
    FieldAtLocal(s, t, 13, 14);
  }

  /**
   * Only characters 0-7 and 9-14 matter: the `T`, the `Z` and anything after
   * offset 14 are never checked, so timestamps of different lengths that agree
   * on those characters read the same.
   */
  lemma TimeFieldsIgnoreSeparators(s: string, t: string)
    requires |s| >= 15 && |t| >= 15
    requires s[..8] == t[..8] && s[9..15] == t[9..15]
    ensures TimeFields(s) == TimeFields(t)
  {
    DateFieldsLocal(s, t);
    ClockFieldsLocal(s, t);
  }
}
