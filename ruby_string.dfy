/**
 * The few Ruby 1.8 String and Integer operations the Raven client depends on:
 * `String#to_i`, `Integer#to_s`, `String#[a..b]`, `String#split(sep)` and
 * `Array#join(sep)`. A Ruby 1.8 string is a sequence of bytes; each `char`
 * here stands for one byte.
 */
module RubyString {
  import opened Wrappers

  predicate IsDigit(c: char) {
    '0' <= c <= '9'
  }

  predicate AllDigits(s: string) {
    forall i | 0 <= i < |s| :: IsDigit(s[i])
  }

  /** The characters Ruby's `to_i` skips before the number: space, \t, \n, \v, \f, \r. */
  predicate IsSpace(c: char) {
    c == ' ' || 9 <= c as int <= 13
  }

  function DigitValue(c: char): nat
    requires IsDigit(c)
  {
    c as int - '0' as int
  }

  function DigitChar(d: nat): (c: char)
    requires d < 10
    ensures IsDigit(c) && DigitValue(c) == d
  {
    ('0' as int + d) as char
  }

  /** The value of a string of decimal digits, most significant first. */
  function DecimalValue(d: string): nat
    requires AllDigits(d)
  {
    if |d| == 0 then 0 else DecimalValue(d[..|d| - 1]) * 10 + DigitValue(d[|d| - 1])
  }

  function SkipSpace(s: string): (t: string)
    ensures |t| <= |s| && t == s[|s| - |t|..]
    ensures |t| > 0 ==> !IsSpace(t[0])
  {
    if |s| > 0 && IsSpace(s[0]) then SkipSpace(s[1..]) else s
  }

  /**
   * The digits of the longest prefix of `s` that reads as a decimal number,
   * where a single underscore may stand between two digits ("1_000").
   */
  function LeadingDigits(s: string): (d: string)
    ensures AllDigits(d) && |d| <= |s|
    ensures |s| > 0 && IsDigit(s[0]) <==> |d| > 0
  {
    if |s| == 0 || !IsDigit(s[0]) then ""
    else if |s| >= 3 && s[1] == '_' && IsDigit(s[2]) then [s[0]] + LeadingDigits(s[2..])
    else [s[0]] + LeadingDigits(s[1..])
  }

  /** `String#to_i`: leading white space, an optional sign, then digits; 0 when there are none. */
  function ToI(s: string): int
  {
    var t := SkipSpace(s);
    if |t| > 0 && t[0] == '-' then 0 - DecimalValue(LeadingDigits(t[1..])) as int
    else if |t| > 0 && t[0] == '+' then DecimalValue(LeadingDigits(t[1..]))
    else DecimalValue(LeadingDigits(t))
  }

  /** `x.to_i` where `x` may be nil: `nil.to_i` is 0. */
  function NilToI(x: Option<string>): int
  {
    match x
    case None => 0
    case Some(s) => ToI(s)
  }

  /** The decimal digits of a natural number, without leading zeros. */
  function NatToS(n: nat): (s: string)
    ensures |s| >= 1 && AllDigits(s)
    ensures |s| > 1 ==> s[0] != '0'
  {
    if n < 10 then [DigitChar(n)] else NatToS(n / 10) + [DigitChar(n % 10)]
  }

  /** `Integer#to_s`: a minus sign before the digits of a negative number. */
  function IntToS(n: int): string
  {
    if n < 0 then "-" + NatToS(-n) else NatToS(n)
  }

  function Pow10(w: nat): nat
  {
    if w == 0 then 1 else 10 * Pow10(w - 1)
  }

  /** A number below `10^width` takes at most `width` digits. */
  lemma {:induction false} NatToSLength(n: nat, width: nat)
    requires 0 < width && n < Pow10(width)
    ensures |NatToS(n)| <= width
  {
    if n >= 10 {
      NatToSLength(n / 10, width - 1);
    }
  }

  lemma {:induction false} DecimalValueNatToS(n: nat)
    ensures DecimalValue(NatToS(n)) == n
  {
    if n >= 10 {
      var s := NatToS(n);
      assert s[..|s| - 1] == NatToS(n / 10);
      DecimalValueNatToS(n / 10);
    }
  }

  lemma {:induction false} LeadingDigitsOfDigits(s: string)
    requires AllDigits(s)
    ensures LeadingDigits(s) == s
  {
    if |s| > 0 {
      LeadingDigitsOfDigits(s[1..]);
    }
  }

  /** `to_i` of a non-empty digit string is its decimal value. */
  lemma ToIOfDigits(s: string)
    requires |s| > 0 && AllDigits(s)
    ensures ToI(s) == DecimalValue(s)
  {
    assert IsDigit(s[0]);
    assert SkipSpace(s) == s;
    LeadingDigitsOfDigits(s);
  }

  /** `to_i` of a minus sign and a non-empty digit string is the negated decimal value. */
  lemma ToIOfNegativeDigits(d: string)
    requires |d| > 0 && AllDigits(d)
    ensures ToI("-" + d) == 0 - DecimalValue(d) as int
  {
    var s := "-" + d;
    assert SkipSpace(s) == s;
    assert s[1..] == d;
    LeadingDigitsOfDigits(d);
  }

  /** Reading back what `to_s` wrote gives the number again. */
  lemma ToIIntToS(n: int)
    ensures ToI(IntToS(n)) == n
  {
    if n < 0 {
      DecimalValueNatToS(-n);
      ToIOfNegativeDigits(NatToS(-n));
    } else {
      DecimalValueNatToS(n);
      ToIOfDigits(NatToS(n));
    }
  }

  /** Two numbers with the same `to_s` are the same number. */
  lemma IntToSInjective(m: int, n: int)
    requires IntToS(m) == IntToS(n)
    ensures m == n
  {
    ToIIntToS(m);
    ToIIntToS(n);
  }

  /**
   * `s[first..last]` for `0 <= first <= last`: nil when `first` is past the
   * end, otherwise the characters from `first` up to `last`, cut at the end.
   */
  function Slice(s: string, first: nat, last: nat): (r: Option<string>)
    requires first <= last
    ensures r.Some? <==> first <= |s|
    ensures r.Some? ==> |r.value| <= last - first + 1
  {
    if first > |s| then None
    else if last + 1 <= |s| then Some(s[first..last + 1])
    else Some(s[first..])
  }

  /** `Array#join(sep)` for an array of strings. */
  function Join(parts: seq<string>, sep: char): string
  {
    if |parts| == 0 then ""
    else if |parts| == 1 then parts[0]
    else parts[0] + [sep] + Join(parts[1..], sep)
  }

  predicate NoSeparator(parts: seq<string>, sep: char) {
    forall i | 0 <= i < |parts| :: sep !in parts[i]
  }

  /** Every field between separators, including empty ones at either end. */
  function SplitAll(s: string, sep: char): (parts: seq<string>)
    ensures |parts| >= 1
  {
    if |s| == 0 then [""]
    else
      var rest := SplitAll(s[1..], sep);
      if s[0] == sep then [""] + rest else [[s[0]] + rest[0]] + rest[1..]
  }

  /** No field of `SplitAll` holds the separator, and joining the fields again gives back the string. */
  lemma {:induction false} SplitAllSound(s: string, sep: char)
    ensures NoSeparator(SplitAll(s, sep), sep)
    ensures Join(SplitAll(s, sep), sep) == s
  {
    if |s| > 0 {
      SplitAllSound(s[1..], sep);
      var rest := SplitAll(s[1..], sep);
      if s[0] == sep {
        assert s == "" + [sep] + Join(rest, sep);
      } else {
        var parts := SplitAll(s, sep);
        assert parts[1..] == rest[1..];
        assert Join(parts, sep) == [s[0]] + Join(rest, sep);
      }
    }
  }

  /** Drops the empty fields at the end of a field list, as Ruby's `split` does. */
  function DropTrailingEmpty(parts: seq<string>): (r: seq<string>)
    ensures |r| <= |parts|
    ensures |r| > 0 ==> r[|r| - 1] != ""
  {
    if |parts| > 0 && parts[|parts| - 1] == "" then DropTrailingEmpty(parts[..|parts| - 1]) else parts
  }

  /** What is dropped is a run of empty fields at the end; what is kept is untouched. */
  lemma {:induction false} DropTrailingEmptyPrefix(parts: seq<string>)
    ensures DropTrailingEmpty(parts) <= parts
    ensures forall i | |DropTrailingEmpty(parts)| <= i < |parts| :: parts[i] == ""
  {
    if |parts| > 0 && parts[|parts| - 1] == "" {
      DropTrailingEmptyPrefix(parts[..|parts| - 1]);
    }
  }

  /** `String#split(sep)` for a one-character separator and no limit. */
  function Split(s: string, sep: char): (parts: seq<string>)
    ensures NoSeparator(parts, sep)
    ensures |parts| > 0 ==> parts[|parts| - 1] != ""
  {
    SplitAllSound(s, sep);
    DropTrailingEmptyPrefix(SplitAll(s, sep));
    DropTrailingEmpty(SplitAll(s, sep))
  }

  lemma {:induction false} SplitAllPrefix(a: string, t: string, sep: char)
    requires sep !in a
    ensures SplitAll(a + [sep] + t, sep) == [a] + SplitAll(t, sep)
  {
    if |a| > 0 {
      assert (a + [sep] + t)[1..] == a[1..] + [sep] + t;
      SplitAllPrefix(a[1..], t, sep);
      assert [a[0]] + a[1..] == a;
    } else {
      assert (a + [sep] + t)[1..] == t;
    }
  }

  lemma {:induction false} SplitAllNoSeparator(a: string, sep: char)
    requires sep !in a
    ensures SplitAll(a, sep) == [a]
  {
    if |a| > 0 {
      SplitAllNoSeparator(a[1..], sep);
      assert [a[0]] + a[1..] == a;
    }
  }

  /** Splitting what `join` built gives back the fields, when no field holds the separator. */
  lemma {:induction false} SplitAllJoin(parts: seq<string>, sep: char)
    requires |parts| >= 1 && NoSeparator(parts, sep)
    ensures SplitAll(Join(parts, sep), sep) == parts
  {
    if |parts| == 1 {
      SplitAllNoSeparator(parts[0], sep);
    } else {
      SplitAllJoin(parts[1..], sep);
      SplitAllPrefix(parts[0], Join(parts[1..], sep), sep);
    }
  }

  /** Ruby's `split` undoes `join` when no field holds the separator and the last one is not empty. */
  lemma SplitJoin(parts: seq<string>, sep: char)
    requires |parts| >= 1 && NoSeparator(parts, sep) && parts[|parts| - 1] != ""
    ensures Split(Join(parts, sep), sep) == parts
  {
    SplitAllJoin(parts, sep);
  }

  /** Joining two non-empty field lists puts one separator between them. */
  lemma {:induction false} JoinAppend(p: seq<string>, q: seq<string>, sep: char)
    requires |p| >= 1 && |q| >= 1
    ensures Join(p + q, sep) == Join(p, sep) + [sep] + Join(q, sep)
  {
    if |p| > 1 {
      JoinAppend(p[1..], q, sep);
      assert (p + q)[1..] == p[1..] + q;
    } else {
      assert (p + q)[1..] == q;
    }
  }
}
