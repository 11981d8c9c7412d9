/** The clock reading used to name a backup file, and its
    `strftime("%Y%m%d_%H%M%S")` text. */
module Timestamps {
  import opened Basics

  /** A reading of `datetime.now()`, passed in by the caller. */
  datatype DateTime = DateTime(year: nat, month: nat, day: nat, hour: nat, minute: nat, second: nat) {
    predicate Valid() {
      && 1000 <= year <= 9999 && 1 <= month <= 12 && 1 <= day <= 31
      && hour <= 23 && minute <= 59 && second <= 59
    }
  }

  function Pow10(n: nat): nat {
    if n == 0 then 1 else 10 * Pow10(n - 1)
  }

  function DigitChar(d: int): char
    requires 0 <= d < 10
  {
    ('0' as int + d) as char
  }

  predicate IsDigit(c: char) { '0' <= c <= '9' }

  /** The last `width` decimal digits of `n`, zero-padded (`%04d`, `%02d`). */
  function Pad(n: nat, width: nat): (r: string)
    ensures |r| == width
    ensures forall i :: 0 <= i < width ==> IsDigit(r[i])
    decreases width
  {
    if width == 0 then "" else Pad(n / 10, width - 1) + [DigitChar(n % 10)]
  }

  /** The number a string of decimal digits denotes. */
  function DigitsValue(s: string): int
    decreases |s|
  {
    if s == [] then 0 else 10 * DigitsValue(s[..|s| - 1]) + (s[|s| - 1] as int - '0' as int)
  }

  lemma {:induction false} DigitsNonNegative(s: string)
    requires forall i :: 0 <= i < |s| ==> IsDigit(s[i])
    ensures DigitsValue(s) >= 0
    decreases |s|
  {
    if s != [] { DigitsNonNegative(s[..|s| - 1]); }
  }

  /** Padding loses nothing when the number fits the width. */
  lemma {:induction false} PadRoundTrip(n: nat, width: nat)
    requires n < Pow10(width)
    ensures DigitsValue(Pad(n, width)) == n
    decreases width
  {
    if width > 0 {
      PadRoundTrip(n / 10, width - 1);
      var p := Pad(n, width);
      assert p[..|p| - 1] == Pad(n / 10, width - 1);
    }
  }

  /** `now.strftime("%Y%m%d_%H%M%S")`. */
  function Stamp(t: DateTime): string {
    Pad(t.year, 4) + Pad(t.month, 2) + Pad(t.day, 2) + "_"
    + Pad(t.hour, 2) + Pad(t.minute, 2) + Pad(t.second, 2)
  }

  /** Reads a stamp back into its fields. */
  function ParseStamp(s: string): Option<DateTime>
  {
    if |s| != 15 || s[8] != '_' || exists i :: 0 <= i < 15 && i != 8 && !IsDigit(s[i]) then None
    else
      assert forall f :: f in [s[0..4], s[4..6], s[6..8], s[9..11], s[11..13], s[13..15]] ==> DigitsValue(f) >= 0 by {
        forall f | f in [s[0..4], s[4..6], s[6..8], s[9..11], s[11..13], s[13..15]] ensures DigitsValue(f) >= 0 {
          DigitsNonNegative(f);
        }
      }
      Some(DateTime(DigitsValue(s[0..4]), DigitsValue(s[4..6]), DigitsValue(s[6..8]),
                    DigitsValue(s[9..11]), DigitsValue(s[11..13]), DigitsValue(s[13..15])))
  }

  /** Where each field sits in a stamp. */
  lemma StampFields(t: DateTime)
    ensures |Stamp(t)| == 15 && Stamp(t)[8] == '_'
    ensures Stamp(t)[0..4] == Pad(t.year, 4) && Stamp(t)[4..6] == Pad(t.month, 2) && Stamp(t)[6..8] == Pad(t.day, 2)
    ensures Stamp(t)[9..11] == Pad(t.hour, 2) && Stamp(t)[11..13] == Pad(t.minute, 2) && Stamp(t)[13..15] == Pad(t.second, 2)
  {
    var y, mo, d := Pad(t.year, 4), Pad(t.month, 2), Pad(t.day, 2);
    var h, mi, se := Pad(t.hour, 2), Pad(t.minute, 2), Pad(t.second, 2);
    assert Stamp(t) == y + mo + d + "_" + h + mi + se;
  }

  /** Every character of a stamp but the underscore is a digit. */
  lemma StampDigits(t: DateTime)
    ensures |Stamp(t)| == 15
    ensures forall i :: 0 <= i < 15 && i != 8 ==> IsDigit(Stamp(t)[i])
  {
    StampFields(t);
    var s := Stamp(t);
    forall i | 0 <= i < 15 && i != 8 ensures IsDigit(s[i]) {
      if i < 4 { assert s[i] == s[0..4][i]; }
      else if i < 6 { assert s[i] == s[4..6][i - 4]; }
      else if i < 8 { assert s[i] == s[6..8][i - 6]; }
      else if i < 11 { assert s[i] == s[9..11][i - 9]; }
      else if i < 13 { assert s[i] == s[11..13][i - 11]; }
      else { assert s[i] == s[13..15][i - 13]; }
    }
  }

  /** A stamp is fifteen characters, eight digits, an underscore and six
      digits, and it determines the clock reading it was made from. */
  lemma StampRoundTrip(t: DateTime)
    requires t.Valid()
    ensures |Stamp(t)| == 15 && Stamp(t)[8] == '_'
    ensures forall i :: 0 <= i < 15 && i != 8 ==> IsDigit(Stamp(t)[i])
    ensures ParseStamp(Stamp(t)) == Some(t)
  {
    StampFields(t);
    StampDigits(t);
    assert Pow10(2) == 100 && Pow10(4) == 10000;
    PadRoundTrip(t.year, 4);
    PadRoundTrip(t.month, 2);
    PadRoundTrip(t.day, 2);
    PadRoundTrip(t.hour, 2);
    PadRoundTrip(t.minute, 2);
    PadRoundTrip(t.second, 2);
  }

  /** Two different clock readings never give the same backup suffix. */
  lemma StampInjective(a: DateTime, b: DateTime)
    requires a.Valid() && b.Valid() && Stamp(a) == Stamp(b)
    ensures a == b
  {
    StampRoundTrip(a);
    StampRoundTrip(b);
  }
}
