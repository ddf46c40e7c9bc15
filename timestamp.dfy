/**
 * The capture timestamp: `strftime("%Y-%m-%d %H:%M:%S")` in the extractors and
 * `datetime.strptime(..., '%Y-%m-%d %H:%M:%S')` in the reconciler.
 */
module Timestamp {
  import opened Wrappers
  import opened Price

  datatype DateTime = DateTime(year: nat, month: nat, day: nat, hour: nat, minute: nat, second: nat)

  predicate IsLeap(y: nat) {
    (y % 4 == 0 && y % 100 != 0) || y % 400 == 0
  }

  function DaysIn(year: nat, month: nat): nat {
    if month == 2 then (if IsLeap(year) then 29 else 28)
    else if month == 4 || month == 6 || month == 9 || month == 11 then 30
    else 31
  }

  /** What Python's `datetime` constructor accepts. */
  predicate ValidDateTime(dt: DateTime) {
    1 <= dt.year <= 9999 && 1 <= dt.month <= 12 && 1 <= dt.day <= DaysIn(dt.year, dt.month)
    && dt.hour < 24 && dt.minute < 60 && dt.second < 60
  }

  function DigitChar(d: nat): char
    requires d < 10
  {
    ('0' as int + d) as char
  }

  /** `n` zero-padded to `width` digits. */
  function Padded(n: nat, width: nat): (s: string)
    requires n < Pow10(width)
    ensures |s| == width && AllDigits(s)
  {
    if width == 0 then [] else Padded(n / 10, width - 1) + [DigitChar(n % 10)]
  }

  lemma {:induction false} PaddedReads(n: nat, width: nat)
    requires n < Pow10(width)
    ensures NatOf(Padded(n, width)) == n
  {
    if width > 0 {
      var s := Padded(n, width);
      assert s[..|s| - 1] == Padded(n / 10, width - 1);
      PaddedReads(n / 10, width - 1);
    }
  }

  lemma {:induction false} ReadPadded(s: string)
    requires AllDigits(s)
    ensures NatOf(s) < Pow10(|s|) && Padded(NatOf(s), |s|) == s
  {
    if s != [] {
      var init := s[..|s| - 1];
      ReadPadded(init);
      assert s == init + [s[|s| - 1]];
    }
  }

  /** `strftime("%Y-%m-%d %H:%M:%S")`, years written with four digits. */
  function Format(dt: DateTime): (s: string)
    requires ValidDateTime(dt)
    ensures |s| == 19
  {
    Padded(dt.year, 4) + "-" + Padded(dt.month, 2) + "-" + Padded(dt.day, 2) + " "
    + Padded(dt.hour, 2) + ":" + Padded(dt.minute, 2) + ":" + Padded(dt.second, 2)
  }

  /** The text is laid out as `YYYY-MM-DD HH:MM:SS`. */
  predicate Shaped(s: string) {
    |s| == 19 && s[4] == '-' && s[7] == '-' && s[10] == ' ' && s[13] == ':' && s[16] == ':'
    && AllDigits(s[0..4]) && AllDigits(s[5..7]) && AllDigits(s[8..10])
    && AllDigits(s[11..13]) && AllDigits(s[14..16]) && AllDigits(s[17..19])
  }

  /**
   * `datetime.strptime(s, '%Y-%m-%d %H:%M:%S')` on the fixed-width layout:
   * `None` where it raises `ValueError`.
   */
  function Parse(s: string): (r: Option<DateTime>)
    ensures r.Some? ==> ValidDateTime(r.value) && Shaped(s)
  {
    if !Shaped(s) then None
    else
      var dt := DateTime(NatOf(s[0..4]), NatOf(s[5..7]), NatOf(s[8..10]),
                         NatOf(s[11..13]), NatOf(s[14..16]), NatOf(s[17..19]));
      if ValidDateTime(dt) then Some(dt) else None
  }

  /** A stamp written by `strftime` is always read back by `strptime`. */
  lemma ParseFormat(dt: DateTime)
    requires ValidDateTime(dt)
    ensures Parse(Format(dt)) == Some(dt)
  {
    var s := Format(dt);
    assert s[0..4] == Padded(dt.year, 4);
    assert s[5..7] == Padded(dt.month, 2);
    assert s[8..10] == Padded(dt.day, 2);
    assert s[11..13] == Padded(dt.hour, 2);
    assert s[14..16] == Padded(dt.minute, 2);
    assert s[17..19] == Padded(dt.second, 2);
    PaddedReads(dt.year, 4);
    PaddedReads(dt.month, 2);
    PaddedReads(dt.day, 2);
    PaddedReads(dt.hour, 2);
    PaddedReads(dt.minute, 2);
    PaddedReads(dt.second, 2);
  }

  /** A text with the stamp's layout is its six numerals joined by the separators. */
  lemma Rebuild(s: string)
    requires Shaped(s)
    ensures s == s[0..4] + "-" + s[5..7] + "-" + s[8..10] + " " + s[11..13] + ":" + s[14..16] + ":" + s[17..19]
  {
  }

  /** Conversely, the texts `Parse` accepts are exactly those `Format` writes. */
  lemma FormatParse(s: string)
    requires Parse(s).Some?
    ensures Format(Parse(s).value) == s
  {
    var dt := Parse(s).value;
    ReadPadded(s[0..4]);
    ReadPadded(s[5..7]);
    ReadPadded(s[8..10]);
    ReadPadded(s[11..13]);
    ReadPadded(s[14..16]);
    ReadPadded(s[17..19]);
    Rebuild(s);
  }
}
