/** `format_duration(seconds)`, defined identically in the search window
    (main.py:453-465) and the channel window (main.py:697-709): seconds
    under a minute as "{s}초", under an hour as "m:ss", otherwise as
    "h:mm:ss".
 */
module Display {
  import opened Wrappers
  import opened Text

  /** The suffix marking a bare number of seconds. */
  const SecondsUnit: char := '초'

  /** `f"{n:02d}"` for a field below 100: two digits, zero-padded. */
  function Pad2(n: nat): (r: string)
    requires n < 100
    ensures |r| == 2 && AllDigits(r) && ':' !in r
  {
    if n < 10 then ['0', DigitChar(n)] else [DigitChar(n / 10), DigitChar(n % 10)]
  }

  /** The clock fields of a duration: whole hours, then minutes and
      seconds below sixty. */
  function ClockFields(s: nat): (f: (nat, nat, nat))
    ensures f.0 * 3600 + f.1 * 60 + f.2 == s
    ensures f.1 < 60 && f.2 < 60
  {
    (s / 3600, (s % 3600) / 60, s % 60)
  }

  function FormatDuration(s: nat): (r: string)
  {
    if s < 60 then NatToString(s) + [SecondsUnit]
    else if s < 3600 then NatToString(s / 60) + ":" + Pad2(s % 60)
    else
      var (h, m, sec) := ClockFields(s);
      NatToString(h) + ":" + Pad2(m) + ":" + Pad2(sec)
  }

  /** Reads a formatted duration back: a number followed by the seconds
      unit, or two or three colon-separated digit fields. */
  function ReadDuration(r: string): (s: Option<nat>)
  {
    if r != [] && r[|r| - 1] == SecondsUnit && AllDigits(r[..|r| - 1]) then Some(DigitsValue(r[..|r| - 1]))
    else
      var fields := Split(r, ':');
      if |fields| == 2 && AllDigits(fields[0]) && AllDigits(fields[1]) then
        Some(DigitsValue(fields[0]) * 60 + DigitsValue(fields[1]))
      else if |fields| == 3 && AllDigits(fields[0]) && AllDigits(fields[1]) && AllDigits(fields[2]) then
        Some(DigitsValue(fields[0]) * 3600 + DigitsValue(fields[1]) * 60 + DigitsValue(fields[2]))
      else None
  }

  lemma Pad2Value(n: nat)
    requires n < 100
    ensures DigitsValue(Pad2(n)) == n
  {
    var r := Pad2(n);
    assert r[..1][..0] == [];
    assert r[..1] == [r[0]];
    if n < 10 {
      assert DigitValue(r[1]) == n && DigitValue(r[0]) == 0;
      assert DigitsValue(r[..1]) == 0;
    } else {
      assert DigitValue(r[0]) == n / 10 && DigitValue(r[1]) == n % 10;
    }
  }

  /** Under a minute: digits, then the unit, and no colon. */
  lemma SecondsForm(s: nat)
    requires s < 60
    ensures var r := FormatDuration(s);
            r[|r| - 1] == SecondsUnit && r[..|r| - 1] == NatToString(s) && Split(r, ':') == [r]
  {
    var r := FormatDuration(s);
    assert r[..|r| - 1] == NatToString(s);
    assert ':' !in NatToString(s);
    SplitNone(r, ':');
  }

  /** Under an hour: minutes and padded seconds. */
  lemma MinutesForm(s: nat)
    requires 60 <= s < 3600
    ensures var r := FormatDuration(s);
            r[|r| - 1] != SecondsUnit && Split(r, ':') == [NatToString(s / 60), Pad2(s % 60)]
  {
    var ds := NatToString(s / 60);
    assert ':' !in ds;
    SplitAt(ds, ':', Pad2(s % 60));
    SplitNone(Pad2(s % 60), ':');
  }

  /** An hour or more: hours, then padded minutes and seconds. */
  lemma HoursForm(s: nat)
    requires 3600 <= s
    ensures var r := FormatDuration(s);
            var (h, m, sec) := ClockFields(s);
            r[|r| - 1] != SecondsUnit && Split(r, ':') == [NatToString(h), Pad2(m), Pad2(sec)]
  {
    var (h, m, sec) := ClockFields(s);
    var ds := NatToString(h);
    var r := FormatDuration(s);
    assert ':' !in ds;
    assert r == ds + [':'] + (Pad2(m) + [':'] + Pad2(sec));
    SplitAt(ds, ':', Pad2(m) + [':'] + Pad2(sec));
    SplitAt(Pad2(m), ':', Pad2(sec));
    SplitNone(Pad2(sec), ':');
  }

  /** Every formatted duration reads back as the seconds it was made from:
      the printed fields always add up to the input. */
  lemma FormatRoundTrip(s: nat)
    ensures ReadDuration(FormatDuration(s)) == Some(s)
  {
    if s < 60 {
      SecondsRoundTrip(s);
    } else if s < 3600 {
      MinutesRoundTrip(s);
    } else {
      HoursRoundTrip(s);
    }
  }

  lemma SecondsRoundTrip(s: nat)
    requires s < 60
    ensures ReadDuration(FormatDuration(s)) == Some(s)
  {
    SecondsForm(s);
    DigitsValueOfNatToString(s);
  }

  lemma MinutesRoundTrip(s: nat)
    requires 60 <= s < 3600
    ensures ReadDuration(FormatDuration(s)) == Some(s)
  {
    var r := FormatDuration(s);
    MinutesForm(s);
    var fields := Split(r, ':');
    DigitsValueOfNatToString(s / 60);
    Pad2Value(s % 60);
    assert ReadDuration(r) == Some(DigitsValue(fields[0]) * 60 + DigitsValue(fields[1]));
  }

  lemma HoursRoundTrip(s: nat)
    requires 3600 <= s
    ensures ReadDuration(FormatDuration(s)) == Some(s)
  {
    var r := FormatDuration(s);
    HoursForm(s);
    var (h, m, sec) := ClockFields(s);
    var fields := Split(r, ':');
    DigitsValueOfNatToString(h);
    Pad2Value(m);
    Pad2Value(sec);
    assert ReadDuration(r) == Some(DigitsValue(fields[0]) * 3600 + DigitsValue(fields[1]) * 60 + DigitsValue(fields[2]));
  }

  /** The three forms are told apart by the input's range. */
  lemma FormatShape(s: nat)
    ensures s < 60 <==> FormatDuration(s)[|FormatDuration(s)| - 1] == SecondsUnit
    ensures 60 <= s < 3600 <==> |Split(FormatDuration(s), ':')| == 2
    ensures 3600 <= s <==> |Split(FormatDuration(s), ':')| == 3
  {
    if s < 60 {
      SecondsForm(s);
    } else if s < 3600 {
      MinutesForm(s);
    } else {
      HoursForm(s);
    }
  }
}
