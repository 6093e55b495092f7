/** `_parse_duration` (youtube_api.py:231-241): the subset `PT[nH][nM][nS]`
    of the ISO 8601 duration format, read with the prefix semantics of
    Python's `re.match`.

    The pattern is `PT(?:(\d+)H)?(?:(\d+)M)?(?:(\d+)S)?`. Every group is
    optional, so any text starting with `PT` matches; a group matches only
    when a greedy digit run is followed by its unit letter, otherwise it
    matches empty and the next group is tried at the same place. Whatever
    follows the match is ignored. Text not starting with `PT` (including the
    day-bearing `P1DT2H`) does not match and yields 0.
 */
module Duration {
  import opened Wrappers
  import opened Text

  /** One optional group `(?:(\d+)U)?` at the start of `s`: the number it
      captured (0 when the group matched empty) and how many characters it
      consumed. */
  function Component(s: string, unit: char): (r: (nat, nat))
    requires !IsDigit(unit)
    ensures r.1 <= |s|
    ensures r.1 == 0 ==> r.0 == 0
    ensures r.1 > 0 ==> r.1 >= 2 && AllDigits(s[..r.1 - 1]) && s[r.1 - 1] == unit
                        && r.0 == DigitsValue(s[..r.1 - 1])
  {
    var n := DigitRun(s);
    if 0 < n < |s| && s[n] == unit then (DigitsValue(s[..n]), n + 1) else (0, 0)
  }

  /** `_parse_duration(duration)`: total seconds. */
  function ParseDuration(s: string): (seconds: nat)
    ensures !StartsWith(s, "PT") ==> seconds == 0
  {
    if !StartsWith(s, "PT") then 0 else ParseFields(s[2..])
  }

  /** The three optional groups read in H, M, S order from the text after
      the `PT` designator. */
  function ParseFields(rest: string): nat {
    var h := Component(rest, 'H');
    h.0 * 3600 + ParseMinutesSeconds(rest[h.1..])
  }

  /** The minutes and seconds groups, read where the hours group stopped. */
  function ParseMinutesSeconds(rest: string): nat {
    var m := Component(rest, 'M');
    m.0 * 60 + Component(rest[m.1..], 'S').0
  }

  /** A duration token with any subset of its three fields present. */
  datatype Token = Token(hours: Option<nat>, minutes: Option<nat>, seconds: Option<nat>)

  /** The number of seconds a token denotes, absent fields counting 0. */
  function Seconds(t: Token): nat {
    t.hours.GetOr(0) * 3600 + t.minutes.GetOr(0) * 60 + t.seconds.GetOr(0)
  }

  function Field(v: Option<nat>, unit: char): string {
    match v
    case None => ""
    case Some(n) => NatToString(n) + [unit]
  }

  /** The canonical text of a token, as the API sends it. */
  function Encode(t: Token): string {
    "PT" + Field(t.hours, 'H') + Field(t.minutes, 'M') + Field(t.seconds, 'S')
  }

  /** A field followed by text that does not start with a digit is read back
      exactly, and reading stops right after it. */
  lemma ComponentOfField(v: Option<nat>, unit: char, rest: string)
    requires !IsDigit(unit)
    requires v.Some? || rest == [] || !IsDigit(rest[0])
    ensures Component(Field(v, unit) + rest, unit) == (v.GetOr(0), |Field(v, unit)|)
  {
    match v
    case None =>
      assert Field(v, unit) + rest == rest;
      if rest != [] {
        assert DigitRun(rest) == 0;
      }
    case Some(n) =>
      var ds := NatToString(n);
      var s := ds + [unit] + rest;
      assert s == ds + ([unit] + rest);
      DigitRunOfDigits(ds, [unit] + rest);
      assert s[..|ds|] == ds;
      DigitsValueOfNatToString(n);
  }

  /** Round trip: parsing the text of a token gives its number of seconds.
      Text after it is ignored, provided it cannot extend the last field
      (it starts with a non-digit, or the seconds field closed the match). */
  lemma ParseEncode(t: Token, trailing: string)
    requires t.seconds.Some? || trailing == [] || !IsDigit(trailing[0])
    ensures ParseDuration(Encode(t) + trailing) == Seconds(t)
  {
    var rest := Field(t.hours, 'H') + (Field(t.minutes, 'M') + (Field(t.seconds, 'S') + trailing));
    FieldsRead(t, trailing);
    EncodeShape(t, trailing);
    ParseAfterDesignator(rest);
  }

  lemma EncodeShape(t: Token, trailing: string)
    ensures Encode(t) + trailing
            == "PT" + (Field(t.hours, 'H') + (Field(t.minutes, 'M') + (Field(t.seconds, 'S') + trailing)))
  {
  }

  /** The three groups read the three fields of a token. */
  lemma FieldsRead(t: Token, trailing: string)
    requires t.seconds.Some? || trailing == [] || !IsDigit(trailing[0])
    ensures ParseFields(Field(t.hours, 'H') + (Field(t.minutes, 'M') + (Field(t.seconds, 'S') + trailing)))
            == Seconds(t)
  {
    var fm := Field(t.minutes, 'M');
    var fs := Field(t.seconds, 'S');
    ComponentOfHours(t, trailing);
    HoursStep(Field(t.hours, 'H'), fm + (fs + trailing), t.hours.GetOr(0));
    ComponentOfMinutes(t, trailing);
    MinutesStep(fm, fs + trailing, t.minutes.GetOr(0));
    ComponentOfField(t.seconds, 'S', trailing);
  }

  /** When the hours group consumes exactly `fh`, the rest is read from
      what follows it. */
  lemma HoursStep(fh: string, after: string, hours: nat)
    requires Component(fh + after, 'H') == (hours, |fh|)
    ensures ParseFields(fh + after) == hours * 3600 + ParseMinutesSeconds(after)
  {
    assert (fh + after)[|fh|..] == after;
  }

  /** When the minutes group consumes exactly `fm`, the seconds group is
      read from what follows it. */
  lemma MinutesStep(fm: string, after: string, minutes: nat)
    requires Component(fm + after, 'M') == (minutes, |fm|)
    ensures ParseMinutesSeconds(fm + after) == minutes * 60 + Component(after, 'S').0
  {
    assert (fm + after)[|fm|..] == after;
  }

  /** Text starting with the `PT` designator is read by ParseFields. */
  lemma ParseAfterDesignator(rest: string)
    ensures ParseDuration("PT" + rest) == ParseFields(rest)
  {
    var s := "PT" + rest;
    assert s[..2] == "PT";
    assert s[2..] == rest;
  }

  /** The minutes group reads the minutes field and nothing more: the text
      after it either starts with a non-digit or with the seconds field,
      whose digits end at `S`, not `M`. */
  lemma ComponentOfMinutes(t: Token, trailing: string)
    requires t.seconds.Some? || trailing == [] || !IsDigit(trailing[0])
    ensures Component(Field(t.minutes, 'M') + (Field(t.seconds, 'S') + trailing), 'M')
            == (t.minutes.GetOr(0), |Field(t.minutes, 'M')|)
  {
    var after := Field(t.seconds, 'S') + trailing;
    if after == [] || !IsDigit(after[0]) {
      ComponentOfField(t.minutes, 'M', after);
    } else {
      var fm := Field(t.minutes, 'M');
      match t.minutes
      case Some(n) =>
        var ds := NatToString(n);
        assert fm + after == ds + (['M'] + after);
        DigitRunOfDigits(ds, ['M'] + after);
        assert (fm + after)[..|ds|] == ds;
        DigitsValueOfNatToString(n);
      case None =>
        assert fm + after == after;
        UnitFieldNotOther(t.seconds, 'S', 'M', trailing);
    }
  }

  /** The hours group reads the hours field and nothing more. */
  lemma ComponentOfHours(t: Token, trailing: string)
    requires t.seconds.Some? || trailing == [] || !IsDigit(trailing[0])
    ensures Component(Field(t.hours, 'H') + (Field(t.minutes, 'M') + (Field(t.seconds, 'S') + trailing)), 'H')
            == (t.hours.GetOr(0), |Field(t.hours, 'H')|)
  {
    var after := Field(t.minutes, 'M') + (Field(t.seconds, 'S') + trailing);
    var fh := Field(t.hours, 'H');
    match t.hours
    case Some(n) =>
      var ds := NatToString(n);
      assert fh + after == ds + (['H'] + after);
      DigitRunOfDigits(ds, ['H'] + after);
      assert (fh + after)[..|ds|] == ds;
      DigitsValueOfNatToString(n);
    case None =>
      assert fh + after == after;
      if t.minutes.Some? {
        assert after == Field(t.minutes, 'M') + (Field(t.seconds, 'S') + trailing);
        UnitFieldNotOther(t.minutes, 'M', 'H', Field(t.seconds, 'S') + trailing);
      } else {
        assert after == Field(t.seconds, 'S') + trailing;
        UnitFieldNotOther(t.seconds, 'S', 'H', trailing);
      }
  }

  /** A present field ends its digits at its own unit, so a group for a
      different unit matches empty on it. */
  lemma UnitFieldNotOther(v: Option<nat>, unit: char, other: char, rest: string)
    requires !IsDigit(unit) && !IsDigit(other) && unit != other
    requires rest == [] || !IsDigit(rest[0]) || v.Some?
    ensures Component(Field(v, unit) + rest, other) == (0, 0)
  {
    var s := Field(v, unit) + rest;
    match v
    case Some(n) =>
      var ds := NatToString(n);
      assert s == ds + ([unit] + rest);
      DigitRunOfDigits(ds, [unit] + rest);
    case None =>
      assert s == rest;
      if rest != [] {
        assert DigitRun(rest) == 0;
      }
  }

  // Worked cases: the docstring's own example and the API's usual shapes.
  // Each first fixes the token's text, then applies the round trip.

  lemma TextFull()
    ensures Encode(Token(Some(1), Some(2), Some(3))) == "PT1H2M3S"
  {
    assert NatToString(1) == "1" && NatToString(2) == "2" && NatToString(3) == "3";
  }

  lemma ExampleFull()
    ensures ParseDuration("PT1H2M3S") == 3723
  {
    var t := Token(Some(1), Some(2), Some(3));
    TextFull();
    ParseEncode(t, "");
    assert Encode(t) + "" == Encode(t);
  }

  lemma TextMinutesSeconds()
    ensures Encode(Token(None, Some(15), Some(33))) == "PT15M33S"
  {
    assert NatToString(15) == "15" && NatToString(33) == "33";
  }

  lemma ExampleMinutesSeconds()
    ensures ParseDuration("PT15M33S") == 933
  {
    var t := Token(None, Some(15), Some(33));
    TextMinutesSeconds();
    ParseEncode(t, "");
    assert Encode(t) + "" == Encode(t);
  }

  lemma TextMinutes()
    ensures Encode(Token(None, Some(10), None)) == "PT10M"
  {
    assert NatToString(10) == "10";
  }

  lemma ExampleMinutes()
    ensures ParseDuration("PT10M") == 600
  {
    var t := Token(None, Some(10), None);
    TextMinutes();
    ParseEncode(t, "");
    assert Encode(t) + "" == Encode(t);
  }

  /** The bare designator matches with every group empty. */
  lemma ExampleEmpty()
    ensures ParseDuration("PT") == 0
  {
    var t := Token(None, None, None);
    ParseEncode(t, "");
    assert Encode(t) + "" == "PT";
  }

  lemma TextOutOfOrder()
    ensures Encode(Token(None, None, Some(5))) + "10M" == "PT5S10M"
  {
    assert NatToString(5) == "5";
  }

  /** Out-of-order fields: the match stops after `5S`, and `10M` is
      ignored trailing text. */
  lemma ExampleOutOfOrder()
    ensures ParseDuration("PT5S10M") == 5
  {
    TextOutOfOrder();
    ParseEncode(Token(None, None, Some(5)), "10M");
  }

  /** A day-bearing duration does not start with `PT`. */
  lemma ExampleDays()
    ensures ParseDuration("P1DT2H") == 0
  {
    assert !StartsWith("P1DT2H", "PT") by {
      assert "P1DT2H"[..2][1] == '1';
    }
  }

  /** Free text does not start with `PT`. */
  lemma ExampleGarbage()
    ensures ParseDuration("garbage") == 0
  {
    assert !StartsWith("garbage", "PT") by {
      assert "garbage"[..2][0] == 'g';
    }
  }
}
