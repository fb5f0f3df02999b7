/** helpers/security_utils.py: the rate-limit string handed to the limiter,
    "<requests>/<count> <unit>", with the unit the largest of hour, minute
    and second that divides the window. */
module SecurityUtils {
  import opened Wrappers
  import opened Text

  /** The singular word for a count of one, the plural otherwise. */
  function UnitWord(count: int, singular: string, plural: string): (word: string)
    ensures count == 1 ==> word == singular
    ensures count != 1 ==> word == plural
  {
    if count == 1 then singular else plural
  }

  function Render(requests: nat, count: nat, unit: string): string {
    NatToString(requests) + "/" + NatToString(count) + " " + unit
  }

  /** `_format_limit_string()` over the two configured integers. */
  function FormatLimitString(requests: int, window: int): (r: Option<string>)
    ensures r.None? <==> requests <= 0 || window <= 0
  {
    if requests <= 0 || window <= 0 then None
    else if window % 3600 == 0 then Some(Render(requests, window / 3600, UnitWord(window / 3600, "hour", "hours")))
    else if window % 60 == 0 then Some(Render(requests, window / 60, UnitWord(window / 60, "minute", "minutes")))
    else Some(Render(requests, window, UnitWord(window, "second", "seconds")))
  }

  /** A limit as the limiter reads it back. */
  datatype RateLimit = RateLimit(requests: nat, count: nat, unit: string)

  /** Seconds in one unit, singular or plural. */
  function UnitSeconds(unit: string): Option<nat> {
    if unit == "hour" || unit == "hours" then Some(3600)
    else if unit == "minute" || unit == "minutes" then Some(60)
    else if unit == "second" || unit == "seconds" then Some(1)
    else None
  }

  /** Reads "<requests>/<count> <unit>". */
  function ParseLimitString(s: string): Option<RateLimit> {
    var halves := Split(s, '/');
    if |halves| != 2 then None
    else
      var words := Split(halves[1], ' ');
      if |words| != 2 then None
      else
        var requests := ParseNat(halves[0]);
        var count := ParseNat(words[0]);
        if requests.None? || count.None? || UnitSeconds(words[1]).None? then None
        else Some(RateLimit(requests.value, count.value, words[1]))
  }

  lemma UnitWordIsPlain(unit: string)
    requires UnitSeconds(unit).Some?
    ensures '/' !in unit && ' ' !in unit
  {
  }

  lemma DigitsArePlain(digits: string)
    requires AllDigits(digits)
    ensures '/' !in digits && ' ' !in digits
  {
  }

  lemma SplitRender(requests: nat, count: nat, unit: string)
    requires UnitSeconds(unit).Some?
    ensures Split(Render(requests, count, unit), '/')
         == [NatToString(requests), NatToString(count) + " " + unit]
  {
    var a, n := NatToString(requests), NatToString(count);
    var b := n + " " + unit;
    assert Render(requests, count, unit) == a + ['/'] + b;
    DigitsArePlain(a);
    DigitsArePlain(n);
    UnitWordIsPlain(unit);
    assert '/' !in b;
    SplitConcat(a, b, '/');
    SplitWithoutSeparator(a, '/');
    SplitWithoutSeparator(b, '/');
  }

  lemma SplitCountAndUnit(count: nat, unit: string)
    requires UnitSeconds(unit).Some?
    ensures Split(NatToString(count) + " " + unit, ' ') == [NatToString(count), unit]
  {
    var n := NatToString(count);
    assert n + " " + unit == n + [' '] + unit;
    DigitsArePlain(n);
    UnitWordIsPlain(unit);
    SplitConcat(n, unit, ' ');
    SplitWithoutSeparator(n, ' ');
    SplitWithoutSeparator(unit, ' ');
  }

  lemma ParseRender(requests: nat, count: nat, unit: string)
    requires UnitSeconds(unit).Some?
    ensures ParseLimitString(Render(requests, count, unit)) == Some(RateLimit(requests, count, unit))
  {
    SplitRender(requests, count, unit);
    SplitCountAndUnit(count, unit);
    ParseNatToString(requests);
    ParseNatToString(count);
  }

  /** Reading the string back recovers the request count and a period of
      exactly the configured window; the unit is the largest that divides the
      window, and it is singular exactly when its count is one. */
  lemma FormatLimitStringRoundTrip(requests: int, window: int)
    requires requests > 0 && window > 0
    ensures var l := ParseLimitString(FormatLimitString(requests, window).value);
      && l.Some?
      && l.value.requests == requests
      && UnitSeconds(l.value.unit).Some?
      && l.value.count * UnitSeconds(l.value.unit).value == window
      && UnitSeconds(l.value.unit).value ==
           (if window % 3600 == 0 then 3600 else if window % 60 == 0 then 60 else 1)
      && (l.value.unit in {"hour", "minute", "second"} <==> l.value.count == 1)
  {
    if window % 3600 == 0 {
      ParseRender(requests, window / 3600, UnitWord(window / 3600, "hour", "hours"));
    } else if window % 60 == 0 {
      ParseRender(requests, window / 60, UnitWord(window / 60, "minute", "minutes"));
    } else {
      ParseRender(requests, window, UnitWord(window, "second", "seconds"));
    }
  }

  /** The default configuration, 60 requests per 60 seconds. */
  lemma DefaultLimitString()
    ensures FormatLimitString(60, 60) == Some("60/1 minute")
  {
    assert NatToString(6) == "6";
    assert NatToString(60) == "60";
    assert NatToString(1) == "1";
    assert FormatLimitString(60, 60) == Some(Render(60, 1, "minute"));
    assert Render(60, 1, "minute") == "60" + "/" + "1" + " " + "minute";
    assert "60" + "/" + "1" + " " + "minute" == "60/1 minute";
  }
}
