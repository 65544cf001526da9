/**
 * `formatRemainingTime`: turning the battery report's `H:MM` token into the
 * compact form shown to the user (`"2h10m"`, `"45m"`, `"2h"`).
 */
module Duration {
  import opened Wrappers
  import opened Text

  /** Index of the colon in a time token: the end of its leading digit run. */
  function ColonIndex(t: string): nat {
    RunEnd(t, 0, Digit)
  }

  /** `[0-9]+:[0-9]+`, the whole of a remaining-time token. */
  predicate IsTimeText(t: string) {
    var c := ColonIndex(t);
    0 < c && c + 1 < |t| && t[c] == ':' && AllIn(t, c + 1, |t|, Digit)
  }

  /** `Number` of the part before the colon. */
  function Hours(t: string): nat
    requires IsTimeText(t)
  {
    var c := ColonIndex(t);
    assert AllDigits(t[..c]);
    DecimalValue(t[..c])
  }

  /** `Number` of the part after the colon. */
  function Minutes(t: string): nat
    requires IsTimeText(t)
  {
    var c := ColonIndex(t);
    assert AllDigits(t[c + 1..]);
    DecimalValue(t[c + 1..])
  }

  /**
   * The token has exactly one colon, so `time.split(':')` yields the two
   * digit strings around it and `map(Number)` their values. The display is
   * a number followed by `h` or `m`, or both parts.
   */
  function FormatRemainingTime(t: string): (r: string)
    requires IsTimeText(t)
    ensures |r| >= 2 && (r[|r| - 1] == 'h' || r[|r| - 1] == 'm')
  {
    var hours, minutes := Hours(t), Minutes(t);
    if hours == 0 then NatToDecimal(minutes) + "m"
    else if minutes == 0 then NatToDecimal(hours) + "h"
    else NatToDecimal(hours) + "h" + NatToDecimal(minutes) + "m"
  }

  /**
   * The displayed duration loses nothing: it reads back, in the one
   * canonical form `ReadDuration` accepts, as the token's hours and minutes.
   */
  lemma FormatReadsBack(t: string)
    requires IsTimeText(t)
    ensures ReadDuration(FormatRemainingTime(t)) == Some((Hours(t), Minutes(t)))
  {
    var hours, minutes := Hours(t), Minutes(t);
    if hours == 0 {
      MinutesFormReads(minutes);
    } else if minutes == 0 {
      HoursFormReads(hours);
    } else {
      HoursMinutesFormReads(hours, minutes);
    }
  }

  /**
   * Reads a displayed duration back: `"{h}h{m}m"`, `"{h}h"` or `"{m}m"`
   * give hours and minutes. Only the canonical spelling is accepted: numbers
   * without leading zeros, no `"0h"`, and no zero minutes after the hours.
   * Anything else gives None.
   */
  function ReadDuration(r: string): Option<(nat, nat)> {
    if |r| < 2 then None
    else
      var body, unit := r[..|r| - 1], r[|r| - 1];
      var k := RunEnd(body, 0, Digit);
      if k == |body| && IsCanonicalDecimal(body) then
        if unit == 'h' && body[0] != '0' then Some((DecimalValue(body), 0))
        else if unit == 'm' then Some((0, DecimalValue(body)))
        else None
      else if unit == 'm' && 0 < k && k + 1 < |body| && body[k] == 'h'
              && AllIn(body, k + 1, |body|, Digit) && body[0] != '0' && body[k + 1] != '0' then
        assert AllDigits(body[..k]) && AllDigits(body[k + 1..]);
        Some((DecimalValue(body[..k]), DecimalValue(body[k + 1..])))
      else None
  }

  /** `{m}m` reads back as no hours and `m` minutes. */
  lemma MinutesFormReads(m: nat)
    ensures ReadDuration(NatToDecimal(m) + "m") == Some((0, m))
  {
    var d := NatToDecimal(m);
    var r := d + "m";
    assert r[..|r| - 1] == d;
    RunEndUnique(d, 0, Digit, |d|);
  }

  /** `{h}h` reads back as `h` hours and no minutes, for `h` other than 0. */
  lemma HoursFormReads(h: nat)
    requires h > 0
    ensures ReadDuration(NatToDecimal(h) + "h") == Some((h, 0))
  {
    var d := NatToDecimal(h);
    var r := d + "h";
    assert r[..|r| - 1] == d;
    RunEndUnique(d, 0, Digit, |d|);
  }

  /** `{h}h{m}m` reads back as `h` hours and `m` minutes, for `h` and `m` other than 0. */
  lemma HoursMinutesFormReads(h: nat, m: nat)
    requires h > 0 && m > 0
    ensures ReadDuration(NatToDecimal(h) + "h" + NatToDecimal(m) + "m") == Some((h, m))
  {
    var hs, ms := NatToDecimal(h), NatToDecimal(m);
    var r := hs + "h" + ms + "m";
    var body := r[..|r| - 1];
    assert body == hs + "h" + ms;
    assert body[|hs|] == 'h';
    RunEndUnique(body, 0, Digit, |hs|);
    assert body[..|hs|] == hs;
    assert body[|hs| + 1..] == ms;
  }

  /**
   * The displayed duration is the only string that reads back as the
   * token's hours and minutes: the three display forms are forced.
   */
  lemma FormatIsOnlyReading(t: string, r: string)
    requires IsTimeText(t)
    ensures ReadDuration(r) == Some((Hours(t), Minutes(t))) <==> r == FormatRemainingTime(t)
  {
    FormatReadsBack(t);
    if ReadDuration(r) == Some((Hours(t), Minutes(t))) {
      var body := r[..|r| - 1];
      if RunEnd(body, 0, Digit) == |body| && IsCanonicalDecimal(body) {
        OneNumberReading(r);
      } else {
        TwoNumberReading(r);
      }
    }
  }

  /** A reading of `{n}h` or `{n}m` is the display of its values. */
  lemma OneNumberReading(r: string)
    requires ReadDuration(r).Some? && |r| >= 2
    requires var body := r[..|r| - 1]; RunEnd(body, 0, Digit) == |body| && IsCanonicalDecimal(body)
    ensures var (h, m) := ReadDuration(r).value;
            r == (if h == 0 then NatToDecimal(m) + "m" else NatToDecimal(h) + "h") && (h == 0 || m == 0)
  {
    var body, unit := r[..|r| - 1], r[|r| - 1];
    assert r == body + [unit];
    DecimalReadsBack(body);
    if unit == 'h' && body[0] != '0' {
      LeadingDigitPositive(body);
    }
  }

  /** A reading that is not a single number has the shape `{h}h{m}m`, with neither number starting with `0`. */
  lemma TwoNumberShape(r: string)
    requires ReadDuration(r).Some? && |r| >= 2
    requires var body := r[..|r| - 1]; !(RunEnd(body, 0, Digit) == |body| && IsCanonicalDecimal(body))
    ensures var body := r[..|r| - 1];
            var k := RunEnd(body, 0, Digit);
            r[|r| - 1] == 'm' && 0 < k && k + 1 < |body| && body[k] == 'h'
            && AllDigits(body[..k]) && AllDigits(body[k + 1..])
            && body[0] != '0' && body[k + 1] != '0'
            && ReadDuration(r).value == (DecimalValue(body[..k]), DecimalValue(body[k + 1..]))
  {
    var body := r[..|r| - 1];
    var k := RunEnd(body, 0, Digit);
    assert AllDigits(body[..k]) && AllDigits(body[k + 1..]);
  }

  /** A reading of `{h}h{m}m` is the display of its values. */
  lemma TwoNumberReading(r: string)
    requires ReadDuration(r).Some? && |r| >= 2
    requires var body := r[..|r| - 1]; !(RunEnd(body, 0, Digit) == |body| && IsCanonicalDecimal(body))
    ensures var (h, m) := ReadDuration(r).value;
            h > 0 && m > 0 && r == NatToDecimal(h) + "h" + NatToDecimal(m) + "m"
  {
    TwoNumberShape(r);
    TwoNumberText(r, RunEnd(r[..|r| - 1], 0, Digit));
  }

  /** `{h}h{m}m` text whose numbers do not start with `0` is the display of their values. */
  lemma TwoNumberText(r: string, k: nat)
    requires |r| >= 2
    requires var body := r[..|r| - 1];
             r[|r| - 1] == 'm' && 0 < k && k + 1 < |body| && body[k] == 'h'
             && AllDigits(body[..k]) && AllDigits(body[k + 1..])
             && body[0] != '0' && body[k + 1] != '0'
    ensures var body := r[..|r| - 1];
            var h, m := DecimalValue(body[..k]), DecimalValue(body[k + 1..]);
            h > 0 && m > 0 && r == NatToDecimal(h) + "h" + NatToDecimal(m) + "m"
  {
    var body := r[..|r| - 1];
    SplitAtUnits(r, k);
    PositivePartsReadBack(body[..k], body[k + 1..]);
  }

  /** Text ending in `m` with an `h` at `k` is its two parts joined by those letters. */
  lemma SplitAtUnits(r: string, k: nat)
    requires |r| >= 2 && r[|r| - 1] == 'm' && 0 < k && k + 1 < |r| - 1 && r[k] == 'h'
    ensures var body := r[..|r| - 1];
            |body[..k]| > 0 && |body[k + 1..]| > 0
            && body[..k][0] == body[0] && body[k + 1..][0] == body[k + 1]
            && r == body[..k] + "h" + body[k + 1..] + "m"
  {
    var body := r[..|r| - 1];
    assert body == body[..k] + [body[k]] + body[k + 1..];
    assert r == body + [r[|r| - 1]];
  }

  /** Digit strings that do not start with `0` print back as themselves and denote positive numbers. */
  lemma PositivePartsReadBack(hs: string, ms: string)
    requires |hs| > 0 && |ms| > 0 && AllDigits(hs) && AllDigits(ms) && hs[0] != '0' && ms[0] != '0'
    ensures DecimalValue(hs) > 0 && DecimalValue(ms) > 0
    ensures NatToDecimal(DecimalValue(hs)) == hs && NatToDecimal(DecimalValue(ms)) == ms
  {
    LeadingDigitPositive(hs);
    LeadingDigitPositive(ms);
    DecimalReadsBack(hs);
    DecimalReadsBack(ms);
  }

  /** A token built from two digit strings splits back into them. */
  lemma TimeTextOf(hs: string, ms: string)
    requires |hs| > 0 && |ms| > 0 && AllDigits(hs) && AllDigits(ms)
    ensures IsTimeText(hs + ":" + ms)
    ensures Hours(hs + ":" + ms) == DecimalValue(hs)
    ensures Minutes(hs + ":" + ms) == DecimalValue(ms)
  {
    var t := hs + ":" + ms;
    RunEndUnique(t, 0, Digit, |hs|);
    assert t[..|hs|] == hs;
    assert t[|hs| + 1..] == ms;
  }

  /** The display of a token built from two digit strings, in terms of their values. */
  lemma FormatOfParts(hs: string, ms: string)
    requires |hs| > 0 && |ms| > 0 && AllDigits(hs) && AllDigits(ms)
    ensures IsTimeText(hs + ":" + ms)
    ensures var h, m := DecimalValue(hs), DecimalValue(ms);
            FormatRemainingTime(hs + ":" + ms)
              == if h == 0 then NatToDecimal(m) + "m"
                 else if m == 0 then NatToDecimal(h) + "h"
                 else NatToDecimal(h) + "h" + NatToDecimal(m) + "m"
  {
    TimeTextOf(hs, ms);
  }

  /** Hours and minutes written without leading zeros, both other than 0, appear as written. */
  lemma FormatWrittenParts(hs: string, ms: string)
    requires IsCanonicalDecimal(hs) && IsCanonicalDecimal(ms) && hs[0] != '0' && ms[0] != '0'
    ensures IsTimeText(hs + ":" + ms)
    ensures FormatRemainingTime(hs + ":" + ms) == hs + "h" + ms + "m"
  {
    FormatOfParts(hs, ms);
    LeadingDigitPositive(hs);
    LeadingDigitPositive(ms);
    DecimalReadsBack(hs);
    DecimalReadsBack(ms);
  }

  /** With zero hours, minutes written without leading zeros appear as written. */
  lemma FormatWrittenMinutes(hs: string, ms: string)
    requires |hs| > 0 && AllDigits(hs) && DecimalValue(hs) == 0 && IsCanonicalDecimal(ms)
    ensures IsTimeText(hs + ":" + ms)
    ensures FormatRemainingTime(hs + ":" + ms) == ms + "m"
  {
    FormatOfParts(hs, ms);
    DecimalReadsBack(ms);
  }

  /** With zero minutes, hours written without leading zeros appear as written. */
  lemma FormatWrittenHours(hs: string, ms: string)
    requires IsCanonicalDecimal(hs) && hs[0] != '0' && |ms| > 0 && AllDigits(ms) && DecimalValue(ms) == 0
    ensures IsTimeText(hs + ":" + ms)
    ensures FormatRemainingTime(hs + ":" + ms) == hs + "h"
  {
    FormatOfParts(hs, ms);
    LeadingDigitPositive(hs);
    DecimalReadsBack(hs);
  }

  /** `"1:05"` shows as `"1h5m"`: numbers are printed without leading zeros. */
  lemma FormatOneHourFive()
    ensures FormatRemainingTime("1:05") == "1h5m"
  {
    FormatOfParts("1", "05");
    assert DecimalValue("05") == DecimalValue("5") by { assert "05"[..1] == "0"; }
    DecimalReadsBack("1");
    DecimalReadsBack("5");
    assert "1" + ":" + "05" == "1:05";
    assert "1" + "h" + "5" + "m" == "1h5m";
  }

  /** `"0:00"` shows as `"0m"`: zero hours win over zero minutes. */
  lemma FormatZero()
    ensures FormatRemainingTime("0:00") == "0m"
  {
    FormatOfParts("0", "00");
    assert DecimalValue("00") == 0 by { assert "00"[..1] == "0"; }
    assert "0" + ":" + "00" == "0:00";
  }

  /** `"0:45"` shows as `"45m"`. */
  lemma FormatMinutesOnly()
    ensures FormatRemainingTime("0:45") == "45m"
  {
    FormatWrittenMinutes("0", "45");
    assert "0" + ":" + "45" == "0:45";
    assert "45" + "m" == "45m";
  }

  /** `"2:00"` shows as `"2h"`. */
  lemma FormatWholeHours()
    ensures FormatRemainingTime("2:00") == "2h"
  {
    assert DecimalValue("00") == 0 by { assert "00"[..1] == "0"; }
    FormatWrittenHours("2", "00");
    assert "2" + ":" + "00" == "2:00";
    assert "2" + "h" == "2h";
  }

  /** `"1:30"` shows as `"1h30m"`. */
  lemma FormatHoursAndMinutes()
    ensures FormatRemainingTime("1:30") == "1h30m"
  {
    FormatWrittenParts("1", "30");
    assert "1" + ":" + "30" == "1:30";
    assert "1" + "h" + "30" + "m" == "1h30m";
  }
}
