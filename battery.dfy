/**
 * The parse-and-derive part of `fetchBatteryInfo`: the four values taken
 * from the battery report (`pmset -g batt`) and the adapter report
 * (`pmset -g ac`), the title and subtitle built from them, and the
 * low-power setting read from the settings report (`pmset -g custom`).
 * The three reports are the stdout texts of those commands.
 */
module Battery {
  import opened Wrappers
  import opened Text
  import opened Patterns
  import opened Tokens
  import opened Duration
  import opened LowPower

  /** The one error of the parse: 'Failed to parse battery information'. */
  datatype FetchError = ParseFailed

  /** The record published on success; `status` is the lower-cased keyword, given by its Name(). */
  datatype BatteryInfo = BatteryInfo(
    percentage: string,
    status: ChargeStatus,
    remainingTime: string,
    wattage: string,
    title: string,
    subtitle: string,
    lowPowerMode: bool,
    lowPowerModeSetting: Mode)

  /** The charger wattage is shown only while charging or charged, and then as it was read. */
  function WattageInfo(status: ChargeStatus, wattage: string): (r: string)
    ensures r != "" ==> r == wattage && (status == Charging || status == Charged)
    ensures (status == Charging || status == Charged) ==> r == wattage
  {
    if status == Charging || status == Charged then wattage else ""
  }

  /** The formatted remaining time, shown exactly when there is a token and the battery is not charged. */
  function RemainingInfo(status: ChargeStatus, remainingTime: string): (r: string)
    requires remainingTime == "" || IsTimeText(remainingTime)
    ensures r != "" <==> remainingTime != "" && status != Charged
  {
    if remainingTime != "" && status != Charged then FormatRemainingTime(remainingTime) else ""
  }

  /**
   * `"<percentage> - <status>"`, followed by `" (<wattageInfo>)"` exactly
   * when there is wattage information to show.
   */
  function Title(percentage: string, status: ChargeStatus, wattageInfo: string): (r: string)
    ensures var head := percentage + " - " + status.Name();
            |r| >= |head| && r[..|head|] == head
            && (wattageInfo == "" <==> |r| == |head|)
            && (wattageInfo != "" ==> r[|head|..] == " (" + wattageInfo + ")")
  {
    if wattageInfo != "" then percentage + " - " + status.Name() + " (" + wattageInfo + ")"
    else percentage + " - " + status.Name()
  }

  /**
   * "Fully charged" exactly when charged; the remaining information with
   * " until fully charged" while charging and " remaining" while
   * discharging; empty when there is nothing to show, which is always the
   * case for a finishing charge.
   */
  function Subtitle(status: ChargeStatus, remainingInfo: string): (r: string)
    ensures r == "Fully charged" <==> status == Charged
    ensures r == "" <==> status == FinishingCharge || (status != Charged && remainingInfo == "")
    ensures status == Charging && remainingInfo != "" ==> r == remainingInfo + " until fully charged"
    ensures status == Discharging && remainingInfo != "" ==> r == remainingInfo + " remaining"
  {
    if status == Charged then "Fully charged"
    else if status == Charging && remainingInfo != "" then
      var r := remainingInfo + " until fully charged";
      assert r[|r| - 1] == 'd' && |r| > |"Fully charged"|;
      r
    else if status == Discharging && remainingInfo != "" then
      var r := remainingInfo + " remaining";
      assert r[|r| - 1] == 'g';
      r
    else
      assert status == FinishingCharge || remainingInfo == "";
      ""
  }

  /** The text of a remaining-time match is a well-formed `H:MM` token. */
  lemma TimeMatchText(s: string, m: Match)
    requires MatchAt(RemainingTime, s, m.start) == Some(m.end)
    ensures IsTimeText(s[m.start..m.end])
  {
    TimeMatch(s, m.start);
    var t := s[m.start..m.end];
    var c := RunEnd(s, m.start, Digit);
    RunEndUnique(t, 0, Digit, c - m.start);
  }

  /** `remainingTimeMatch[0]`, or the empty string. */
  function RemainingTimeText(batt: string): (t: string)
    ensures t == "" || IsTimeText(t)
  {
    match Search(RemainingTime, batt, 0)
    case None => ""
    case Some(m) => TimeMatchText(batt, m); batt[m.start..m.end]
  }

  /** `wattageMatch[1] + 'W'`, or the empty string when the adapter report has no wattage entry. */
  function WattageText(ac: string): (w: string)
    ensures w == "" <==> !HasWattageToken(ac)
    ensures w != "" ==> |w| >= 2 && w[|w| - 1] == 'W'
  {
    FindsWattage(ac);
    match Search(Wattage, ac, 0)
    case None => ""
    case Some(m) =>
      var g := WattageValueAt(ac, m.start).value;
      ac[g.start..g.end] + "W"
  }

  /**
   * Parses the three reports. It fails exactly when the battery report has
   * no digit run followed by `%` or none of the four status keywords; the
   * remaining time and the wattage are optional.
   */
  function FetchBatteryInfo(batt: string, ac: string, custom: string): (r: Result<BatteryInfo, FetchError>)
    ensures r.Success? <==> HasPercentToken(batt) && HasStatusKeyword(batt)
  {
    FindsPercent(batt);
    FindsStatus(batt);
    var flags := ReadFlags(custom);
    var setting := ModeOf(flags);
    match (Search(Percent, batt, 0), Search(Status, batt, 0))
    case (Some(pm), Some(sm)) =>
      var percentage := batt[pm.start..pm.end];
      var status := StatusAt(batt, sm.start).value;
      var remainingTime := RemainingTimeText(batt);
      var wattage := WattageText(ac);
      var wattageInfo := WattageInfo(status, wattage);
      var remainingInfo := RemainingInfo(status, remainingTime);
      Success(BatteryInfo(
        percentage, status, remainingTime, wattage,
        Title(percentage, status, wattageInfo),
        Subtitle(status, remainingInfo),
        flags.battery || flags.ac,
        setting))
    case _ => Failure(ParseFailed)
  }

  /** The fields of a successful parse, spelled out from the two required matches. */
  lemma FetchFromMatches(batt: string, ac: string, custom: string, pm: Match, sm: Match)
    requires Search(Percent, batt, 0) == Some(pm) && Search(Status, batt, 0) == Some(sm)
    ensures FetchBatteryInfo(batt, ac, custom).Success?
    ensures var info, status := FetchBatteryInfo(batt, ac, custom).value, StatusAt(batt, sm.start).value;
            info.percentage == batt[pm.start..pm.end]
            && info.status == status
            && info.remainingTime == RemainingTimeText(batt)
            && info.wattage == WattageText(ac)
            && info.title == Title(info.percentage, status, WattageInfo(status, info.wattage))
            && info.subtitle == Subtitle(status, RemainingInfo(status, info.remainingTime))
            && info.lowPowerMode == (ReadFlags(custom).battery || ReadFlags(custom).ac)
            && info.lowPowerModeSetting == ModeOf(ReadFlags(custom))
  {
  }

  /** One or more digits and a final `%`: the text of a percentage token. */
  predicate IsPercentText(p: string) {
    |p| >= 2 && p[|p| - 1] == '%' && AllDigits(p[..|p| - 1])
  }

  /** `[0-9]+%` at `i` ending at `e`, with no such token starting earlier. */
  ghost predicate LeftmostPercent(s: string, i: nat, e: nat) {
    PercentToken(s, i, e) && forall i': nat, e': nat :: i' < i ==> !PercentToken(s, i', e')
  }

  /** Keyword `st` at `i`, with no keyword starting earlier. */
  ghost predicate LeftmostKeyword(s: string, i: nat, st: ChargeStatus) {
    KeywordAt(s, i, st) && forall i': nat, st': ChargeStatus :: i' < i ==> !KeywordAt(s, i', st')
  }

  /** A maximal `[0-9]+:[0-9]+` token at `i`, with no such token starting earlier. */
  ghost predicate LeftmostTime(s: string, i: nat, c: nat, e: nat) {
    TimeToken(s, i, c, e) && (e == |s| || !IsDigit(s[e]))
    && forall i': nat, c': nat, e': nat :: i' < i ==> !TimeToken(s, i', c', e')
  }

  /** A wattage label whose number `s[b..e]` runs as far as it can, with no label matching earlier. */
  ghost predicate LeftmostWattage(s: string, i: nat, a: nat, b: nat, e: nat) {
    WattageToken(s, i, a, b, e) && (e == |s| || !InClass(s[e], DigitOrDot))
    && forall i': nat, a': nat, b': nat, e': nat :: i' < i ==> !WattageToken(s, i', a', b', e')
  }

  /**
   * The percentage is the leftmost digit run followed by `%`, taken with
   * its `%` (`percentageMatch[0]`), so it reads e.g. `"35%"`.
   */
  lemma ParsedPercentage(batt: string, ac: string, custom: string)
    ensures FetchBatteryInfo(batt, ac, custom).Success? ==>
            var p := FetchBatteryInfo(batt, ac, custom).value.percentage;
            exists i: nat, e: nat :: LeftmostPercent(batt, i, e) && batt[i..e] == p
    ensures FetchBatteryInfo(batt, ac, custom).Success? ==>
            var p := FetchBatteryInfo(batt, ac, custom).value.percentage;
            IsPercentText(p)
  {
    if FetchBatteryInfo(batt, ac, custom).Success? {
      var pm, sm := Search(Percent, batt, 0).value, Search(Status, batt, 0).value;
      FetchFromMatches(batt, ac, custom, pm, sm);
      PercentSearchText(batt);
    }
  }

  /** The text of the percentage search is the leftmost percentage token: digits and a final `%`. */
  lemma PercentSearchText(s: string)
    ensures Search(Percent, s, 0).Some? ==>
              var m := Search(Percent, s, 0).value;
              var p := s[m.start..m.end];
              (exists i: nat, e: nat :: LeftmostPercent(s, i, e) && s[i..e] == p)
              && IsPercentText(p)
  {
    if Search(Percent, s, 0).Some? {
      var m := Search(Percent, s, 0).value;
      PercentSearchLeftmost(s);
      PercentMatch(s, m.start, m.end);
      PercentTokenText(s, m.start, m.end);
    }
  }

  /** The percentage search finds the leftmost percentage token. */
  lemma PercentSearchLeftmost(s: string)
    ensures Search(Percent, s, 0).Some? ==>
              var m := Search(Percent, s, 0).value;
              LeftmostPercent(s, m.start, m.end)
  {
    if Search(Percent, s, 0).Some? {
      var m := Search(Percent, s, 0).value;
      PercentMatch(s, m.start, m.end);
      forall i': nat, e': nat | i' < m.start
        ensures !PercentToken(s, i', e')
      {
        PercentMatch(s, i', e');
      }
    }
  }

  /** The text of a percentage token is digits and a final `%`. */
  lemma PercentTokenText(s: string, i: nat, e: nat)
    requires PercentToken(s, i, e)
    ensures var p := s[i..e];
            IsPercentText(p)
  {
    var p := s[i..e];
    assert forall k :: 0 <= k < |p| - 1 ==> p[k] == s[i + k];
  }

  /**
   * The status is the leftmost keyword, matched case-insensitively and
   * lower-cased: where `discharging` occurs, its inner `charging` starts
   * later and loses.
   */
  lemma ParsedStatus(batt: string, ac: string, custom: string)
    ensures FetchBatteryInfo(batt, ac, custom).Success? ==>
            var st := FetchBatteryInfo(batt, ac, custom).value.status;
            exists i: nat :: LeftmostKeyword(batt, i, st)
  {
    if FetchBatteryInfo(batt, ac, custom).Success? {
      var pm, sm := Search(Percent, batt, 0).value, Search(Status, batt, 0).value;
      FetchFromMatches(batt, ac, custom, pm, sm);
      StatusSearchLeftmost(batt);
    }
  }

  /** The status search finds the leftmost keyword. */
  lemma StatusSearchLeftmost(s: string)
    ensures Search(Status, s, 0).Some? ==>
              var m := Search(Status, s, 0).value;
              StatusAt(s, m.start).Some? && LeftmostKeyword(s, m.start, StatusAt(s, m.start).value)
  {
    if Search(Status, s, 0).Some? {
      var m := Search(Status, s, 0).value;
      StatusMatch(s, m.start);
      forall i': nat, st': ChargeStatus | i' < m.start
        ensures !KeywordAt(s, i', st')
      {
        StatusMatch(s, i');
      }
    }
  }

  /** The remaining time is the leftmost `H:MM` token of the battery report, or empty when it has none. */
  lemma ParsedRemainingTime(batt: string, ac: string, custom: string)
    ensures FetchBatteryInfo(batt, ac, custom).Success? ==>
            var t := FetchBatteryInfo(batt, ac, custom).value.remainingTime;
            (t == "" <==> !HasTimeToken(batt))
            && (t != "" ==> exists i: nat, c: nat, e: nat :: LeftmostTime(batt, i, c, e) && batt[i..e] == t)
  {
    if FetchBatteryInfo(batt, ac, custom).Success? {
      var pm, sm := Search(Percent, batt, 0).value, Search(Status, batt, 0).value;
      FetchFromMatches(batt, ac, custom, pm, sm);
      RemainingTimeLeftmost(batt);
    }
  }

  /** The remaining-time text is the report's leftmost `H:MM` token, or empty when there is none. */
  lemma RemainingTimeLeftmost(s: string)
    ensures RemainingTimeText(s) == "" <==> !HasTimeToken(s)
    ensures RemainingTimeText(s) != "" ==>
              exists i: nat, c: nat, e: nat :: LeftmostTime(s, i, c, e) && s[i..e] == RemainingTimeText(s)
  {
    FindsTime(s);
    if Search(RemainingTime, s, 0).Some? {
      var tm := Search(RemainingTime, s, 0).value;
      TimeMatch(s, tm.start);
      forall i': nat, c': nat, e': nat | i' < tm.start
        ensures !TimeToken(s, i', c', e')
      {
        TimeMatch(s, i');
      }
      assert LeftmostTime(s, tm.start, RunEnd(s, tm.start, Digit), tm.end);
    }
  }

  /**
   * The wattage is the number after the first `Wattage =` label of the
   * adapter report with `W` appended, or empty when there is none.
   */
  lemma ParsedWattage(batt: string, ac: string, custom: string)
    ensures FetchBatteryInfo(batt, ac, custom).Success? ==>
            var w := FetchBatteryInfo(batt, ac, custom).value.wattage;
            (w == "" <==> !HasWattageToken(ac))
            && (w != "" ==> exists i: nat, a: nat, b: nat, e: nat ::
                              LeftmostWattage(ac, i, a, b, e) && w == ac[b..e] + "W")
  {
    if FetchBatteryInfo(batt, ac, custom).Success? {
      FetchFromMatches(batt, ac, custom, Search(Percent, batt, 0).value, Search(Status, batt, 0).value);
      WattageTextLeftmost(ac);
    }
  }

  /** A non-empty wattage text is the number of the adapter report's leftmost wattage entry, with `W`. */
  lemma WattageTextLeftmost(ac: string)
    ensures WattageText(ac) != "" ==>
              exists i: nat, a: nat, b: nat, e: nat :: LeftmostWattage(ac, i, a, b, e) && WattageText(ac) == ac[b..e] + "W"
  {
    if Search(Wattage, ac, 0).Some? {
      var wm := Search(Wattage, ac, 0).value;
      var g := WattageValueAt(ac, wm.start).value;
      WattageMatch(ac, wm.start);
      forall i': nat, a': nat, b': nat, e': nat | i' < wm.start
        ensures !WattageToken(ac, i', a', b', e')
      {
        WattageMatch(ac, i');
      }
      assert LeftmostWattage(ac, wm.start, RunEnd(ac, wm.start + 7, Space), g.start, g.end);
    }
  }

  /**
   * The title is the percentage token, `" - "` and the status keyword,
   * followed by `" (<wattage>W)"` exactly when the status is charging or
   * charged and the adapter report has a wattage; a discharging or
   * finishing-charge title never carries the suffix.
   */
  lemma ParsedTitle(batt: string, ac: string, custom: string)
    ensures FetchBatteryInfo(batt, ac, custom).Success? ==>
            var info := FetchBatteryInfo(batt, ac, custom).value;
            var shown := (info.status == Charging || info.status == Charged) && HasWattageToken(ac);
            info.title == info.percentage + " - " + info.status.Name() + (if shown then " (" + info.wattage + ")" else "")
            && (shown ==> info.wattage != "" && info.wattage[|info.wattage| - 1] == 'W')
  {
    if FetchBatteryInfo(batt, ac, custom).Success? {
      var info := FetchBatteryInfo(batt, ac, custom).value;
      ParsedWattage(batt, ac, custom);
      TitleShape(info.percentage, info.status, info.wattage);
    }
  }

  /** The title rule on plain values: the wattage suffix appears exactly for a charging or charged status with a wattage. */
  lemma TitleShape(percentage: string, status: ChargeStatus, wattage: string)
    ensures var shown := (status == Charging || status == Charged) && wattage != "";
            Title(percentage, status, WattageInfo(status, wattage))
              == percentage + " - " + status.Name() + (if shown then " (" + wattage + ")" else "")
  {
  }

  /**
   * The remaining-time text is shown unless the report has no `H:MM`
   * token or the battery is charged, and the subtitle is:
   * "Fully charged" exactly when charged; "<r> until fully charged" when
   * charging and "<r> remaining" when discharging, if the remaining-time
   * text r is there; empty otherwise, finishing charge included.
   */
  lemma ParsedSubtitle(batt: string, ac: string, custom: string)
    ensures FetchBatteryInfo(batt, ac, custom).Success? ==>
            var info := FetchBatteryInfo(batt, ac, custom).value;
            var r := RemainingInfo(info.status, info.remainingTime);
            (r != "" <==> HasTimeToken(batt) && info.status != Charged)
            && (r != "" ==> r == FormatRemainingTime(info.remainingTime))
            && (info.subtitle == "Fully charged" <==> info.status == Charged)
            && (info.status == Charging && r != "" ==> info.subtitle == r + " until fully charged")
            && (info.status == Discharging && r != "" ==> info.subtitle == r + " remaining")
            && (info.status == FinishingCharge || (info.status != Charged && r == "") ==> info.subtitle == "")
  {
    if FetchBatteryInfo(batt, ac, custom).Success? {
      var info := FetchBatteryInfo(batt, ac, custom).value;
      ParsedRemainingTime(batt, ac, custom);
    }
  }

  /**
   * The low-power setting is the mode named by the settings report's flags,
   * published as the label the if-chain picks, and the summary is on exactly
   * when that mode is not Never.
   */
  lemma ParsedLowPower(batt: string, ac: string, custom: string)
    ensures FetchBatteryInfo(batt, ac, custom).Success? ==>
            var info := FetchBatteryInfo(batt, ac, custom).value;
            var f := ReadFlags(custom);
            info.lowPowerModeSetting == ModeOf(f)
            && info.lowPowerModeSetting.Label()
               == (if f.battery && f.ac then "Always"
                   else if f.battery then "Only on Battery"
                   else if f.ac then "Only on Power Adapter"
                   else "Never")
            && (info.lowPowerMode <==> info.lowPowerModeSetting != Never)
  {
    if FetchBatteryInfo(batt, ac, custom).Success? {
      LowPowerSummary(ReadFlags(custom));
      LabelOfFlags(ReadFlags(custom));
    }
  }
}
