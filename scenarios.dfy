/**
 * Three whole battery reports run through the parser: a discharging battery
 * with a time estimate and no charger, a charged battery on a charger, and
 * a battery on a charger that is not charging. The reports are written as
 * the concatenation of their parts.
 */
module Scenarios {
  import opened Wrappers
  import opened Text
  import opened Patterns
  import opened Duration
  import opened Battery

  /** No keyword starts at a character that does not lower-case to `c`, `d` or `f`. */
  lemma NoKeywordAt(s: string, i: nat)
    requires i < |s| && Lower(s[i]) !in {'c', 'd', 'f'}
    ensures MatchAt(Status, s, i).None?
  {
    KeywordFirstChar(s, i, Charging);
    KeywordFirstChar(s, i, Discharging);
    KeywordFirstChar(s, i, Charged);
    KeywordFirstChar(s, i, FinishingCharge);
  }

  /** No `H:MM` token starts at a character that is not a digit. */
  lemma NoTimeAt(s: string, i: nat)
    requires i < |s| && !IsDigit(s[i])
    ensures MatchAt(RemainingTime, s, i).None?
  {
  }

  /** `"35%; discharging; 2:10 remaining present"` */
  const DischargingReport := "35%; " + "discharging" + "; " + "2:10" + " remaining present"

  lemma DischargingPercent()
    ensures Search(Percent, DischargingReport, 0) == Some(Match(0, 3))
    ensures DischargingReport[0..3] == "35%"
  {
    var b := DischargingReport;
    assert b == "35%; " + ("discharging" + "; " + "2:10" + " remaining present");
    assert b[..5] == "35%; ";
    assert b[0..3] == b[..5][..3];
    RunEndUnique(b, 0, Digit, 2);
    SearchFindsFirst(Percent, b, 0, 0);
  }

  lemma DischargingKeyword()
    ensures MatchAt(Status, DischargingReport, 5) == Some(16)
    ensures StatusAt(DischargingReport, 5) == Some(Discharging)
  {
    var b := DischargingReport;
    var tail := "; " + "2:10" + " remaining present";
    assert b == "35%; " + ("discharging" + tail);
    assert b[5..] == "discharging" + tail;
    assert b[5..16] == ("discharging" + tail)[..11] == "discharging";
    LowerStringNoCapitals("discharging");
    assert KeywordAt(b, 5, Discharging);
    StatusAtKeyword(b, 5, Discharging);
  }

  lemma DischargingNoEarlierKeyword()
    ensures NoMatchIn(Status, DischargingReport, 0, 5)
  {
    forall k | 0 <= k < 5 ensures MatchAt(Status, DischargingReport, k).None? {
      NoKeywordAt(DischargingReport, k);
    }
  }

  lemma DischargingStatus()
    ensures Search(Status, DischargingReport, 0) == Some(Match(5, 16))
    ensures StatusAt(DischargingReport, 5) == Some(Discharging)
  {
    DischargingNoEarlierKeyword();
    DischargingKeyword();
    SearchFindsFirst(Status, DischargingReport, 0, 5);
  }

  lemma DischargingNoEarlierTime()
    ensures NoMatchIn(RemainingTime, DischargingReport, 0, 18)
  {
    RunEndUnique(DischargingReport, 0, Digit, 2);
    RunEndUnique(DischargingReport, 1, Digit, 2);
    forall k | 2 <= k < 18 ensures MatchAt(RemainingTime, DischargingReport, k).None? {
      NoTimeAt(DischargingReport, k);
    }
  }

  lemma DischargingTimeAt()
    ensures MatchAt(RemainingTime, DischargingReport, 18) == Some(22)
  {
    var b := DischargingReport;
    RunEndUnique(b, 18, Digit, 19);
    RunEndUnique(b, 20, Digit, 22);
  }

  lemma DischargingTimeSlice()
    ensures DischargingReport[18..22] == "2:10"
  {
    var b := DischargingReport;
    var lead, tail := "35%; " + "discharging" + "; ", " remaining present";
    assert b == lead + ("2:10" + tail);
    assert b[18..] == "2:10" + tail;
    assert b[18..22] == ("2:10" + tail)[..4] == "2:10";
  }

  lemma DischargingTime()
    ensures Search(RemainingTime, DischargingReport, 0) == Some(Match(18, 22))
    ensures RemainingTimeText(DischargingReport) == "2:10"
  {
    DischargingNoEarlierTime();
    DischargingTimeAt();
    SearchFindsFirst(RemainingTime, DischargingReport, 0, 18);
    DischargingTimeSlice();
  }

  lemma FormatTwoTen()
    ensures FormatRemainingTime("2:10") == "2h10m"
  {
    FormatWrittenParts("2", "10");
    assert "2" + ":" + "10" == "2:10";
    assert "2" + "h" + "10" + "m" == "2h10m";
  }

  lemma DischargingTexts()
    ensures Title("35%", Discharging, "") == "35% - discharging"
    ensures Subtitle(Discharging, "2h10m") == "2h10m remaining"
  {
  }

  /**
   * With no charger, the discharging report reads as `"35% - discharging"`
   * and `"2h10m remaining"`: the percentage keeps its `%`, and
   * `discharging` wins over the `charging` inside it.
   */
  lemma DischargingScenario(custom: string)
    ensures var r := FetchBatteryInfo(DischargingReport, "", custom);
            r.Success? && r.value.status == Discharging
            && r.value.title == "35% - discharging" && r.value.subtitle == "2h10m remaining"
  {
    DischargingPercent();
    DischargingStatus();
    DischargingTime();
    FormatTwoTen();
    assert WattageText("") == "";
    FetchFromMatches(DischargingReport, "", custom, Match(0, 3), Match(5, 16));
    DischargingTexts();
  }

  /** `"100%; charged;"` */
  const ChargedReport := "100%; " + "charged" + ";"

  /** `"Wattage = 61.0"` */
  const AdapterReport := "Wattage" + " = " + "61.0"

  lemma ChargedPercent()
    ensures Search(Percent, ChargedReport, 0) == Some(Match(0, 4))
    ensures ChargedReport[0..4] == "100%"
  {
    var b := ChargedReport;
    assert b == "100%; " + ("charged" + ";");
    assert b[..6] == "100%; ";
    assert b[0..4] == b[..6][..4];
    RunEndUnique(b, 0, Digit, 3);
    SearchFindsFirst(Percent, b, 0, 0);
  }

  lemma ChargedKeyword()
    ensures MatchAt(Status, ChargedReport, 6) == Some(13)
    ensures StatusAt(ChargedReport, 6) == Some(Charged)
  {
    var b := ChargedReport;
    assert b == "100%; " + ("charged" + ";");
    assert b[6..] == "charged" + ";";
    assert b[6..13] == ("charged" + ";")[..7] == "charged";
    LowerStringNoCapitals("charged");
    assert KeywordAt(b, 6, Charged);
    StatusAtKeyword(b, 6, Charged);
  }

  lemma ChargedNoEarlierKeyword()
    ensures NoMatchIn(Status, ChargedReport, 0, 6)
  {
    forall k | 0 <= k < 6 ensures MatchAt(Status, ChargedReport, k).None? {
      NoKeywordAt(ChargedReport, k);
    }
  }

  lemma ChargedStatus()
    ensures Search(Status, ChargedReport, 0) == Some(Match(6, 13))
    ensures StatusAt(ChargedReport, 6) == Some(Charged)
  {
    ChargedNoEarlierKeyword();
    ChargedKeyword();
    SearchFindsFirst(Status, ChargedReport, 0, 6);
  }

  lemma ChargedNoTime()
    ensures RemainingTimeText(ChargedReport) == ""
  {
    RunEndUnique(ChargedReport, 0, Digit, 3);
    RunEndUnique(ChargedReport, 1, Digit, 3);
    RunEndUnique(ChargedReport, 2, Digit, 3);
    forall k | 3 <= k < |ChargedReport| ensures MatchAt(RemainingTime, ChargedReport, k).None? {
      NoTimeAt(ChargedReport, k);
    }
    SearchFindsNone(RemainingTime, ChargedReport, 0);
  }

  lemma AdapterWattageAt()
    ensures WattageValueAt(AdapterReport, 0) == Some(Match(10, 14))
    ensures Search(Wattage, AdapterReport, 0) == Some(Match(0, 14))
  {
    var a := AdapterReport;
    assert a == "Wattage" + (" = " + "61.0");
    assert a[..7] == "Wattage";
    assert a[0..7] == a[..7];
    RunEndUnique(a, 7, Space, 8);
    RunEndUnique(a, 9, Space, 10);
    RunEndUnique(a, 10, DigitOrDot, 14);
    SearchFindsFirst(Wattage, a, 0, 0);
  }

  lemma AdapterNumber()
    ensures AdapterReport[10..14] == "61.0"
  {
    var a := AdapterReport;
    assert a == ("Wattage" + " = ") + "61.0";
    assert a[10..14] == a[10..] == "61.0";
  }

  lemma AdapterWattage()
    ensures WattageText(AdapterReport) == "61.0W"
  {
    AdapterWattageAt();
    AdapterNumber();
  }

  lemma ChargedTexts()
    ensures Title("100%", Charged, "61.0W") == "100% - charged (61.0W)"
  {
  }

  /**
   * On a charger that reports 61 W, the charged report reads as
   * `"100% - charged (61.0W)"` and `"Fully charged"`.
   */
  lemma ChargedScenario(custom: string)
    ensures var r := FetchBatteryInfo(ChargedReport, AdapterReport, custom);
            r.Success? && r.value.status == Charged
            && r.value.title == "100% - charged (61.0W)" && r.value.subtitle == "Fully charged"
  {
    ChargedPercent();
    ChargedStatus();
    ChargedNoTime();
    AdapterWattage();
    FetchFromMatches(ChargedReport, AdapterReport, custom, Match(0, 4), Match(6, 13));
    ChargedTexts();
  }

  /** `"80%; not charging"`: a paused charge, as the battery report words it. */
  const NotChargingReport := "80%; " + "not " + "charging"

  lemma NotChargingPercent()
    ensures Search(Percent, NotChargingReport, 0) == Some(Match(0, 3))
    ensures NotChargingReport[0..3] == "80%"
  {
    var b := NotChargingReport;
    assert b == "80%; " + ("not " + "charging");
    assert b[..5] == "80%; ";
    assert b[0..3] == b[..5][..3];
    RunEndUnique(b, 0, Digit, 2);
    SearchFindsFirst(Percent, b, 0, 0);
  }

  lemma NotChargingKeyword()
    ensures MatchAt(Status, NotChargingReport, 9) == Some(17)
    ensures StatusAt(NotChargingReport, 9) == Some(Charging)
  {
    var b := NotChargingReport;
    assert b == ("80%; " + "not ") + "charging";
    assert b[9..17] == b[9..] == "charging";
    LowerStringNoCapitals("charging");
    assert KeywordAt(b, 9, Charging);
    StatusAtKeyword(b, 9, Charging);
  }

  lemma NotChargingNoEarlierKeyword()
    ensures NoMatchIn(Status, NotChargingReport, 0, 9)
  {
    forall k | 0 <= k < 9 ensures MatchAt(Status, NotChargingReport, k).None? {
      NoKeywordAt(NotChargingReport, k);
    }
  }

  /** The leftmost keyword of `"not charging"` is the `charging` in it. */
  lemma NotChargingStatus()
    ensures Search(Status, NotChargingReport, 0) == Some(Match(9, 17))
    ensures StatusAt(NotChargingReport, 9) == Some(Charging)
  {
    NotChargingNoEarlierKeyword();
    NotChargingKeyword();
    SearchFindsFirst(Status, NotChargingReport, 0, 9);
  }

  lemma NotChargingNoTime()
    ensures RemainingTimeText(NotChargingReport) == ""
  {
    RunEndUnique(NotChargingReport, 0, Digit, 2);
    RunEndUnique(NotChargingReport, 1, Digit, 2);
    forall k | 2 <= k < |NotChargingReport| ensures MatchAt(RemainingTime, NotChargingReport, k).None? {
      NoTimeAt(NotChargingReport, k);
    }
    SearchFindsNone(RemainingTime, NotChargingReport, 0);
  }

  lemma NotChargingTexts()
    ensures Title("80%", Charging, "61.0W") == "80% - charging (61.0W)"
  {
  }

  /**
   * A paused charge on a 61 W charger reads as charging: the search finds
   * the `charging` inside `not charging`, so the title carries the wattage
   * as `"80% - charging (61.0W)"`; with no time token the subtitle is empty.
   */
  lemma NotChargingScenario(custom: string)
    ensures var r := FetchBatteryInfo(NotChargingReport, AdapterReport, custom);
            r.Success? && r.value.status == Charging
            && r.value.title == "80% - charging (61.0W)" && r.value.subtitle == ""
  {
    NotChargingPercent();
    NotChargingStatus();
    NotChargingNoTime();
    AdapterWattage();
    FetchFromMatches(NotChargingReport, AdapterReport, custom, Match(0, 3), Match(9, 17));
    NotChargingTexts();
  }
}
