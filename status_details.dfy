/**
 * `getStatusDetails`: the icon and tint of the battery row, chosen from the
 * status and from the percentage read back with `parseInt`.
 */
module StatusDetails {
  import opened Wrappers
  import opened Text
  import opened Patterns
  import opened Battery

  datatype Icon = BatteryIcon | BatteryChargingIcon
  datatype Color = PrimaryText | Yellow | Green | Red | Orange
  datatype Details = Details(icon: Icon, color: Color)

  /**
   * `parseInt` of a string that starts with a digit and not with `0x` or
   * `0X`: the value of its leading digit run. None stands for NaN, which
   * every comparison rejects.
   */
  function ParseLeadingInt(s: string): (n: Option<nat>)
    ensures n.Some? <==> |s| > 0 && IsDigit(s[0])
  {
    var j := RunEnd(s, 0, Digit);
    if j == 0 then None
    else
      assert AllDigits(s[..j]);
      Some(DecimalValue(s[..j]))
  }

  /** `parseInt` reads the whole leading digit run, whatever follows it. */
  lemma ParseLeadingIntValue(s: string, j: nat)
    requires 0 < j <= |s| && AllDigits(s[..j]) && (j == |s| || !IsDigit(s[j]))
    ensures ParseLeadingInt(s) == Some(DecimalValue(s[..j]))
  {
    RunEndUnique(s, 0, Digit, j);
  }

  /**
   * Charging is yellow with the charging icon and charged is green;
   * otherwise the level decides: at most 20 is red, at most 50 orange,
   * anything else the plain text colour. Before the first successful read
   * the row has the plain icon and colour.
   */
  function GetStatusDetails(info: Option<BatteryInfo>): (d: Details)
    ensures info.None? ==> d == Details(BatteryIcon, PrimaryText)
    ensures d.icon == BatteryChargingIcon <==> info.Some? && info.value.status == Charging
    ensures d.color == Yellow <==> info.Some? && info.value.status == Charging
    ensures d.color == Green <==> info.Some? && info.value.status == Charged
    ensures info.Some? && info.value.status !in {Charging, Charged} ==>
              var level := ParseLeadingInt(info.value.percentage);
              (d.color == Red <==> level.Some? && level.value <= 20)
              && (d.color == Orange <==> level.Some? && 20 < level.value <= 50)
              && (d.color == PrimaryText <==> level.None? || level.value > 50)
  {
    match info
    case None => Details(BatteryIcon, PrimaryText)
    case Some(b) =>
      var level := ParseLeadingInt(b.percentage);
      if b.status == Charging then Details(BatteryChargingIcon, Yellow)
      else if b.status == Charged then Details(BatteryIcon, Green)
      else if level.Some? && level.value <= 20 then Details(BatteryIcon, Red)
      else if level.Some? && level.value <= 50 then Details(BatteryIcon, Orange)
      else Details(BatteryIcon, PrimaryText)
  }

  /** `parseInt("NN%")` is NN: the run stops at the `%`. */
  lemma ParseIntOfPercentage(digits: string)
    requires |digits| > 0 && AllDigits(digits)
    ensures ParseLeadingInt(digits + "%") == Some(DecimalValue(digits))
  {
    var s := digits + "%";
    RunEndUnique(s, 0, Digit, |digits|);
    assert s[..|digits|] == digits;
  }

  /**
   * The colour rule for a battery that is neither charging nor charged, in
   * terms of the number NN in front of the `%` of its percentage text.
   */
  predicate ColourFollowsLevel(info: BatteryInfo) {
    var p := info.percentage;
    IsPercentText(p)
    && var level := DecimalValue(p[..|p| - 1]);
       var d := GetStatusDetails(Some(info));
       d.icon == BatteryIcon
       && (d.color == Red <==> level <= 20)
       && (d.color == Orange <==> 20 < level <= 50)
       && (d.color == PrimaryText <==> level > 50)
  }

  /** With a percentage of the form `NN%`, the colour of a battery that is not charging follows NN. */
  lemma LevelColour(info: BatteryInfo)
    requires IsPercentText(info.percentage)
    requires info.status !in {Charging, Charged}
    ensures var level := DecimalValue(info.percentage[..|info.percentage| - 1]);
            var d := GetStatusDetails(Some(info));
            d.icon == BatteryIcon
            && (d.color == Red <==> level <= 20)
            && (d.color == Orange <==> 20 < level <= 50)
            && (d.color == PrimaryText <==> level > 50)
    ensures ColourFollowsLevel(info)
  {
    var p := info.percentage;
    assert p == p[..|p| - 1] + "%";
    ParseIntOfPercentage(p[..|p| - 1]);
  }

  /**
   * For a parsed report that is neither charging nor charged, the colour is
   * decided by the number in front of the percentage token's `%`.
   */
  lemma ParsedColour(batt: string, ac: string, custom: string)
    ensures var r := FetchBatteryInfo(batt, ac, custom);
            r.Success? && r.value.status !in {Charging, Charged} ==> ColourFollowsLevel(r.value)
  {
    var r := FetchBatteryInfo(batt, ac, custom);
    if r.Success? && r.value.status !in {Charging, Charged} {
      ParsedPercentage(batt, ac, custom);
      LevelColour(r.value);
    }
  }
}
