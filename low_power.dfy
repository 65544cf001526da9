/**
 * Low Power Mode: the two flags read from the power-management settings
 * report (`pmset -g custom`), the named mode they make up, and the table
 * that gives, for a chosen mode, the values written back for the battery
 * (`-b`) and the power-adapter (`-c`) context.
 */
module LowPower {
  import opened Wrappers
  import opened Text
  import opened Patterns
  import opened Tokens

  datatype Mode = Never | Always | OnlyOnBattery | OnlyOnPowerAdapter {
    /** The `lowPowerModeSetting` text shown for the mode. */
    function Label(): string {
      match this
      case Never => "Never"
      case Always => "Always"
      case OnlyOnBattery => "Only on Battery"
      case OnlyOnPowerAdapter => "Only on Power Adapter"
    }
  }

  /** Whether low power mode is on while on battery and while on the power adapter. */
  datatype LowPowerFlags = LowPowerFlags(battery: bool, ac: bool)

  /** The `{ b, c }` entry of the mode table: the one-character values written with `-b` and `-c`. */
  datatype FlagSetting = FlagSetting(b: char, c: char)

  /**
   * `match.includes('1')` for an occurrence, if there is one; a missing
   * occurrence reads as off. The label and the white space of a
   * `lowpowermode\s+\d+` occurrence hold no `1`, so an occurrence is on
   * exactly when its value's digits contain a `1`.
   */
  function OccurrenceOn(s: string, m: Option<Match>): (on: bool)
    requires m.Some? ==> MatchAt(LowPowerFlag, s, m.value.start) == Some(m.value.end)
    ensures m.None? ==> !on
    ensures m.Some? ==> (on <==> '1' in s[RunEnd(s, m.value.start + 12, Space)..m.value.end])
  {
    match m
    case None => false
    case Some(o) =>
      FlagMatch(s, o.start, o.end);
      OneOnlyInValue(s, o.start, RunEnd(s, o.start + 12, Space), o.end);
      '1' in s[o.start..o.end]
  }

  /** The label and the white space of a setting line hold no `1`: a `1` in the line is a `1` in its value. */
  lemma OneOnlyInValue(s: string, i: nat, w: nat, e: nat)
    requires FlagToken(s, i, w, e)
    ensures '1' in s[i..e] <==> '1' in s[w..e]
  {
    forall j | i <= j < w ensures s[j] != '1' {
      if j < i + 12 {
        assert s[i..i + 12][j - i] == s[j];
      }
    }
    if '1' in s[i..e] {
      var k :| 0 <= k < e - i && s[i..e][k] == '1';
      assert s[i + k] == '1';
      assert s[w..e][i + k - w] == '1';
    }
    if '1' in s[w..e] {
      var k :| 0 <= k < e - w && s[w..e][k] == '1';
      assert s[i..e][k + w - i] == '1';
    }
  }

  /**
   * All occurrences of `lowpowermode\s+\d+` are collected; the first gives
   * the battery flag and the second the adapter flag. Fewer occurrences
   * leave the missing flags off and are never an error.
   */
  function ReadFlags(custom: string): (f: LowPowerFlags)
    ensures f.battery == OccurrenceOn(custom, Search(LowPowerFlag, custom, 0))
    ensures f.ac == match Search(LowPowerFlag, custom, 0)
                    case None => false
                    case Some(first) => OccurrenceOn(custom, Search(LowPowerFlag, custom, first.end))
  {
    var ms := AllMatches(LowPowerFlag, custom, 0);
    LowPowerFlags(
      |ms| > 0 && '1' in custom[ms[0].start..ms[0].end],
      |ms| > 1 && '1' in custom[ms[1].start..ms[1].end])
  }

  /** The mode named by the two flags; the flags are tested in the source's order. */
  function ModeOf(f: LowPowerFlags): (m: Mode)
    ensures m == Never <==> !f.battery && !f.ac
    ensures m == Always <==> f.battery && f.ac
    ensures m == OnlyOnBattery <==> f.battery && !f.ac
    ensures m == OnlyOnPowerAdapter <==> !f.battery && f.ac
  {
    if f.battery && f.ac then Always
    else if f.battery then OnlyOnBattery
    else if f.ac then OnlyOnPowerAdapter
    else Never
  }

  /** The table of the mode change: the values that, once read back as flags, name the chosen mode. */
  function NewState(m: Mode): (f: FlagSetting)
    ensures f.b in {'0', '1'} && f.c in {'0', '1'}
    ensures ModeOf(LowPowerFlags(f.b == '1', f.c == '1')) == m
  {
    match m
    case Never => FlagSetting('0', '0')
    case Always => FlagSetting('1', '1')
    case OnlyOnBattery => FlagSetting('1', '0')
    case OnlyOnPowerAdapter => FlagSetting('0', '1')
  }

  function Bit(on: bool): char {
    if on then '1' else '0'
  }

  /** The other direction of the round trip: the table entry of a derived mode is the flag pair itself. */
  lemma NewStateOfModeOf(f: LowPowerFlags)
    ensures NewState(ModeOf(f)) == FlagSetting(Bit(f.battery), Bit(f.ac))
  {
  }

  /**
   * The published `lowPowerModeSetting` text: the if-chain over the two
   * flags, starting from `'Never'`.
   */
  lemma LabelOfFlags(f: LowPowerFlags)
    ensures ModeOf(f).Label()
            == if f.battery && f.ac then "Always"
               else if f.battery then "Only on Battery"
               else if f.ac then "Only on Power Adapter"
               else "Never"
  {
  }

  /** The four labels differ, so the published text determines the mode. */
  lemma LabelsDistinct(a: Mode, b: Mode)
    ensures a.Label() == b.Label() <==> a == b
  {
  }

  /** The summary `lowPowerMode` (either flag on) holds exactly when the mode is not Never. */
  lemma LowPowerSummary(f: LowPowerFlags)
    ensures (f.battery || f.ac) <==> ModeOf(f) != Never
  {
  }

  /** A report without any `lowpowermode` setting reads as both flags off, not as an error. */
  lemma NoSettingLines(s: string)
    requires NoMatchIn(LowPowerFlag, s, 0, |s|)
    ensures ReadFlags(s) == LowPowerFlags(false, false)
  {
    SearchFindsNone(LowPowerFlag, s, 0);
  }

  /** A setting line with no occurrence before it is the next one found, and it is on when its value holds a `1`. */
  lemma FoundLine(s: string, from: nat, i: nat, w: nat, e: nat)
    requires FlagToken(s, i, w, e) && (e == |s| || !IsDigit(s[e]))
    requires from <= i && NoMatchIn(LowPowerFlag, s, from, i)
    ensures Search(LowPowerFlag, s, from) == Some(Match(i, e))
    ensures OccurrenceOn(s, Some(Match(i, e))) <==> '1' in s[w..e]
  {
    FlagMatch(s, i, e);
    SearchFindsFirst(LowPowerFlag, s, from, i);
    RunEndUnique(s, i + 12, Space, w);
  }

  /**
   * A report with a first setting line `s[i1..e1]` (value digits `s[w1..e1]`)
   * and a second one `s[i2..e2]`, with no occurrence before the first or
   * between the two, gives the battery flag from the first value and the
   * adapter flag from the second: each is on when its digits contain a `1`.
   */
  lemma ReadTwoSettingLines(s: string, i1: nat, w1: nat, e1: nat, i2: nat, w2: nat, e2: nat)
    requires FlagToken(s, i1, w1, e1) && (e1 == |s| || !IsDigit(s[e1]))
    requires FlagToken(s, i2, w2, e2) && (e2 == |s| || !IsDigit(s[e2]))
    requires e1 <= i2
    requires NoMatchIn(LowPowerFlag, s, 0, i1) && NoMatchIn(LowPowerFlag, s, e1, i2)
    ensures ReadFlags(s) == LowPowerFlags('1' in s[w1..e1], '1' in s[w2..e2])
  {
    FoundLine(s, 0, i1, w1, e1);
    FoundLine(s, e1, i2, w2, e2);
  }

  /** A report with one setting line and none after it gives the battery flag from its value and leaves the adapter flag off. */
  lemma ReadOneSettingLine(s: string, i1: nat, w1: nat, e1: nat)
    requires FlagToken(s, i1, w1, e1) && (e1 == |s| || !IsDigit(s[e1]))
    requires NoMatchIn(LowPowerFlag, s, 0, i1) && NoMatchIn(LowPowerFlag, s, e1, |s|)
    ensures ReadFlags(s) == LowPowerFlags('1' in s[w1..e1], false)
  {
    FoundLine(s, 0, i1, w1, e1);
    SearchFindsNone(LowPowerFlag, s, e1);
  }

  /**
   * Setting a mode and reading the report back gives that mode: when the
   * report's first two setting lines carry the values the table wrote for
   * the battery and the adapter context, ModeOf(ReadFlags(...)) is the
   * chosen mode.
   */
  lemma ReadBackAfterSet(m: Mode, s: string, i1: nat, w1: nat, e1: nat, i2: nat, w2: nat, e2: nat)
    requires FlagToken(s, i1, w1, e1) && (e1 == |s| || !IsDigit(s[e1]))
    requires FlagToken(s, i2, w2, e2) && (e2 == |s| || !IsDigit(s[e2]))
    requires e1 <= i2
    requires NoMatchIn(LowPowerFlag, s, 0, i1) && NoMatchIn(LowPowerFlag, s, e1, i2)
    requires s[w1..e1] == [NewState(m).b] && s[w2..e2] == [NewState(m).c]
    ensures ModeOf(ReadFlags(s)) == m
  {
    ReadTwoSettingLines(s, i1, w1, e1, i2, w2, e2);
    var f := NewState(m);
    assert ('1' in [f.b]) == (f.b == '1') && ('1' in [f.c]) == (f.c == '1');
  }
}
