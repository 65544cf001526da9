/**
 * What each pattern matches, stated position by position without the
 * scanning functions, and the proof that MatchAt finds exactly that.
 */
module Tokens {
  import opened Wrappers
  import opened Text
  import opened Patterns

  /** `s[i..e]` is `[0-9]+%`. */
  ghost predicate PercentToken(s: string, i: nat, e: nat) {
    i + 1 < e <= |s| && AllIn(s, i, e - 1, Digit) && s[e - 1] == '%'
  }

  ghost predicate HasPercentToken(s: string) {
    exists i: nat, e: nat :: PercentToken(s, i, e)
  }

  ghost predicate HasStatusKeyword(s: string) {
    exists i: nat, st: ChargeStatus :: KeywordAt(s, i, st)
  }

  /** `s[i..e]` is `[0-9]+:[0-9]+` with the colon at `c`. */
  ghost predicate TimeToken(s: string, i: nat, c: nat, e: nat) {
    i < c && c + 1 < e <= |s| && AllIn(s, i, c, Digit) && s[c] == ':' && AllIn(s, c + 1, e, Digit)
  }

  ghost predicate HasTimeToken(s: string) {
    exists i: nat, c: nat, e: nat :: TimeToken(s, i, c, e)
  }

  /** `s[i..e]` is `Wattage\s*=\s*[0-9.]+` with `=` at `a` and the number in `s[b..e]`. */
  ghost predicate WattageToken(s: string, i: nat, a: nat, b: nat, e: nat) {
    i + 7 <= a < b < e <= |s| && s[i..i + 7] == "Wattage" && AllIn(s, i + 7, a, Space)
    && s[a] == '=' && AllIn(s, a + 1, b, Space) && AllIn(s, b, e, DigitOrDot)
  }

  ghost predicate HasWattageToken(s: string) {
    exists i: nat, a: nat, b: nat, e: nat :: WattageToken(s, i, a, b, e)
  }

  /** `s[i..e]` is `lowpowermode\s+\d+` with the digits in `s[w..e]`. */
  ghost predicate FlagToken(s: string, i: nat, w: nat, e: nat) {
    i + 12 < w < e <= |s| && s[i..i + 12] == "lowpowermode" && AllIn(s, i + 12, w, Space)
    && AllIn(s, w, e, Digit)
  }

  lemma PercentMatch(s: string, i: nat, e: nat)
    ensures MatchAt(Percent, s, i) == Some(e) <==> PercentToken(s, i, e)
  {
    if PercentToken(s, i, e) {
      RunEndUnique(s, i, Digit, e - 1);
    }
  }

  lemma StatusMatch(s: string, i: nat)
    ensures MatchAt(Status, s, i).Some? <==> exists st: ChargeStatus :: KeywordAt(s, i, st)
    ensures MatchAt(Status, s, i).Some? ==>
              KeywordAt(s, i, StatusAt(s, i).value)
              && MatchAt(Status, s, i).value == i + |StatusAt(s, i).value.Name()|
  {
    if st :| KeywordAt(s, i, st) {
      StatusAtKeyword(s, i, st);
    }
  }

  lemma TimeMatch(s: string, i: nat)
    ensures MatchAt(RemainingTime, s, i).Some? <==> exists c: nat, e: nat :: TimeToken(s, i, c, e)
    ensures MatchAt(RemainingTime, s, i).Some? ==>
              var e := MatchAt(RemainingTime, s, i).value;
              var c := RunEnd(s, i, Digit);
              TimeToken(s, i, c, e) && (e == |s| || !IsDigit(s[e]))
  {
    if MatchAt(RemainingTime, s, i).Some? {
      assert TimeToken(s, i, RunEnd(s, i, Digit), MatchAt(RemainingTime, s, i).value);
    }
    if c: nat, e: nat :| TimeToken(s, i, c, e) {
      RunEndUnique(s, i, Digit, c);
      assert RunEnd(s, c + 1, Digit) >= e;
    }
  }

  lemma WattageMatch(s: string, i: nat)
    ensures MatchAt(Wattage, s, i).Some? <==> exists a: nat, b: nat, e: nat :: WattageToken(s, i, a, b, e)
    ensures WattageValueAt(s, i).Some? ==>
              var g := WattageValueAt(s, i).value;
              WattageToken(s, i, RunEnd(s, i + 7, Space), g.start, g.end)
              && (g.end == |s| || !InClass(s[g.end], DigitOrDot))
  {
    if WattageValueAt(s, i).Some? {
      var g := WattageValueAt(s, i).value;
      assert WattageToken(s, i, RunEnd(s, i + 7, Space), g.start, g.end);
    }
    if a: nat, b: nat, e: nat :| WattageToken(s, i, a, b, e) {
      RunEndUnique(s, i + 7, Space, a);
      RunEndUnique(s, a + 1, Space, b);
      assert RunEnd(s, b, DigitOrDot) >= e;
    }
  }

  lemma FlagMatch(s: string, i: nat, e: nat)
    ensures MatchAt(LowPowerFlag, s, i) == Some(e) <==>
              exists w: nat :: FlagToken(s, i, w, e) && (e == |s| || !IsDigit(s[e]))
    ensures MatchAt(LowPowerFlag, s, i) == Some(e) ==> FlagToken(s, i, RunEnd(s, i + 12, Space), e)
  {
    if MatchAt(LowPowerFlag, s, i) == Some(e) {
      assert FlagToken(s, i, RunEnd(s, i + 12, Space), e);
    }
    if w: nat :| FlagToken(s, i, w, e) && (e == |s| || !IsDigit(s[e])) {
      RunEndUnique(s, i + 12, Space, w);
      RunEndUnique(s, w, Digit, e);
    }
  }

  /** A search from the start finds something exactly when the pattern matches somewhere. */
  lemma SearchFinds(p: Pattern, s: string)
    ensures Search(p, s, 0).Some? <==> exists k :: MatchAt(p, s, k).Some?
  {
  }

  lemma FindsPercent(s: string)
    ensures Search(Percent, s, 0).Some? <==> HasPercentToken(s)
  {
    SearchFinds(Percent, s);
    if Search(Percent, s, 0).Some? {
      var m := Search(Percent, s, 0).value;
      PercentMatch(s, m.start, m.end);
    }
    if HasPercentToken(s) {
      var i, e :| PercentToken(s, i, e);
      PercentMatch(s, i, e);
    }
  }

  lemma FindsStatus(s: string)
    ensures Search(Status, s, 0).Some? <==> HasStatusKeyword(s)
  {
    SearchFinds(Status, s);
    if Search(Status, s, 0).Some? {
      StatusMatch(s, Search(Status, s, 0).value.start);
    }
    if HasStatusKeyword(s) {
      var i, st :| KeywordAt(s, i, st);
      StatusMatch(s, i);
    }
  }

  lemma FindsTime(s: string)
    ensures Search(RemainingTime, s, 0).Some? <==> HasTimeToken(s)
  {
    SearchFinds(RemainingTime, s);
    if Search(RemainingTime, s, 0).Some? {
      TimeMatch(s, Search(RemainingTime, s, 0).value.start);
    }
    if HasTimeToken(s) {
      var i, c, e :| TimeToken(s, i, c, e);
      TimeMatch(s, i);
    }
  }

  lemma FindsWattage(s: string)
    ensures Search(Wattage, s, 0).Some? <==> HasWattageToken(s)
  {
    SearchFinds(Wattage, s);
    if Search(Wattage, s, 0).Some? {
      WattageMatch(s, Search(Wattage, s, 0).value.start);
    }
    if HasWattageToken(s) {
      var i, a, b, e :| WattageToken(s, i, a, b, e);
      WattageMatch(s, i);
    }
  }
}
