/**
 * The regular expressions of the battery command, matched the way
 * JavaScript's `String.prototype.match` does: the leftmost start position
 * wins, and at a given start each pattern here can match in at most one way
 * (every `+`/`*` runs over a class the character after it is not in, so the
 * greedy run never has to give anything back).
 */
module Patterns {
  import opened Wrappers
  import opened Text

  /** The alternatives of `/(charging|discharging|charged|finishing charge)/i`, in order. */
  datatype ChargeStatus = Charging | Discharging | Charged | FinishingCharge {
    /** The keyword; also what `toLowerCase()` makes of any matched spelling. */
    function Name(): string {
      match this
      case Charging => "charging"
      case Discharging => "discharging"
      case Charged => "charged"
      case FinishingCharge => "finishing charge"
    }
  }

  datatype Pattern =
    | Percent        // /([0-9]+)%/
    | Status         // /(charging|discharging|charged|finishing charge)/i
    | RemainingTime  // /([0-9]+:[0-9]+)/
    | Wattage        // /Wattage\s*=\s*([0-9.]+)/
    | LowPowerFlag   // /lowpowermode\s+(\d+)/g

  /** A match occupies `s[start..end]`. */
  datatype Match = Match(start: nat, end: nat)

  /** Keyword `st` occurs at `i`, compared case-insensitively. */
  predicate KeywordAt(s: string, i: nat, st: ChargeStatus) {
    i + |st.Name()| <= |s| && LowerString(s[i..i + |st.Name()|]) == st.Name()
  }

  /** The alternative of the status pattern that matches at `i`, tried in the pattern's order. */
  function StatusAt(s: string, i: nat): (r: Option<ChargeStatus>)
    ensures r.Some? ==> KeywordAt(s, i, r.value)
    ensures r.None? <==> forall st: ChargeStatus :: !KeywordAt(s, i, st)
  {
    if KeywordAt(s, i, Charging) then Some(Charging)
    else if KeywordAt(s, i, Discharging) then Some(Discharging)
    else if KeywordAt(s, i, Charged) then Some(Charged)
    else if KeywordAt(s, i, FinishingCharge) then Some(FinishingCharge)
    else None
  }

  /** At most one keyword occurs at a position, so the alternation's order never decides anything. */
  lemma KeywordUnique(s: string, i: nat, a: ChargeStatus, b: ChargeStatus)
    requires KeywordAt(s, i, a) && KeywordAt(s, i, b)
    ensures a == b
  {
    assert Lower(s[i]) == a.Name()[0] == b.Name()[0];
    if a.Name()[0] == 'c' {
      assert Lower(s[i + 5]) == a.Name()[5] == b.Name()[5];
    }
  }

  /** A keyword occurrence starts with the keyword's first letter, in either case. */
  lemma KeywordFirstChar(s: string, i: nat, st: ChargeStatus)
    ensures KeywordAt(s, i, st) ==> i < |s| && Lower(s[i]) == st.Name()[0]
  {
    if KeywordAt(s, i, st) {
      assert LowerString(s[i..i + |st.Name()|])[0] == Lower(s[i]);
    }
  }

  lemma StatusAtKeyword(s: string, i: nat, st: ChargeStatus)
    ensures StatusAt(s, i) == Some(st) <==> KeywordAt(s, i, st)
  {
    if KeywordAt(s, i, st) {
      var r := StatusAt(s, i);
      assert r.Some? && KeywordAt(s, i, r.value);
      KeywordUnique(s, i, st, r.value);
    }
  }

  /** The span of the captured group `([0-9.]+)` when the wattage pattern matches at `i`. */
  function WattageValueAt(s: string, i: nat): (g: Option<Match>)
    ensures g.Some? ==> i + 8 <= g.value.start < g.value.end <= |s|
  {
    if i + 7 <= |s| && s[i..i + 7] == "Wattage" then
      var eq := RunEnd(s, i + 7, Space);
      if eq < |s| && s[eq] == '=' then
        var b := RunEnd(s, eq + 1, Space);
        var e := RunEnd(s, b, DigitOrDot);
        if b < e then Some(Match(b, e)) else None
      else None
    else None
  }

  /** Where a match of `p` that starts at `i` ends, if there is one. */
  function MatchAt(p: Pattern, s: string, i: nat): (e: Option<nat>)
    ensures e.Some? ==> i < e.value <= |s|
  {
    if i >= |s| then None
    else match p
      case Percent =>
        var j := RunEnd(s, i, Digit);
        if i < j < |s| && s[j] == '%' then Some(j + 1) else None
      case Status =>
        (match StatusAt(s, i)
         case Some(st) => Some(i + |st.Name()|)
         case None => None)
      case RemainingTime =>
        var c := RunEnd(s, i, Digit);
        if i < c < |s| && s[c] == ':' then
          var e := RunEnd(s, c + 1, Digit);
          if c + 1 < e then Some(e) else None
        else None
      case Wattage =>
        (match WattageValueAt(s, i)
         case Some(g) => Some(g.end)
         case None => None)
      case LowPowerFlag =>
        if i + 12 <= |s| && s[i..i + 12] == "lowpowermode" then
          var w := RunEnd(s, i + 12, Space);
          var e := RunEnd(s, w, Digit);
          if i + 12 < w < e then Some(e) else None
        else None
  }

  /** `p` matches nowhere in `[lo, hi)`. */
  predicate NoMatchIn(p: Pattern, s: string, lo: nat, hi: nat) {
    forall k :: lo <= k < hi ==> MatchAt(p, s, k).None?
  }

  /** The leftmost match of `p` that starts at or after `from`, as `exec` finds it. */
  function Search(p: Pattern, s: string, from: nat): (r: Option<Match>)
    ensures r.Some? ==> from <= r.value.start && MatchAt(p, s, r.value.start) == Some(r.value.end)
    ensures r.Some? ==> NoMatchIn(p, s, from, r.value.start)
    ensures r.None? ==> forall k :: from <= k ==> MatchAt(p, s, k).None?
    decreases |s| - from
  {
    if from >= |s| then None
    else match MatchAt(p, s, from)
      case Some(e) => Some(Match(from, e))
      case None =>
        var r := Search(p, s, from + 1);
        if r.Some? then NoMatchInStep(p, s, from, r.value.start); r else r
  }

  /** No match at `lo` and none in `(lo, hi)` is none in `[lo, hi)`. */
  lemma NoMatchInStep(p: Pattern, s: string, lo: nat, hi: nat)
    requires MatchAt(p, s, lo).None? && NoMatchIn(p, s, lo + 1, hi)
    ensures NoMatchIn(p, s, lo, hi)
  {
  }

  /** With no match from `from` to the end, the search finds nothing. */
  lemma {:induction false} SearchFindsNone(p: Pattern, s: string, from: nat)
    requires NoMatchIn(p, s, from, |s|)
    ensures Search(p, s, from).None?
    decreases |s| - from
  {
    if from < |s| {
      assert MatchAt(p, s, from).None?;
      SearchFindsNone(p, s, from + 1);
    }
  }

  /** A match at `at` with none between `from` and it is what the search finds. */
  lemma {:induction false} SearchFindsFirst(p: Pattern, s: string, from: nat, at: nat)
    requires from <= at && MatchAt(p, s, at).Some? && NoMatchIn(p, s, from, at)
    ensures Search(p, s, from) == Some(Match(at, MatchAt(p, s, at).value))
    decreases at - from
  {
    if from < at {
      NoMatchInTail(p, s, from, at);
      SearchFindsFirst(p, s, from + 1, at);
      SearchPassesOver(p, s, from);
    } else {
      SearchStopsAt(p, s, at);
    }
  }

  /** A search that starts at a match returns that match. */
  lemma SearchStopsAt(p: Pattern, s: string, at: nat)
    requires MatchAt(p, s, at).Some?
    ensures Search(p, s, at) == Some(Match(at, MatchAt(p, s, at).value))
  {
  }

  /** A search that starts where nothing matches goes on from the next position. */
  lemma SearchPassesOver(p: Pattern, s: string, from: nat)
    requires from < |s| && MatchAt(p, s, from).None?
    ensures Search(p, s, from) == Search(p, s, from + 1)
  {
  }

  /** None in `[lo, hi)` with `lo < hi` is none at `lo` and none in `(lo, hi)`. */
  lemma NoMatchInTail(p: Pattern, s: string, lo: nat, hi: nat)
    requires lo < hi && NoMatchIn(p, s, lo, hi)
    ensures MatchAt(p, s, lo).None? && NoMatchIn(p, s, lo + 1, hi)
  {
  }

  /**
   * Every match of `p` from `from` on, as `match` with the `g` flag returns
   * them: each search resumes where the previous match ended.
   */
  function AllMatches(p: Pattern, s: string, from: nat): (ms: seq<Match>)
    ensures |ms| > 0 <==> Search(p, s, from).Some?
    ensures |ms| > 0 ==> Search(p, s, from) == Some(ms[0])
    ensures |ms| > 1 ==> Search(p, s, ms[0].end) == Some(ms[1])
    ensures |ms| > 0 ==> (|ms| > 1 <==> Search(p, s, ms[0].end).Some?)
    ensures forall j :: 0 <= j < |ms| ==> from <= ms[j].start && MatchAt(p, s, ms[j].start) == Some(ms[j].end)
    ensures forall j :: 0 <= j < |ms| - 1 ==> ms[j].end <= ms[j + 1].start
    decreases |s| - from
  {
    match Search(p, s, from)
    case None => []
    case Some(m) =>
      var rest := AllMatches(p, s, m.end);
      var ms := [m] + rest;
      assert forall j :: 1 <= j < |ms| ==> ms[j] == rest[j - 1];
      ms
  }

  /**
   * The global match is complete: each match after the first is what the
   * search finds from the end of the one before, and after the last match
   * the search finds nothing.
   */
  lemma {:induction false} AllMatchesChain(p: Pattern, s: string, from: nat)
    ensures var ms := AllMatches(p, s, from);
            forall j :: 0 <= j < |ms| - 1 ==> Search(p, s, ms[j].end) == Some(ms[j + 1])
    ensures var ms := AllMatches(p, s, from);
            |ms| > 0 ==> Search(p, s, ms[|ms| - 1].end).None?
    decreases |s| - from
  {
    match Search(p, s, from)
    case None =>
    case Some(m) =>
      var rest := AllMatches(p, s, m.end);
      AllMatchesChain(p, s, m.end);
      var ms := AllMatches(p, s, from);
      assert ms == [m] + rest;
  }
}
