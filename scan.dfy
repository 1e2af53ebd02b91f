/** Hand-written scanners for the few regular expressions the scraper uses.
    Each follows `re.search` semantics: the leftmost position at which the
    pattern matches wins, and the alternatives of a pattern are tried in order
    at that position. Digit classes are ASCII `0-9` for both `[0-9]` and `\d`. */
module Scan {
  import opened Base
  import opened Text

  // ---------------------------------------------------------------------------
  // `:([0-9]*)` and `:(\d*)`: the digits after the first colon

  /** Group 1 of `:(\d*)`, `None` when there is no colon. The group is the
      (possibly empty) maximal digit run right after the first colon. */
  function ColonDigits(s: string): (r: Option<string>)
    ensures r.None? <==> ':' !in s
    ensures r.Some? <==> Find(s, ":").Some?
    ensures r.Some? ==> AllDigits(r.value)
    ensures r.Some? ==> var c := Find(s, ":").value;
      && s[c] == ':' && (forall k :: 0 <= k < c ==> s[k] != ':')
      && c + 1 + |r.value| <= |s| && s[c + 1..c + 1 + |r.value|] == r.value
      && (c + 1 + |r.value| == |s| || !IsDigit(s[c + 1 + |r.value|]))
  {
    match Find(s, ":")
    case None =>
      assert forall k :: 0 <= k < |s| ==> s[k] != ':' by {
        forall k | 0 <= k < |s| ensures s[k] != ':' { assert !OccursAt(s, ":", k); }
      }
      None
    case Some(c) =>
      assert forall k :: 0 <= k < c ==> s[k] != ':' by {
        forall k | 0 <= k < c ensures s[k] != ':' { assert !OccursAt(s, ":", k); }
      }
      assert s[c..c + 1] == ":";
      assert s[c] == ':';
      Some(s[c + 1..DigitRunEnd(s, c + 1)])
  }

  // ---------------------------------------------------------------------------
  // `([0-9]*)\.` and `(\d*)\.`: the digits right before a period

  /** The pattern `(\d*)\.` matches at `p`: the maximal digit run from `p` is
      followed by a period (greedy digits cannot stop earlier, since a digit is
      not a period). */
  predicate DotMatchAt(s: string, p: nat)
    requires p <= |s|
  {
    var j := DigitRunEnd(s, p);
    j < |s| && s[j] == '.'
  }

  /** Leftmost position at or after `p` where `(\d*)\.` matches. */
  function SearchDigitsDot(s: string, p: nat): (r: Option<nat>)
    requires p <= |s|
    ensures r.Some? ==> p <= r.value <= |s| && DotMatchAt(s, r.value)
    ensures r.Some? ==> forall q :: p <= q < r.value ==> !DotMatchAt(s, q)
    ensures r.None? ==> forall q :: p <= q <= |s| ==> !DotMatchAt(s, q)
    decreases |s| - p
  {
    if DotMatchAt(s, p) then Some(p)
    else if p == |s| then None
    else SearchDigitsDot(s, p + 1)
  }

  /** Group 1 of `(\d*)\.`, `None` when the pattern does not match. */
  function DigitsBeforeDot(s: string): (r: Option<string>)
    ensures r.Some? ==> AllDigits(r.value)
  {
    match SearchDigitsDot(s, 0)
    case None => None
    case Some(p) => Some(s[p..DigitRunEnd(s, p)])
  }

  /** The match of `(\d*)\.` is the digit run that ends at the FIRST period of
      the string, and there is a match exactly when the string has a period. */
  lemma DigitsBeforeDotEndsAtFirstPeriod(s: string)
    ensures DigitsBeforeDot(s).None? <==> '.' !in s
    ensures DigitsBeforeDot(s).Some? ==>
      var p := SearchDigitsDot(s, 0).value;
      var g := DigitsBeforeDot(s).value;
      && p + |g| < |s| && s[p + |g|] == '.'
      && (forall k :: 0 <= k < p + |g| ==> s[k] != '.')
  {
    if '.' in s {
      var d :| 0 <= d < |s| && s[d] == '.';
      assert DigitRunEnd(s, d) == d;
      assert DotMatchAt(s, d);
    }
    match SearchDigitsDot(s, 0)
    case None =>
    case Some(p) =>
      var j := DigitRunEnd(s, p);
      forall k | 0 <= k < j ensures s[k] != '.' {
        if k < p {
          if s[k] == '.' {
            assert DigitRunEnd(s, k) == k;
            assert DotMatchAt(s, k);
          }
        } else {
          assert IsDigit(s[k]);
        }
      }
  }

  // ---------------------------------------------------------------------------
  // `:(e[0-9]*)` and `:(e\d*)`: an electronic article number

  /** Group 1 of `:(e\d*)`: at the first ":e", the `e` and the digits after it. */
  function ArticleNumber(s: string): (r: Option<string>)
    ensures r.None? <==> !Contains(s, ":e")
    ensures r.Some? <==> Find(s, ":e").Some?
    ensures r.Some? ==> |r.value| >= 1 && r.value[0] == 'e' && AllDigits(r.value[1..])
    ensures r.Some? ==> var c := Find(s, ":e").value;
      && c + 1 + |r.value| <= |s| && s[c + 1..c + 1 + |r.value|] == r.value
      && (c + 1 + |r.value| == |s| || !IsDigit(s[c + 1 + |r.value|]))
  {
    match Find(s, ":e")
    case None => None
    case Some(c) =>
      assert s[c..c + 2] == ":e";
      assert s[c + 1] == 'e';
      var g := s[c + 1..DigitRunEnd(s, c + 2)];
      assert g[1..] == s[c + 2..DigitRunEnd(s, c + 2)];
      Some(g)
  }

  // ---------------------------------------------------------------------------
  // The two page numbers

  /** The list `[int(first), int(second)]` both page parsers build: the digit run
      after the first colon and the digit run that ends at the first period.
      `None` when either search fails (`AttributeError`) or either run is
      empty (`int('')` raises `ValueError`). */
  function PageNumbers(t: string): (r: Option<(nat, nat)>)
    ensures r.None? <==>
      ColonDigits(t).None? || ColonDigits(t) == Some("") ||
      DigitsBeforeDot(t).None? || DigitsBeforeDot(t) == Some("")
    ensures r.Some? ==>
      && NatToStr(r.value.0) == TrimLeadingZeros(ColonDigits(t).value)
      && NatToStr(r.value.1) == TrimLeadingZeros(DigitsBeforeDot(t).value)
  {
    match ColonDigits(t)
    case None => None
    case Some(d1) =>
      match PyInt(d1)
      case Err(_) => None
      case Ok(first) =>
        match DigitsBeforeDot(t)
        case None => None
        case Some(d2) =>
          match PyInt(d2)
          case Err(_) => None
          case Ok(second) => Some((first, second))
  }

  // ---------------------------------------------------------------------------
  // `([0-9]*?)\(|;([0-9]*?):` (legacy) and `(\d+?)\(|;(\d+?):` (formatters)

  /** First alternative at `p`: at least `minRun` digits, then `(`. Lazy and
      greedy repetition agree here, as `(` is not a digit. */
  predicate VolumeFirstAt(s: string, p: nat, minRun: nat)
    requires p <= |s|
  {
    var j := DigitRunEnd(s, p);
    j - p >= minRun && j < |s| && s[j] == '('
  }

  /** Second alternative at `p`: `;`, at least `minRun` digits, then `:`. */
  predicate VolumeSecondAt(s: string, p: nat, minRun: nat)
    requires p <= |s|
  {
    p < |s| && s[p] == ';' &&
    var j := DigitRunEnd(s, p + 1);
    j - (p + 1) >= minRun && j < |s| && s[j] == ':'
  }

  predicate VolumeMatchAt(s: string, p: nat, minRun: nat)
    requires p <= |s|
  {
    VolumeFirstAt(s, p, minRun) || VolumeSecondAt(s, p, minRun)
  }

  /** Leftmost position at or after `p` where either alternative matches. */
  function SearchVolume(s: string, p: nat, minRun: nat): (r: Option<nat>)
    requires p <= |s|
    ensures r.Some? ==> p <= r.value <= |s| && VolumeMatchAt(s, r.value, minRun)
    ensures r.Some? ==> forall q :: p <= q < r.value ==> !VolumeMatchAt(s, q, minRun)
    ensures r.None? ==> forall q :: p <= q <= |s| ==> !VolumeMatchAt(s, q, minRun)
    decreases |s| - p
  {
    if VolumeMatchAt(s, p, minRun) then Some(p)
    else if p == |s| then None
    else SearchVolume(s, p + 1, minRun)
  }

  /** `re.search(...)` then `.group(1)`: `None` for no match, `Some(None)`
      when the leftmost match is the second alternative (group 1 did not
      take part), `Some(Some(g))` for the digits before `(`. */
  function VolumeGroup(s: string, minRun: nat): (r: Option<Option<string>>)
    ensures r.None? <==> forall q :: 0 <= q <= |s| ==> !VolumeMatchAt(s, q, minRun)
    ensures r.Some? && r.value.Some? ==>
      var p := SearchVolume(s, 0, minRun).value;
      var g := r.value.value;
      && AllDigits(g) && |g| >= minRun
      && p + |g| < |s| && s[p..p + |g|] == g && s[p + |g|] == '('
    ensures r.Some? && r.value.None? ==>
      var p := SearchVolume(s, 0, minRun).value;
      s[p] == ';' && !VolumeFirstAt(s, p, minRun)
  {
    match SearchVolume(s, 0, minRun)
    case None => None
    case Some(p) =>
      if VolumeFirstAt(s, p, minRun) then Some(Some(s[p..DigitRunEnd(s, p)]))
      else Some(None)
  }

  /** A digit run ends at the first non-digit after it. */
  lemma DigitRunEndAt(s: string, i: nat, j: nat)
    requires i <= j < |s| && !IsDigit(s[j])
    requires forall k :: i <= k < j ==> IsDigit(s[k])
    ensures DigitRunEnd(s, i) == j
    decreases j - i
  {
    if i < j {
      DigitRunEndAt(s, i + 1, j);
    }
  }

  /** When the text before a run of digits and "(" has no "(" and no ":"
      and does not end in a digit, neither alternative can match inside it,
      so group 1 is exactly that run. */
  lemma VolumeGroupBeforeParen(pre: string, d: string, post: string, minRun: nat)
    requires '(' !in pre && ':' !in pre
    requires pre == [] || !IsDigit(pre[|pre| - 1])
    requires AllDigits(d) && |d| >= minRun
    ensures VolumeGroup(pre + d + "(" + post, minRun) == Some(Some(d))
  {
    var s := pre + d + "(" + post;
    var n := |pre|;
    DigitRunEndAt(s, n, n + |d|);
    assert VolumeFirstAt(s, n, minRun);
    forall q | 0 <= q < n ensures !VolumeMatchAt(s, q, minRun) {
      assert s[n - 1] == pre[n - 1] && !IsDigit(s[n - 1]);
      var j := DigitRunEnd(s, q);
      assert j < n;
      assert s[j] == pre[j];
      if s[q] == ';' {
        var j2 := DigitRunEnd(s, q + 1);
        if q + 1 < n {
          assert j2 < n;
          assert s[j2] == pre[j2];
        } else {
          assert j2 == n + |d|;
        }
      }
    }
    assert SearchVolume(s, 0, minRun) == Some(n) by {
      SearchVolumeFirst(s, 0, n, minRun);
    }
    assert s[n..n + |d|] == d;
  }

  /** The leftmost match is the first matching position. */
  lemma SearchVolumeFirst(s: string, p: nat, n: nat, minRun: nat)
    requires p <= n <= |s| && VolumeMatchAt(s, n, minRun)
    requires forall q :: p <= q < n ==> !VolumeMatchAt(s, q, minRun)
    ensures SearchVolume(s, p, minRun) == Some(n)
    decreases n - p
  {
    if p < n {
      SearchVolumeFirst(s, p + 1, n, minRun);
    }
  }

  /** The volume of a typical citation line, "2019 Jan;12(3):45-52.". */
  lemma VolumeGroupExample(pre: string, d: string, post: string)
    requires pre == "2019 Jan;" && d == "12" && post == "3):45-52."
    ensures VolumeGroup(pre + d + "(" + post, 1) == Some(Some("12"))
  {
    assert |pre| == 9 && pre[8] == ';';
    assert forall k | 0 <= k < 9 :: pre[k] != '(' && pre[k] != ':';
    VolumeGroupBeforeParen(pre, d, post, 1);
  }

  // ---------------------------------------------------------------------------
  // `re.findall(" \w ", s)`: single-character middle initials

  predicate InitialAt(s: string, i: nat) {
    i + 3 <= |s| && s[i] == ' ' && IsWordChar(s[i + 1]) && s[i + 2] == ' '
  }

  /** Non-overlapping matches of ` \w `, scanning left to right from `i`:
      after a match the scan resumes behind its closing space. */
  function InitialsFrom(s: string, i: nat): (r: seq<string>)
    requires i <= |s|
    ensures 3 * |r| <= |s| - i
    ensures forall k :: 0 <= k < |r| ==>
      |r[k]| == 3 && r[k][0] == ' ' && IsWordChar(r[k][1]) && r[k][2] == ' '
    decreases |s| - i
  {
    if InitialAt(s, i) then [s[i..i + 3]] + InitialsFrom(s, i + 3)
    else if i < |s| then InitialsFrom(s, i + 1)
    else []
  }

  function Initials(s: string): seq<string> { InitialsFrom(s, 0) }

  /** The scan finds the leftmost initial at or after `i` first and resumes
      behind it. */
  lemma {:induction false} InitialsFromLeftmost(s: string, i: nat, j: nat)
    requires i <= j && InitialAt(s, j)
    requires forall k :: i <= k < j ==> !InitialAt(s, k)
    ensures InitialsFrom(s, i) == [s[j..j + 3]] + InitialsFrom(s, j + 3)
    decreases j - i
  {
    if i < j {
      InitialsFromLeftmost(s, i + 1, j);
    }
  }

  /** No initial is found exactly when no position at or after `i` starts
      one. */
  lemma {:induction false} InitialsFromEmpty(s: string, i: nat)
    requires i <= |s|
    ensures InitialsFrom(s, i) == [] <==> forall j :: i <= j <= |s| ==> !InitialAt(s, j)
    decreases |s| - i
  {
    if !InitialAt(s, i) && i < |s| {
      InitialsFromEmpty(s, i + 1);
    }
  }

  /** "John A Smith" has the one initial " A ". */
  lemma InitialsExample(s: string)
    requires s == "John A Smith"
    ensures Initials(s) == [" A "]
  {
    assert InitialAt(s, 4);
    forall k | 0 <= k < 4 ensures !InitialAt(s, k) {
      assert s[k] != ' ';
    }
    InitialsFromLeftmost(s, 0, 4);
    forall j | 7 <= j <= |s| ensures !InitialAt(s, j) {
      if j < |s| { assert s[j] != ' '; }
    }
    InitialsFromEmpty(s, 7);
    assert s[4..7] == " A ";
  }

  // ---------------------------------------------------------------------------
  // Truncated page ranges: `start[0:len(start) - len(stop)] + stop`

  /** The last page of a range printed in abbreviated form ("145-52"): the
      leading digits of the first page that the stop omits are put back. */
  function ExpandStop(start: nat, stop: nat): (r: string)
    requires start > stop
    ensures |r| == |NatToStr(start)| && AllDigits(r)
    ensures |NatToStr(stop)| <= |r|
    ensures r[|r| - |NatToStr(stop)|..] == NatToStr(stop)
    ensures r[..|r| - |NatToStr(stop)|] == NatToStr(start)[..|r| - |NatToStr(stop)|]
  {
    NatToStrLengthMonotone(stop, start);
    var a := NatToStr(start);
    var b := NatToStr(stop);
    var r := a[..|a| - |b|] + b;
    assert r[|r| - |b|..] == b;
    r
  }

  /** The abbreviated range 145-52 stands for pages 145 to 152. */
  lemma ExpandStopExample()
    ensures ExpandStop(145, 52) == "152"
  {
    assert NatToStr(145) == "145";
    assert NatToStr(52) == "52";
  }
}
