/** The Python string operations the scraper relies on, written out over
    `seq<char>`: `str.strip`, `str.split(" ")`, the `in` substring test,
    ASCII `str.lower`, and `int(...)` / `str(...)` on decimal digit runs. */
module Text {
  import opened Base

  predicate IsDigit(c: char) { '0' <= c <= '9' }

  predicate AllDigits(s: string) { forall k :: 0 <= k < |s| ==> IsDigit(s[k]) }

  /** ASCII `\w`: letters, digits and the underscore. */
  predicate IsWordChar(c: char) {
    IsDigit(c) || 'a' <= c <= 'z' || 'A' <= c <= 'Z' || c == '_'
  }

  /** The characters Python's `str.isspace()` accepts, i.e. what `strip()`
      without arguments removes. */
  predicate IsWhitespace(c: char) {
    || '\t' <= c <= '\r'
    || '\U{1C}' <= c <= ' '
    || c == '\U{85}' || c == '\U{A0}' || c == '\U{1680}'
    || '\U{2000}' <= c <= '\U{200A}'
    || c == '\U{2028}' || c == '\U{2029}' || c == '\U{202F}' || c == '\U{205F}'
    || c == '\U{3000}'
  }

  /** The characters of `strip(" \n")`. */
  predicate IsSpaceOrNewline(c: char) { c == ' ' || c == '\n' }

  // ---------------------------------------------------------------------------
  // str.strip(chars)

  /** Where `s.strip(cs)` starts: the first index from `i` on whose
      character `cs` rejects, or the end of `s`. */
  function StripStart(s: string, cs: char -> bool, i: nat): (j: nat)
    requires i <= |s|
    ensures i <= j <= |s|
    ensures j < |s| ==> !cs(s[j])
    decreases |s| - i
  {
    if i < |s| && cs(s[i]) then StripStart(s, cs, i + 1) else i
  }

  lemma {:induction false} StripStartSkipsOnlyClass(s: string, cs: char -> bool, i: nat)
    requires i <= |s|
    ensures forall k :: i <= k < StripStart(s, cs, i) ==> cs(s[k])
    decreases |s| - i
  {
    if i < |s| && cs(s[i]) {
      StripStartSkipsOnlyClass(s, cs, i + 1);
    }
  }

  /** Where `s.strip(cs)` ends: going down from `j`, the first position
      past a character `cs` rejects, but never below `lo`. */
  function StripEnd(s: string, cs: char -> bool, lo: nat, j: nat): (e: nat)
    requires lo <= j <= |s|
    ensures lo <= e <= j
    ensures e > lo ==> !cs(s[e - 1])
    decreases j
  {
    if j > lo && cs(s[j - 1]) then StripEnd(s, cs, lo, j - 1) else j
  }

  lemma {:induction false} StripEndSkipsOnlyClass(s: string, cs: char -> bool, lo: nat, j: nat)
    requires lo <= j <= |s|
    ensures forall k :: StripEnd(s, cs, lo, j) <= k < j ==> cs(s[k])
    decreases j
  {
    if j > lo && cs(s[j - 1]) {
      StripEndSkipsOnlyClass(s, cs, lo, j - 1);
    }
  }

  /** `s.strip(cs)`: the middle piece of `s` left after removing characters
      `cs` accepts at both ends; it neither starts nor ends with one of them
      (and `StripDropsOnlyClass` says what was removed). */
  function Strip(s: string, cs: char -> bool): (r: string)
    ensures |r| <= |s|
    ensures r != [] ==> !cs(r[0]) && !cs(r[|r| - 1])
  {
    var i := StripStart(s, cs, 0);
    s[i..StripEnd(s, cs, i, |s|)]
  }

  /** Strip keeps a contiguous piece of `s` and removes only characters `cs`
      accepts on either side of it. */
  lemma StripDropsOnlyClass(s: string, cs: char -> bool)
    ensures var i := StripStart(s, cs, 0);
            var r := Strip(s, cs);
            && i + |r| <= |s|
            && r == s[i..i + |r|]
            && (forall k :: 0 <= k < i ==> cs(s[k]))
            && (forall k :: i + |r| <= k < |s| ==> cs(s[k]))
  {
    var i := StripStart(s, cs, 0);
    StripStartSkipsOnlyClass(s, cs, 0);
    StripEndSkipsOnlyClass(s, cs, i, |s|);
  }

  /** `s.strip()`. */
  function StripWs(s: string): (r: string)
    ensures |r| <= |s|
    ensures Stripped(r, IsWhitespace)
  {
    Strip(s, IsWhitespace)
  }

  /** Neither end of `s` is a character of `cs`. */
  predicate Stripped(s: string, cs: char -> bool) {
    s == [] || (!cs(s[0]) && !cs(s[|s| - 1]))
  }

  /** Strip removes exactly the surrounding characters of `cs`: its result is
      stripped, and a stripped string is left as it is. */
  lemma StripFixesStripped(s: string, cs: char -> bool)
    ensures Stripped(Strip(s, cs), cs)
    ensures Stripped(s, cs) ==> Strip(s, cs) == s
  {
    if Stripped(s, cs) && s != [] {
      assert StripStart(s, cs, 0) == 0;
      assert StripEnd(s, cs, 0, |s|) == |s|;
    }
  }

  /** A string that ends in a character `cs` accepts is never what stripping
      `cs` returns. */
  lemma StripNeverEndsInClass(s: string, cs: char -> bool, x: string)
    requires x != [] && cs(x[|x| - 1])
    ensures Strip(s, cs) != x
  {
  }

  /** Stripping twice removes nothing more. */
  lemma StripIdempotent(s: string, cs: char -> bool)
    ensures Strip(Strip(s, cs), cs) == Strip(s, cs)
  {
    StripFixesStripped(s, cs);
    StripFixesStripped(Strip(s, cs), cs);
  }

  // ---------------------------------------------------------------------------
  // str.lower() on ASCII letters

  function LowerChar(c: char): char {
    if 'A' <= c <= 'Z' then (c as int + 32) as char else c
  }

  /** ASCII lower-casing: same length, every letter A-Z mapped to a-z. */
  function Lower(s: string): (r: string)
    ensures |r| == |s|
    ensures forall k :: 0 <= k < |s| ==> r[k] == LowerChar(s[k])
    ensures forall k :: 0 <= k < |r| ==> !('A' <= r[k] <= 'Z')
  {
    if s == [] then [] else [LowerChar(s[0])] + Lower(s[1..])
  }

  // ---------------------------------------------------------------------------
  // substring search: `pat in s`

  predicate OccursAt(s: string, pat: string, k: nat) {
    k + |pat| <= |s| && s[k..k + |pat|] == pat
  }

  /** Leftmost occurrence of `pat` in `s` at or after `i`. */
  function FindFrom(s: string, pat: string, i: nat): (r: Option<nat>)
    requires i <= |s|
    ensures r.Some? ==> i <= r.value && OccursAt(s, pat, r.value)
    ensures r.Some? ==> forall k: nat :: i <= k < r.value ==> !OccursAt(s, pat, k)
    ensures r.None? ==> forall k: nat :: i <= k ==> !OccursAt(s, pat, k)
    decreases |s| - i
  {
    if OccursAt(s, pat, i) then Some(i)
    else if i == |s| then None
    else FindFrom(s, pat, i + 1)
  }

  /** Python's `s.find(pat)`, `None` for -1. */
  function Find(s: string, pat: string): (r: Option<nat>)
    ensures r.Some? ==> OccursAt(s, pat, r.value)
    ensures r.Some? ==> forall k: nat :: k < r.value ==> !OccursAt(s, pat, k)
    ensures r.None? ==> forall k: nat :: !OccursAt(s, pat, k)
  {
    FindFrom(s, pat, 0)
  }

  /** The first occurrence is the one with no occurrence before it. */
  lemma FindFirst(s: string, pat: string, n: nat)
    requires OccursAt(s, pat, n)
    requires forall k: nat :: k < n ==> !OccursAt(s, pat, k)
    ensures Find(s, pat) == Some(n)
  {
  }

  /** Python's `pat in s`. */
  predicate Contains(s: string, pat: string)
    ensures Contains(s, pat) <==> exists k: nat :: OccursAt(s, pat, k)
  {
    Find(s, pat).Some?
  }

  // ---------------------------------------------------------------------------
  // str.split(sep) with an explicit one-character separator

  /** Inverse of Split: the pieces glued back with the separator. */
  function Join(parts: seq<string>, sep: char): string
    requires |parts| >= 1
  {
    if |parts| == 1 then parts[0] else parts[0] + [sep] + Join(parts[1..], sep)
  }

  /** `s.split(sep)`: the maximal separator-free pieces, empty ones included.
      The first piece is the text before the first separator. */
  function Split(s: string, sep: char): (r: seq<string>)
    ensures |r| >= 1
    ensures forall k :: 0 <= k < |r| ==> sep !in r[k]
    ensures Join(r, sep) == s
    ensures |r[0]| <= |s| && s[..|r[0]|] == r[0]
    ensures |r[0]| == |s| || s[|r[0]|] == sep
    decreases |s|
  {
    if s == [] then [""]
    else
      var rest := Split(s[1..], sep);
      if s[0] == sep then
        var r := [""] + rest;
        assert r[1..] == rest;
        r
      else
        var r := [[s[0]] + rest[0]] + rest[1..];
        assert Join(r, sep) == s by {
          if |rest| > 1 {
            assert r[1..] == rest[1..];
            assert Join(rest, sep) == rest[0] + [sep] + Join(rest[1..], sep);
          }
        }
        r
  }

  // ---------------------------------------------------------------------------
  // decimal digit runs, int(...) and str(...)

  /** A string without the separator splits into itself. */
  lemma {:induction false} SplitWithoutSeparator(s: string, sep: char)
    requires sep !in s
    ensures Split(s, sep) == [s]
    decreases |s|
  {
    if s != [] {
      assert sep !in s[1..] by { assert forall k :: 0 <= k < |s| - 1 ==> s[1..][k] == s[k + 1]; }
      SplitWithoutSeparator(s[1..], sep);
      assert [s[0]] + s[1..] == s;
    }
  }

  /** Splitting at a separator whose left side has none gives that side as
      the first piece and the split of the rest after it. */
  lemma {:induction false} SplitAt(s: string, sep: char, n: nat)
    requires n < |s| && s[n] == sep && sep !in s[..n]
    ensures Split(s, sep) == [s[..n]] + Split(s[n + 1..], sep)
    decreases n
  {
    if n > 0 {
      assert sep !in s[1..][..n - 1] by {
        assert s[1..][..n - 1] == s[..n][1..];
      }
      SplitAt(s[1..], sep, n - 1);
      assert s[1..][n..] == s[n + 1..];
      assert s[0] != sep by { assert s[0] == s[..n][0]; }
      assert [s[0]] + s[1..][..n - 1] == s[..n];
    } else {
      assert Split(s, sep) == [""] + Split(s[1..], sep);
    }
  }

  /** Two pieces without the separator, joined by it, split back into them. */
  lemma SplitPair(a: string, b: string, sep: char)
    requires sep !in a && sep !in b
    ensures Split(a + [sep] + b, sep) == [a, b]
  {
    var s := a + [sep] + b;
    assert s[..|a|] == a && s[|a|] == sep && s[|a| + 1..] == b;
    SplitAt(s, sep, |a|);
    SplitWithoutSeparator(b, sep);
  }

  /** End of the maximal run of digits starting at `i`. */
  function DigitRunEnd(s: string, i: nat): (j: nat)
    requires i <= |s|
    ensures i <= j <= |s|
    ensures forall k :: i <= k < j ==> IsDigit(s[k])
    ensures j == |s| || !IsDigit(s[j])
    decreases |s| - i
  {
    if i < |s| && IsDigit(s[i]) then DigitRunEnd(s, i + 1) else i
  }

  function DigitChar(d: nat): char
    requires d < 10
  {
    ('0' as int + d) as char
  }

  function DigitValue(c: char): nat
    requires IsDigit(c)
  {
    c as int - '0' as int
  }

  /** `str(n)` for a non-negative integer: decimal, no leading zero. */
  function NatToStr(n: nat): (r: string)
    ensures |r| >= 1 && AllDigits(r)
    ensures |r| > 1 ==> r[0] != '0'
  {
    if n < 10 then [DigitChar(n)] else NatToStr(n / 10) + [DigitChar(n % 10)]
  }

  /** The value of a string of decimal digits. */
  function ParseNat(d: string): nat
    requires AllDigits(d)
  {
    if d == [] then 0 else 10 * ParseNat(d[..|d| - 1]) + DigitValue(d[|d| - 1])
  }

  /** `int(d)` on a run of digits: `ValueError` for the empty string. */
  function PyInt(d: string): (r: Result<nat>)
    requires AllDigits(d)
    ensures r.Err? <==> d == []
    ensures r.Err? ==> r.error == ValueError
    ensures r.Ok? ==> NatToStr(r.value) == TrimLeadingZeros(d)
  {
    if d == [] then Err(ValueError)
    else
      TrimLeadingZerosValue(d);
      NatToStrOfCanonical(TrimLeadingZeros(d));
      Ok(ParseNat(d))
  }

  /** The digits with their leading zeros removed, keeping at least one digit. */
  function TrimLeadingZeros(d: string): (r: string)
    requires AllDigits(d) && d != []
    ensures AllDigits(r) && 1 <= |r| <= |d|
    ensures |r| > 1 ==> r[0] != '0'
    ensures r == d[|d| - |r|..]
  {
    if |d| > 1 && d[0] == '0' then TrimLeadingZeros(d[1..]) else d
  }

  lemma {:induction false} ParseNatLeadingZero(d: string)
    requires AllDigits(d) && d != [] && d[0] == '0'
    ensures ParseNat(d) == ParseNat(d[1..])
    decreases |d|
  {
    if |d| > 1 {
      ParseNatLeadingZero(d[..|d| - 1]);
      assert d[..|d| - 1][1..] == d[1..][..|d[1..]| - 1];
    }
  }

  lemma {:induction false} TrimLeadingZerosValue(d: string)
    requires AllDigits(d) && d != []
    ensures ParseNat(TrimLeadingZeros(d)) == ParseNat(d)
    decreases |d|
  {
    if |d| > 1 && d[0] == '0' {
      ParseNatLeadingZero(d);
      TrimLeadingZerosValue(d[1..]);
    }
  }

  /** int(str(n)) == n. */
  lemma {:induction false} ParseNatOfNatToStr(n: nat)
    ensures ParseNat(NatToStr(n)) == n
  {
    if n >= 10 {
      var s := NatToStr(n);
      assert s[..|s| - 1] == NatToStr(n / 10);
      ParseNatOfNatToStr(n / 10);
    }
  }

  lemma {:induction false} CanonicalIsPositive(d: string)
    requires AllDigits(d) && d != [] && d[0] != '0'
    ensures ParseNat(d) > 0
    decreases |d|
  {
    if |d| > 1 {
      CanonicalIsPositive(d[..|d| - 1]);
    }
  }

  /** str(int(d)) == d for a digit string without a leading zero. */
  lemma {:induction false} NatToStrOfCanonical(d: string)
    requires AllDigits(d) && d != [] && (|d| > 1 ==> d[0] != '0')
    ensures NatToStr(ParseNat(d)) == d
    decreases |d|
  {
    if |d| > 1 {
      var p := d[..|d| - 1];
      CanonicalIsPositive(p);
      NatToStrOfCanonical(p);
      var v := DigitValue(d[|d| - 1]);
      assert ParseNat(d) == 10 * ParseNat(p) + v;
      assert ParseNat(d) / 10 == ParseNat(p) && ParseNat(d) % 10 == v;
      assert d == p + [d[|d| - 1]];
    }
  }

  /** A larger number never has fewer decimal digits. */
  lemma {:induction false} NatToStrLengthMonotone(a: nat, b: nat)
    requires a <= b
    ensures |NatToStr(a)| <= |NatToStr(b)|
    decreases b
  {
    if a >= 10 {
      NatToStrLengthMonotone(a / 10, b / 10);
    }
  }
}
