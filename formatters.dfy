/** Model of `pubmed_formatters.py`: the field formatters the newer pipeline
    applies to one page's raw fragments. Each reads a field through
    `strip_and_extract`, so a field matched with several different texts
    arrives as a tuple, and string methods or `re.search` then fail on it. */
module Formatters {
  import opened Base
  import opened Text
  import opened Scan
  import opened Utils

  /** The characters `str.strip("doi: ")` removes: its argument is read as
      a set of characters, not as a prefix. */
  predicate IsDoiLabelChar(c: char) { c == 'd' || c == 'o' || c == 'i' || c == ':' || c == ' ' }

  /** The label PubMed prints in front of a DOI. */
  const DOI_LABEL := "doi: "

  // ---------------------------------------------------------------------------
  // format_doi

  /** `format_doi`: the single doi text with every character of "doi: " cut
      from both ends, so that neither end is one of them; a tuple has no
      `strip` (`AttributeError`). */
  function FormatDoi(raw: map<string, seq<string>>): (r: Result<string>)
    ensures "doi" !in raw ==> r == Err(KeyError("doi"))
    ensures "doi" in raw ==>
      match StripAndExtract(raw, "doi").value
      case Tuple(_) => r == Err(AttributeError)
      case Text(t) => r == Ok(Strip(t, IsDoiLabelChar)) && Stripped(r.value, IsDoiLabelChar)
  {
    match StripAndExtract(raw, "doi")
    case Err(err) => Err(err)
    case Ok(Tuple(_)) => Err(AttributeError)
    case Ok(Text(t)) => Ok(Strip(t, IsDoiLabelChar))
  }

  /** The character-set strip also eats the DOI's own trailing `d`, `o` or
      `i`: a page showing "doi: 10.1000/xyz.radio" yields "10.1000/xyz.ra",
      and in general a DOI that ends in one of those letters never comes back
      intact. */
  lemma FormatDoiTruncatesTrailingLetters(raw: map<string, seq<string>>, doi: string)
    requires raw == map["doi" := [DOI_LABEL + doi]]
    requires doi != [] && (doi[|doi| - 1] == 'd' || doi[|doi| - 1] == 'o' || doi[|doi| - 1] == 'i')
    ensures FormatDoi(raw).Ok? && FormatDoi(raw).value != doi
  {
    var t := DOI_LABEL + doi;
    assert Stripped(t, IsSpaceOrNewline) by {
      assert t[0] == 'd';
      assert t[|t| - 1] == doi[|doi| - 1];
    }
    StripAndExtractOfStrippedCopies(raw, "doi", t);
    assert FormatDoi(raw) == Ok(Strip(t, IsDoiLabelChar));
    StripNeverEndsInClass(t, IsDoiLabelChar, doi);
  }

  /** The intended `format_doi`: the label "doi: " removed as a prefix and the
      identifier itself kept whole. */
  function FormatDoiCorrected(raw: map<string, seq<string>>): (r: Result<string>)
    ensures "doi" !in raw ==> r == Err(KeyError("doi"))
    ensures "doi" in raw ==>
      match StripAndExtract(raw, "doi").value
      case Tuple(_) => r == Err(AttributeError)
      case Text(t) =>
        && r.Ok?
        && (HasDoiLabel(t) ==> DOI_LABEL + r.value == t)
        && (!HasDoiLabel(t) ==> r.value == t)
  {
    match StripAndExtract(raw, "doi")
    case Err(err) => Err(err)
    case Ok(Tuple(_)) => Err(AttributeError)
    case Ok(Text(t)) => Ok(WithoutDoiLabel(t))
  }

  /** `t` begins with the label "doi: ". */
  predicate HasDoiLabel(t: string) {
    |DOI_LABEL| <= |t| && t[..|DOI_LABEL|] == DOI_LABEL
  }

  /** `t` without a leading "doi: ", when it has one. */
  function WithoutDoiLabel(t: string): (r: string)
    ensures HasDoiLabel(t) ==> DOI_LABEL + r == t
    ensures !HasDoiLabel(t) ==> r == t
  {
    var n := |DOI_LABEL|;
    if HasDoiLabel(t) then
      assert t == DOI_LABEL + t[n..];
      t[n..]
    else t
  }

  /** The corrected formatter returns exactly the DOI printed after the label,
      whatever its last letters are. */
  lemma FormatDoiCorrectedKeepsDoi(raw: map<string, seq<string>>, doi: string)
    requires raw == map["doi" := [DOI_LABEL + doi]]
    requires doi != [] && Stripped(doi, IsSpaceOrNewline)
    ensures FormatDoiCorrected(raw) == Ok(doi)
  {
    var t := DOI_LABEL + doi;
    assert Stripped(t, IsSpaceOrNewline) by {
      assert t[0] == 'd';
      assert t[|t| - 1] == doi[|doi| - 1];
    }
    StripAndExtractOfStrippedCopies(raw, "doi", t);
    assert t[..|DOI_LABEL|] == DOI_LABEL;
    assert t[|DOI_LABEL|..] == doi;
  }

  // ---------------------------------------------------------------------------
  // format_year

  /** `format_year`: the text before the first space of the single "other"
      string; a tuple has no `split` (`AttributeError`). */
  function FormatYear(raw: map<string, seq<string>>): (r: Result<string>)
    ensures "other" !in raw ==> r == Err(KeyError("other"))
    ensures "other" in raw && StripAndExtract(raw, "other").value.Tuple? ==> r == Err(AttributeError)
    ensures r.Ok? ==>
      var t := StripAndExtract(raw, "other").value.text;
      && ' ' !in r.value && |r.value| <= |t| && t[..|r.value|] == r.value
      && (|r.value| == |t| || t[|r.value|] == ' ')
    ensures "other" in raw && StripAndExtract(raw, "other").value.Text? ==>
      r == Ok(Split(StripAndExtract(raw, "other").value.text, ' ')[0])
  {
    match StripAndExtract(raw, "other")
    case Err(err) => Err(err)
    case Ok(Tuple(_)) => Err(AttributeError)
    case Ok(Text(t)) => Ok(Split(t, ' ')[0])
  }

  // ---------------------------------------------------------------------------
  // format_volume

  /** `re.search(r"(\d+?)\(|;(\d+?):", t).group(1)`: the digits right before
      the "(" of the leftmost match, `None` when the `;digits:` alternative
      matched first, and `AttributeError` (`None.group`) when nothing matches. */
  function VolumeOf(t: string): (r: Result<Option<string>>)
    ensures r.Err? <==> forall q :: 0 <= q <= |t| ==> !VolumeMatchAt(t, q, 1)
    ensures r.Err? ==> r.error == AttributeError
    ensures r.Ok? && r.value.Some? ==>
      var p := SearchVolume(t, 0, 1).value;
      var g := r.value.value;
      && g != [] && AllDigits(g)
      && p + |g| < |t| && t[p..p + |g|] == g && t[p + |g|] == '('
    ensures r.Ok? && r.value.None? ==> t[SearchVolume(t, 0, 1).value] == ';'
  {
    match VolumeGroup(t, 1)
    case None => Err(AttributeError)
    case Some(g) => Ok(g)
  }

  /** `format_volume`: the volume of the single "other" string; `re.search`
      on a tuple raises `TypeError`. */
  function FormatVolume(raw: map<string, seq<string>>): (r: Result<Option<string>>)
    ensures "other" !in raw ==> r == Err(KeyError("other"))
    ensures "other" in raw ==>
      match StripAndExtract(raw, "other").value
      case Tuple(_) => r == Err(TypeError)
      case Text(t) => r == VolumeOf(t)
  {
    match StripAndExtract(raw, "other")
    case Err(err) => Err(err)
    case Ok(Tuple(_)) => Err(TypeError)
    case Ok(Text(t)) => VolumeOf(t)
  }

  // ---------------------------------------------------------------------------
  // format_pages

  /** What `format_pages` returns: the page pair of an abbreviated range, the
      implicit `None` of a range that is not abbreviated, or a string (an
      electronic article number, or ''). */
  datatype Pages = Range(start: string, stop: string) | NoPages | Token(token: string)

  /** The `except (ValueError, AttributeError)` branch: the `e<digits>`
      article number after the first ":e", or '' when there is none. */
  function ArticleNumberOrEmpty(t: string): (r: Pages)
    ensures r.Token?
    ensures r.token == "" <==> !Contains(t, ":e")
    ensures r.token != "" ==> r.token[0] == 'e' && AllDigits(r.token[1..])
    ensures Contains(t, ":e") ==> r.token == ArticleNumber(t).value
  {
    match ArticleNumber(t)
    case Some(n) => Token(n)
    case None => Token("")
  }

  /** `format_pages` on the single "other" string `t`: an abbreviated range
      (first number larger) gives the first page and the last page expanded
      to the same number of digits, ending with the printed ones; any other
      range gives the implicit `None`; when the numbers cannot be read, the
      article number or ''. */
  function PagesOf(t: string): (r: Pages)
    ensures r.Token? <==> PageNumbers(t).None?
    ensures r.Token? ==> r == ArticleNumberOrEmpty(t)
    ensures r.NoPages? <==> PageNumbers(t).Some? && PageNumbers(t).value.0 <= PageNumbers(t).value.1
    ensures r.Range? ==>
      var first := PageNumbers(t).value.0;
      var second := PageNumbers(t).value.1;
      && first > second
      && r.start == NatToStr(first)
      && |r.stop| == |r.start| && AllDigits(r.stop)
      && |NatToStr(second)| <= |r.stop|
      && r.stop[|r.stop| - |NatToStr(second)|..] == NatToStr(second)
      && r.stop == ExpandStop(first, second)
  {
    var numbers := PageNumbers(t);
    if numbers.None? then ArticleNumberOrEmpty(t)
    else if numbers.value.0 > numbers.value.1 then
      Range(NatToStr(numbers.value.0), ExpandStop(numbers.value.0, numbers.value.1))
    else NoPages
  }

  /** `format_pages`: a tuple makes `re.search` raise `TypeError`, which the
      `except (ValueError, AttributeError)` clause does not catch. */
  function FormatPages(raw: map<string, seq<string>>): (r: Result<Pages>)
    ensures "other" !in raw ==> r == Err(KeyError("other"))
    ensures "other" in raw ==>
      match StripAndExtract(raw, "other").value
      case Tuple(_) => r == Err(TypeError)
      case Text(t) => r == Ok(PagesOf(t))
  {
    match StripAndExtract(raw, "other")
    case Err(err) => Err(err)
    case Ok(Tuple(_)) => Err(TypeError)
    case Ok(Text(t)) => Ok(PagesOf(t))
  }

  /** A citation whose first colon opens an electronic article number
      (":e" then the digit run up to `m`) has no readable page range, so
      `format_pages` returns that article number. */
  lemma PagesOfArticleNumber(t: string, n: nat, m: nat)
    requires n + 2 <= m <= |t| && t[n] == ':' && t[n + 1] == 'e'
    requires forall k :: 0 <= k < n ==> t[k] != ':'
    requires forall k :: n + 2 <= k < m ==> IsDigit(t[k])
    requires m == |t| || !IsDigit(t[m])
    ensures PagesOf(t) == Token(t[n + 1..m])
  {
    FirstColonAt(t, n);
    DigitRunEndAt(t, n + 1, n + 1);
    assert ColonDigits(t) == Some("");
    assert PageNumbers(t).None?;
    if m < |t| {
      DigitRunEndAt(t, n + 2, m);
    }
    assert ArticleNumber(t) == Some(t[n + 1..m]);
  }

  /** The first colon and the first ":e" of `t` are both at `n`. */
  lemma FirstColonAt(t: string, n: nat)
    requires n + 2 <= |t| && t[n] == ':' && t[n + 1] == 'e'
    requires forall k :: 0 <= k < n ==> t[k] != ':'
    ensures Find(t, ":") == Some(n) && Find(t, ":e") == Some(n)
  {
    assert t[n..n + 1] == ":" && t[n..n + 2] == ":e";
    forall k: nat | k < n ensures !OccursAt(t, ":", k) && !OccursAt(t, ":e", k) {
      assert t[k..k + 1][0] == t[k];
    }
    FindFirst(t, ":", n);
    FindFirst(t, ":e", n);
  }

  /** The volume of a typical citation line, "2019 Jan;12(3):45-52.". */
  lemma VolumeOfExample(pre: string, d: string, post: string)
    requires pre == "2019 Jan;" && d == "12" && post == "3):45-52."
    ensures VolumeOf(pre + d + "(" + post) == Ok(Some("12"))
  {
    VolumeGroupExample(pre, d, post);
  }
}
