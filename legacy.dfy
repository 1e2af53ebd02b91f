/** Model of `main.py`: the original `PubMedScrapper`. It splits the loaded
    identifiers into dois and pmids, checks that PubMed found an article,
    parses authors, the primary fields and the "cit" line, assembles a
    CSL-JSON entry and runs the batch loop over identifiers. */
module Legacy {
  import opened Base
  import opened Text
  import opened Scan
  import opened Utils
  import Formatters

  /** The search URL an identifier is appended to, in double quotes. */
  const PUBMED_URL := "https://pubmed.ncbi.nlm.nih.gov/?term="

  const QUERY_ERROR_XPATH := "//em[@class='altered-search-explanation query-error-message']/text()"
  const AUTHORS_XPATH := "//div[@class='authors-list']/span/a/text()"
  const TITLE_XPATH := "//h1[@class='heading-title']/text()"
  const JOURNAL_XPATH := "//button[@class='journal-actions-trigger trigger']/text()"
  const PMID_XPATH := "//strong[@class='current-id']/text()"
  const DOI_XPATH := "//span[@class='citation-doi']/text()"
  const CIT_XPATH := "//span[@class='cit']/text()"

  // ---------------------------------------------------------------------------
  // Scrapper.__init__: the doi / pmid partition

  /** Records the constructor can read without a `KeyError`: each has a
      "doi", and a "pmid" wherever the doi is null. */
  predicate Partitionable(records: seq<Record>) {
    forall k :: 0 <= k < |records| ==>
      "doi" in records[k] && (records[k]["doi"].None? ==> "pmid" in records[k])
  }

  /** The stripped non-null dois, in record order. */
  function DoisOf(records: seq<Record>): (r: seq<string>)
    requires Partitionable(records)
    ensures |r| <= |records|
    ensures forall k :: 0 <= k < |r| ==> Stripped(r[k], IsWhitespace)
  {
    if records == [] then []
    else
      var n := |records| - 1;
      match records[n]["doi"]
      case Some(d) => DoisOf(records[..n]) + [StripWs(d)]
      case None => DoisOf(records[..n])
  }

  /** The pmids (possibly null) of the records whose doi is null. */
  function PmidsOf(records: seq<Record>): (r: seq<Option<string>>)
    requires Partitionable(records)
    ensures |r| <= |records|
  {
    if records == [] then []
    else
      var n := |records| - 1;
      match records[n]["doi"]
      case Some(_) => PmidsOf(records[..n])
      case None => PmidsOf(records[..n]) + [records[n]["pmid"]]
  }

  /** Every record lands in exactly one of the two lists. */
  lemma {:induction false} PartitionCounts(records: seq<Record>)
    requires Partitionable(records)
    ensures |DoisOf(records)| + |PmidsOf(records)| == |records|
  {
    if records != [] {
      PartitionCounts(records[..|records| - 1]);
    }
  }

  /** The dois of the original constructor are what the later
      `get_identifiers(data, "doi")` returns. */
  lemma {:induction false} DoisOfIsGetIdentifiers(records: seq<Record>)
    requires Partitionable(records)
    ensures GetIdentifiers(records, "doi") == Ok(DoisOf(records))
  {
    if records != [] {
      var n := |records| - 1;
      var init := records[..n];
      assert Partitionable(init) by {
        forall k | 0 <= k < n ensures "doi" in init[k] && (init[k]["doi"].None? ==> "pmid" in init[k]) {
          assert init[k] == records[k];
        }
      }
      DoisOfIsGetIdentifiers(init);
      var last := [records[n]];
      assert HasKey(last, "doi");
      assert records == init + last;
      NonNullStrippedAppend(init, last, "doi");
      assert NonNullStripped(last[1..], "doi") == [];
      assert HasKey(records, "doi");
      match records[n]["doi"] {
        case Some(d) =>
          assert NonNullStripped(last, "doi") == [StripWs(d)];
          assert DoisOf(records) == DoisOf(init) + [StripWs(d)];
        case None =>
          assert NonNullStripped(last, "doi") == [];
          assert NonNullStripped(records, "doi") == NonNullStripped(init, "doi") + [];
          assert NonNullStripped(init, "doi") + [] == NonNullStripped(init, "doi");
          assert DoisOf(records) == DoisOf(init);
      }
    }
  }

  // ---------------------------------------------------------------------------
  // __get_authors__

  /** One `{"family": ..., "given": ...}` dict. */
  datatype Author = Author(family: string, given: string)

  /** The pieces glued together in order, as `+=` in a loop does. */
  function Concat(parts: seq<string>): string {
    if parts == [] then "" else Concat(parts[..|parts| - 1]) + parts[|parts| - 1]
  }

  /** `author.split(" ")[0]`. */
  function FirstName(name: string): string { Split(name, ' ')[0] }

  /** The given name: the first token followed by every ` x ` initial,
      stripped. */
  function GivenName(name: string): (r: string)
    ensures Stripped(r, IsWhitespace)
  {
    StripWs(FirstName(name) + Concat(Initials(name)))
  }

  /** `string not in (firstName or middleNames)`: a non-empty first name is
      searched as text, an empty one falls through to the list of initials. */
  predicate Qualifies(token: string, first: string, middles: seq<string>) {
    if first != "" then !Contains(first, token) else token !in middles
  }

  /** `lastName` after the inner loop over `tokens`, entered with `prev`:
      the last qualifying token, or `prev` when none qualifies. */
  function LastQualifying(tokens: seq<string>, first: string, middles: seq<string>, prev: string): string {
    if tokens == [] then prev
    else
      var n := |tokens| - 1;
      if Qualifies(tokens[n], first, middles) then tokens[n]
      else LastQualifying(tokens[..n], first, middles, prev)
  }

  /** `lastName` after processing `name`, entered with `prev`. */
  function NextLastName(name: string, prev: string): string {
    LastQualifying(Split(name, ' '), FirstName(name), Initials(name), prev)
  }

  /** `lastName` after the outer loop over `names`; it starts as "". */
  function LastNameAfter(names: seq<string>): string {
    if names == [] then ""
    else NextLastName(names[|names| - 1], LastNameAfter(names[..|names| - 1]))
  }

  /** The dict appended for `name` when `before` are the names already
      processed: the family name is `lastName` carried over from them and
      updated by `name`. */
  function AuthorEntry(before: seq<string>, name: string): Author {
    Author(StripWs(NextLastName(name, LastNameAfter(before))), GivenName(name))
  }

  /** The shape of the author loop: one entry per name, in order, each
      computed from the names processed so far and the current one. */
  function BuildAuthors(names: seq<string>, entry: (seq<string>, string) -> Author): (r: seq<Author>)
    ensures |r| == |names|
  {
    if names == [] then []
    else
      var n := |names| - 1;
      BuildAuthors(names[..n], entry) + [entry(names[..n], names[n])]
  }

  /** The entry at position `k` is computed from the first `k` names and the
      `k`-th. */
  lemma {:induction false} BuildAuthorsAt(names: seq<string>, entry: (seq<string>, string) -> Author, k: nat)
    requires k < |names|
    ensures BuildAuthors(names, entry)[k] == entry(names[..k], names[k])
  {
    var n := |names| - 1;
    if k < n {
      BuildAuthorsAt(names[..n], entry, k);
      assert names[..n][..k] == names[..k];
    }
  }

  /** The author list `__get_authors__` builds from the kept names. */
  function ParseAuthors(names: seq<string>): (r: seq<Author>)
    ensures |r| == |names|
  {
    BuildAuthors(names, AuthorEntry)
  }

  /** Processing one more name appends its entry and updates `lastName`. */
  lemma {:induction false} ParseAuthorsStep(names: seq<string>, i: nat)
    requires i < |names|
    ensures ParseAuthors(names[..i + 1]) == ParseAuthors(names[..i]) + [AuthorEntry(names[..i], names[i])]
    ensures LastNameAfter(names[..i + 1]) == NextLastName(names[i], LastNameAfter(names[..i]))
  {
    assert names[..i + 1][..i] == names[..i];
    assert names[..i + 1][i] == names[i];
  }

  /** One author per kept name, in input order: the `k`-th is the entry
      for the `k`-th name after the `k` names before it. */
  lemma ParseAuthorsAt(names: seq<string>, k: nat)
    requires k < |names|
    ensures |ParseAuthors(names)| == |names|
    ensures ParseAuthors(names)[k] == AuthorEntry(names[..k], names[k])
  {
    BuildAuthorsAt(names, AuthorEntry, k);
  }

  /** The inner loop's `lastName` stays `prev` when no token qualifies. */
  lemma {:induction false} LastQualifyingNone(tokens: seq<string>, first: string, middles: seq<string>, prev: string)
    requires forall j :: 0 <= j < |tokens| ==> !Qualifies(tokens[j], first, middles)
    ensures LastQualifying(tokens, first, middles, prev) == prev
  {
    if tokens != [] {
      var n := |tokens| - 1;
      assert forall j :: 0 <= j < n ==> tokens[..n][j] == tokens[j];
      LastQualifyingNone(tokens[..n], first, middles, prev);
    }
  }

  /** Otherwise it is the LAST qualifying token: earlier ones are overwritten. */
  lemma {:induction false} LastQualifyingAt(tokens: seq<string>, first: string, middles: seq<string>, prev: string, j: nat)
    requires j < |tokens| && Qualifies(tokens[j], first, middles)
    requires forall i :: j < i < |tokens| ==> !Qualifies(tokens[i], first, middles)
    ensures LastQualifying(tokens, first, middles, prev) == tokens[j]
  {
    var n := |tokens| - 1;
    if j < n {
      assert forall i :: j < i < n ==> tokens[..n][i] == tokens[i];
      LastQualifyingAt(tokens[..n], first, middles, prev, j);
    }
  }

  /** A name written "Surname X" (one word, then one initial that does not
      occur in it) is read with "X" as the family name and the surname as the
      given name: the initial is the only token that is not part of the first
      token, and ` \w ` needs a space after the initial. */
  lemma SurnameInitial(surname: string, x: char)
    requires surname != [] && ' ' !in surname && x != ' '
    requires !IsWhitespace(surname[0]) && !IsWhitespace(surname[|surname| - 1])
    requires x !in surname && !IsWhitespace(x)
    ensures NextLastName(surname + " " + [x], "") == [x]
    ensures GivenName(surname + " " + [x]) == surname
  {
    var name := surname + " " + [x];
    var n := |surname|;
    assert name[n] == ' ' && name[n + 1] == x && |name| == n + 2;
    assert Split(name, ' ') == [surname, [x]] by {
      SplitAt(name, ' ', n);
      assert name[..n] == surname && name[n + 1..] == [x];
      assert Split([x], ' ') == [[x]];
    }
    assert Initials(name) == [] by {
      NoInitialsWithoutTwoSpaces(name, 0, n);
    }
    var tokens := Split(name, ' ');
    assert !Qualifies([x], surname, []) == Contains(surname, [x]);
    assert !Contains(surname, [x]) by {
      forall k: nat ensures !OccursAt(surname, [x], k) {
        if k + 1 <= |surname| {
          assert surname[k..k + 1] == [surname[k]];
        }
      }
    }
    assert Contains(surname, surname) by {
      assert OccursAt(surname, surname, 0);
    }
    LastQualifyingAt(tokens, surname, [], "", 1);
    assert Concat([]) == "";
    assert surname + Concat([]) == surname;
    StripFixesStripped(surname, IsWhitespace);
  }

  /** ` \w ` cannot match when at most one space lies at or after `i`. */
  lemma {:induction false} NoInitialsWithoutTwoSpaces(s: string, i: nat, n: nat)
    requires i <= |s| && n < |s|
    requires forall k :: i <= k < |s| && k != n ==> s[k] != ' '
    ensures InitialsFrom(s, i) == []
    decreases |s| - i
  {
    if i < |s| {
      assert !InitialAt(s, i);
      NoInitialsWithoutTwoSpaces(s, i + 1, n);
    }
  }

  // ---------------------------------------------------------------------------
  // __get_primary_metadata__

  /** The doi of an entry: the identifier the caller passed, or, when none
      was passed, the whole (possibly empty) list of doi fragments. */
  datatype DoiField = GivenDoi(doi: string) | PageDois(fragments: seq<string>)

  datatype Primary = Primary(title: string, journal: string, pmid: string, doi: DoiField)

  /** `__get_primary_metadata__(root, doi, pmid)`: `None` stands for the
      returned 1, i.e. an `IndexError` on the title, the journal or (when no
      pmid is passed) the pmid. Passed identifiers are kept as they are. */
  function PrimaryMetadata(page: Document, doi: Option<string>, pmid: Option<string>): (r: Option<Primary>)
    ensures r.None? <==>
      page(TITLE_XPATH) == [] || page(JOURNAL_XPATH) == [] || (pmid.None? && page(PMID_XPATH) == [])
    ensures r.Some? ==>
      && r.value.title == StripWs(page(TITLE_XPATH)[0])
      && r.value.journal == StripWs(page(JOURNAL_XPATH)[0])
      && r.value.pmid == (if pmid.Some? then pmid.value else StripWs(page(PMID_XPATH)[0]))
      && r.value.doi == (if doi.Some? then GivenDoi(doi.value) else PageDois(page(DOI_XPATH)))
  {
    var titles := page(TITLE_XPATH);
    var journals := page(JOURNAL_XPATH);
    if titles == [] || journals == [] then None
    else
      match pmid {
        case Some(p) => Some(Primary(StripWs(titles[0]), StripWs(journals[0]), p, DoiOrFragments(page, doi)))
        case None =>
          var found := page(PMID_XPATH);
          if found == [] then None
          else Some(Primary(StripWs(titles[0]), StripWs(journals[0]), StripWs(found[0]), DoiOrFragments(page, doi)))
      }
  }

  function DoiOrFragments(page: Document, doi: Option<string>): DoiField {
    match doi
    case Some(d) => GivenDoi(d)
    case None => PageDois(page(DOI_XPATH))
  }

  /** With both identifiers passed, the pmid and doi selectors are never
      consulted: two pages agreeing on title and journal give the same
      primary metadata. */
  lemma PrimaryIgnoresIdSelectors(page1: Document, page2: Document, doi: string, pmid: string)
    requires page1(TITLE_XPATH) == page2(TITLE_XPATH) && page1(JOURNAL_XPATH) == page2(JOURNAL_XPATH)
    ensures PrimaryMetadata(page1, Some(doi), Some(pmid)) == PrimaryMetadata(page2, Some(doi), Some(pmid))
  {
  }

  // ---------------------------------------------------------------------------
  // __get_secondary_metadata__

  /** The pages of the original parser: the integer pair `[int, int]`, the
      string pair built when the range was truncated, or a text token. */
  datatype MainPages = IntPair(first: nat, second: nat) | StrPair(start: string, stop: string) | PageText(text: string)

  /** `int('')` raises `ValueError`: no digits after the first colon, or
      (once those were read) none before the first period. */
  predicate PagesValueError(cit: string) {
    ColonDigits(cit) == Some("") ||
    (ColonDigits(cit).Some? && ColonDigits(cit) != Some("") && DigitsBeforeDot(cit) == Some(""))
  }

  /** The `except ValueError` clause: `search(':(e[0-9]*)', cit).group(1)`,
      which itself raises `AttributeError` when there is no match; the
      sibling `except AttributeError` does not catch it. */
  function ArticlePages(cit: string): (r: Result<MainPages>)
    ensures r.Err? <==> !Contains(cit, ":e")
    ensures r.Err? ==> r.error == AttributeError
    ensures r.Ok? ==> r.value.PageText? && |r.value.text| >= 1 && r.value.text[0] == 'e' && AllDigits(r.value.text[1..])
    ensures r.Ok? ==> r.value == PageText(ArticleNumber(cit).value)
  {
    match ArticleNumber(cit)
    case None => Err(AttributeError)
    case Some(n) => Ok(PageText(n))
  }

  /** The `try` block on the pages of the cit string with its two handlers:
      both numbers read gives the pair (made strings when the range is
      truncated), a `ValueError` the article number, an `AttributeError`
      (a missing colon or period) ''. */
  function CitPages(cit: string): (r: Result<MainPages>)
    ensures r.Err? <==> PagesValueError(cit) && !Contains(cit, ":e")
    ensures r.Err? ==> r.error == AttributeError
    ensures r.Ok? && !r.value.PageText? <==> PageNumbers(cit).Some?
    ensures r.Ok? && r.value.PageText? ==> (r.value.text == "" <==> !PagesValueError(cit))
    ensures r.Ok? && r.value.IntPair? ==>
      r.value.first == PageNumbers(cit).value.0 && r.value.second == PageNumbers(cit).value.1
      && r.value.first <= r.value.second
    ensures r.Ok? && r.value.StrPair? ==>
      var first := PageNumbers(cit).value.0;
      var second := PageNumbers(cit).value.1;
      first > second && r.value == StrPair(NatToStr(first), ExpandStop(first, second))
    ensures r.Ok? && r.value.PageText? && PagesValueError(cit) ==> r.value.text == ArticleNumber(cit).value
  {
    var numbers := PageNumbers(cit);
    if numbers.Some? then
      if numbers.value.0 > numbers.value.1 then
        Ok(StrPair(NatToStr(numbers.value.0), ExpandStop(numbers.value.0, numbers.value.1)))
      else Ok(IntPair(numbers.value.0, numbers.value.1))
    else if PagesValueError(cit) then ArticlePages(cit)
    else Ok(PageText(""))
  }

  /** The original parser and `format_pages` agree on truncated ranges
      (same strings), on plain ranges (an integer pair there, `None` here)
      and after a `ValueError`; where the original raises, `format_pages`
      gives ''. They part after an `AttributeError`: the original gives ''
      and `format_pages` still looks for an article number. */
  lemma CitPagesAgreesWithFormatPages(cit: string)
    ensures var pages := Formatters.PagesOf(cit);
      match CitPages(cit)
      case Err(_) => pages == Formatters.Token("")
      case Ok(IntPair(_, _)) => pages.NoPages?
      case Ok(StrPair(start, stop)) => pages == Formatters.Range(start, stop)
      case Ok(PageText(text)) =>
        if PagesValueError(cit) then pages == Formatters.Token(text)
        else text == "" && pages == Formatters.ArticleNumberOrEmpty(cit)
  {
    var numbers := PageNumbers(cit);
    if numbers.None? {
      assert Formatters.PagesOf(cit) == Formatters.ArticleNumberOrEmpty(cit);
    }
  }

  datatype Secondary = Secondary(year: string, volume: Option<string>, pages: MainPages)

  /** What `__get_secondary_metadata__` ends in: 1 when there is no cit
      string, the triple, or an exception it lets escape. */
  datatype SecondaryOutcome = NoCitation | Parsed(secondary: Secondary) | Raised(error: PyError)

  /** The triple built from a stripped cit string. The volume search sits
      outside any `try`, so a cit string without a volume match raises. */
  function ParseCitation(cit: string): (r: Result<Secondary>)
    ensures r.Err? <==> VolumeGroup(cit, 0).None? || CitPages(cit).Err?
    ensures r.Err? ==> r.error == AttributeError
    ensures r.Ok? ==>
      && ' ' !in r.value.year && |r.value.year| <= |cit| && cit[..|r.value.year|] == r.value.year
      && (|r.value.year| == |cit| || cit[|r.value.year|] == ' ')
      && Some(r.value.volume) == VolumeGroup(cit, 0)
      && Ok(r.value.pages) == CitPages(cit)
  {
    var year := Split(cit, ' ')[0];
    match VolumeGroup(cit, 0)
    case None => Err(AttributeError)
    case Some(volume) =>
      match CitPages(cit)
      case Err(e) => Err(e)
      case Ok(pages) => Ok(Secondary(year, volume, pages))
  }

  /** `__get_secondary_metadata__(root)` on the first cit fragment, stripped. */
  function SecondaryMetadata(page: Document): (r: SecondaryOutcome)
    ensures r.NoCitation? <==> page(CIT_XPATH) == []
    ensures page(CIT_XPATH) != [] ==>
      var parsed := ParseCitation(StripWs(page(CIT_XPATH)[0]));
      (r.Raised? <==> parsed.Err?) && (r.Parsed? ==> r.secondary == parsed.value)
  {
    var cits := page(CIT_XPATH);
    if cits == [] then NoCitation
    else
      match ParseCitation(StripWs(cits[0]))
      case Err(e) => Raised(e)
      case Ok(secondary) => Parsed(secondary)
  }

  // ---------------------------------------------------------------------------
  // __generate_csl_json_entry__

  datatype Entry = Entry(
    title: string, kind: string, author: seq<Author>, issued: seq<seq<string>>,
    journal: string, doi: DoiField, pmid: string, volume: Option<string>,
    pages: string, id: string)

  /** The "pages" value: a list as `"a-b"`, a string verbatim. */
  function PagesField(pages: MainPages): (r: string)
    ensures pages.IntPair? ==> Split(r, '-') == [NatToStr(pages.first), NatToStr(pages.second)]
    ensures pages.PageText? ==> r == pages.text
  {
    match pages
    case IntPair(first, second) =>
      NoHyphenInDigits(NatToStr(first));
      NoHyphenInDigits(NatToStr(second));
      SplitPair(NatToStr(first), NatToStr(second), '-');
      NatToStr(first) + "-" + NatToStr(second)
    case StrPair(start, stop) => start + "-" + stop
    case PageText(text) => text
  }

  /** A rendered range splits at its one hyphen back into its two numbers. */
  lemma PagesFieldSplits(pages: MainPages, start: string, stop: string)
    requires pages.IntPair? || pages.StrPair?
    requires AllDigits(start) && AllDigits(stop)
    requires pages.IntPair? ==> start == NatToStr(pages.first) && stop == NatToStr(pages.second)
    requires pages.StrPair? ==> start == pages.start && stop == pages.stop
    ensures Split(PagesField(pages), '-') == [start, stop]
  {
    assert PagesField(pages) == start + "-" + stop;
    NoHyphenInDigits(start);
    NoHyphenInDigits(stop);
    SplitPair(start, stop, '-');
  }

  lemma NoHyphenInDigits(d: string)
    requires AllDigits(d)
    ensures '-' !in d
  {
    assert forall k :: 0 <= k < |d| ==> IsDigit(d[k]);
  }

  /** `__generate_csl_json_entry__`: `authors[0]` raises `IndexError` on an
      empty author list; otherwise an "article" whose id is the lower-cased
      first family name followed by the year. */
  function GenerateEntry(authors: seq<Author>, primary: Primary, secondary: Secondary): (r: Result<Entry>)
    ensures r.Err? <==> authors == []
    ensures r.Err? ==> r.error == IndexError
    ensures r.Ok? ==>
      && r.value.kind == "article"
      && r.value.author == authors && r.value.issued == [[secondary.year]]
      && r.value.title == primary.title && r.value.journal == primary.journal
      && r.value.doi == primary.doi && r.value.pmid == primary.pmid
      && r.value.volume == secondary.volume && r.value.pages == PagesField(secondary.pages)
      && |r.value.id| == |authors[0].family| + |secondary.year|
      && r.value.id[|authors[0].family|..] == secondary.year
      && (forall k :: 0 <= k < |authors[0].family| ==>
            r.value.id[k] == LowerChar(authors[0].family[k]) && !('A' <= r.value.id[k] <= 'Z'))
  {
    if authors == [] then Err(IndexError)
    else
      var id := Lower(authors[0].family) + secondary.year;
      assert id[..|authors[0].family|] == Lower(authors[0].family);
      Ok(Entry(primary.title, "article", authors, [[secondary.year]], primary.journal,
               primary.doi, primary.pmid, secondary.volume, PagesField(secondary.pages), id))
  }

  // ---------------------------------------------------------------------------
  // __is_in_pubmed__

  /** The page carries a first query-error message saying the term was
      ignored or not found. */
  predicate TermNotFound(page: Document)
    ensures TermNotFound(page) <==>
      var messages := page(QUERY_ERROR_XPATH);
      && messages != []
      && (Find(messages[0], "term was ignored").Some? || Find(messages[0], "term was not found").Some?)
  {
    var messages := page(QUERY_ERROR_XPATH);
    messages != [] &&
    (Contains(messages[0], "term was ignored") || Contains(messages[0], "term was not found"))
  }

  /** The names `__get_authors__` keeps: PubMed lists every author twice, so
      the first half of the matches. */
  function KeptAuthorNames(page: Document): (r: seq<string>)
    ensures |r| == |page(AUTHORS_XPATH)| / 2
    ensures forall k :: 0 <= k < |r| ==> r[k] == page(AUTHORS_XPATH)[k]
  {
    var raw := page(AUTHORS_XPATH);
    raw[..|raw| / 2]
  }

  /** The inner loop `for name in middleNames: givenName += name`. */
  method AppendInitials(firstName: string, middleNames: seq<string>) returns (givenName: string)
    ensures givenName == firstName + Concat(middleNames)
  {
    givenName := firstName;
    var j := 0;
    while j < |middleNames|
      invariant 0 <= j <= |middleNames|
      invariant givenName == firstName + Concat(middleNames[..j])
    {
      assert middleNames[..j + 1][..j] == middleNames[..j];
      givenName := givenName + middleNames[j];
      j := j + 1;
    }
    assert middleNames[..j] == middleNames;
  }

  /** The inner loop over the tokens of a name, which rebinds `lastName`
      to every token that qualifies. */
  method LastQualifyingToken(tokens: seq<string>, firstName: string, middleNames: seq<string>, lastName: string)
    returns (last: string)
    ensures last == LastQualifying(tokens, firstName, middleNames, lastName)
  {
    last := lastName;
    var t := 0;
    while t < |tokens|
      invariant 0 <= t <= |tokens|
      invariant last == LastQualifying(tokens[..t], firstName, middleNames, lastName)
    {
      assert tokens[..t + 1][..t] == tokens[..t];
      if Qualifies(tokens[t], firstName, middleNames) {
        last := tokens[t];
      }
      t := t + 1;
    }
    assert tokens[..t] == tokens;
  }

  /** One pass of the outer loop of `__get_authors__`: the dict for
      `author` and the new `lastName`, given that `lastName` is what the
      names `before` left. */
  method ParseAuthor(author: string, lastName: string, ghost before: seq<string>) returns (entry: Author, last: string)
    requires lastName == LastNameAfter(before)
    ensures entry == AuthorEntry(before, author)
    ensures last == NextLastName(author, lastName)
  {
    var tokens := Split(author, ' ');
    var firstName := tokens[0];
    var middleNames := Initials(author);
    var givenName := AppendInitials(firstName, middleNames);
    last := LastQualifyingToken(tokens, firstName, middleNames, lastName);
    entry := Author(StripWs(last), StripWs(givenName));
  }

  // ---------------------------------------------------------------------------
  // __extract_data__ and get_data

  /** `f'{self.url}"{doi}"'`: the identifier in double quotes, the text
      `None` for a missing pmid. */
  function ArticleUrl(url: string, id: Option<string>): (r: string)
    ensures var shown := if id.Some? then id.value else "None";
      && |r| == |url| + |shown| + 2
      && r[..|url|] == url && r[|url|] == '"' && r[|r| - 1] == '"'
      && r[|url| + 1..|r| - 1] == shown
  {
    var r := url + "\"" + (match id case Some(d) => d case None => "None") + "\"";
    assert r[..|url|] == url;
    r
  }

  /** What one identifier does in the loop of `__extract_data__`. */
  datatype Step = NotFound | Skipped | Appended(entry: Entry) | Crashed(error: PyError)

  /** One iteration of `__extract_data__` on the page of `id`: the
      availability check, then primary and secondary metadata (the latter
      may raise), then the authors; an identifier whose primary or secondary
      step returned 1 is skipped, and entry generation may still raise. */
  function StepFor(page: Document, id: Option<string>): (r: Step)
    ensures r.NotFound? <==> TermNotFound(page)
    ensures r.Skipped? <==>
      !TermNotFound(page) && !SecondaryMetadata(page).Raised? &&
      (PrimaryMetadata(page, id, None).None? || SecondaryMetadata(page).NoCitation?)
    ensures r.Crashed? ==>
      (SecondaryMetadata(page).Raised? && r.error == SecondaryMetadata(page).error) ||
      (r.error == IndexError && KeptAuthorNames(page) == [])
    ensures r.Appended? ==>
      && r.entry.kind == "article" && r.entry.author == ParseAuthors(KeptAuthorNames(page))
      && r.entry.author != [] && r.entry.doi == DoiOrFragments(page, id)
    ensures !TermNotFound(page) && SecondaryMetadata(page).Raised? ==> r == Crashed(SecondaryMetadata(page).error)
    ensures (&& !TermNotFound(page) && SecondaryMetadata(page).Parsed?
             && PrimaryMetadata(page, id, None).Some? && KeptAuthorNames(page) == [])
            ==> r == Crashed(IndexError)
    ensures r.Appended? ==>
      && PrimaryMetadata(page, id, None).Some? && SecondaryMetadata(page).Parsed?
      && Ok(r.entry) == GenerateEntry(ParseAuthors(KeptAuthorNames(page)), PrimaryMetadata(page, id, None).value,
                                      SecondaryMetadata(page).secondary)
  {
    if TermNotFound(page) then NotFound
    else
      var primary := PrimaryMetadata(page, id, None);
      match SecondaryMetadata(page)
      case Raised(e) => Crashed(e)
      case NoCitation => Skipped
      case Parsed(secondary) =>
        if primary.None? then Skipped
        else
          match GenerateEntry(ParseAuthors(KeptAuthorNames(page)), primary.value, secondary)
          case Err(e) => Crashed(e)
          case Ok(entry) => Appended(entry)
  }

  /** The step of each identifier, its page fetched from the search URL. */
  function StepAt(url: string, fetch: Fetch): Option<string> -> Step {
    id => StepFor(fetch(ArticleUrl(url, id)), id)
  }

  /** `step` gives, for every identifier, the step of its fetched page. */
  ghost predicate Describes(step: Option<string> -> Step, url: string, fetch: Fetch) {
    forall id {:trigger StepFor(fetch(ArticleUrl(url, id)), id)} :: step(id) == StepFor(fetch(ArticleUrl(url, id)), id)
  }

  /** `StepAt` is such a description. */
  lemma StepAtDescribes(url: string, fetch: Fetch)
    ensures Describes(StepAt(url, fetch), url, fetch)
  {
    forall id ensures StepAt(url, fetch)(id) == StepFor(fetch(ArticleUrl(url, id)), id) {
    }
  }

  /** What a batch leaves: the entries appended, the identifiers recorded
      as not found, and the exception that ended it, if any. */
  datatype Run = Run(entries: seq<Entry>, notFound: seq<Option<string>>, crash: Option<PyError>)

  const NoRun := Run([], [], None)

  /** A run extended by one more identifier; a crashed run stays as it is. */
  function Extend(prior: Run, id: Option<string>, step: Step): Run {
    if prior.crash.Some? then prior
    else
      match step
      case NotFound => Run(prior.entries, prior.notFound + [id], None)
      case Skipped => prior
      case Appended(entry) => Run(prior.entries + [entry], prior.notFound, None)
      case Crashed(error) => Run(prior.entries, prior.notFound, Some(error))
  }

  /** The loop of `__extract_data__` over `ids`, each identifier's outcome
      given by `step`: at most one entry or not-found record per identifier. */
  function Batch(ids: seq<Option<string>>, step: Option<string> -> Step): (r: Run)
    ensures |r.entries| + |r.notFound| <= |ids|
  {
    if ids == [] then NoRun
    else
      var n := |ids| - 1;
      Extend(Batch(ids[..n], step), ids[n], step(ids[n]))
  }

  /** The batch over one more identifier. */
  lemma {:induction false} BatchStep(ids: seq<Option<string>>, step: Option<string> -> Step, i: nat)
    requires i < |ids|
    ensures Batch(ids[..i + 1], step) == Extend(Batch(ids[..i], step), ids[i], step(ids[i]))
  {
    assert ids[..i + 1][..i] == ids[..i];
    assert ids[..i + 1][i] == ids[i];
  }

  /** An exception ends the batch: nothing after it runs. */
  lemma {:induction false} BatchStopsAtCrash(ids: seq<Option<string>>, step: Option<string> -> Step, i: nat)
    requires i <= |ids| && Batch(ids[..i], step).crash.Some?
    ensures Batch(ids, step) == Batch(ids[..i], step)
    decreases |ids| - i
  {
    if i < |ids| {
      BatchStep(ids, step, i);
      BatchStopsAtCrash(ids, step, i + 1);
    } else {
      assert ids[..i] == ids;
    }
  }

  /** Two batches in a row: the second runs only when the first did not
      crash, and its records follow those of the first. */
  function Then(first: Run, second: Run): Run {
    if first.crash.Some? then first
    else Run(first.entries + second.entries, first.notFound + second.notFound, second.crash)
  }

  /** Running a batch over `a + b` is running it over `a`, then over `b`. */
  lemma {:induction false} BatchAppend(a: seq<Option<string>>, b: seq<Option<string>>, step: Option<string> -> Step)
    ensures Batch(a + b, step) == Then(Batch(a, step), Batch(b, step))
    decreases |b|
  {
    if b == [] {
      assert a + b == a;
    } else {
      var n := |b| - 1;
      BatchAppend(a, b[..n], step);
      assert (a + b)[..|a| + n] == a + b[..n];
      assert (a + b)[|a| + n] == b[n];
      var x, y := Batch(a, step), Batch(b[..n], step);
      if x.crash.None? && y.crash.None? {
        match step(b[n])
        case NotFound =>
          assert (x.notFound + y.notFound) + [b[n]] == x.notFound + (y.notFound + [b[n]]);
        case Appended(entry) =>
          assert (x.entries + y.entries) + [entry] == x.entries + (y.entries + [entry]);
        case _ =>
      }
    }
  }

  /** The entries of the identifiers whose step appended one, in order. */
  function Successes(ids: seq<Option<string>>, step: Option<string> -> Step): seq<Entry> {
    if ids == [] then []
    else (match step(ids[0]) case Appended(entry) => [entry] case _ => []) + Successes(ids[1..], step)
  }

  /** The identifiers whose step found no article, in order. */
  function Misses(ids: seq<Option<string>>, step: Option<string> -> Step): seq<Option<string>> {
    if ids == [] then []
    else (if step(ids[0]).NotFound? then [ids[0]] else []) + Misses(ids[1..], step)
  }

  /** A batch that does not crash appends exactly the successful entries and
      records exactly the identifiers not found, both in identifier order;
      every other identifier adds nothing. */
  lemma {:induction false} BatchWithoutCrash(ids: seq<Option<string>>, step: Option<string> -> Step)
    requires Batch(ids, step).crash.None?
    ensures Batch(ids, step).entries == Successes(ids, step)
    ensures Batch(ids, step).notFound == Misses(ids, step)
  {
    if ids != [] {
      var head, tail := [ids[0]], ids[1..];
      BatchAppend(head, tail, step);
      assert head + tail == ids;
      assert head[..0] == [];
      var first := Batch(head, step);
      assert first == Extend(NoRun, ids[0], step(ids[0]));
      assert first.crash.None?;
      BatchWithoutCrash(tail, step);
      assert first.entries == (match step(ids[0]) case Appended(entry) => [entry] case _ => []);
      assert first.notFound == (if step(ids[0]).NotFound? then [ids[0]] else []);
    }
  }

  /** The records after one more identifier that did not crash. */
  lemma ExtendRecords(entries0: seq<Entry>, notFound0: seq<Option<string>>, prior: Run, id: Option<string>, outcome: Step,
                      entries: seq<Entry>, notFound: seq<Option<string>>)
    requires prior.crash.None? && !outcome.Crashed?
    requires entries == entries0 + prior.entries && notFound == notFound0 + prior.notFound
    ensures Extend(prior, id, outcome).crash.None?
    ensures entries + (if outcome.Appended? then [outcome.entry] else []) == entries0 + Extend(prior, id, outcome).entries
    ensures notFound + (if outcome.NotFound? then [id] else []) == notFound0 + Extend(prior, id, outcome).notFound
  {
    match outcome
    case Appended(entry) => assert entries0 + prior.entries + [entry] == entries0 + (prior.entries + [entry]);
    case NotFound => assert notFound0 + prior.notFound + [id] == notFound0 + (prior.notFound + [id]);
    case _ =>
  }

  /** The records after a second batch that followed a first one that did
      not crash. */
  lemma ThenRecords(entries0: seq<Entry>, notFound0: seq<Option<string>>, first: Run, second: Run)
    requires first.crash.None?
    ensures entries0 + first.entries + second.entries == entries0 + Then(first, second).entries
    ensures notFound0 + first.notFound + second.notFound == notFound0 + Then(first, second).notFound
    ensures Then(first, second).crash == second.crash
  {
  }

  /** The dois as identifiers. */
  function AsIds(dois: seq<string>): (r: seq<Option<string>>)
    ensures |r| == |dois| && forall k :: 0 <= k < |dois| ==> r[k] == Some(dois[k])
  {
    seq(|dois|, k requires 0 <= k < |dois| => Some(dois[k]))
  }

  // ---------------------------------------------------------------------------
  // The scraper object

  class PubMedScrapper {
    var dois: seq<string>
    var pmids: seq<Option<string>>
    var url: string
    var articleMetadata: seq<Entry>
    var articlesNotFound: seq<Option<string>>

    /** `Scrapper.__init__` and `PubMedScrapper.__init__` on the loaded
        records: a record with a doi contributes its stripped doi, one whose
        doi is null (`None.strip()` raises `AttributeError`) its pmid. */
    constructor (records: seq<Record>)
      requires Partitionable(records)
      ensures dois == DoisOf(records) && pmids == PmidsOf(records)
      ensures url == PUBMED_URL && articleMetadata == [] && articlesNotFound == []
    {
      var ds: seq<string> := [];
      var ps: seq<Option<string>> := [];
      var i := 0;
      while i < |records|
        invariant 0 <= i <= |records|
        invariant Partitionable(records[..i])
        invariant ds == DoisOf(records[..i]) && ps == PmidsOf(records[..i])
      {
        assert records[..i + 1][..i] == records[..i];
        assert records[..i + 1][i] == records[i];
        match records[i]["doi"] {
          case Some(d) => ds := ds + [StripWs(d)];
          case None => ps := ps + [records[i]["pmid"]];
        }
        i := i + 1;
      }
      assert records[..i] == records;
      dois := ds;
      pmids := ps;
      url := PUBMED_URL;
      articleMetadata := [];
      articlesNotFound := [];
    }

    /** `__is_in_pubmed__(id, root)`: false, with `id` recorded as not found,
        exactly when the first query-error message reports the term; true
        otherwise, also when there is no such message (`IndexError`). */
    method IsInPubMed(id: Option<string>, page: Document) returns (found: bool)
      modifies this`articlesNotFound
      ensures found <==> !TermNotFound(page)
      ensures articlesNotFound == if found then old(articlesNotFound) else old(articlesNotFound) + [id]
    {
      var messages := page(QUERY_ERROR_XPATH);
      if messages == [] {
        return true;
      }
      var message := messages[0];
      if Contains(message, "term was ignored") || Contains(message, "term was not found") {
        articlesNotFound := articlesNotFound + [id];
        return false;
      }
      return true;
    }

    /** `__get_authors__(root)`: the first half of the author matches, each
        split into given and family name, with `lastName` carried from one
        author to the next. The `IndexError` branch returning 1 cannot be
        taken (neither the query nor the slice raises), so the result is
        always a list, empty for a page without authors. */
    method GetAuthors(page: Document) returns (authors: seq<Author>)
      ensures authors == ParseAuthors(KeptAuthorNames(page))
      ensures |authors| == |page(AUTHORS_XPATH)| / 2
    {
      var raw := page(AUTHORS_XPATH);
      var kept := raw[..|raw| / 2];
      authors := [];
      var lastName := "";
      var i := 0;
      while i < |kept|
        invariant 0 <= i <= |kept|
        invariant authors == ParseAuthors(kept[..i])
        invariant lastName == LastNameAfter(kept[..i])
      {
        var author := kept[i];
        var entry, last := ParseAuthor(author, lastName, kept[..i]);
        ParseAuthorsStep(kept, i);
        lastName := last;
        authors := authors + [entry];
        i := i + 1;
      }
      assert kept[..i] == kept;
    }

    /** The body of the loop of `__extract_data__` for one identifier, up
        to the append: what the identifier does to the batch,
        with a not-found identifier already recorded. */
    method ExtractOne(id: Option<string>, fetch: Fetch, ghost step: Option<string> -> Step) returns (outcome: Step)
      requires Describes(step, url, fetch)
      modifies this`articlesNotFound
      ensures outcome == step(id)
      ensures articlesNotFound == old(articlesNotFound) + (if outcome.NotFound? then [id] else [])
    {
      var page := fetch(ArticleUrl(url, id));
      assert step(id) == StepFor(page, id);
      var found := IsInPubMed(id, page);
      if !found {
        return NotFound;
      }
      var primary := PrimaryMetadata(page, id, None);
      var secondary := SecondaryMetadata(page);
      if secondary.Raised? {
        return Crashed(secondary.error);
      }
      var authors := GetAuthors(page);
      if primary.None? || secondary.NoCitation? {
        return Skipped;
      }
      var entry := GenerateEntry(authors, primary.value, secondary.secondary);
      if entry.Err? {
        return Crashed(entry.error);
      }
      return Appended(entry.value);
    }

    /** `__extract_data__(identifierList)`: the batch loop, recording the
        identifiers PubMed does not know and appending one entry per
        identifier that yields one; an escaping exception ends it. The
        progress counter only feeds `print` and is left out. */
    method ExtractData(ids: seq<Option<string>>, fetch: Fetch, ghost step: Option<string> -> Step) returns (crash: Option<PyError>)
      requires Describes(step, url, fetch)
      modifies this`articleMetadata, this`articlesNotFound
      ensures var run := Batch(ids, step);
        && articleMetadata == old(articleMetadata) + run.entries
        && articlesNotFound == old(articlesNotFound) + run.notFound
        && crash == run.crash
    {
      var i := 0;
      while i < |ids|
        invariant 0 <= i <= |ids|
        invariant url == old(url)
        invariant Batch(ids[..i], step).crash.None?
        invariant articleMetadata == old(articleMetadata) + Batch(ids[..i], step).entries
        invariant articlesNotFound == old(articlesNotFound) + Batch(ids[..i], step).notFound
      {
        var id := ids[i];
        ghost var notFoundBefore := articlesNotFound;
        var outcome := ExtractOne(id, fetch, step);
        BatchStep(ids, step, i);
        if outcome.Crashed? {
          BatchStopsAtCrash(ids, step, i + 1);
          return Some(outcome.error);
        }
        ExtendRecords(old(articleMetadata), old(articlesNotFound), Batch(ids[..i], step), id, outcome, articleMetadata, notFoundBefore);
        if outcome.Appended? {
          articleMetadata := articleMetadata + [outcome.entry];
        }
        i := i + 1;
      }
      assert ids[..i] == ids;
      return None;
    }

    /** `get_data()`: the dois first, then the pmids; an exception in the
        first batch means the second never runs. Stated for any `step` that
        describes the pages, `StepAt(url, fetch)` being one. */
    method GetData(fetch: Fetch, ghost step: Option<string> -> Step) returns (crash: Option<PyError>)
      requires Describes(step, url, fetch)
      modifies this`articleMetadata, this`articlesNotFound
      ensures var run := Batch(AsIds(dois) + pmids, step);
        && articleMetadata == old(articleMetadata) + run.entries
        && articlesNotFound == old(articlesNotFound) + run.notFound
        && crash == run.crash
    {
      BatchAppend(AsIds(dois), pmids, step);
      ghost var first, second := Batch(AsIds(dois), step), Batch(pmids, step);
      crash := ExtractData(AsIds(dois), fetch, step);
      if crash.None? {
        crash := ExtractData(pmids, fetch, step);
        ThenRecords(old(articleMetadata), old(articlesNotFound), first, second);
      }
    }
  }
}
