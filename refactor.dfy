/** Model of `src/article_metadata_scrapper/scrapper_refactor.py`: the
    rewritten scraper whose getters return every matched fragment, whose
    `ArticleMetadata` binds its values positionally, and whose PubMed
    subclass never sets `pmids` because its hook is misspelled. */
module Refactor {
  import opened Base
  import opened Utils
  import opened Text
  import Legacy

  // ---------------------------------------------------------------------------
  // Configuration

  /** `UrlPaths`: the selectors of the five fields read from the page and
      the four optional ones. */
  datatype UrlPaths = UrlPaths(
    authors: string, title: string, journal: string, doi: string, other: string,
    year: Option<string>, volume: Option<string>, pages: Option<string>, pmid: Option<string>)

  /** `UrlPaths(**PUBMED_XPATHS)`. */
  const PUBMED_PATHS := UrlPaths(
    "//div[@class='authors-list']/span/a",
    "//h1[@class='heading-title']",
    "//button[@class='journal-actions-trigger trigger']",
    "//span[@class='citation-doi']",
    "//span[@class='cit']",
    None, None, None,
    Some("//strong[@class='current-id']"))

  /** The search URL `main()` passes; the identifier is appended as is. */
  const SEARCH_URL := "https://pubmed.ncbi.nlm.nih.gov/?term="

  /** The message `_get_metadata` gives its `HtmlContentError`. */
  const EXTRACTION_MESSAGE := "Failed to extract metadata from"

  // ---------------------------------------------------------------------------
  // How a Python block ends

  /** A block that returned a value, or raised. */
  datatype Completion<+T> = Returned(value: T) | Raised(error: PyError)

  /** How a `finally` clause ends: it falls through, or it returns. */
  datatype FinallyEnd<+T> = FallThrough | Return(value: T)

  /** `try ... finally ...`: a `finally` that falls through lets the outcome
      of the `try` (and its handlers) stand; one that returns replaces it,
      discarding a pending exception too. */
  function TryFinally<T>(tried: Completion<T>, final: FinallyEnd<T>): (r: Completion<T>)
    ensures final.FallThrough? ==> r == tried
    ensures final.Return? ==> r == Returned(final.value)
  {
    match final
    case FallThrough => tried
    case Return(v) => Returned(v)
  }

  // ---------------------------------------------------------------------------
  // The getters

  /** `_get_authors(root, xpath)`: the matched author names, de-duplicated. */
  function GetAuthors(doc: Document, xpath: string): (r: seq<string>)
    ensures NoDuplicates(r)
    ensures forall a :: a in r <==> a in doc(TextQuery(xpath))
  {
    DeDuplicateElements(doc(TextQuery(xpath)));
    DeDuplicate(doc(TextQuery(xpath)))
  }

  /** The author names have no repeats, are exactly the matched names, and
      keep the order of their first occurrences. */
  lemma GetAuthorsDistinct(doc: Document, xpath: string)
    ensures var names, r := doc(TextQuery(xpath)), GetAuthors(doc, xpath);
      forall i, j :: 0 <= i < j < |r| ==> r[i] in names && r[j] in names && FirstIndex(names, r[i]) < FirstIndex(names, r[j])
  {
    DeDuplicateKeepsFirstOccurrenceOrder(doc(TextQuery(xpath)));
  }

  /** `_get_metadata(root, xpath)`. The `try` returns the first fragment
      stripped, or its handler raises `HtmlContentError` when there is none;
      either way the `return` in `finally` replaces that outcome, so the
      call never raises and always gives every fragment, unstripped. */
  function GetMetadataFragments(doc: Document, xpath: string): (r: Completion<Extracted>)
    ensures r == Returned(Tuple(doc(TextQuery(xpath))))
  {
    var metadata := doc(TextQuery(xpath));
    var tried :=
      if metadata != [] then Returned(Text(StripWs(metadata[0])))
      else Raised(HtmlContentError(xpath, EXTRACTION_MESSAGE));
    TryFinally(tried, Return(Tuple(metadata)))
  }

  /** `_get_dois(dict_data)`: the stripped non-null dois, in record order; a
      record without a "doi" entry raises `KeyError`. The values are strings,
      so `data["doi"].strip()` and `str(data["doi"]).strip()` agree. */
  function GetDois(table: seq<Record>): (r: Result<seq<string>>)
    ensures r.Ok? <==> HasKey(table, "doi")
    ensures r.Err? ==> r.error == KeyError("doi")
    ensures r.Ok? ==> |r.value| <= |table|
  {
    GetIdentifiers(table, "doi")
  }

  /** The refactored scraper selects the same dois as the original one. */
  lemma GetDoisMatchesLegacy(table: seq<Record>)
    requires Legacy.Partitionable(table)
    ensures GetDois(table) == Ok(Legacy.DoisOf(table))
  {
    Legacy.DoisOfIsGetIdentifiers(table);
  }

  /** Every selected doi is free of surrounding whitespace. */
  lemma GetDoisStripped(table: seq<Record>)
    requires HasKey(table, "doi")
    ensures forall k :: 0 <= k < |GetDois(table).value| ==> Stripped(GetDois(table).value[k], IsWhitespace)
  {
    NonNullStrippedAreStripped(table, "doi");
  }

  // ---------------------------------------------------------------------------
  // ArticleMetadata

  /** `ArticleMetadata`: its dataclass fields in declaration order. `other`
      is a plain class attribute (`other = _GetMetadataFunction`), not a
      field, so it takes no constructor argument. */
  datatype ArticleMetadata = ArticleMetadata(
    authors: Extracted, title: Extracted, journal: Extracted, doi: Extracted,
    year: Option<Extracted>, volume: Option<Extracted>, pages: Option<Extracted>, pmid: Option<Extracted>)

  /** The `i`-th positional argument, or the field's default `None`. */
  function OptionalArg(args: seq<Extracted>, i: nat): Option<Extracted> {
    if i < |args| then Some(args[i]) else None
  }

  /** `ArticleMetadata(*args)`: the arguments bound to the fields in order. */
  function Bind(args: seq<Extracted>): (r: ArticleMetadata)
    requires 4 <= |args| <= 8
    ensures r.authors == args[0] && r.title == args[1] && r.journal == args[2] && r.doi == args[3]
    ensures r.year == (if |args| > 4 then Some(args[4]) else None)
    ensures r.volume == (if |args| > 5 then Some(args[5]) else None)
    ensures r.pages == (if |args| > 6 then Some(args[6]) else None)
    ensures r.pmid == (if |args| > 7 then Some(args[7]) else None)
  {
    ArticleMetadata(args[0], args[1], args[2], args[3],
                    OptionalArg(args, 4), OptionalArg(args, 5), OptionalArg(args, 6), OptionalArg(args, 7))
  }

  /** The `ArticleMetadata` the loops of `get_metadata` build for one page:
      the de-duplicated authors, every title, journal and doi fragment, and
      the fragments of the "cit" line landing in `year`, the fifth field.
      None of the getters raises, so each call's returned value is used. */
  function ArticleFor(doc: Document, paths: UrlPaths): (r: ArticleMetadata)
    ensures r.authors == Tuple(GetAuthors(doc, paths.authors))
    ensures r.title == Tuple(doc(TextQuery(paths.title)))
    ensures r.journal == Tuple(doc(TextQuery(paths.journal)))
    ensures r.doi == Tuple(doc(TextQuery(paths.doi)))
    ensures r.year == Some(Tuple(doc(TextQuery(paths.other))))
    ensures r.volume.None? && r.pages.None? && r.pmid.None?
  {
    var authors := Tuple(GetAuthors(doc, paths.authors));
    var title := GetMetadataFragments(doc, paths.title).value;
    var journal := GetMetadataFragments(doc, paths.journal).value;
    var doi := GetMetadataFragments(doc, paths.doi).value;
    var other := GetMetadataFragments(doc, paths.other).value;
    Bind([authors, title, journal, doi, other])
  }

  /** The entries the first loop of `get_metadata` appends: one per doi, in
      doi order, each page fetched from `url + doi`. */
  function Articles(dois: seq<string>, url: string, paths: UrlPaths, fetch: Fetch): (r: seq<ArticleMetadata>)
    ensures |r| == |dois|
  {
    if dois == [] then []
    else
      var n := |dois| - 1;
      Articles(dois[..n], url, paths, fetch) + [ArticleFor(fetch(url + dois[n]), paths)]
  }

  /** The `k`-th entry is the one built from the page of the `k`-th doi. */
  lemma {:induction false} ArticlesInOrder(dois: seq<string>, url: string, paths: UrlPaths, fetch: Fetch)
    ensures forall k :: 0 <= k < |dois| ==>
      Articles(dois, url, paths, fetch)[k] == ArticleFor(fetch(url + dois[k]), paths)
  {
    if dois != [] {
      var n := |dois| - 1;
      assert forall k :: 0 <= k < n ==> dois[..n][k] == dois[k];
      ArticlesInOrder(dois[..n], url, paths, fetch);
    }
  }

  lemma ArticlesStep(dois: seq<string>, url: string, paths: UrlPaths, fetch: Fetch, i: nat)
    requires i < |dois|
    ensures Articles(dois[..i + 1], url, paths, fetch)
            == Articles(dois[..i], url, paths, fetch) + [ArticleFor(fetch(url + dois[i]), paths)]
  {
    assert dois[..i + 1][..i] == dois[..i];
    assert dois[..i + 1][i] == dois[i];
  }

  // ---------------------------------------------------------------------------
  // The scraper object

  class PubMedScrapper {
    const xpaths: UrlPaths
    const identifiers: seq<Record>
    const url: string
    var dois: seq<string>
    var metadata: seq<ArticleMetadata>
    /** `None` while the attribute does not exist. */
    var pmids: Option<seq<string>>

    /** The dataclass `__init__` followed by `Scrapper.__post_init__`. The
        subclass hook that would set `pmids` is spelt `__post__init__`, so
        it never runs and `pmids` stays unset. */
    constructor (paths: UrlPaths, table: seq<Record>, searchUrl: string)
      requires HasKey(table, "doi")
      ensures xpaths == paths && identifiers == table && url == searchUrl
      ensures dois == GetDois(table).value && metadata == [] && pmids.None?
    {
      xpaths := paths;
      identifiers := table;
      url := searchUrl;
      dois := GetDois(table).value;
      metadata := [];
      pmids := None;
    }

    /** Appends the entry of every doi's page, in doi order. */
    method AppendArticles(fetch: Fetch)
      modifies this`metadata
      ensures metadata == old(metadata) + Articles(dois, url, xpaths, fetch)
    {
      var i := 0;
      while i < |dois|
        invariant 0 <= i <= |dois|
        invariant metadata == old(metadata) + Articles(dois[..i], url, xpaths, fetch)
      {
        var root := fetch(url + dois[i]);
        var article := ArticleFor(root, xpaths);
        ArticlesStep(dois, url, xpaths, fetch, i);
        metadata := metadata + [article];
        i := i + 1;
      }
      assert dois[..i] == dois;
    }

    /** `get_metadata()`: the first loop appends one entry per doi. The
        second loop iterates the dois again but first reads `self.pmids`,
        which raises `AttributeError` while it is unset: with at least one
        doi the call ends there, after the first loop's entries. */
    method GetMetadata(fetch: Fetch) returns (crash: Option<PyError>)
      modifies this`metadata
      ensures pmids.None? && dois != [] ==>
        metadata == old(metadata) + Articles(dois, url, xpaths, fetch) && crash == Some(AttributeError)
      ensures pmids.Some? || dois == [] ==>
        metadata == old(metadata) + Articles(dois, url, xpaths, fetch) + Articles(dois, url, xpaths, fetch)
        && crash.None?
    {
      AppendArticles(fetch);
      if dois != [] && pmids.None? {
        return Some(AttributeError);
      }
      AppendArticles(fetch);
      return None;
    }
  }

  /** Run on a freshly constructed scraper with at least one doi,
      `get_metadata` appends one entry per doi and then raises. */
  method RunOnce(table: seq<Record>, fetch: Fetch) returns (s: PubMedScrapper, crash: Option<PyError>)
    requires HasKey(table, "doi") && GetDois(table).value != []
    ensures fresh(s)
    ensures crash == Some(AttributeError)
    ensures s.metadata == Articles(GetDois(table).value, SEARCH_URL, PUBMED_PATHS, fetch)
  {
    s := new PubMedScrapper(PUBMED_PATHS, table, SEARCH_URL);
    crash := s.GetMetadata(fetch);
  }
}
