/** Model of `src/article_metadata_scrapper/pubmed_scrapper.py` with the
    configuration it runs on (`pubmed_config.py`, `scrapper.py`,
    `data_formatter.py`): the batch loop that collects the raw fragments of
    every configured selector per identifier, skipping pages where one of
    them matched nothing, and the pass that formats every raw record. */
module Pipeline {
  import opened Base
  import opened Text
  import opened Utils
  import opened Formatters

  // ---------------------------------------------------------------------------
  // Configuration

  /** A configured field: its key and its selector, `None` for the fields
      that are derived later rather than read from the page. */
  type Selector = (string, Option<string>)

  /** `PUBMED_XPATHS`, in its declaration order. */
  const PUBMED_XPATHS: seq<Selector> := [
    ("authors", Some("//div[@class='authors-list']/span/a")),
    ("title", Some("//h1[@class='heading-title']")),
    ("journal", Some("//button[@class='journal-actions-trigger trigger']")),
    ("doi", Some("//span[@class='citation-doi']")),
    ("other", Some("//span[@class='cit']")),
    ("year", None),
    ("volume", None),
    ("pages", None),
    ("pmid", Some("//strong[@class='current-id']"))
  ]

  /** The search URL `main()` configures; the identifier is appended as is. */
  const SEARCH_URL := "https://pubmed.ncbi.nlm.nih.gov/?term="

  /** `ScrapperConfig` with its default getter, `get_raw_metadata`. */
  datatype Config = Config(xpaths: seq<Selector>, articleIdentifiers: seq<Record>, url: string)

  /** The keys of the fields that have a selector. */
  function SelectedKeys(xpaths: seq<Selector>): set<string> {
    if xpaths == [] then {}
    else (if xpaths[0].1.Some? then {xpaths[0].0} else {}) + SelectedKeys(xpaths[1..])
  }

  /** No key is configured twice (a Python dict literal guarantees this). */
  predicate DistinctKeys(xpaths: seq<Selector>) {
    forall i, j :: 0 <= i < j < |xpaths| ==> xpaths[i].0 != xpaths[j].0
  }

  /** The PubMed configuration reads six fields from the page. */
  lemma PubMedSelectedKeys()
    ensures SelectedKeys(PUBMED_XPATHS) == {"authors", "title", "journal", "doi", "other", "pmid"}
  {
    var x := PUBMED_XPATHS;
    assert SelectedKeys(x[9..]) == {};
    assert x[8..][1..] == x[9..];
    assert SelectedKeys(x[8..]) == {"pmid"};
    assert x[7..][1..] == x[8..];
    assert SelectedKeys(x[7..]) == {"pmid"};
    assert x[6..][1..] == x[7..];
    assert SelectedKeys(x[6..]) == {"pmid"};
    assert x[5..][1..] == x[6..];
    assert SelectedKeys(x[5..]) == {"pmid"};
    assert x[4..][1..] == x[5..];
    assert SelectedKeys(x[4..]) == {"other", "pmid"};
    assert x[3..][1..] == x[4..];
    assert SelectedKeys(x[3..]) == {"doi", "other", "pmid"};
    assert x[2..][1..] == x[3..];
    assert SelectedKeys(x[2..]) == {"journal", "doi", "other", "pmid"};
    assert x[1..][1..] == x[2..];
    assert SelectedKeys(x[1..]) == {"title", "journal", "doi", "other", "pmid"};
    assert x[0..][1..] == x[1..];
    assert SelectedKeys(x[0..]) == {"authors", "title", "journal", "doi", "other", "pmid"};
    assert x[0..] == x;
  }

  /** No key of the PubMed configuration repeats. */
  lemma PubMedKeysDistinct()
    ensures DistinctKeys(PUBMED_XPATHS)
  {
  }

  // ---------------------------------------------------------------------------
  // One page

  /** What `get_metadata` keeps of a page: selector key to matched fragments. */
  type Raw = map<string, seq<string>>

  /** Every selector of `xpaths` matched at least one fragment of `doc`. */
  predicate AllMatch(doc: Document, xpaths: seq<Selector>) {
    forall k :: 0 <= k < |xpaths| && xpaths[k].1.Some? ==> doc(TextQuery(xpaths[k].1.value)) != []
  }

  /** The dict comprehension of `get_metadata`: `get_raw_metadata` on every
      configured selector in order, skipping the keys without one. The first
      selector that matches nothing raises `HtmlContentError`. */
  function CollectRaw(doc: Document, xpaths: seq<Selector>): (r: Result<Raw>)
    ensures r.Err? ==> r.error.HtmlContentError? && r.error.message == HTML_CONTENT_MESSAGE
                       && doc(TextQuery(r.error.xpath)) == []
    ensures r.Ok? ==> r.value.Keys == SelectedKeys(xpaths)
    ensures r.Ok? ==> forall key :: key in r.value ==> r.value[key] != []
  {
    if xpaths == [] then Ok(map[])
    else
      match xpaths[0].1
      case None => CollectRaw(doc, xpaths[1..])
      case Some(xpath) =>
        match GetRawMetadata(doc, xpath)
        case Err(e) => Err(e)
        case Ok(matched) =>
          match CollectRaw(doc, xpaths[1..])
          case Err(e) => Err(e)
          case Ok(rest) => Ok(map[xpaths[0].0 := matched] + rest)
  }

  /** A page yields a raw record exactly when every configured selector
      matches something on it. */
  lemma {:induction false} CollectRawSucceeds(doc: Document, xpaths: seq<Selector>)
    ensures CollectRaw(doc, xpaths).Ok? <==> AllMatch(doc, xpaths)
  {
    if xpaths != [] {
      CollectRawSucceeds(doc, xpaths[1..]);
      if AllMatch(doc, xpaths) {
        assert AllMatch(doc, xpaths[1..]) by {
          forall k | 0 <= k < |xpaths[1..]| && xpaths[1..][k].1.Some?
            ensures doc(TextQuery(xpaths[1..][k].1.value)) != []
          {
            assert xpaths[1..][k] == xpaths[k + 1];
          }
        }
      } else if AllMatch(doc, xpaths[1..]) {
        var k :| 0 <= k < |xpaths| && xpaths[k].1.Some? && doc(TextQuery(xpaths[k].1.value)) == [];
      }
    }
  }

  /** The exception names the first selector that matched nothing. */
  lemma {:induction false} CollectRawFailsAtFirstMissing(doc: Document, xpaths: seq<Selector>, k: nat)
    requires k < |xpaths| && xpaths[k].1.Some? && doc(TextQuery(xpaths[k].1.value)) == []
    requires AllMatch(doc, xpaths[..k])
    ensures CollectRaw(doc, xpaths) == Err(HtmlContentError(xpaths[k].1.value, HTML_CONTENT_MESSAGE))
  {
    if k > 0 {
      var before := xpaths[1..][..k - 1];
      assert AllMatch(doc, before) by {
        forall j | 0 <= j < k - 1 && before[j].1.Some?
          ensures doc(TextQuery(before[j].1.value)) != []
        {
          assert before[j] == xpaths[..k][j + 1];
        }
      }
      assert xpaths[1..][k - 1] == xpaths[k];
      CollectRawFailsAtFirstMissing(doc, xpaths[1..], k - 1);
      if xpaths[0].1.Some? {
        assert xpaths[..k][0] == xpaths[0];
      }
    }
  }

  /** With distinct keys, each selected field holds exactly the fragments its
      selector matched. */
  lemma {:induction false} CollectRawValues(doc: Document, xpaths: seq<Selector>, k: nat)
    requires DistinctKeys(xpaths) && k < |xpaths| && xpaths[k].1.Some?
    requires CollectRaw(doc, xpaths).Ok?
    ensures xpaths[k].0 in CollectRaw(doc, xpaths).value
    ensures CollectRaw(doc, xpaths).value[xpaths[k].0] == doc(TextQuery(xpaths[k].1.value))
  {
    assert DistinctKeys(xpaths[1..]) by {
      forall i, j | 0 <= i < j < |xpaths[1..]| ensures xpaths[1..][i].0 != xpaths[1..][j].0 {
        assert xpaths[1..][i] == xpaths[i + 1] && xpaths[1..][j] == xpaths[j + 1];
      }
    }
    if k == 0 {
      KeyNotSelectedLater(xpaths[1..], xpaths[0].0, doc);
    } else {
      assert xpaths[1..][k - 1] == xpaths[k];
      CollectRawValues(doc, xpaths[1..], k - 1);
    }
  }

  /** A key that does not occur in `xpaths` is not in the record. */
  lemma {:induction false} KeyNotSelectedLater(xpaths: seq<Selector>, key: string, doc: Document)
    requires forall j :: 0 <= j < |xpaths| ==> xpaths[j].0 != key
    ensures key !in SelectedKeys(xpaths)
  {
    if xpaths != [] {
      assert forall j :: 0 <= j < |xpaths[1..]| ==> xpaths[1..][j] == xpaths[j + 1];
      KeyNotSelectedLater(xpaths[1..], key, doc);
    }
  }

  // ---------------------------------------------------------------------------
  // The batch of pages

  /** Fetching the page of an identifier from `url + id` and collecting its
      fields. */
  function Scrape(url: string, xpaths: seq<Selector>, fetch: Fetch): (r: string -> Result<Raw>)
    ensures forall id :: r(id) == CollectRaw(fetch(url + id), xpaths)
  {
    id => CollectRaw(fetch(url + id), xpaths)
  }

  /** The raw records `get_metadata` appends for `ids`, each identifier's page
      collected by `scrape`: at most one per identifier. */
  function RawBatch<I, T>(ids: seq<I>, scrape: I -> Result<T>): (r: seq<T>)
    ensures |r| <= |ids|
  {
    if ids == [] then []
    else
      var n := |ids| - 1;
      RawBatch(ids[..n], scrape) + Kept(scrape(ids[n]))
  }

  /** The record a page contributes: none when a selector raised. */
  function Kept<T>(raw: Result<T>): seq<T> {
    match raw
    case Ok(r) => [r]
    case Err(_) => []
  }

  lemma RawBatchStep<I, T>(ids: seq<I>, scrape: I -> Result<T>, i: nat)
    requires i < |ids|
    ensures RawBatch(ids[..i + 1], scrape) == RawBatch(ids[..i], scrape) + Kept(scrape(ids[i]))
  {
    assert ids[..i + 1][..i] == ids[..i];
    assert ids[..i + 1][i] == ids[i];
  }

  /** Every raw record has exactly the keys of the selected fields. */
  lemma {:induction false} RawBatchKeys(ids: seq<string>, url: string, xpaths: seq<Selector>, fetch: Fetch)
    ensures forall k :: 0 <= k < |RawBatch(ids, Scrape(url, xpaths, fetch))| ==>
      RawBatch(ids, Scrape(url, xpaths, fetch))[k].Keys == SelectedKeys(xpaths)
  {
    if ids != [] {
      var n := |ids| - 1;
      RawBatchKeys(ids[..n], url, xpaths, fetch);
      var raw := CollectRaw(fetch(url + ids[n]), xpaths);
      assert Scrape(url, xpaths, fetch)(ids[n]) == raw;
    }
  }

  /** Raw records follow identifier order: a batch over two lists of
      identifiers is the batch over the first followed by the batch over the
      second. */
  lemma {:induction false} RawBatchAppend<I, T>(a: seq<I>, b: seq<I>, scrape: I -> Result<T>)
    ensures RawBatch(a + b, scrape) == RawBatch(a, scrape) + RawBatch(b, scrape)
    decreases |b|
  {
    if b == [] {
      assert a + b == a;
    } else {
      var n := |b| - 1;
      RawBatchAppend(a, b[..n], scrape);
      RawBatchLast(a, b, scrape);
      var x, y, z := RawBatch(a, scrape), RawBatch(b[..n], scrape), Kept(scrape(b[n]));
      assert (x + y) + z == x + (y + z);
    }
  }

  lemma RawBatchLast<I, T>(a: seq<I>, b: seq<I>, scrape: I -> Result<T>)
    requires b != []
    ensures RawBatch(a + b, scrape) == RawBatch(a + b[..|b| - 1], scrape) + Kept(scrape(b[|b| - 1]))
  {
    var ab := a + b;
    assert ab[..|ab| - 1] == a + b[..|b| - 1];
  }

  /** An identifier whose page lacks one of the selected fields adds
      nothing, and the loop goes on with the next identifier. */
  lemma RawBatchSkipsMissing(a: seq<string>, id: string, b: seq<string>, url: string, xpaths: seq<Selector>, fetch: Fetch)
    requires !AllMatch(fetch(url + id), xpaths)
    ensures var scrape := Scrape(url, xpaths, fetch);
      RawBatch(a + [id] + b, scrape) == RawBatch(a, scrape) + RawBatch(b, scrape)
  {
    CollectRawSucceeds(fetch(url + id), xpaths);
    RawBatchSkips(a, id, b, Scrape(url, xpaths, fetch));
  }

  lemma RawBatchSkips<I, T>(a: seq<I>, id: I, b: seq<I>, scrape: I -> Result<T>)
    requires scrape(id).Err?
    ensures RawBatch(a + [id] + b, scrape) == RawBatch(a, scrape) + RawBatch(b, scrape)
  {
    RawBatchAppend(a + [id], b, scrape);
    RawBatchLast(a, [id], scrape);
    assert a + [id][..0] == a;
  }

  /** When every page yields a record, there is one raw record per
      identifier, the `k`-th built from the `k`-th page. */
  lemma {:induction false} RawBatchAllFound<I, T>(ids: seq<I>, scrape: I -> Result<T>)
    requires forall k :: 0 <= k < |ids| ==> scrape(ids[k]).Ok?
    ensures |RawBatch(ids, scrape)| == |ids|
    ensures forall k :: 0 <= k < |ids| ==> RawBatch(ids, scrape)[k] == scrape(ids[k]).value
  {
    if ids != [] {
      var n := |ids| - 1;
      assert forall k :: 0 <= k < n ==> ids[..n][k] == ids[k];
      RawBatchAllFound(ids[..n], scrape);
    }
  }

  /** When every page matches every selector, `get_metadata` appends one raw
      record per identifier, in identifier order. */
  lemma RawBatchAllMatch(ids: seq<string>, url: string, xpaths: seq<Selector>, fetch: Fetch)
    requires forall k :: 0 <= k < |ids| ==> AllMatch(fetch(url + ids[k]), xpaths)
    ensures var scrape := Scrape(url, xpaths, fetch);
      && |RawBatch(ids, scrape)| == |ids|
      && forall k :: 0 <= k < |ids| ==>
           && CollectRaw(fetch(url + ids[k]), xpaths).Ok?
           && RawBatch(ids, scrape)[k] == CollectRaw(fetch(url + ids[k]), xpaths).value
  {
    var scrape := Scrape(url, xpaths, fetch);
    forall k | 0 <= k < |ids| ensures scrape(ids[k]).Ok? {
      CollectRawSucceeds(fetch(url + ids[k]), xpaths);
    }
    RawBatchAllFound(ids, scrape);
  }

  // ---------------------------------------------------------------------------
  // Formatting one raw record

  /** The dict `format_metadata` builds, its keys as fields. Volume is `None`
      when only the `;digits:` alternative matched; pages are `NoPages` when
      `format_pages` falls off its end. */
  datatype Metadata = Metadata(
    authors: Extracted, title: Extracted, journal: Extracted, doi: string,
    year: string, volume: Option<string>, pages: Pages)

  /** `PUBMED_FORMATTER` applied to one raw record, with `formatDoi` as its
      doi formatter: the dict values are evaluated in order (authors, title,
      journal, doi, year, volume, pages), and the first formatter that
      raises ends the evaluation with its exception. */
  function FormatRecordWith(raw: Raw, formatDoi: Raw -> Result<string>): (r: Result<Metadata>)
    ensures r.Ok? <==>
      && StripAndExtract(raw, "authors").Ok? && StripAndExtract(raw, "title").Ok?
      && StripAndExtract(raw, "journal").Ok? && formatDoi(raw).Ok?
      && FormatYear(raw).Ok? && FormatVolume(raw).Ok? && FormatPages(raw).Ok?
    ensures r.Ok? ==>
      && r.value.authors == StripAndExtract(raw, "authors").value
      && r.value.title == StripAndExtract(raw, "title").value
      && r.value.journal == StripAndExtract(raw, "journal").value
      && r.value.doi == formatDoi(raw).value
      && r.value.year == FormatYear(raw).value
      && r.value.volume == FormatVolume(raw).value
      && r.value.pages == FormatPages(raw).value
    ensures StripAndExtract(raw, "authors").Err? ==> r == Err(StripAndExtract(raw, "authors").error)
    ensures StripAndExtract(raw, "authors").Ok? && StripAndExtract(raw, "title").Err? ==>
      r == Err(StripAndExtract(raw, "title").error)
    ensures StripAndExtract(raw, "authors").Ok? && StripAndExtract(raw, "title").Ok?
            && StripAndExtract(raw, "journal").Err? ==>
      r == Err(StripAndExtract(raw, "journal").error)
    ensures StripAndExtract(raw, "authors").Ok? && StripAndExtract(raw, "title").Ok?
            && StripAndExtract(raw, "journal").Ok? && formatDoi(raw).Err? ==>
      r == Err(formatDoi(raw).error)
    ensures StripAndExtract(raw, "authors").Ok? && StripAndExtract(raw, "title").Ok?
            && StripAndExtract(raw, "journal").Ok? && formatDoi(raw).Ok? && FormatYear(raw).Err? ==>
      r == Err(FormatYear(raw).error)
    ensures StripAndExtract(raw, "authors").Ok? && StripAndExtract(raw, "title").Ok?
            && StripAndExtract(raw, "journal").Ok? && formatDoi(raw).Ok? && FormatYear(raw).Ok?
            && FormatVolume(raw).Err? ==>
      r == Err(FormatVolume(raw).error)
    ensures StripAndExtract(raw, "authors").Ok? && StripAndExtract(raw, "title").Ok?
            && StripAndExtract(raw, "journal").Ok? && formatDoi(raw).Ok? && FormatYear(raw).Ok?
            && FormatVolume(raw).Ok? && FormatPages(raw).Err? ==>
      r == Err(FormatPages(raw).error)
  {
    var authors :- StripAndExtract(raw, "authors");
    var title :- StripAndExtract(raw, "title");
    var journal :- StripAndExtract(raw, "journal");
    var doi :- formatDoi(raw);
    var year :- FormatYear(raw);
    var volume :- FormatVolume(raw);
    var pages :- FormatPages(raw);
    Ok(Metadata(authors, title, journal, doi, year, volume, pages))
  }

  /** `format_metadata`'s formatting of one record, with `format_doi` as
      written. */
  function FormatRecord(raw: Raw): Result<Metadata> {
    FormatRecordWith(raw, FormatDoi)
  }

  /** The same with the corrected doi rule, which removes the "doi: " label
      rather than stripping its characters. */
  function FormatRecordCorrected(raw: Raw): Result<Metadata> {
    FormatRecordWith(raw, FormatDoiCorrected)
  }

  /** The corrected formatting fails on the same records and differs from
      the one as written only in the doi. */
  lemma FormatRecordCorrectedOnlyChangesDoi(raw: Raw)
    ensures FormatRecordCorrected(raw).Ok? <==> FormatRecord(raw).Ok?
    ensures FormatRecord(raw).Ok? ==>
      FormatRecordCorrected(raw).value == FormatRecord(raw).value.(doi := FormatDoiCorrected(raw).value)
  {
    assert FormatDoi(raw).Ok? <==> FormatDoiCorrected(raw).Ok?;
  }

  /** A raw record whose only doi text is a labelled DOI ending in d, o or i
      loses letters under the formatting as written and keeps its DOI under
      the corrected one. */
  lemma FormatRecordDoiExample(raw: Raw, doi: string)
    requires "doi" in raw && raw["doi"] == [DOI_LABEL + doi]
    requires doi != [] && Stripped(doi, IsSpaceOrNewline)
    requires doi[|doi| - 1] == 'd' || doi[|doi| - 1] == 'o' || doi[|doi| - 1] == 'i'
    requires FormatRecord(raw).Ok?
    ensures FormatRecord(raw).value.doi != doi
    ensures FormatRecordCorrected(raw).Ok? && FormatRecordCorrected(raw).value.doi == doi
  {
    var single := map["doi" := [DOI_LABEL + doi]];
    assert StripAndExtract(raw, "doi") == StripAndExtract(single, "doi");
    FormatDoiTruncatesTrailingLetters(single, doi);
    FormatDoiCorrectedKeepsDoi(single, doi);
    FormatRecordCorrectedOnlyChangesDoi(raw);
  }

  // ---------------------------------------------------------------------------
  // Formatting the batch

  /** What `format_metadata` leaves: the dicts appended and the exception
      that ended the loop, if any. */
  datatype Formatting = Formatting(records: seq<Metadata>, crash: Option<PyError>)

  /** The loop of `format_metadata` over `raws`, each record formatted by
      `format`: records up to the first exception. */
  function FormatAll(raws: seq<Raw>, format: Raw -> Result<Metadata>): (r: Formatting)
    ensures |r.records| <= |raws|
    ensures r.crash.None? ==> |r.records| == |raws|
  {
    if raws == [] then Formatting([], None)
    else
      var n := |raws| - 1;
      Then(FormatAll(raws[..n], format), format(raws[n]))
  }

  /** One more record formatted after `prior`, unless `prior` already
      stopped. */
  function Then(prior: Formatting, formatted: Result<Metadata>): Formatting {
    if prior.crash.Some? then prior
    else
      match formatted
      case Ok(m) => Formatting(prior.records + [m], None)
      case Err(e) => Formatting(prior.records, Some(e))
  }

  lemma FormatAllStep(raws: seq<Raw>, format: Raw -> Result<Metadata>, i: nat)
    requires i < |raws|
    ensures FormatAll(raws[..i + 1], format) == Then(FormatAll(raws[..i], format), format(raws[i]))
  {
    assert raws[..i + 1][..i] == raws[..i];
    assert raws[..i + 1][i] == raws[i];
  }

  /** An exception ends the loop: nothing after it is formatted. */
  lemma {:induction false} FormatAllStopsAtCrash(raws: seq<Raw>, format: Raw -> Result<Metadata>, i: nat)
    requires i <= |raws| && FormatAll(raws[..i], format).crash.Some?
    ensures FormatAll(raws, format) == FormatAll(raws[..i], format)
    decreases |raws| - i
  {
    if i < |raws| {
      FormatAllStep(raws, format, i);
      FormatAllStopsAtCrash(raws, format, i + 1);
    } else {
      assert raws[..i] == raws;
    }
  }

  /** Without an exception, exactly one dict per raw record, in order. */
  lemma {:induction false} FormatAllWithoutCrash(raws: seq<Raw>, format: Raw -> Result<Metadata>)
    requires FormatAll(raws, format).crash.None?
    ensures |FormatAll(raws, format).records| == |raws|
    ensures forall k :: 0 <= k < |raws| ==>
      format(raws[k]).Ok? && FormatAll(raws, format).records[k] == format(raws[k]).value
  {
    if raws != [] {
      var n := |raws| - 1;
      assert forall k :: 0 <= k < n ==> raws[..n][k] == raws[k];
      FormatAllWithoutCrash(raws[..n], format);
    }
  }

  /** When every record formats, the loop does not stop early. */
  lemma {:induction false} FormatAllNoCrashWhenAllFormat(raws: seq<Raw>, format: Raw -> Result<Metadata>)
    requires forall j :: 0 <= j < |raws| ==> format(raws[j]).Ok?
    ensures FormatAll(raws, format).crash.None?
  {
    if raws != [] {
      var n := |raws| - 1;
      assert forall k :: 0 <= k < n ==> raws[..n][k] == raws[k];
      FormatAllNoCrashWhenAllFormat(raws[..n], format);
    }
  }

  /** The first record that fails to format ends the loop with its
      exception, after the dicts of all records before it. */
  lemma FormatAllFirstFailure(raws: seq<Raw>, format: Raw -> Result<Metadata>, k: nat)
    requires k < |raws| && format(raws[k]).Err?
    requires forall j :: 0 <= j < k ==> format(raws[j]).Ok?
    ensures FormatAll(raws, format).crash == Some(format(raws[k]).error)
    ensures |FormatAll(raws, format).records| == k
  {
    assert forall j :: 0 <= j < k ==> raws[..k][j] == raws[j];
    FormatAllNoCrashWhenAllFormat(raws[..k], format);
    FormatAllWithoutCrash(raws[..k], format);
    FormatAllStep(raws, format, k);
    FormatAllStopsAtCrash(raws, format, k + 1);
  }

  /** The dicts after one more record that formatted. */
  lemma AppendRecord(metadata0: seq<Metadata>, prior: Formatting, formatted: Result<Metadata>, metadata: seq<Metadata>)
    requires prior.crash.None? && formatted.Ok? && metadata == metadata0 + prior.records
    ensures Then(prior, formatted).crash.None?
    ensures metadata + [formatted.value] == metadata0 + Then(prior, formatted).records
  {
    assert metadata0 + prior.records + [formatted.value] == metadata0 + (prior.records + [formatted.value]);
  }

  // ---------------------------------------------------------------------------
  // The scraper object

  class PubMedScrapper {
    const xpaths: seq<Selector>
    const articleIdentifiers: seq<Record>
    const url: string
    var dois: seq<string>
    var rawMetadata: seq<Raw>
    var metadata: seq<Metadata>

    /** `Scrapper.__init__`: empty lists and the stripped non-null dois of
        the loaded identifiers. Every record needs a "doi" entry, or
        `get_identifiers` raises `KeyError`. */
    constructor (config: Config)
      requires HasKey(config.articleIdentifiers, "doi")
      ensures xpaths == config.xpaths && articleIdentifiers == config.articleIdentifiers && url == config.url
      ensures dois == GetIdentifiers(config.articleIdentifiers, "doi").value
      ensures rawMetadata == [] && metadata == []
    {
      xpaths := config.xpaths;
      articleIdentifiers := config.articleIdentifiers;
      url := config.url;
      rawMetadata := [];
      metadata := [];
      dois := GetIdentifiers(config.articleIdentifiers, "doi").value;
    }

    /** `get_metadata(identifiers)`: the dois when no identifiers are given;
        one raw record appended per identifier whose page matched every
        selector, earlier records untouched. The progress counter ends one
        past the number of identifiers. */
    method GetMetadata(identifiers: Option<seq<string>>, fetch: Fetch) returns (index: nat)
      modifies this`rawMetadata
      ensures var ids := if identifiers.None? then dois else identifiers.value;
        && rawMetadata == old(rawMetadata) + RawBatch(ids, Scrape(url, xpaths, fetch))
        && index == |ids| + 1
    {
      var ids := if identifiers.None? then dois else identifiers.value;
      index := 1;
      var i := 0;
      while i < |ids|
        invariant 0 <= i <= |ids|
        invariant index == i + 1
        invariant rawMetadata == old(rawMetadata) + RawBatch(ids[..i], Scrape(url, xpaths, fetch))
      {
        var root := fetch(url + ids[i]);
        var raw := CollectRaw(root, xpaths);
        assert Scrape(url, xpaths, fetch)(ids[i]) == raw;
        RawBatchStep(ids, Scrape(url, xpaths, fetch), i);
        match raw {
          case Err(_) =>
            index := index + 1;
          case Ok(r) =>
            rawMetadata := rawMetadata + [r];
            index := index + 1;
        }
        i := i + 1;
      }
      assert ids[..i] == ids;
    }

    /** `format_metadata()`: one dict appended per raw record, in order, until
        a formatter raises; that exception ends the loop. */
    method FormatMetadata() returns (crash: Option<PyError>)
      modifies this`metadata
      ensures metadata == old(metadata) + FormatAll(rawMetadata, FormatRecord).records
      ensures crash == FormatAll(rawMetadata, FormatRecord).crash
    {
      var i := 0;
      while i < |rawMetadata|
        invariant 0 <= i <= |rawMetadata|
        invariant FormatAll(rawMetadata[..i], FormatRecord).crash.None?
        invariant metadata == old(metadata) + FormatAll(rawMetadata[..i], FormatRecord).records
      {
        var formatted := FormatRecord(rawMetadata[i]);
        FormatAllStep(rawMetadata, FormatRecord, i);
        if formatted.Err? {
          FormatAllStopsAtCrash(rawMetadata, FormatRecord, i + 1);
          return Some(formatted.error);
        }
        AppendRecord(old(metadata), FormatAll(rawMetadata[..i], FormatRecord), formatted, metadata);
        metadata := metadata + [formatted.value];
        i := i + 1;
      }
      assert rawMetadata[..i] == rawMetadata;
      return None;
    }
  }
}
