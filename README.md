# PubMed article metadata scraper — a Dafny model

The scraper reads a JSON table of article identifiers (DOIs and PubMed ids),
looks each one up on the PubMed search page and extracts the article's
authors, title, journal, DOI, year, volume and pages. The repository holds
three generations of it, and this project models the core of each:

- `main.py`, the original `PubMedScrapper` (module `Legacy`). It splits the
  loaded records into dois and pmids, detects "term not found" pages, parses
  the author names, the primary fields and the citation ("cit") line, builds a
  CSL-JSON entry and runs a batch loop over the identifiers.
- The newer pipeline (modules `Utils`, `Formatters`, `Pipeline`).
  `pubmed_scrapper.py` collects the raw text fragments of every configured
  selector per page and skips pages where a selector matched nothing.
  `format_metadata` then applies the formatters of `pubmed_formatters.py`
  to each raw record.
- `scrapper_refactor.py`, the rewrite (module `Refactor`). Its getters return
  every matched fragment, its `ArticleMetadata` binds its values
  positionally, and its subclass hook is misspelled.

Shared modules:

- `Base` holds Option and Result, the Python exceptions that matter here
  (`PyError`), the `Document` abstraction and the identifier records.
- `Text` holds the string built-ins the code relies on: `str.strip(chars)`
  as a character-set strip, `split`, substring search, `lower`, `int()` and
  `str()` on decimal numbers.
- `Scan` holds the handful of regular expressions, written as scanners with
  leftmost-match semantics.

An HTML page is modelled as a `Document`. This is a function from an XPath
query string to the sequence of text fragments it matches. Fetching a URL is
a `Fetch`, a function from URL to `Document`. Loaded JSON identifier tables
are sequences of records, each a map from key to an optional string (JSON
`null` is `None`). An exception that escapes a loop is modelled as a crash
outcome that ends the loop, with everything appended before it kept.

Where the code and its documentation disagree, the model follows the code:

- An author written "Smith J" gets family name "J" and given name "Smith".
  The family name is the last token that is not a substring of the first
  token.
- An empty author list does not make `__get_authors__` return 1. The entry
  generator then raises `IndexError` on `authors[0]`, which ends
  `__extract_data__`.
- In `main.py`, the `ValueError` handler of the pages parser searches for
  `:e<digits>`. When there is none it raises `AttributeError`, and the
  sibling `except AttributeError` does not catch it. The newer `format_pages`
  catches both exceptions in one clause, looks for the article number, and
  returns `''` when there is none.
  `Legacy.CitPagesAgreesWithFormatPages` states exactly where the two differ.

## Model

| member | source | states |
|---|---|---|
| Text.Strip | src/article_metadata_scrapper/utils.py:78 | `str.strip(chars)` result is no longer than its input and neither end of a non-empty result is in the stripped class |
| Text.StripWs | main.py:102 | `str.strip()` is no longer than its input and leaves no whitespace at either end |
| Text.StripDropsOnlyClass | src/article_metadata_scrapper/utils.py:78 | the characters removed from both ends are all in the class, and the result is the contiguous middle part |
| Text.StripFixesStripped | src/article_metadata_scrapper/utils.py:78 | a strip result is stripped, and a string that is already stripped is returned unchanged |
| Text.StripIdempotent | src/article_metadata_scrapper/utils.py:78 | stripping twice equals stripping once |
| Text.StripNeverEndsInClass | src/article_metadata_scrapper/pubmed_formatters.py:8 | no strip result ends with a character of the stripped class |
| Text.StripStartSkipsOnlyClass | src/article_metadata_scrapper/utils.py:78 | the leading characters skipped by strip are all in the class |
| Text.StripEndSkipsOnlyClass | src/article_metadata_scrapper/utils.py:78 | the trailing characters dropped by strip are all in the class |
| Text.Lower | main.py:152 | ASCII `lower()` keeps the length, lowers each character, and leaves no upper-case letter |
| Text.Find | main.py:70 | substring search gives the first occurrence, or none when there is none |
| Text.FindFirst | main.py:70 | an occurrence with none before it is what `Find` returns |
| Text.Contains | main.py:70 | `pat in s` holds iff the pattern occurs at some position |
| Text.Split | main.py:89 | `str.split(sep)` gives at least one piece, none containing the separator, joining back to the input; the first piece is the text before the first separator |
| Text.SplitWithoutSeparator | main.py:89 | a string without the separator splits into itself alone |
| Text.SplitAt | main.py:94 | splitting at the first separator is its prefix followed by the split of the rest |
| Text.SplitPair | main.py:149 | two pieces free of the separator, joined by it, split back into exactly those two pieces |
| Text.NatToStr | main.py:127-128 | `str(n)` is a non-empty digit string without a leading zero |
| Text.PyInt | main.py:124-125 | `int(d)` on a digit run raises `ValueError` exactly on the empty string, otherwise its `str` is the run without leading zeros |
| Text.TrimLeadingZerosValue | main.py:124-125 | dropping leading zeros keeps the decimal value |
| Text.ParseNatOfNatToStr | main.py:127-128 | `int(str(n)) == n` |
| Text.NatToStrOfCanonical | main.py:127-128 | `str(int(d)) == d` for a canonical digit string |
| Text.NatToStrLengthMonotone | main.py:126-129 | a larger number never prints shorter, so a truncated stop is never longer than its start |
| Scan.ColonDigits | main.py:124 | `search(':([0-9]*)')` matches iff the text has a colon; group 1 is the digit run right after the first colon |
| Scan.DigitsBeforeDotEndsAtFirstPeriod | main.py:125 | `search('([0-9]*)\.')` matches iff the text has a period; group 1 is the digit run ending at the first period |
| Scan.ArticleNumber | main.py:132 | `search(':(e[0-9]*)')` matches iff ":e" occurs; group 1 is "e" and the digits after the first ":e" |
| Scan.PageNumbers | main.py:123-125 | absent exactly when a search fails or a group is empty (`int('')`); otherwise the integers whose decimal forms are the two digit runs without leading zeros |
| Scan.SearchVolume | main.py:121 | the leftmost position where either volume alternative matches |
| Scan.SearchVolumeFirst | main.py:121 | a match with no match before it is the one found |
| Scan.VolumeGroup | main.py:121 | no match iff neither alternative matches anywhere; group 1 is the digit run before "(" of the leftmost match, absent when the `;digits:` alternative matched first |
| Scan.VolumeGroupBeforeParen | main.py:121 | for `pre + digits + "(" + post`, with no "(" or ":" in `pre`, the group is the digits |
| Scan.VolumeGroupExample | main.py:121 | "2019 Jan;12(3):45-52." gives volume "12" |
| Scan.InitialsFrom | main.py:90 | `findall(" \w ")` gives non-overlapping three-character matches of a space, one word character and a space |
| Scan.InitialsFromLeftmost | main.py:90 | the scan takes the leftmost match at or after its position first and resumes right behind it |
| Scan.InitialsFromEmpty | main.py:90 | no match is found exactly when no later position starts a space, word character, space |
| Scan.InitialsExample | main.py:90 | "John A Smith" has the single initial " A " |
| Scan.ExpandStop | main.py:126-129 | the rewritten stop has exactly as many digits as start, ends with the original stop, and begins with start's leading digits |
| Scan.ExpandStopExample | main.py:126-129 | start 145 and stop 52 give stop "152" |
| Utils.FirstIndex | src/article_metadata_scrapper/utils.py:47 | the index of the first occurrence |
| Utils.DeDuplicate | src/article_metadata_scrapper/utils.py:45-47 | `list(dict.fromkeys(xs))` is no longer than its input |
| Utils.DeDuplicateElements | src/article_metadata_scrapper/utils.py:45-47 | the result has no duplicates and exactly the input's elements |
| Utils.DeDuplicateHead | src/article_metadata_scrapper/utils.py:45-47 | the first element is kept first |
| Utils.DeDuplicateKeepsFirstOccurrenceOrder | src/article_metadata_scrapper/utils.py:45-47 | elements appear in the order of their first occurrences in the input |
| Utils.DeDuplicateOfDistinct | src/article_metadata_scrapper/utils.py:45-47 | a list without duplicates is returned unchanged |
| Utils.DeDuplicateIdempotent | src/article_metadata_scrapper/utils.py:45-47 | de-duplicating twice equals de-duplicating once |
| Utils.DeDuplicateOfCopies | src/article_metadata_scrapper/utils.py:45-47 | copies of one value collapse to that single value |
| Utils.DeDuplicateUnordered | src/article_metadata_scrapper/utils.py:48-49 | `list(set(xs))` has no duplicates and exactly the input's elements, in an order left open |
| Utils.GetRawMetadata | src/article_metadata_scrapper/utils.py:52-57 | the matched fragments unchanged when there are any; otherwise `HtmlContentError` carrying the xpath and the default message |
| Utils.NonNullStripped | src/article_metadata_scrapper/utils.py:66-71 | the stripped non-null values are at most one per record |
| Utils.NonNullStrippedAppend | src/article_metadata_scrapper/utils.py:66-71 | selection follows record order: the selection over two tables is the concatenation of their selections |
| Utils.NonNullStrippedAreStripped | src/article_metadata_scrapper/utils.py:69 | every selected identifier is stripped of whitespace |
| Utils.GetIdentifiers | src/article_metadata_scrapper/utils.py:66-71 | succeeds iff every record has the key, otherwise `KeyError`; at most one identifier per record |
| Utils.StripAndExtract | src/article_metadata_scrapper/utils.py:74-82 | `KeyError` iff the key is missing; exactly one distinct value gives that value stripped of spaces and newlines; otherwise the de-duplicated tuple, unstripped |
| Utils.StripAndExtractOfCopies | src/article_metadata_scrapper/utils.py:76-78 | repeated copies of one text give that text stripped |
| Utils.StripAndExtractOfStrippedCopies | src/article_metadata_scrapper/utils.py:76-78 | repeated copies of an already stripped text give the text itself |
| Utils.StripAndExtractOfTwoTexts | src/article_metadata_scrapper/utils.py:79-82 | two different fragments give a tuple, never a string |
| Formatters.FormatDoi | src/article_metadata_scrapper/pubmed_formatters.py:7-8 | `KeyError` without a doi, `AttributeError` on a tuple, otherwise exactly the text with every `d`, `o`, `i`, `:` and space removed from both ends by `str.strip`, so neither end is one of them |
| Formatters.FormatDoiTruncatesTrailingLetters | src/article_metadata_scrapper/pubmed_formatters.py:8 | a labelled DOI ending in d, o or i does not come back intact |
| Formatters.FormatDoiCorrected | src/article_metadata_scrapper/pubmed_formatters.py:7-8 | same error cases; a text that starts with "doi: " comes back without that label, any other text comes back unchanged |
| Formatters.WithoutDoiLabel | src/article_metadata_scrapper/pubmed_formatters.py:8 | a text starting with the label "doi: " is that label followed by the result; any other text is returned unchanged |
| Formatters.FormatDoiCorrectedKeepsDoi | src/article_metadata_scrapper/pubmed_formatters.py:7-8 | a labelled DOI comes back exactly |
| Formatters.FormatYear | src/article_metadata_scrapper/pubmed_formatters.py:11-12 | `KeyError` without "other", `AttributeError` on a tuple, otherwise exactly the first piece of `split(' ')`: the text before its first space |
| Formatters.VolumeOf | src/article_metadata_scrapper/pubmed_formatters.py:17 | `AttributeError` iff neither alternative of the volume pattern matches anywhere; group 1 is the non-empty digit run directly before "(", and None when the `;digits:` alternative matched first |
| Formatters.FormatVolume | src/article_metadata_scrapper/pubmed_formatters.py:15-17 | `KeyError` without "other", `TypeError` on a tuple, otherwise the volume of the text |
| Formatters.ArticleNumberOrEmpty | src/article_metadata_scrapper/pubmed_formatters.py:33-36 | when ":e" occurs, the `e<digits>` token the article-number search finds after the first ":e"; '' when there is none |
| Formatters.PagesOf | src/article_metadata_scrapper/pubmed_formatters.py:22-36 | the article number or '' iff the page numbers cannot be parsed; None iff start <= stop; otherwise start and the expanded stop `ExpandStop(start, stop)` (145 and 52 give 152) |
| Formatters.FormatPages | src/article_metadata_scrapper/pubmed_formatters.py:20-36 | `KeyError` without "other", `TypeError` on a tuple, otherwise the pages of the text |
| Formatters.PagesOfArticleNumber | src/article_metadata_scrapper/pubmed_formatters.py:24-34 | ":e" followed by digits at the first colon gives the `e<digits>` token |
| Formatters.FirstColonAt | src/article_metadata_scrapper/pubmed_formatters.py:24-34 | the first colon followed by "e" is where both searches anchor |
| Formatters.VolumeOfExample | src/article_metadata_scrapper/pubmed_formatters.py:17 | "2019 Jan;12(3):45-52." gives volume "12" |
| Legacy.PartitionCounts | main.py:22-26 | every record lands in exactly one of dois and pmids |
| Legacy.DoisOf | main.py:22-26 | at most one doi per record, each stripped of whitespace |
| Legacy.PmidsOf | main.py:22-26 | at most one pmid per record |
| Legacy.DoisOfIsGetIdentifiers | main.py:22-26 | the dois of the original constructor are the newer `get_identifiers` selection |
| Legacy.PubMedScrapper.constructor | main.py:14-26 | the stripped non-null dois and, for null dois, the pmids, in record order; the search URL and empty lists |
| Legacy.TermNotFound | main.py:69-70 | holds iff there is a first query-error message and it contains "term was ignored" or "term was not found" |
| Legacy.PubMedScrapper.IsInPubMed | main.py:67-77 | returns false and records the identifier exactly when the first query-error message says the term was ignored or not found; otherwise true with the list unchanged, including when there is no message |
| Legacy.KeptAuthorNames | main.py:82-83 | exactly the first floor(n/2) matched names, each the matched name at the same position |
| Legacy.BuildAuthors | main.py:88-97 | one entry per name |
| Legacy.BuildAuthorsAt | main.py:88-97 | the k-th entry depends only on the names before it and the k-th name |
| Legacy.GivenName | main.py:89-97 | the first token followed by the initials, with no whitespace left at either end |
| Legacy.ParseAuthors | main.py:88-98 | one author per kept name |
| Legacy.ParseAuthorsStep | main.py:87-97 | one more name appends its entry and carries `lastName` forward |
| Legacy.ParseAuthorsAt | main.py:88-98 | the k-th author is built from the k-th kept name and the names before it |
| Legacy.LastQualifyingNone | main.py:87-96 | when no token qualifies, `lastName` keeps the previous author's value |
| Legacy.LastQualifyingAt | main.py:94-96 | the family name is the last qualifying token |
| Legacy.SurnameInitial | main.py:89-97 | "Surname X" gives family "X" and given "Surname" |
| Legacy.NoInitialsWithoutTwoSpaces | main.py:90 | a name with at most one space has no initials |
| Legacy.AppendInitials | main.py:91-93 | the given name is the first token followed by every initial, in order |
| Legacy.LastQualifyingToken | main.py:94-96 | the inner loop leaves the last qualifying token, or the previous value |
| Legacy.ParseAuthor | main.py:89-97 | one name's loop body builds its author entry and the next `lastName` |
| Legacy.PubMedScrapper.GetAuthors | main.py:79-98 | exactly one author per kept name, in order, each as the author functions define; an empty list for no names |
| Legacy.PrimaryMetadata | main.py:100-112 | 1 (None) iff title or journal is missing, or the pmid is looked up and missing; a given pmid or doi is returned unchanged, otherwise read from the page |
| Legacy.ArticlePages | main.py:132 | the `e<digits>` token the article-number search finds, or an uncaught `AttributeError` iff ":e" does not occur |
| Legacy.CitPages | main.py:122-134 | integers when start <= stop; when start > stop, exactly the string pair of `str(start)` and `ExpandStop(start, stop)`; after a `ValueError`, the article number; '' when a search fails; `AttributeError` escapes exactly when the `ValueError` path finds no ":e" |
| Legacy.CitPagesAgreesWithFormatPages | main.py:122-134 | the original page parser and `format_pages` agree on every citation except in three cases: the original raises where the newer one returns ''; it keeps the integer pair where the newer one returns None; and after a failed search it gives '' where the newer one still looks for the article number |
| Legacy.ParseCitation | main.py:120-135 | the year is the text before the first space, the volume is the leftmost volume group, the pages come from `CitPages`; `AttributeError` when the volume search or page parsing raises |
| Legacy.SecondaryMetadata | main.py:114-136 | 1 iff there is no citation line; otherwise the parse of the stripped line, raising iff that parse raises |
| Legacy.PagesFieldSplits | main.py:148-151 | a rendered page range splits at its hyphen back into its start and stop |
| Legacy.PagesField | main.py:148-151 | an integer pair renders as start and stop that split at '-' back into their decimal forms; a text is copied unchanged |
| Legacy.GenerateEntry | main.py:138-153 | `IndexError` iff there are no authors; otherwise type "article", every field copied from its source, and the id is the lower-cased first family name followed by the year |
| Legacy.StepFor | main.py:160-170 | one identifier: not found iff the query-error check fails; skipped iff primary or secondary metadata returned 1; a crash with the parser's exception whenever the citation parser raises, and `IndexError` when everything parsed but no author name was kept; an appended entry is exactly `generate_entry` of the parsed authors, primary and secondary metadata |
| Legacy.ArticleUrl | main.py:30 | the search URL followed by the identifier in double quotes, `None` for a missing pmid |
| Legacy.StepAtDescribes | main.py:155-172 | a helper showing that the ghost `step` requirement of the loop methods can be met: each identifier's step is that of its fetched page |
| Legacy.PubMedScrapper.ExtractOne | main.py:157-172 | one loop iteration yields the identifier's step and records it as not found only in that case |
| Legacy.Batch | main.py:155-172 | at most one entry or miss per identifier |
| Legacy.BatchStep | main.py:157-172 | one more identifier extends the outcome by its step |
| Legacy.BatchStopsAtCrash | main.py:155-172 | nothing is processed after an escaping exception |
| Legacy.BatchAppend | main.py:174-176 | a batch over two lists is the first batch followed by the second, unless the first crashed |
| Legacy.BatchWithoutCrash | main.py:155-172 | without a crash, the entries and misses are exactly those of the identifiers, in input order |
| Legacy.AsIds | main.py:175 | the dois are passed as identifiers one for one |
| Legacy.PubMedScrapper.ExtractData | main.py:155-172 | the appended entries, recorded misses and crash are exactly those of the batch over the identifiers |
| Legacy.PubMedScrapper.GetData | main.py:174-176 | the dois are processed before the pmids, and an exception in the first batch prevents the second |
| Pipeline.PubMedSelectedKeys | src/article_metadata_scrapper/pubmed_config.py:5-15 | the PubMed configuration reads authors, title, journal, doi, other and pmid from the page |
| Pipeline.Scrape | src/article_metadata_scrapper/pubmed_scrapper.py:21-28 | every identifier's raw dict is the collection over the page fetched for that identifier |
| Pipeline.CollectRaw | src/article_metadata_scrapper/pubmed_scrapper.py:24-28 | the raw dict has exactly the keys whose selector is not None, each with a non-empty fragment list; an error is `HtmlContentError` naming a selector that matched nothing |
| Pipeline.CollectRawSucceeds | src/article_metadata_scrapper/pubmed_scrapper.py:24-31 | a page yields a raw dict iff every configured selector matches |
| Pipeline.CollectRawFailsAtFirstMissing | src/article_metadata_scrapper/pubmed_scrapper.py:24-31 | the exception names the first selector that matched nothing |
| Pipeline.CollectRawValues | src/article_metadata_scrapper/pubmed_scrapper.py:24-28 | each key holds exactly the fragments its selector matched |
| Pipeline.KeyNotSelectedLater | src/article_metadata_scrapper/pubmed_scrapper.py:26-27 | a key not in the configuration is not in the dict |
| Pipeline.RawBatch | src/article_metadata_scrapper/pubmed_scrapper.py:18-34 | at most one raw record per identifier |
| Pipeline.RawBatchStep | src/article_metadata_scrapper/pubmed_scrapper.py:18-34 | one more identifier appends its record, or nothing |
| Pipeline.RawBatchKeys | src/article_metadata_scrapper/pubmed_scrapper.py:24-28 | every raw record has exactly the selected keys |
| Pipeline.RawBatchAppend | src/article_metadata_scrapper/pubmed_scrapper.py:18-34 | records follow identifier order: a batch over two lists is the concatenation of the two batches |
| Pipeline.RawBatchLast | src/article_metadata_scrapper/pubmed_scrapper.py:18-34 | the last identifier contributes last |
| Pipeline.RawBatchSkips | src/article_metadata_scrapper/pubmed_scrapper.py:29-31 | an identifier whose collection raised adds nothing, and the loop goes on |
| Pipeline.RawBatchSkipsMissing | src/article_metadata_scrapper/pubmed_scrapper.py:29-31 | a page missing a selected field adds nothing, and the loop goes on |
| Pipeline.RawBatchAllFound | src/article_metadata_scrapper/pubmed_scrapper.py:18-34 | when every identifier yields a record, the k-th record comes from the k-th identifier |
| Pipeline.RawBatchAllMatch | src/article_metadata_scrapper/pubmed_scrapper.py:18-34 | when every page matches every selector, one raw record per identifier, in order |
| Pipeline.PubMedScrapper.constructor | src/article_metadata_scrapper/scrapper.py:18-22 | the configuration is kept, both lists are empty and the dois are `get_identifiers` of the loaded table |
| Pipeline.PubMedScrapper.GetMetadata | src/article_metadata_scrapper/pubmed_scrapper.py:14-34 | uses the dois when no identifiers are given; appends exactly the batch's raw records, leaving earlier ones untouched; the counter ends at len(identifiers)+1 |
| Pipeline.FormatRecordWith | src/article_metadata_scrapper/pubmed_scrapper.py:40-48 | succeeds iff all seven formatters succeed, each field then being its formatter's value; otherwise the exception of the first failing formatter in key order (authors, title, journal, doi, year, volume, pages) |
| Pipeline.FormatRecordCorrectedOnlyChangesDoi | src/article_metadata_scrapper/pubmed_formatters.py:7-8 | the record formatted with the corrected doi rule succeeds iff the as-written one does, and differs from it only in the doi |
| Pipeline.FormatRecordDoiExample | src/article_metadata_scrapper/pubmed_formatters.py:7-8 | a record whose doi ends in d, o or i loses it in `format_metadata` as written and keeps it under the corrected rule |
| Pipeline.FormatAll | src/article_metadata_scrapper/pubmed_scrapper.py:39-48 | no more dicts than raw records, and exactly as many without an exception |
| Pipeline.FormatAllStep | src/article_metadata_scrapper/pubmed_scrapper.py:39-48 | one more raw record appends its dict or stops the loop |
| Pipeline.FormatAllStopsAtCrash | src/article_metadata_scrapper/pubmed_scrapper.py:39-48 | nothing is formatted after an exception |
| Pipeline.FormatAllWithoutCrash | src/article_metadata_scrapper/pubmed_scrapper.py:39-48 | without an exception, the k-th dict is the formatting of the k-th raw record |
| Pipeline.FormatAllNoCrashWhenAllFormat | src/article_metadata_scrapper/pubmed_scrapper.py:39-48 | when every record formats, the loop runs to the end |
| Pipeline.FormatAllFirstFailure | src/article_metadata_scrapper/pubmed_scrapper.py:39-48 | the first record that fails ends the loop with its exception after exactly the dicts before it |
| Pipeline.PubMedScrapper.FormatMetadata | src/article_metadata_scrapper/pubmed_scrapper.py:36-48 | appends exactly the dicts of the batch, in raw order, and reports the exception that ended it |
| Refactor.GetAuthorsDistinct | src/article_metadata_scrapper/scrapper_refactor.py:27-30 | the names keep the order of their first occurrences |
| Refactor.GetAuthors | src/article_metadata_scrapper/scrapper_refactor.py:27-30 | no repeated names, and exactly the names the xpath matched |
| Refactor.GetMetadataFragments | src/article_metadata_scrapper/scrapper_refactor.py:33-42 | never raises and always returns the tuple of every matched fragment, unstripped, because the `return` in `finally` replaces both the `try` return and the raise |
| Refactor.TryFinally | src/article_metadata_scrapper/scrapper_refactor.py:36-42 | a `finally` that falls through keeps the try's outcome, one that returns replaces it, whether that outcome was a return or a raise |
| Refactor.GetDois | src/article_metadata_scrapper/scrapper_refactor.py:51-53 | succeeds iff every record has a "doi", otherwise `KeyError`; at most one doi per record |
| Refactor.GetDoisMatchesLegacy | src/article_metadata_scrapper/scrapper_refactor.py:51-53 | the rewrite selects the same dois, in the same order, as the original constructor |
| Refactor.GetDoisStripped | src/article_metadata_scrapper/scrapper_refactor.py:52 | every selected doi is stripped of whitespace |
| Refactor.ArticleFor | src/article_metadata_scrapper/scrapper_refactor.py:70-81 | the de-duplicated authors, every title, journal and doi fragment, and the "cit" fragments stored in `year`, since `other` is not a field; volume, pages and pmid stay None |
| Refactor.Bind | src/article_metadata_scrapper/scrapper_refactor.py:70-81 | the first four arguments bind authors, title, journal and doi; the fifth to eighth bind year, volume, pages and pmid when given, which stay None otherwise, since `other` takes no argument |
| Refactor.Articles | src/article_metadata_scrapper/scrapper_refactor.py:120-131 | one entry per doi |
| Refactor.ArticlesInOrder | src/article_metadata_scrapper/scrapper_refactor.py:120-131 | the k-th entry is built from the page of the k-th doi |
| Refactor.ArticlesStep | src/article_metadata_scrapper/scrapper_refactor.py:120-131 | one more doi appends its entry |
| Refactor.PubMedScrapper.constructor | src/article_metadata_scrapper/scrapper_refactor.py:91-93 | `metadata` is empty and `dois` is `_get_dois(identifiers)`; `pmids` stays unset because the subclass hook is misspelled |
| Refactor.PubMedScrapper.AppendArticles | src/article_metadata_scrapper/scrapper_refactor.py:120-131 | appends one entry per doi, in doi order |
| Refactor.PubMedScrapper.GetMetadata | src/article_metadata_scrapper/scrapper_refactor.py:118-143 | with pmids unset and at least one doi, the first loop's entries followed by `AttributeError` at the second loop's first iteration; otherwise both loops run over the dois |
| Refactor.RunOnce | src/article_metadata_scrapper/scrapper_refactor.py:147-154 | a freshly built PubMed scraper with dois appends one entry per doi and then raises `AttributeError` |

## Left out

- Network access (`get_article_page`, `__get_article_page__`, `_get_article_page`), user-agent rotation and `sleep(1)` are not modelled. A page is whatever the `Fetch` parameter returns for the URL.
- lxml parsing and XPath evaluation are not modelled. A `Document` maps each query string to its matches.
- JSON file loading, `print` progress output, the module-level scripts and `main()` of `pubmed_scrapper.py` are not modelled. `src/article_metadata_scrapper/__main__.py` (interactive input and a file append) is not part of this model.
- The progress counter of `__extract_data__` and `identifier_index` of the refactored `get_metadata` only feed `print`, so they are not modelled. The counter of the newer `get_metadata` is modelled.
- `articleUrl`, the attribute `__get_article_page__` sets as a side effect, is not modelled. The URL it builds is `Legacy.ArticleUrl`.
- `str.lower()` is modelled for ASCII only, and whitespace is Python's `str.isspace` set written out. Unicode case folding is not modelled.
- Identifier tables hold strings or JSON null. Numeric JSON values, for which `str(value)` and `.strip()` would differ, are not modelled.
- Legacy.PubMedScrapper.constructor: requires every record to have a "doi", and a "pmid" where the doi is null. The `KeyError` the source would raise is not modelled.
- Pipeline.PubMedScrapper.constructor: requires every record to have a "doi"; the `KeyError` `get_identifiers` would raise is not modelled.
- Refactor.PubMedScrapper.constructor: requires every record to have a "doi"; the `KeyError` of `_get_dois` is not modelled.
- `ScrapperConfig.getter_function` is fixed to its default, `get_raw_metadata`. A custom getter is not modelled.
- `format_metadata` is modelled as written: Pipeline.FormatRecord formats the doi with `format_doi` as it stands. Pipeline.FormatRecordCorrected applies the corrected doi rule of Findings and is not used by the scraper.
- `MetadataFormatter`'s `pmid` formatter is None in `PUBMED_FORMATTER` and is never called, so it is not modelled.
- Legacy.PubMedScrapper.ExtractData, GetData and ExtractOne take a ghost `step` function and require it to give each identifier's step, `StepAt(url, fetch)` being one such function. The ghost parameter is part of the specification only.
- Scan.InitialsFrom: `\w` is modelled as the ASCII word characters (letters, digits, `_`). Python 3 also matches Unicode letters, so an initial such as " Ł " is not found by the model.
- Utils.DeDuplicateUnordered: `list(set(xs))` has an order that depends on hashing. It is a ghost function whose order is left unspecified.
- Pmid identifiers passed to `__get_primary_metadata__` as `doi=` (main.py:164) are modelled as the code has it: the pmid is kept as the doi, and the page's pmid is read.

## Findings

| source | as written | input that shows it | evidently intended | confidence | as-written member | corrected member |
|---|---|---|---|---|---|---|
| src/article_metadata_scrapper/pubmed_formatters.py:8 | `.strip("doi: ")` removes any of the characters d, o, i, colon and space from both ends | a doi field "doi: 10.1000/abcd" gives "10.1000/abc" | remove the "doi: " label and keep the DOI intact | high (not executed) | Formatters.FormatDoiTruncatesTrailingLetters | Formatters.FormatDoiCorrectedKeepsDoi |

`Pipeline.FormatRecordDoiExample` carries the discrepancy through `format_metadata`: a record whose labelled DOI ends in d, o or i gets a shortened doi from the formatter as written, and the intact DOI from `Pipeline.FormatRecordCorrected`, which differs from the as-written record in the doi alone (`Pipeline.FormatRecordCorrectedOnlyChangesDoi`).
