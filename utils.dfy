/** Model of `utils.py`: de-duplication, the raw XPath getter, identifier
    selection from the loaded JSON, and the strip-or-tuple extraction rule. */
module Utils {
  import opened Base
  import opened Text

  predicate NoDuplicates<T(==,!new)>(xs: seq<T>) {
    forall i, j :: 0 <= i < j < |xs| ==> xs[i] != xs[j]
  }

  /** Index of the first occurrence of `x` in `xs`. */
  function FirstIndex<T(==,!new)>(xs: seq<T>, x: T): (i: nat)
    requires x in xs
    ensures i < |xs| && xs[i] == x && x !in xs[..i]
  {
    var n := |xs| - 1;
    if x in xs[..n] then
      var i := FirstIndex(xs[..n], x);
      assert xs[..n][..i] == xs[..i];
      i
    else n
  }

  // ---------------------------------------------------------------------------
  // de_duplicate_list

  /** `de_duplicate_list(xs)` with `preserve_order=True`, i.e.
      `list(dict.fromkeys(xs))`: each element kept at its first occurrence
      (see `DeDuplicateElements` and `DeDuplicateKeepsFirstOccurrenceOrder`). */
  function DeDuplicate<T(==,!new)>(xs: seq<T>): (r: seq<T>)
    ensures |r| <= |xs|
  {
    if xs == [] then []
    else
      var p := DeDuplicate(xs[..|xs| - 1]);
      var x := xs[|xs| - 1];
      if x in p then p else p + [x]
  }

  /** The de-duplicated list has no duplicates and the same elements as the
      input. */
  lemma {:induction false} DeDuplicateElements<T(!new)>(xs: seq<T>)
    ensures NoDuplicates(DeDuplicate(xs))
    ensures forall x :: x in DeDuplicate(xs) <==> x in xs
  {
    if xs != [] {
      var init := xs[..|xs| - 1];
      DeDuplicateElements(init);
      assert xs == init + [xs[|xs| - 1]];
    }
  }

  /** The first element is always kept, in first place. */
  lemma {:induction false} DeDuplicateHead<T(!new)>(xs: seq<T>)
    requires xs != []
    ensures DeDuplicate(xs) != [] && DeDuplicate(xs)[0] == xs[0]
  {
    var n := |xs| - 1;
    if n > 0 {
      DeDuplicateHead(xs[..n]);
    }
  }

  /** The kept elements appear in the order of their first occurrences. */
  lemma {:induction false} DeDuplicateKeepsFirstOccurrenceOrder<T(!new)>(xs: seq<T>)
    ensures forall i, j :: 0 <= i < j < |DeDuplicate(xs)| ==>
      && DeDuplicate(xs)[i] in xs && DeDuplicate(xs)[j] in xs
      && FirstIndex(xs, DeDuplicate(xs)[i]) < FirstIndex(xs, DeDuplicate(xs)[j])
  {
    if xs != [] {
      var n := |xs| - 1;
      var init := xs[..n];
      DeDuplicateKeepsFirstOccurrenceOrder(init);
      DeDuplicateElements(init);
      DeDuplicateElements(xs);
      var p := DeDuplicate(init);
      var r := DeDuplicate(xs);
      assert xs == init + [xs[n]];
      assert r == if xs[n] in p then p else p + [xs[n]];
      forall i, j | 0 <= i < j < |r|
        ensures r[i] in xs && r[j] in xs && FirstIndex(xs, r[i]) < FirstIndex(xs, r[j])
      {
        assert r[i] == p[i] && p[i] in init;
        assert init[FirstIndex(init, p[i])] == xs[FirstIndex(init, p[i])];
        assert FirstIndex(xs, r[i]) == FirstIndex(init, r[i]);
        if j < |p| {
          assert r[j] == p[j] && p[j] in init;
          assert init[FirstIndex(init, p[j])] == xs[FirstIndex(init, p[j])];
          assert FirstIndex(xs, r[j]) == FirstIndex(init, r[j]);
          assert FirstIndex(init, p[i]) < FirstIndex(init, p[j]);
        } else {
          assert r[j] == xs[n] && xs[n] !in init;
          assert FirstIndex(xs, r[j]) == n;
        }
      }
    } else {
      assert DeDuplicate(xs) == [];
    }
  }

  /** A list without duplicates is its own de-duplication. */
  lemma {:induction false} DeDuplicateOfDistinct<T(!new)>(xs: seq<T>)
    requires NoDuplicates(xs)
    ensures DeDuplicate(xs) == xs
  {
    if xs != [] {
      var n := |xs| - 1;
      assert NoDuplicates(xs[..n]);
      DeDuplicateOfDistinct(xs[..n]);
      assert xs[n] !in xs[..n];
      assert xs == xs[..n] + [xs[n]];
    }
  }

  /** De-duplicating twice changes nothing. */
  lemma DeDuplicateIdempotent<T(!new)>(xs: seq<T>)
    ensures DeDuplicate(DeDuplicate(xs)) == DeDuplicate(xs)
  {
    DeDuplicateElements(xs);
    DeDuplicateOfDistinct(DeDuplicate(xs));
  }

  /** A list made of copies of one value de-duplicates to that value alone. */
  lemma {:induction false} DeDuplicateOfCopies<T(!new)>(xs: seq<T>, v: T)
    requires xs != [] && forall k :: 0 <= k < |xs| ==> xs[k] == v
    ensures DeDuplicate(xs) == [v]
  {
    var n := |xs| - 1;
    if n > 0 {
      DeDuplicateOfCopies(xs[..n], v);
    }
  }

  /** `de_duplicate_list(xs, preserve_order=False)`, i.e. `list(set(xs))`:
      the same elements without duplicates, in an order the source leaves
      unspecified (any such list may be returned). */
  ghost function DeDuplicateUnordered<T(!new)>(xs: seq<T>): (r: seq<T>)
    ensures NoDuplicates(r)
    ensures forall x :: x in r <==> x in xs
  {
    var distinct := DeDuplicate(xs);
    DeDuplicateElements(xs);
    assert NoDuplicates(distinct) && forall x :: x in distinct <==> x in xs;
    var r :| NoDuplicates(r) && (forall x :: x in r <==> x in xs);
    r
  }

  // ---------------------------------------------------------------------------
  // get_raw_metadata

  /** The query `get_raw_metadata` runs for a configured selector. */
  function TextQuery(xpath: string): string { xpath + "/text()" }

  /** `get_raw_metadata(root, xpath)`: the fragments when there are any,
      otherwise `HtmlContentError` carrying the selector. */
  function GetRawMetadata(doc: Document, xpath: string): (r: Result<seq<string>>)
    ensures r.Ok? <==> doc(TextQuery(xpath)) != []
    ensures r.Ok? ==> r.value == doc(TextQuery(xpath))
    ensures r.Err? ==> r.error == HtmlContentError(xpath, HTML_CONTENT_MESSAGE)
  {
    var matched := doc(TextQuery(xpath));
    if matched != [] then Ok(matched) else Err(HtmlContentError(xpath, HTML_CONTENT_MESSAGE))
  }

  // ---------------------------------------------------------------------------
  // get_identifiers

  /** `str(data[key]).strip()` for every record whose value under `key` is not
      null, in record order. */
  function NonNullStripped(table: seq<Record>, key: string): (r: seq<string>)
    requires HasKey(table, key)
    ensures |r| <= |table|
  {
    if table == [] then []
    else
      var rest := NonNullStripped(table[1..], key);
      match table[0][key]
      case None => rest
      case Some(v) => [StripWs(v)] + rest
  }

  predicate HasKey(table: seq<Record>, key: string) {
    forall k :: 0 <= k < |table| ==> key in table[k]
  }

  /** The selection is taken record by record, so it distributes over
      concatenation: the order of the records is the order of the result. */
  lemma {:induction false} NonNullStrippedAppend(a: seq<Record>, b: seq<Record>, key: string)
    requires HasKey(a, key) && HasKey(b, key)
    ensures HasKey(a + b, key)
    ensures NonNullStripped(a + b, key) == NonNullStripped(a, key) + NonNullStripped(b, key)
  {
    forall k | 0 <= k < |a + b| ensures key in (a + b)[k] {
      if k < |a| { assert (a + b)[k] == a[k]; } else { assert (a + b)[k] == b[k - |a|]; }
    }
    if a != [] {
      var ab := a + b;
      assert ab[1..] == a[1..] + b;
      assert ab[0] == a[0];
      assert HasKey(a[1..], key);
      NonNullStrippedAppend(a[1..], b, key);
    } else {
      assert a + b == b;
    }
  }

  /** Every selected identifier carries no surrounding whitespace. */
  lemma {:induction false} NonNullStrippedAreStripped(table: seq<Record>, key: string)
    requires HasKey(table, key)
    ensures forall i :: 0 <= i < |NonNullStripped(table, key)| ==>
      Stripped(NonNullStripped(table, key)[i], IsWhitespace)
  {
    if table != [] {
      assert HasKey(table[1..], key);
      NonNullStrippedAreStripped(table[1..], key);
    }
  }

  /** `get_identifiers(dict_data, identifier=key)`: a `KeyError` as soon as a
      record lacks the key, otherwise the stripped non-null values in order. */
  function GetIdentifiers(table: seq<Record>, key: string): (r: Result<seq<string>>)
    ensures r.Ok? <==> HasKey(table, key)
    ensures r.Err? ==> r.error == KeyError(key)
    ensures r.Ok? ==> |r.value| <= |table|
  {
    if HasKey(table, key) then Ok(NonNullStripped(table, key)) else Err(KeyError(key))
  }

  // ---------------------------------------------------------------------------
  // strip_and_extract

  /** What `strip_and_extract` returns: one string, or a tuple of strings. */
  datatype Extracted = Text(text: string) | Tuple(items: seq<string>)

  /** `strip_and_extract(raw_metadata, key)`. With exactly one distinct value
      it returns that value stripped of spaces and newlines; otherwise the
      de-duplicated values as a tuple, unstripped (the loop in the source only
      rebinds its loop variable). A missing key raises `KeyError`. */
  function StripAndExtract(raw: map<string, seq<string>>, key: string): (r: Result<Extracted>)
    ensures r.Err? <==> key !in raw
    ensures r.Err? ==> r.error == KeyError(key)
    ensures r.Ok? && r.value.Text? ==>
      |DeDuplicate(raw[key])| == 1 && r.value.text == Strip(raw[key][0], IsSpaceOrNewline)
    ensures r.Ok? && r.value.Tuple? ==>
      |DeDuplicate(raw[key])| != 1 && r.value.items == DeDuplicate(raw[key])
  {
    if key !in raw then Err(KeyError(key))
    else
      var distinct := DeDuplicate(raw[key]);
      if |distinct| == 1 then
        DeDuplicateHead(raw[key]);
        Ok(Text(Strip(distinct[0], IsSpaceOrNewline)))
      else Ok(Tuple(distinct))
  }

  /** A field matched once, or several times with the same text, is extracted
      as that text stripped of spaces and newlines. */
  lemma StripAndExtractOfCopies(raw: map<string, seq<string>>, key: string, v: string)
    requires key in raw && raw[key] != []
    requires forall k :: 0 <= k < |raw[key]| ==> raw[key][k] == v
    ensures StripAndExtract(raw, key) == Ok(Text(Strip(v, IsSpaceOrNewline)))
  {
    DeDuplicateOfCopies(raw[key], v);
  }

  /** A field whose every match is the same text, already free of
      surrounding spaces and newlines, is extracted as exactly that text. */
  lemma StripAndExtractOfStrippedCopies(raw: map<string, seq<string>>, key: string, v: string)
    requires key in raw && raw[key] != []
    requires forall k :: 0 <= k < |raw[key]| ==> raw[key][k] == v
    requires Stripped(v, IsSpaceOrNewline)
    ensures StripAndExtract(raw, key) == Ok(Text(v))
  {
    StripAndExtractOfCopies(raw, key, v);
    StripFixesStripped(v, IsSpaceOrNewline);
  }

  /** Two different texts under one key give a tuple: the formatters that
      expect one string then fail on it. */
  lemma StripAndExtractOfTwoTexts(raw: map<string, seq<string>>, key: string, i: nat, j: nat)
    requires key in raw && i < |raw[key]| && j < |raw[key]| && raw[key][i] != raw[key][j]
    ensures StripAndExtract(raw, key).Ok? && StripAndExtract(raw, key).value.Tuple?
  {
    var d := DeDuplicate(raw[key]);
    DeDuplicateElements(raw[key]);
    assert raw[key][i] in d && raw[key][j] in d;
    assert |d| != 1;
  }
}
