/**
 * Scraping one Google results page into records: `scrape_search_element`
 * builds a record from what one result element shows, and
 * `scrape_search_results` puts the header result first and drops exact
 * duplicates, keeping first occurrences (pandas' `drop_duplicates`).
 * The browser's DOM lookups are replaced by what they return: an element is
 * its optional title, link and snippet text, a page is its result elements
 * and its optional header result.
 */
module Scrape {
  import opened Wrappers
  import opened Sequences
  import opened Freshness

  /** One scraped news item; every field but `company` may be missing. */
  datatype Record = Record(
    company: string,
    released: Option<string>,
    title: Option<string>,
    url: Option<string>,
    description: Option<string>)

  /** What the lookups inside one result element find (`None` for `NoSuchElementException`). */
  datatype ElementView = ElementView(title: Option<string>, url: Option<string>, description: Option<string>)

  /** The result elements of a page, in document order, and the optional header result `div.g[data-hveid]`. */
  datatype Page = Page(elements: seq<ElementView>, header: Option<ElementView>)

  /** `scrape_search_element`: the record of what one result element shows. */
  function ScrapeSearchElement(e: ElementView, company: string): Record {
    Record(company, ExtractReleased(e.description), e.title, e.url, e.description)
  }

  /**
   * The record names the company searched for and keeps the element's
   * title, link and snippet; its `released` is missing exactly when the
   * snippet is missing or holds no label, and otherwise is a label with a
   * plural unit that pluralising leaves unchanged.
   */
  lemma ScrapedRecord(e: ElementView, company: string)
    ensures var r := ScrapeSearchElement(e, company);
            && r.company == company
            && r.title == e.title && r.url == e.url && r.description == e.description
            && (r.released.None? <==>
                  (e.description.None? || forall j :: 0 <= j < |e.description.value| ==> MatchLabel(e.description.value[j..]).None?))
            && (r.released.Some? ==>
                  var t := r.released.value;
                  MatchLabel(t).Some? && MatchLabel(t).value.plural && Pluralise(t) == t)
  {
    ReleasedNone(e.description);
    if ExtractReleased(e.description).Some? {
      ReleasedIsNormalised(e.description);
    }
  }

  /** The list comprehension over the result elements. */
  function ScrapeAll(es: seq<ElementView>, company: string): (rs: seq<Record>)
    ensures |rs| == |es|
  {
    if es == [] then [] else ScrapeAll(es[..|es| - 1], company) + [ScrapeSearchElement(es[|es| - 1], company)]
  }

  /** Every record of a page's elements names the company searched for. */
  lemma {:induction false} ScrapeAllNames(es: seq<ElementView>, company: string)
    ensures forall r :: r in ScrapeAll(es, company) ==> r.company == company
  {
    if es != [] {
      ScrapeAllNames(es[..|es| - 1], company);
    }
  }

  /** Element k of the records is the record of element k. */
  lemma {:induction false} ScrapeAllAt(es: seq<ElementView>, company: string, k: nat)
    requires k < |es|
    ensures ScrapeAll(es, company)[k] == ScrapeSearchElement(es[k], company)
  {
    if k < |es| - 1 {
      ScrapeAllAt(es[..|es| - 1], company, k);
    }
  }

  /** The records before deduplication: the header result, if any, then the elements'. */
  function Candidates(term: string, page: Page): seq<Record> {
    var rs := ScrapeAll(page.elements, term);
    if page.header.Some? then [ScrapeSearchElement(page.header.value, term)] + rs else rs
  }

  /**
   * `drop_duplicates()`: the first occurrence of every record, in the order
   * of first occurrence. What it keeps is stated by `DistinctSpec` and
   * `DistinctKeepsFirstOccurrenceOrder`.
   */
  function Distinct<T(==)>(s: seq<T>): seq<T> {
    if s == [] then []
    else
      var init, last := s[..|s| - 1], s[|s| - 1];
      var p := Distinct(init);
      if last in init then p else p + [last]
  }

  /** Nothing occurs twice in the result, nothing is lost or added, and the order is kept. */
  lemma {:induction false} DistinctSpec<T(!new)>(s: seq<T>)
    ensures NoDuplicates(Distinct(s))
    ensures forall x :: x in Distinct(s) <==> x in s
    ensures IsSubsequence(Distinct(s), s)
  {
    if s != [] {
      var init, last := s[..|s| - 1], s[|s| - 1];
      DistinctSpec(init);
      assert s == init + [last];
      SubsequenceSnoc(Distinct(init), init, last);
    }
  }

  lemma IndexOfSnoc<T>(s: seq<T>, y: T, x: T)
    requires x in s
    ensures IndexOf(s + [y], x) == IndexOf(s, x)
  {
    var k, j := IndexOf(s, x), IndexOf(s + [y], x);
    assert forall i :: 0 <= i < k ==> s[..k][i] == s[i];
    assert forall i :: 0 <= i < j ==> (s + [y])[..j][i] == (s + [y])[i];
    assert (s + [y])[k] == x;
  }

  /** The records kept appear in the order of their first occurrence in the input. */
  lemma {:induction false} DistinctKeepsFirstOccurrenceOrder<T(!new)>(s: seq<T>)
    ensures forall x :: x in Distinct(s) ==> x in s
    ensures forall i, j :: 0 <= i < j < |Distinct(s)| ==> IndexOf(s, Distinct(s)[i]) < IndexOf(s, Distinct(s)[j])
  {
    if s != [] {
      var init, last := s[..|s| - 1], s[|s| - 1];
      assert s == init + [last];
      DistinctKeepsFirstOccurrenceOrder(init);
      DistinctSpec(s);
      var p := Distinct(init);
      forall x | x in p
        ensures IndexOf(s, x) == IndexOf(init, x) < |init|
      {
        IndexOfSnoc(init, last, x);
      }
      if last !in init {
        assert IndexOf(s, last) == |init| by {
          assert s[|init|] == last && s[..|init|] == init;
        }
      }
    }
  }

  /** Deduplication never drops the first element: the header result stays at index 0. */
  lemma {:induction false} DistinctKeepsHead<T(!new)>(s: seq<T>)
    requires s != []
    ensures Distinct(s) != [] && Distinct(s)[0] == s[0]
  {
    if |s| > 1 {
      var init := s[..|s| - 1];
      DistinctKeepsHead(init);
      assert init[0] == s[0];
    }
  }

  /** Deduplicating twice is the same as deduplicating once. */
  lemma {:induction false} DistinctOfDistinct<T(!new)>(s: seq<T>)
    requires NoDuplicates(s)
    ensures Distinct(s) == s
  {
    if s != [] {
      var init, last := s[..|s| - 1], s[|s| - 1];
      DistinctOfDistinct(init);
      assert s == init + [last];
    }
  }

  /** The records `scrape_search_results` returns for a page. */
  function SearchRecords(term: string, page: Page): seq<Record> {
    Distinct(Candidates(term, page))
  }

  /** Every record `scrape_search_results` returns names the term searched for. */
  lemma SearchRecordsName(term: string, page: Page)
    ensures forall r :: r in SearchRecords(term, page) ==> r.company == term
  {
    DistinctSpec(Candidates(term, page));
    ScrapeAllNames(page.elements, term);
  }

  /** `scrape_search_results`, with the page's DOM replaced by its views. */
  method ScrapeSearchResults(term: string, page: Page) returns (records: seq<Record>)
    ensures records == SearchRecords(term, page)
    ensures NoDuplicates(records)
    ensures forall r :: r in records ==> r.company == term
    ensures forall r :: r in records <==> r in Candidates(term, page)
    ensures forall e :: e in page.elements ==> ScrapeSearchElement(e, term) in records
    ensures page.header.Some? ==> records != [] && records[0] == ScrapeSearchElement(page.header.value, term)
  {
    var results: seq<Record> := [];
    for i := 0 to |page.elements|
      invariant results == ScrapeAll(page.elements[..i], term)
    {
      assert page.elements[..i + 1][..i] == page.elements[..i];
      results := results + [ScrapeSearchElement(page.elements[i], term)];
    }
    assert page.elements[..|page.elements|] == page.elements;
    forall e | e in page.elements
      ensures ScrapeSearchElement(e, term) in results
    {
      var k :| 0 <= k < |page.elements| && page.elements[k] == e;
      ScrapeAllAt(page.elements, term, k);
    }
    if page.header.Some? {
      // the header record goes in front
      results := [ScrapeSearchElement(page.header.value, term)] + results;
      DistinctKeepsHead(results);
    }
    DistinctSpec(results);
    SearchRecordsName(term, page);
    records := Distinct(results);
  }
}
