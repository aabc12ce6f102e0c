/** The search page (`handleSearch`, internal/web/server.go): paging over the catalogue's answers. */
module Server {
  import opened Wrappers
  import opened Catalog
  import opened Database

  const PAGE_SIZE := 30

  datatype ResultView = ResultView(summary: Summary, publisherLabel: string)

  datatype SearchView = SearchView(
    query: string, results: seq<ResultView>, page: int, prevPage: int, nextPage: int, hasMore: bool)

  function ShortenNpub(npub: string): string {
    if |npub| <= 18 then npub else npub[..10] + "…" + npub[|npub| - 6..]
  }

  /** The name shown for a result: the profile's name, or a shortened key. */
  function Label(s: Summary, encodeNpub: string -> string): string {
    if s.publisherName == "" then ShortenNpub(encodeNpub(s.pubkey)) else s.publisherName
  }

  /** A profile's name as it is; without one the ends of the key, or all of it if it is short. */
  lemma LabelExactly(s: Summary, encodeNpub: string -> string)
    ensures s.publisherName != "" ==> Label(s, encodeNpub) == s.publisherName
    ensures s.publisherName == "" ==>
              var npub, shown := encodeNpub(s.pubkey), Label(s, encodeNpub);
              && (|npub| <= 18 ==> shown == npub)
              && (|npub| > 18 ==> |shown| == 17 && shown[..10] == npub[..10] && shown[10] == '…' && shown[11..] == npub[|npub| - 6..])
  {
  }

  /** `query` is the trimmed `q` parameter; `page` the parsed one, None when it is missing or not a 64-bit integer. */
  method HandleSearch(st: Store, query: string, page: Option<int>, encodeNpub: string -> string) returns (view: SearchView)
    requires st.Valid()
    requires page.Some? ==> -MAX_INT64 - 1 <= page.value <= MAX_INT64
    ensures var p := if page.Some? && page.value > 0 then page.value else 0;
            var found := st.ScanPage(query, PAGE_SIZE, Wrap64(p * PAGE_SIZE));
            && view.query == query && view.page == p && view.nextPage == Wrap64(p + 1) && view.prevPage == p - 1
            && |view.results| == |found|
            && (forall i | 0 <= i < |found| :: view.results[i] == ResultView(found[i], Label(found[i], encodeNpub)))
            && (view.hasMore <==> |found| == PAGE_SIZE)
    ensures |view.results| <= 30 && (view.hasMore <==> |view.results| == 30)
  {
    var p := 0;
    if page.Some? && page.value > 0 {
      p := page.value;
    }
    var results := FindPage(st, query, Wrap64(p * PAGE_SIZE));
    var views := LabelAll(results, encodeNpub);
    view := SearchView(query, views, p, p - 1, Wrap64(p + 1), |results| == PAGE_SIZE);
  }

  method FindPage(st: Store, query: string, offset: int) returns (results: seq<Summary>)
    requires st.Valid()
    ensures results == st.ScanPage(query, PAGE_SIZE, offset) && |results| <= 30
  {
    results := st.Search(query, PAGE_SIZE, offset);
  }

  method LabelAll(results: seq<Summary>, encodeNpub: string -> string) returns (views: seq<ResultView>)
    ensures |views| == |results|
    ensures forall i | 0 <= i < |results| :: views[i] == ResultView(results[i], Label(results[i], encodeNpub))
  {
    views := [];
    for i := 0 to |results|
      invariant |views| == i
      invariant forall j | 0 <= j < i :: views[j] == ResultView(results[j], Label(results[j], encodeNpub))
    {
      var name := results[i].publisherName;
      if name == "" {
        name := ShortenNpub(encodeNpub(results[i].pubkey));
      }
      views := views + [ResultView(results[i], name)];
    }
  }

  // ---------------------------------------------------------------------------------------------
  // Following NextPage on an unchanged catalogue
  // ---------------------------------------------------------------------------------------------

  function PageAt<T>(all: seq<T>, k: nat): seq<T> {
    Page(all, PAGE_SIZE, Wrap64(k * PAGE_SIZE))
  }

  /** The pages a visitor sees who follows NextPage from page `k` as long as HasMore is set. */
  function Visited<T>(all: seq<T>, k: nat): seq<T>
    requires |all| <= MAX_INT64 && k * PAGE_SIZE <= |all|
    decreases |all| - k * PAGE_SIZE
  {
    var page := PageAt(all, k);
    if |page| == PAGE_SIZE then page + Visited(all, k + 1) else page
  }

  /** Every match is seen once, in order, and the walk stops (the catalogue's rowids are 64-bit). */
  lemma {:induction false} VisitsEverythingOnce<T>(all: seq<T>, k: nat)
    requires |all| <= MAX_INT64 && k * PAGE_SIZE <= |all|
    ensures Visited(all, k) == all[k * PAGE_SIZE..]
    decreases |all| - k * PAGE_SIZE
  {
    if |PageAt(all, k)| == PAGE_SIZE {
      VisitsEverythingOnce(all, k + 1);
      assert all[k * PAGE_SIZE..] == PageAt(all, k) + all[(k + 1) * PAGE_SIZE..];
    }
  }

  /** HasMore does not promise a next result: it is wrong exactly when the matches end with the page. */
  lemma HasMoreIsWrongWhenFull<T>(all: seq<T>, k: nat)
    requires |all| <= MAX_INT64 - PAGE_SIZE && k * PAGE_SIZE <= |all|
    requires |PageAt(all, k)| == PAGE_SIZE
    ensures PageAt(all, k + 1) == [] <==> |all| == (k + 1) * PAGE_SIZE
  {
  }

  /** The same for a search: the pages served from page 0 on spell out the whole scan of the catalogue. */
  lemma SearchWalk(st: Store, query: string)
    requires st.Valid()
    requires |TheOrder(st.rows, st.Scan(query))| <= MAX_INT64
    ensures var all := st.Summaries(TheOrder(st.rows, st.Scan(query)));
            && Visited(all, 0) == all
            && forall k: nat :: st.ScanPage(query, PAGE_SIZE, Wrap64(k * PAGE_SIZE)) == PageAt(all, k)
  {
    VisitsEverythingOnce(st.Summaries(TheOrder(st.rows, st.Scan(query))), 0);
  }
}
