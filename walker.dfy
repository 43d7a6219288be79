/**
 * One search-results page: its links are filtered on the article address
 * prefix and deduplicated in order of first occurrence; each one is
 * scraped and upserted in turn; the page's count is the number of links
 * visited, or 0 when anything on the way raises.
 */
module Walker {
  import opened Wrappers
  import opened Text
  import opened Names
  import opened Store

  /** Article addresses start with the site and a year in the 2000s. */
  const ArticlePrefix := "https://www.tmz.com/20"

  /** The substring test on a link's target. */
  predicate Qualifies(href: string) {
    Contains(href, ArticlePrefix)
  }

  /** A parsed search page: the targets of its links in document order, and its text strings. */
  datatype SearchPage = SearchPage(hrefs: seq<string>, strings: seq<string>)

  /** The qualifying targets, each kept at its first occurrence. */
  function Qualifying(hrefs: seq<string>): (r: seq<string>)
    ensures forall x :: x in r <==> x in hrefs && Qualifies(x)
    ensures forall i, j :: 0 <= i < j < |r| ==> r[i] != r[j]
  {
    if hrefs == [] then []
    else
      var q := Qualifying(hrefs[..|hrefs| - 1]);
      var x := hrefs[|hrefs| - 1];
      assert forall y :: y in hrefs <==> y in hrefs[..|hrefs| - 1] || y == x by {
        assert hrefs == hrefs[..|hrefs| - 1] + [x];
      }
      if Qualifies(x) && x !in q then q + [x] else q
  }

  /** The position of the first occurrence of `x`. */
  function FirstIndex(s: seq<string>, x: string): (r: nat)
    requires x in s
    ensures r < |s| && s[r] == x && x !in s[..r]
  {
    if s[0] == x then 0
    else
      var k := FirstIndex(s[1..], x);
      assert s[..k + 1] == [s[0]] + s[1..][..k];
      k + 1
  }

  lemma {:induction false} FirstIndexExtended(s: seq<string>, t: seq<string>, x: string)
    requires x in s
    ensures FirstIndex(s + t, x) == FirstIndex(s, x)
  {
    if s[0] != x {
      assert (s + t)[1..] == s[1..] + t;
      FirstIndexExtended(s[1..], t, x);
    }
  }

  lemma {:induction false} FirstIndexAppended(s: seq<string>, x: string)
    requires x !in s
    ensures FirstIndex(s + [x], x) == |s|
  {
    if s != [] {
      assert (s + [x])[1..] == s[1..] + [x];
      FirstIndexAppended(s[1..], x);
    }
  }

  /** The elements of `q` come in the order of their first occurrences in `s`. */
  ghost predicate InFirstOccurrenceOrder(s: seq<string>, q: seq<string>)
    requires forall x :: x in q ==> x in s
  {
    forall i, j :: 0 <= i < j < |q| ==> FirstIndex(s, q[i]) < FirstIndex(s, q[j])
  }

  /** The kept targets come in the order of their first occurrences on the page. */
  lemma {:induction false} QualifyingInOrder(hrefs: seq<string>)
    ensures InFirstOccurrenceOrder(hrefs, Qualifying(hrefs))
  {
    if hrefs != [] {
      var init := hrefs[..|hrefs| - 1];
      var x := hrefs[|hrefs| - 1];
      assert hrefs == init + [x];
      QualifyingInOrder(init);
      var q0 := Qualifying(init);
      var q := Qualifying(hrefs);
      forall i | 0 <= i < |q0| ensures FirstIndex(hrefs, q0[i]) == FirstIndex(init, q0[i]) {
        FirstIndexExtended(init, [x], q0[i]);
      }
      if Qualifies(x) && x !in q0 {
        assert x !in init;
        FirstIndexAppended(init, x);
        forall i, j | 0 <= i < j < |q| ensures FirstIndex(hrefs, q[i]) < FirstIndex(hrefs, q[j]) {
          assert q[i] == q0[i];
          assert FirstIndex(hrefs, q0[i]) == FirstIndex(init, q0[i]) < |init|;
          if j < |q0| {
            assert q[j] == q0[j];
            assert FirstIndex(hrefs, q0[j]) == FirstIndex(init, q0[j]);
          } else {
            assert q[j] == x;
          }
        }
      } else {
        assert q == q0;
        forall i, j | 0 <= i < j < |q| ensures FirstIndex(hrefs, q[i]) < FirstIndex(hrefs, q[j]) {
          assert FirstIndex(hrefs, q0[i]) == FirstIndex(init, q0[i]);
          assert FirstIndex(hrefs, q0[j]) == FirstIndex(init, q0[j]);
        }
      }
    }
  }

  /** The number of kept targets is the number of distinct qualifying targets on the page. */
  lemma {:induction false} QualifyingCount(hrefs: seq<string>)
    ensures |Qualifying(hrefs)| == |set x | x in hrefs && Qualifies(x)|
  {
    if hrefs != [] {
      var init := hrefs[..|hrefs| - 1];
      var x := hrefs[|hrefs| - 1];
      assert hrefs == init + [x];
      QualifyingCount(init);
      var before := set y | y in init && Qualifies(y);
      var after := set y | y in hrefs && Qualifies(y);
      if Qualifies(x) && x !in Qualifying(init) {
        assert after == before + {x};
      } else {
        assert after == before;
      }
    }
  }

  /** Walking the first `i` links sees a prefix of what walking them all sees. */
  lemma {:induction false} QualifyingPrefix(hrefs: seq<string>, i: nat)
    requires i <= |hrefs|
    ensures Qualifying(hrefs[..i]) <= Qualifying(hrefs)
  {
    if i < |hrefs| {
      QualifyingPrefix(hrefs[..|hrefs| - 1], i);
      assert hrefs[..|hrefs| - 1][..i] == hrefs[..i];
    } else {
      assert hrefs[..i] == hrefs;
    }
  }

  /**
   * Fetching one article page and selecting its fields, given the link,
   * the term as the walker passes it and the category: the record, or
   * `None` when that raises.
   */
  type Scraper = (string, string, string) -> Option<Article>

  /** A scraper's records carry the link they were scraped from and the term renamed for the table. */
  ghost predicate Keyed(scrape: Scraper) {
    forall url, name, kind :: scrape(url, name, kind).Some? ==>
      scrape(url, name, kind).value.link == url && scrape(url, name, kind).value.searchTerm == TableName(name)
  }

  /**
   * Scraping the links in turn: the records of the links before the first
   * failure, and whether there was none.
   */
  function Scraping(links: seq<string>, scrape: Scraper, name: string, kind: string): (r: (seq<Article>, bool))
    ensures |r.0| <= |links| && (r.1 <==> |r.0| == |links|)
    ensures forall i :: 0 <= i < |r.0| ==> scrape(links[i], name, kind) == Some(r.0[i])
    ensures !r.1 ==> scrape(links[|r.0|], name, kind).None?
  {
    if links == [] then ([], true)
    else
      var init := links[..|links| - 1];
      var (arts, ok) := Scraping(init, scrape, name, kind);
      if !ok then (arts, false)
      else match scrape(links[|links| - 1], name, kind)
        case None => (arts, false)
        case Some(a) => (arts + [a], true)
  }

  /** Once a link has failed, the links after it are never scraped. */
  lemma {:induction false} ScrapingStops(a: seq<string>, c: seq<string>, scrape: Scraper, name: string, kind: string)
    requires a <= c
    requires !Scraping(a, scrape, name, kind).1
    ensures Scraping(c, scrape, name, kind) == Scraping(a, scrape, name, kind)
  {
    if |c| > |a| {
      assert a <= c[..|c| - 1];
      ScrapingStops(a, c[..|c| - 1], scrape, name, kind);
    } else {
      assert a == c;
    }
  }

  /** What walking one page does: the records upserted, in order, and the count it returns. */
  datatype WalkResult = WalkResult(upserted: seq<Article>, count: nat)

  /**
   * `scrap_obter_todas_noticias`: nothing when the page cannot be
   * fetched; otherwise every kept link is scraped until one fails, the
   * term being passed on with `+` renamed to `_`.
   */
  function Walk(page: Option<SearchPage>, scrape: Scraper, term: string, kind: string): WalkResult {
    match page
    case None => WalkResult([], 0)
    case Some(p) =>
      var links := Qualifying(p.hrefs);
      var (arts, ok) := Scraping(links, scrape, TableName(term), kind);
      WalkResult(arts, if ok then |links| else 0)
  }

  /** The table the walker's upserts go to: the term renamed once by the walker and once more before the upsert. */
  function WalkerTable(term: string): (r: string)
    ensures r == TableName(term)
  {
    TableNameIdempotent(term);
    TableName(TableName(term))
  }

  /** Every record was scraped from its own link, with the term renamed for the table. */
  ghost predicate FromSource(arts: seq<Article>, scrape: Scraper, term: string, kind: string) {
    forall i :: 0 <= i < |arts| ==> scrape(arts[i].link, TableName(term), kind) == Some(arts[i])
  }

  lemma FromSourceConsistent(arts: seq<Article>, scrape: Scraper, term: string, kind: string)
    requires FromSource(arts, scrape, term, kind)
    ensures Consistent(arts)
  {
  }

  lemma FromSourceAppend(a: seq<Article>, b: seq<Article>, scrape: Scraper, term: string, kind: string)
    requires FromSource(a, scrape, term, kind) && FromSource(b, scrape, term, kind)
    ensures FromSource(a + b, scrape, term, kind)
  {
  }

  /**
   * The page's count is the number of distinct qualifying links when all
   * of them scrape, and 0 otherwise; each distinct link is upserted at
   * most once, in first-occurrence order, with the record scraped from it,
   * carrying the table's own name.
   */
  lemma WalkFacts(page: SearchPage, scrape: Scraper, term: string, kind: string)
    requires Keyed(scrape)
    ensures var w := Walk(Some(page), scrape, term, kind);
      var q := Qualifying(page.hrefs);
      && (w.count == if |w.upserted| == |q| then |set x | x in page.hrefs && Qualifies(x)| else 0)
      && |w.upserted| <= |q|
      && (forall i :: 0 <= i < |w.upserted| ==> w.upserted[i].link == q[i])
      && (forall i, j :: 0 <= i < j < |w.upserted| ==> w.upserted[i].link != w.upserted[j].link)
      && (forall i :: 0 <= i < |w.upserted| ==> w.upserted[i].searchTerm == WalkerTable(term))
      && FromSource(w.upserted, scrape, term, kind)
  {
    QualifyingCount(page.hrefs);
    TableNameIdempotent(term);
  }

  /** A page that cannot be fetched, or whose first qualifying link fails, upserts nothing and counts 0. */
  lemma WalkFailures(page: Option<SearchPage>, scrape: Scraper, term: string, kind: string)
    requires page.None? ||
      (var q := Qualifying(page.value.hrefs); q != [] && scrape(q[0], TableName(term), kind).None?)
    ensures Walk(page, scrape, term, kind) == WalkResult([], 0)
  {
  }

  lemma QualifyingStep(hrefs: seq<string>, i: nat)
    requires i < |hrefs|
    ensures Qualifying(hrefs[..i + 1]) ==
      if Qualifies(hrefs[i]) && hrefs[i] !in Qualifying(hrefs[..i]) then Qualifying(hrefs[..i]) + [hrefs[i]]
      else Qualifying(hrefs[..i])
  {
    assert hrefs[..i + 1][..i] == hrefs[..i];
  }

  lemma ScrapingStep(links: seq<string>, url: string, scrape: Scraper, name: string, kind: string)
    requires Scraping(links, scrape, name, kind).1
    ensures Scraping(links + [url], scrape, name, kind) ==
      match scrape(url, name, kind)
      case None => (Scraping(links, scrape, name, kind).0, false)
      case Some(a) => (Scraping(links, scrape, name, kind).0 + [a], true)
  {
    assert (links + [url])[..|links|] == links;
  }

  /** When the link after the first `i` fails, the whole walk stops there. */
  lemma WalkStopsAt(hrefs: seq<string>, i: nat, scrape: Scraper, name: string, kind: string)
    requires i < |hrefs|
    requires !Scraping(Qualifying(hrefs[..i + 1]), scrape, name, kind).1
    ensures Scraping(Qualifying(hrefs), scrape, name, kind) == Scraping(Qualifying(hrefs[..i + 1]), scrape, name, kind)
  {
    QualifyingPrefix(hrefs, i + 1);
    ScrapingStops(Qualifying(hrefs[..i + 1]), Qualifying(hrefs), scrape, name, kind);
  }

  /**
   * The walker's loop over the hrefs of a page: visits each link,
   * remembering the targets it has scraped, and upserts each record as
   * soon as it is scraped. A failing article ends the walk with count 0,
   * keeping what was already upserted.
   */
  method WalkLinks(db: Database, hrefs: seq<string>, scrape: Scraper, name: string, kind: string, table: string)
    returns (count: nat)
    requires db.Valid()
    modifies db.tables.Values
    ensures db.Valid()
    ensures var (arts, ok) := Scraping(Qualifying(hrefs), scrape, name, kind);
      db.Snapshot() == UpsertAllDb(old(db.Snapshot()), table, arts)
      && count == if ok then |Qualifying(hrefs)| else 0
  {
    var found: set<string> := {};
    var qty: nat := 0;
    ghost var visited: seq<string> := [];
    ghost var S0 := db.Snapshot();
    for i := 0 to |hrefs|
      invariant visited == Qualifying(hrefs[..i])
      invariant forall x :: x in found <==> x in visited
      invariant qty == |visited|
      invariant Scraping(visited, scrape, name, kind).1
      invariant db.Valid()
      invariant db.Snapshot() == UpsertAllDb(S0, table, Scraping(visited, scrape, name, kind).0)
    {
      var href := hrefs[i];
      QualifyingStep(hrefs, i);
      if Qualifies(href) && href !in found {
        found := found + {href};
        ScrapingStep(visited, href, scrape, name, kind);
        var a := scrape(href, name, kind);
        if a.None? {
          WalkStopsAt(hrefs, i, scrape, name, kind);
          return 0;
        }
        ghost var arts := Scraping(visited, scrape, name, kind).0;
        UpsertAllDbStep(S0, table, arts, a.value);
        var outcome := db.Upsert(table, a.value);
        qty := qty + 1;
        visited := visited + [href];
      }
    }
    assert hrefs[..|hrefs|] == hrefs;
    count := qty;
  }

  /** `scrap_obter_todas_noticias`: a page that cannot be fetched counts 0; otherwise its links are walked. */
  method WalkSearchPage(db: Database, page: Option<SearchPage>, scrape: Scraper, term: string, kind: string)
    returns (count: nat)
    requires db.Valid()
    modifies db.tables.Values
    ensures db.Valid()
    ensures db.Snapshot() == UpsertAllDb(old(db.Snapshot()), WalkerTable(term), Walk(page, scrape, term, kind).upserted)
    ensures count == Walk(page, scrape, term, kind).count
  {
    if page.None? {
      return 0;
    }
    count := WalkLinks(db, page.value.hrefs, scrape, TableName(term), kind, WalkerTable(term));
  }
}
