/**
 * One term's run: the probe of the first search page, which creates the
 * term's table, and the walk over search pages 1 to 20 that stops at the
 * first page counting 0.
 */
module Pagination {
  import opened Wrappers
  import opened Names
  import opened Store
  import opened ArticleFields
  import opened Walker

  /** Pages past this one repeat earlier results. */
  const MaxPage := 20

  /** The text the site shows on a search page without results. */
  const NoContentMarker := "No Content Found"

  /**
   * The database server as the probe finds it: reachable, refusing the
   * connection, or accepting it and then failing a statement.
   */
  datatype StoreStatus = Reachable | Unreachable | Failing

  /** What the probe of page 1 decides: report the term as empty, go on walking, or stop the whole process. */
  datatype ProbeResult = Empty | Proceed | Abort

  /** What a term's run gives back: the page number it stopped at and the links counted, or the process exiting. */
  datatype Outcome = Finished(pages: nat, totalLinks: nat) | Aborted

  /** The search pages as fetched, by page number; a missing page is a failed fetch. */
  function Fetch(search: map<nat, SearchPage>, n: nat): (r: Option<SearchPage>)
    ensures r.Some? <==> n in search
  {
    if n in search then Some(search[n]) else None
  }

  /**
   * `verificar_primeira_pagina_vazia` with the store failure treated as
   * fatal, which is what the code intends: a failed fetch or the marker
   * reports the term as empty and touches nothing; otherwise the term's
   * table is ensured, and a store that cannot be used stops the process.
   */
  function Probed(S: DbState, page1: Option<SearchPage>, term: string, status: StoreStatus): (r: (DbState, ProbeResult))
    ensures r.1 == Abort ==> r.0 == S
    ensures r.1 == Proceed ==> TableName(term) in r.0
  {
    match page1
    case None => (S, Empty)
    case Some(p) =>
      if NoContentMarker in p.strings then (S, Empty)
      else
        var (S', e) := Ensured(S, TableName(term), status == Reachable);
        (S', if e == Fatal then Abort else Proceed)
  }

  /**
   * The probe as the code is written: when the connection itself is
   * refused, the table function's clean-up reads a connection variable
   * that was never bound, the error raised there replaces the exit, and
   * the probe's own handler catches it and reports the term as empty.
   */
  function ProbedAsWritten(S: DbState, page1: Option<SearchPage>, term: string, status: StoreStatus): (r: (DbState, ProbeResult))
    ensures status != Unreachable ==> r == Probed(S, page1, term, status)
  {
    match page1
    case None => (S, Empty)
    case Some(p) =>
      if NoContentMarker in p.strings then (S, Empty)
      else if status == Unreachable then (S, Empty)
      else Probed(S, page1, term, status)
  }

  /** What the walker does on each of the search pages 1 to 20, at index page - 1. */
  type PageWalks = s: seq<WalkResult> | |s| == MaxPage witness seq(MaxPage, _ => WalkResult([], 0))

  /** The results of `walk` on the page numbers `n` to 20. */
  function WalksFrom(n: nat, walk: nat -> WalkResult): (r: seq<WalkResult>)
    requires 1 <= n <= MaxPage + 1
    ensures |r| == MaxPage + 1 - n
    decreases MaxPage + 1 - n
  {
    if n > MaxPage then [] else [walk(n)] + WalksFrom(n + 1, walk)
  }

  lemma {:induction false} WalksFromAt(n: nat, walk: nat -> WalkResult, k: nat)
    requires 1 <= n <= MaxPage + 1 && k < MaxPage + 1 - n
    ensures WalksFrom(n, walk)[k] == walk(n + k)
    decreases MaxPage + 1 - n
  {
    if k > 0 {
      WalksFromAt(n + 1, walk, k - 1);
    }
  }

  /** The walker on each fetched search page of a term. */
  function Walks(search: map<nat, SearchPage>, scrape: Scraper, term: string, kind: string): PageWalks {
    WalksFrom(1, (n: nat) => Walk(Fetch(search, n), scrape, term, kind))
  }

  /** The walk at index `k` is the walker on page `k + 1`. */
  lemma WalksAt(search: map<nat, SearchPage>, scrape: Scraper, term: string, kind: string, k: nat)
    requires k < MaxPage
    ensures Walks(search, scrape, term, kind)[k] == Walk(Fetch(search, k + 1), scrape, term, kind)
  {
    WalksFromAt(1, (n: nat) => Walk(Fetch(search, n), scrape, term, kind), k);
  }

  /** The records a walk from page `n` on upserts, the page it stops at, and the links it counts. */
  datatype Run = Run(upserted: seq<Article>, pages: nat, total: nat)

  /** The loop of `scrap_paginas` from page `n` on. */
  function PagesFrom(n: nat, walks: PageWalks): (r: Run)
    requires 1 <= n <= MaxPage + 1
    decreases MaxPage + 1 - n
  {
    if n > MaxPage then Run([], n, 0)
    else
      var w := walks[n - 1];
      if w.count == 0 then Run(w.upserted, n, 0)
      else
        var rest := PagesFrom(n + 1, walks);
        Run(w.upserted + rest.upserted, rest.pages, w.count + rest.total)
  }

  /** The rest of a term's run once the probe has decided. */
  function AfterProbe(probe: (DbState, ProbeResult), walks: PageWalks, term: string): (r: (DbState, Outcome))
    ensures r.1.Aborted? <==> probe.1 == Abort
    ensures probe.1 != Proceed ==> r.0 == probe.0
    ensures probe.1 == Proceed ==> r.1.Finished?
  {
    var (S1, pr) := probe;
    match pr
    case Empty => (S1, Finished(0, 0))
    case Abort => (S1, Aborted)
    case Proceed =>
      var run := PagesFrom(1, walks);
      (UpsertAllDb(S1, WalkerTable(term), run.upserted), Finished(run.pages, run.total))
  }

  /** `scrap_paginas` for the term as written in the search URL, given page 1 as the probe fetches it. */
  function TermRun(S: DbState, page1: Option<SearchPage>, walks: PageWalks, term: string, status: StoreStatus): (r: (DbState, Outcome))
    ensures r.1.Aborted? ==> r.0 == S && status != Reachable
    ensures r.1 == Finished(0, 0) ==> r.0 == S
  {
    AfterProbe(Probed(S, page1, term, status), walks, term)
  }

  /** `scrap_paginas` with the probe as written. */
  function TermRunAsWritten(S: DbState, page1: Option<SearchPage>, walks: PageWalks, term: string, status: StoreStatus): (r: (DbState, Outcome))
    ensures status != Unreachable ==> r == TermRun(S, page1, walks, term, status)
    ensures r.1.Aborted? ==> status == Failing
  {
    AfterProbe(ProbedAsWritten(S, page1, term, status), walks, term)
  }

  // ---------- Reference: the run in terms of the pages' counts ----------

  /** The counts the walker returns for pages `n` to 20. These do not depend on the database. */
  function CountsFrom(n: nat, walks: PageWalks): (r: seq<nat>)
    requires 1 <= n <= MaxPage + 1
    ensures |r| == MaxPage + 1 - n
    decreases MaxPage + 1 - n
  {
    if n > MaxPage then [] else [walks[n - 1].count] + CountsFrom(n + 1, walks)
  }

  /** The `k`-th count from page `n` is page `n + k`'s. */
  lemma {:induction false} CountsFromAt(n: nat, walks: PageWalks, k: nat)
    requires 1 <= n <= MaxPage + 1 && k < MaxPage + 1 - n
    ensures CountsFrom(n, walks)[k] == walks[n + k - 1].count
    decreases MaxPage + 1 - n
  {
    if k > 0 {
      CountsFromAt(n + 1, walks, k - 1);
    }
  }

  /** The number of leading non-zero counts: the pages walked before the first empty one. */
  function LeadingRun(cs: seq<nat>): (r: nat)
    ensures r <= |cs|
    ensures forall k :: 0 <= k < r ==> cs[k] != 0
    ensures r < |cs| ==> cs[r] == 0
  {
    if cs == [] || cs[0] == 0 then 0 else 1 + LeadingRun(cs[1..])
  }

  function Sum(cs: seq<nat>): nat {
    if cs == [] then 0 else cs[0] + Sum(cs[1..])
  }

  /** From page `n` on, the walk stops after the leading non-empty pages, having counted their sum. */
  lemma {:induction false} PagesFromCounts(n: nat, walks: PageWalks)
    requires 1 <= n <= MaxPage + 1
    ensures var cs := CountsFrom(n, walks);
      var run := PagesFrom(n, walks);
      run.pages == n + LeadingRun(cs) && run.total == Sum(cs[..LeadingRun(cs)])
    decreases MaxPage + 1 - n
  {
    var cs := CountsFrom(n, walks);
    if n <= MaxPage && walks[n - 1].count != 0 {
      var c := walks[n - 1].count;
      var rest := CountsFrom(n + 1, walks);
      assert cs == [c] + rest;
      assert cs[1..] == rest;
      var k := LeadingRun(rest);
      assert LeadingRun(cs) == 1 + k;
      PagesFromCounts(n + 1, walks);
      assert cs[..1 + k] == [c] + rest[..k];
      assert Sum(cs[..1 + k]) == c + Sum(rest[..k]) by {
        assert ([c] + rest[..k])[1..] == rest[..k];
      }
    } else {
      assert LeadingRun(cs) == 0;
      assert cs[..0] == [];
    }
  }

  /** The records of the walks in `ws`, in order. */
  function Flatten(ws: seq<WalkResult>): seq<Article> {
    if ws == [] then [] else ws[0].upserted + Flatten(ws[1..])
  }

  /** The last page a walk from page `n` on visits: the first page counting 0, or page 20. */
  function LastVisited(n: nat, walks: PageWalks): (r: nat)
    requires 1 <= n <= MaxPage + 1
    ensures n - 1 <= r <= MaxPage
    decreases MaxPage + 1 - n
  {
    if n > MaxPage then MaxPage
    else if walks[n - 1].count == 0 then n
    else LastVisited(n + 1, walks)
  }

  /**
   * From page `n` on, the walk stops at the last page it visits (or one
   * past page 20), and the records upserted are those of every page
   * visited, in page order.
   */
  lemma {:induction false} PagesFromRecords(n: nat, walks: PageWalks)
    requires 1 <= n <= MaxPage + 1
    ensures var run := PagesFrom(n, walks);
      && LastVisited(n, walks) == (if run.pages <= MaxPage then run.pages else MaxPage)
      && run.upserted == Flatten(walks[n - 1 .. LastVisited(n, walks)])
    decreases MaxPage + 1 - n
  {
    if n > MaxPage {
      assert walks[n - 1 .. LastVisited(n, walks)] == [];
    } else {
      var w := walks[n - 1];
      if w.count == 0 {
        var ws := walks[n - 1 .. n];
        assert ws == [w] && ws[1..] == [];
        assert Flatten(ws) == w.upserted + Flatten([]);
      } else {
        PagesFromRecords(n + 1, walks);
        var last := LastVisited(n + 1, walks);
        var ws := walks[n - 1 .. last];
        assert ws[0] == w && ws[1..] == walks[n .. last];
        assert Flatten(ws) == w.upserted + Flatten(walks[n .. last]);
      }
    }
  }

  /**
   * From page `n` on, the records upserted are those of the leading
   * non-empty pages followed by those of the first page counting 0, or of
   * every page up to 20 when no later page counts 0.
   */
  lemma PagesFromUpserted(n: nat, walks: PageWalks)
    requires 1 <= n <= MaxPage + 1
    ensures var run := LeadingRun(CountsFrom(n, walks));
      var stop := if n + run <= MaxPage then run + 1 else run;
      && n - 1 + stop <= MaxPage
      && PagesFrom(n, walks).upserted == Flatten(walks[n - 1 .. n - 1 + stop])
  {
    PagesFromCounts(n, walks);
    PagesFromRecords(n, walks);
  }

  /**
   * Once the probe lets the run go on, the term's table receives the
   * records of pages 1 up to the first page counting 0, or up to page 20.
   */
  lemma TermRunUpserted(S: DbState, page1: Option<SearchPage>, walks: PageWalks, term: string, status: StoreStatus)
    requires Probed(S, page1, term, status).1 == Proceed
    ensures var run := LeadingRun(CountsFrom(1, walks));
      var stop := if 1 + run <= MaxPage then run + 1 else run;
      TermRun(S, page1, walks, term, status).0
        == UpsertAllDb(Probed(S, page1, term, status).0, WalkerTable(term), Flatten(walks[0 .. stop]))
  {
    PagesFromUpserted(1, walks);
  }

  /**
   * Once the probe lets the run go on, the run ends at page 1 + the
   * number of leading non-empty pages, at most 21, having counted the sum
   * of their counts; every later page is left unvisited.
   */
  lemma TermRunCounts(S: DbState, page1: Option<SearchPage>, walks: PageWalks, term: string, status: StoreStatus)
    requires Probed(S, page1, term, status).1 == Proceed
    ensures var cs := CountsFrom(1, walks);
      var o := TermRun(S, page1, walks, term, status).1;
      && o == Finished(1 + LeadingRun(cs), Sum(cs[..LeadingRun(cs)]))
      && 1 <= o.pages <= MaxPage + 1
  {
    PagesFromCounts(1, walks);
  }

  /** A first page that cannot be fetched, or that shows the marker, gives (0, 0) and creates no table. */
  lemma EmptyFirstPage(S: DbState, page1: Option<SearchPage>, walks: PageWalks, term: string, status: StoreStatus)
    requires page1.None? || NoContentMarker in page1.value.strings
    ensures TermRun(S, page1, walks, term, status) == (S, Finished(0, 0))
  {
  }

  /** A store that cannot be used when the table is ensured stops the process and changes nothing. */
  lemma OutageAborts(S: DbState, page1: Option<SearchPage>, walks: PageWalks, term: string, status: StoreStatus)
    requires page1.Some? && NoContentMarker !in page1.value.strings
    requires status != Reachable
    ensures TermRun(S, page1, walks, term, status) == (S, Aborted)
  {
  }

  /** As written, a refused connection is reported as a term without results instead of stopping the process. */
  lemma OutageReportedEmpty(S: DbState, page1: Option<SearchPage>, walks: PageWalks, term: string)
    requires page1.Some? && NoContentMarker !in page1.value.strings
    ensures TermRunAsWritten(S, page1, walks, term, Unreachable) == (S, Finished(0, 0))
    ensures TermRun(S, page1, walks, term, Unreachable) == (S, Aborted)
  {
  }

  /** Only the term's own table is created or written; every other table keeps its contents. */
  lemma TermRunFrame(S: DbState, page1: Option<SearchPage>, walks: PageWalks, term: string, status: StoreStatus)
    ensures var S' := TermRun(S, page1, walks, term, status).0;
      && S.Keys <= S'.Keys <= S.Keys + {TableName(term)}
      && forall n :: n in S && n != TableName(term) ==> S'[n] == S[n]
  {
    var (S1, pr) := Probed(S, page1, term, status);
    if pr == Proceed {
      UpsertAllDbTable(S1, TableName(term), PagesFrom(1, walks).upserted);
    }
  }

  /**
   * The table the walker writes to is the one the probe ensured: the term
   * is renamed once before the table is ensured, and twice on its way to
   * the upsert.
   */
  lemma WalkerWritesProbedTable(S: DbState, page1: Option<SearchPage>, term: string, status: StoreStatus)
    requires Probed(S, page1, term, status).1 == Proceed
    ensures WalkerTable(term) in Probed(S, page1, term, status).0
    ensures WalkerTable(term) == TableName(term)
  {
  }

  /** Every page's records were scraped from their own links. */
  ghost predicate Sourced(walks: PageWalks, scrape: Scraper, term: string, kind: string) {
    forall i :: 0 <= i < |walks| ==> FromSource(walks[i].upserted, scrape, term, kind)
  }

  lemma WalksSourced(search: map<nat, SearchPage>, scrape: Scraper, term: string, kind: string)
    requires Keyed(scrape)
    ensures Sourced(Walks(search, scrape, term, kind), scrape, term, kind)
  {
    var walks := Walks(search, scrape, term, kind);
    forall i | 0 <= i < |walks| ensures FromSource(walks[i].upserted, scrape, term, kind) {
      WalksAt(search, scrape, term, kind, i);
      if 1 + i in search {
        WalkFacts(search[1 + i], scrape, term, kind);
      }
    }
  }

  lemma {:induction false} PagesFromSource(n: nat, walks: PageWalks, scrape: Scraper, term: string, kind: string)
    requires 1 <= n <= MaxPage + 1
    requires Sourced(walks, scrape, term, kind)
    ensures FromSource(PagesFrom(n, walks).upserted, scrape, term, kind)
    decreases MaxPage + 1 - n
  {
    if n <= MaxPage && walks[n - 1].count != 0 {
      PagesFromSource(n + 1, walks, scrape, term, kind);
      FromSourceAppend(walks[n - 1].upserted, PagesFrom(n + 1, walks).upserted, scrape, term, kind);
    }
  }

  /**
   * Running a term twice over unchanged pages is running it once: the
   * second run ends with the same database and the same result, and
   * each of its upserts finds the stored record unchanged.
   */
  lemma TermRunIdempotent(S: DbState, page1: Option<SearchPage>, walks: PageWalks, term: string, status: StoreStatus,
                          scrape: Scraper, kind: string)
    requires Sourced(walks, scrape, term, kind)
    ensures var (S1, o) := TermRun(S, page1, walks, term, status);
      TermRun(S1, page1, walks, term, status) == (S1, o)
    ensures var S1 := TermRun(S, page1, walks, term, status).0;
      var arts := PagesFrom(1, walks).upserted;
      Probed(S, page1, term, status).1 == Proceed ==>
        TableName(term) in S1 && forall i :: 0 <= i < |arts| ==> Upserted(S1[TableName(term)], arts[i]).1 == Unchanged
  {
    var (S0, pr) := Probed(S, page1, term, status);
    if pr == Proceed {
      var arts := PagesFrom(1, walks).upserted;
      PagesFromSource(1, walks, scrape, term, kind);
      FromSourceConsistent(arts, scrape, term, kind);
      UpsertAllDbIdempotent(S0, TableName(term), arts);
      ProbeAgain(S, UpsertAllDb(S0, TableName(term), arts), page1, term, status);
    }
  }

  /** A probe that went on goes on again, changing nothing, once the term's table exists. */
  lemma ProbeAgain(S: DbState, S': DbState, page1: Option<SearchPage>, term: string, status: StoreStatus)
    requires Probed(S, page1, term, status).1 == Proceed
    requires TableName(term) in S'
    ensures Probed(S', page1, term, status) == (S', Proceed)
  {
  }

  /** Field selection on the site's article pages keeps the link and the renamed term in each record. */
  lemma ArticleScraperKeyed(articles: map<string, ArticlePage>)
    ensures Keyed((url, name, kind) => ScrapedArticle(articles, url, name, kind))
  {
  }

  /**
   * Scraping the site a second time, with the search and article pages
   * unchanged, leaves the database and the result as the first run left
   * them.
   */
  lemma SiteRunIdempotent(S: DbState, search: map<nat, SearchPage>, articles: map<string, ArticlePage>,
                          term: string, kind: string, status: StoreStatus)
    ensures var scrape: Scraper := (url, name, kind) => ScrapedArticle(articles, url, name, kind);
      var walks := Walks(search, scrape, term, kind);
      var (S1, o) := TermRun(S, Fetch(search, 1), walks, term, status);
      TermRun(S1, Fetch(search, 1), walks, term, status) == (S1, o)
  {
    var scrape: Scraper := (url, name, kind) => ScrapedArticle(articles, url, name, kind);
    ArticleScraperKeyed(articles);
    WalksSourced(search, scrape, term, kind);
    TermRunIdempotent(S, Fetch(search, 1), Walks(search, scrape, term, kind), term, status, scrape, kind);
  }

  // ---------- The run as the code performs it ----------

  /** The probe: fetches nothing itself, but ensures the table when page 1 has results. */
  method ProbeFirstPage(db: Database, page1: Option<SearchPage>, term: string, status: StoreStatus) returns (r: ProbeResult)
    requires db.Valid()
    modifies db
    ensures db.Valid()
    ensures (db.Snapshot(), r) == Probed(old(db.Snapshot()), page1, term, status)
    ensures forall n :: n in old(db.tables) ==> n in db.tables && db.tables[n] == old(db.tables[n])
    ensures forall n :: n in db.tables && n !in old(db.tables) ==> fresh(db.tables[n])
  {
    if page1.None? || NoContentMarker in page1.value.strings {
      return Empty;
    }
    var e := db.EnsureTable(TableName(term), status == Reachable);
    r := if e == Fatal then Abort else Proceed;
  }

  /**
   * The loop's invariant: the records upserted so far and the links
   * counted so far, followed by the run from page `pages` on, make up
   * the run from page 1.
   */
  ghost predicate Walked(walks: PageWalks, done: seq<Article>, pages: nat, total: nat) {
    && 1 <= pages <= MaxPage + 1
    && var run := PagesFrom(1, walks);
       var rest := PagesFrom(pages, walks);
       run == Run(done + rest.upserted, rest.pages, total + rest.total)
  }

  /** One turn of the loop: a page counting 0 ends the run there; any other page is added on. */
  lemma WalkedStep(walks: PageWalks, done: seq<Article>, pages: nat, total: nat)
    requires pages <= MaxPage && Walked(walks, done, pages, total)
    ensures var w := walks[pages - 1];
      && (w.count == 0 ==> PagesFrom(1, walks) == Run(done + w.upserted, pages, total))
      && (w.count != 0 ==> Walked(walks, done + w.upserted, pages + 1, total + w.count))
  {
    var w := walks[pages - 1];
    if w.count != 0 {
      var rest := PagesFrom(pages + 1, walks);
      assert PagesFrom(pages, walks) == Run(w.upserted + rest.upserted, rest.pages, w.count + rest.total);
      assert done + (w.upserted + rest.upserted) == (done + w.upserted) + rest.upserted;
    }
  }

  /** Past page 20 the loop has walked the whole run. */
  lemma WalkedAll(walks: PageWalks, done: seq<Article>, total: nat)
    requires Walked(walks, done, MaxPage + 1, total)
    ensures PagesFrom(1, walks) == Run(done, MaxPage + 1, total)
  {
    assert done + [] == done;
  }

  /** One turn of the loop of `scrap_paginas`: the walker on search page `n`. */
  method WalkPage(db: Database, search: map<nat, SearchPage>, scrape: Scraper, term: string, kind: string, n: nat)
    returns (count: nat)
    requires 1 <= n <= MaxPage
    requires db.Valid()
    modifies db.tables.Values
    ensures db.Valid()
    ensures var w := Walks(search, scrape, term, kind)[n - 1];
      db.Snapshot() == UpsertAllDb(old(db.Snapshot()), WalkerTable(term), w.upserted) && count == w.count
  {
    WalksAt(search, scrape, term, kind, n - 1);
    count := WalkSearchPage(db, Fetch(search, n), scrape, term, kind);
  }

  /**
   * The loop of `scrap_paginas`: the walker on pages 1, 2, ... up to
   * 20, adding up the counts until a page counts 0.
   */
  method WalkPages(db: Database, search: map<nat, SearchPage>, scrape: Scraper, term: string, kind: string)
    returns (pages: nat, total: nat)
    requires db.Valid()
    modifies db.tables.Values
    ensures db.Valid()
    ensures var run := PagesFrom(1, Walks(search, scrape, term, kind));
      db.Snapshot() == UpsertAllDb(old(db.Snapshot()), WalkerTable(term), run.upserted)
      && pages == run.pages && total == run.total
  {
    ghost var walks := Walks(search, scrape, term, kind);
    ghost var S1 := db.Snapshot();
    ghost var done: seq<Article> := [];
    pages := 1;
    total := 0;
    while pages <= MaxPage
      invariant Walked(walks, done, pages, total)
      invariant db.Valid()
      invariant db.Snapshot() == UpsertAllDb(S1, WalkerTable(term), done)
      decreases MaxPage + 1 - pages
    {
      ghost var w := walks[pages - 1];
      var count := WalkPage(db, search, scrape, term, kind, pages);
      WalkedStep(walks, done, pages, total);
      UpsertAllDbAppend(S1, WalkerTable(term), done, w.upserted);
      done := done + w.upserted;
      if count == 0 {
        return;
      }
      total := total + count;
      pages := pages + 1;
    }
    WalkedAll(walks, done, total);
  }

  /** `scrap_paginas`: the probe, then the walk over the pages when the probe lets it go on. */
  method ScrapPages(db: Database, search: map<nat, SearchPage>, scrape: Scraper, term: string, kind: string, status: StoreStatus)
    returns (o: Outcome)
    requires db.Valid()
    modifies db, db.tables.Values
    ensures db.Valid()
    ensures (db.Snapshot(), o) == TermRun(old(db.Snapshot()), Fetch(search, 1), Walks(search, scrape, term, kind), term, status)
  {
    var probe := ProbeFirstPage(db, Fetch(search, 1), term, status);
    if probe == Empty {
      return Finished(0, 0);
    } else if probe == Abort {
      return Aborted;
    }
    var pages, total := WalkPages(db, search, scrape, term, kind);
    o := Finished(pages, total);
  }
}
