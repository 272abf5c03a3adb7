/**
 * scraper2.py: listings read as two parallel element lists. `scrape` pairs
 * the i-th seller with the i-th price up to the shorter list's length,
 * skips the positions whose price is a buy-button label, and returns what
 * it has gathered as soon as anything raises; `main` saves every non-empty
 * page in one batch and calls `go_to_next_page` after each saved page,
 * within a budget of five pages.
 */
module Scraper2 {
  import opened Browser
  import opened Database
  import opened Pager
  import opened PageLoop

  const MaxPages := 5
  const TableName := "table name"

  /** The `(seller, price)` tuple `scrape` appends. */
  datatype Row = Row(seller: string, price: string)

  /**
   * One rendered page as the driver answers it: the seller elements and the
   * price elements (each list, or the exception raised while waiting for or
   * locating it), per element its text or the exception reading it raised,
   * and the pagination bar.
   */
  datatype View = View(sellers: Lookup<seq<Lookup<string>>>, prices: Lookup<seq<Lookup<string>>>,
                       bar: Lookup<seq<Button>>)

  /** The page shown after the site's last page: the waits time out. */
  const Blank := View(Raised(Timeout), Raised(Timeout), Raised(Timeout))

  /** The page the browser shows after `p` successful navigations. */
  function ViewAt(site: seq<View>, p: nat): View
  {
    if p < |site| then site[p] else Blank
  }

  /** The labels of the buy buttons, which share the price elements' classes. */
  predicate IsPlaceholder(price: string)
  {
    price == "Unit price" || price == "Buy now"
  }

  /** `min(len(sellers), len(prices))`. */
  function Shortest(sellers: seq<Lookup<string>>, prices: seq<Lookup<string>>): (n: nat)
    ensures n <= |sellers| && n <= |prices| && (n == |sellers| || n == |prices|)
  {
    if |sellers| < |prices| then |sellers| else |prices|
  }

  /** The rows `scrape` gathers from position `i` of the two lists on. */
  function RowsFrom(sellers: seq<Lookup<string>>, prices: seq<Lookup<string>>, i: nat): seq<Row>
    requires i <= Shortest(sellers, prices)
    decreases Shortest(sellers, prices) - i
  {
    if i == Shortest(sellers, prices) || sellers[i].Raised? || prices[i].Raised? then []
    else
      var row := PairAt(sellers, prices, i);
      (if IsPlaceholder(row.price) then [] else [row]) + RowsFrom(sellers, prices, i + 1)
  }

  /** A position whose seller and price were both read contributes its pair unless the price is a placeholder. */
  lemma ScrapeStep(sellers: seq<Lookup<string>>, prices: seq<Lookup<string>>, i: nat, done: seq<Row>)
    requires i < Shortest(sellers, prices) && sellers[i].Found? && prices[i].Found?
    ensures var row := PairAt(sellers, prices, i);
            done + RowsFrom(sellers, prices, i) ==
              (if IsPlaceholder(row.price) then done else done + [row]) + RowsFrom(sellers, prices, i + 1)
  {
    var row, rest := PairAt(sellers, prices, i), RowsFrom(sellers, prices, i + 1);
    if IsPlaceholder(row.price) {
      assert done + ([] + rest) == done + rest;
    } else {
      AppendAssociates(done, [row], rest);
    }
  }

  /** What `scrape` returns for a page: nothing when either list cannot be located. */
  function Rows(view: View): seq<Row>
  {
    if view.sellers.Raised? || view.prices.Raised? then []
    else RowsFrom(view.sellers.value, view.prices.value, 0)
  }

  /**
   * The first position from `i` on, below the shorter list's length, whose
   * seller or price text cannot be read; that length when there is none.
   */
  function FirstUnreadable(sellers: seq<Lookup<string>>, prices: seq<Lookup<string>>, i: nat): (k: nat)
    requires i <= Shortest(sellers, prices)
    ensures i <= k <= Shortest(sellers, prices)
    ensures forall j :: i <= j < k ==> sellers[j].Found? && prices[j].Found?
    ensures k < Shortest(sellers, prices) ==> sellers[k].Raised? || prices[k].Raised?
    decreases Shortest(sellers, prices) - i
  {
    if i == Shortest(sellers, prices) || sellers[i].Raised? || prices[i].Raised? then i
    else FirstUnreadable(sellers, prices, i + 1)
  }

  /** Seller j paired with price j for each position j from `i` to `k - 1`. */
  function Pairs(sellers: seq<Lookup<string>>, prices: seq<Lookup<string>>, i: nat, k: nat): seq<Row>
    requires i <= k <= |sellers| && k <= |prices|
  {
    seq(k - i, n requires 0 <= n < k - i => PairAt(sellers, prices, i + n))
  }

  /** The stripped seller and price texts at position `i`. */
  function PairAt(sellers: seq<Lookup<string>>, prices: seq<Lookup<string>>, i: nat): Row
    requires i < |sellers| && i < |prices|
  {
    Row(Strip(Text(sellers[i])), Strip(Text(prices[i])))
  }

  /** The text an element read produced; used only where the read succeeded. */
  function Text(l: Lookup<string>): string
  {
    if l.Found? then l.value else ""
  }

  /** `rows` without those whose price is a placeholder, in their order. */
  function WithoutPlaceholders(rows: seq<Row>): (r: seq<Row>)
    ensures |r| <= |rows|
  {
    if rows == [] then []
    else (if IsPlaceholder(rows[0].price) then [] else [rows[0]]) + WithoutPlaceholders(rows[1..])
  }

  /** Filtering keeps exactly the rows whose price is not a placeholder. */
  lemma {:induction false} WithoutPlaceholdersKeeps(rows: seq<Row>)
    ensures forall x :: x in WithoutPlaceholders(rows) <==> x in rows && !IsPlaceholder(x.price)
  {
    if rows != [] {
      WithoutPlaceholdersKeeps(rows[1..]);
      assert rows == [rows[0]] + rows[1..];
    }
  }

  lemma PairsSplit(sellers: seq<Lookup<string>>, prices: seq<Lookup<string>>, i: nat, k: nat)
    requires i < k <= |sellers| && k <= |prices|
    ensures Pairs(sellers, prices, i, k) ==
              [PairAt(sellers, prices, i)] + Pairs(sellers, prices, i + 1, k)
  {
    var pairs, rest := Pairs(sellers, prices, i, k), Pairs(sellers, prices, i + 1, k);
    forall n | 1 <= n < |pairs|
      ensures pairs[n] == rest[n - 1]
    {
    }
  }

  lemma WithoutPlaceholdersSplit(row: Row, rows: seq<Row>)
    ensures WithoutPlaceholders([row] + rows) ==
              (if IsPlaceholder(row.price) then [] else [row]) + WithoutPlaceholders(rows)
  {
    assert ([row] + rows)[1..] == rows;
  }

  lemma {:induction false} RowsFromArePairs(sellers: seq<Lookup<string>>, prices: seq<Lookup<string>>, i: nat)
    requires i <= Shortest(sellers, prices)
    ensures var k := FirstUnreadable(sellers, prices, i);
            RowsFrom(sellers, prices, i) == WithoutPlaceholders(Pairs(sellers, prices, i, k))
    decreases Shortest(sellers, prices) - i
  {
    var k := FirstUnreadable(sellers, prices, i);
    if i < k {
      var row := PairAt(sellers, prices, i);
      assert k == FirstUnreadable(sellers, prices, i + 1);
      RowsFromArePairs(sellers, prices, i + 1);
      PairsSplit(sellers, prices, i, k);
      WithoutPlaceholdersSplit(row, Pairs(sellers, prices, i + 1, k));
    } else {
      assert |Pairs(sellers, prices, i, k)| == 0;
    }
  }

  /**
   * `scrape` pairs seller i with price i, both stripped, for every position
   * before the first one whose text cannot be read (at most the shorter
   * list's length), and keeps, in order, the pairs whose price is not a
   * placeholder.
   */
  lemma RowsArePairsWithoutPlaceholders(view: View)
    requires view.sellers.Found? && view.prices.Found?
    ensures var sellers, prices := view.sellers.value, view.prices.value;
            Rows(view) == WithoutPlaceholders(Pairs(sellers, prices, 0, FirstUnreadable(sellers, prices, 0)))
  {
    RowsFromArePairs(view.sellers.value, view.prices.value, 0);
  }

  /**
   * A page whose lists cannot be located yields nothing; otherwise there
   * are at most as many rows as the shorter list has elements; no row has a
   * placeholder price, and every row is a stripped seller and price read at
   * the same position.
   */
  lemma RowsBounded(view: View)
    ensures view.sellers.Raised? || view.prices.Raised? ==> |Rows(view)| == 0
    ensures view.sellers.Found? && view.prices.Found? ==>
              |Rows(view)| <= Shortest(view.sellers.value, view.prices.value)
    ensures forall r :: r in Rows(view) ==> !IsPlaceholder(r.price)
    ensures view.sellers.Found? && view.prices.Found? ==>
              forall r :: r in Rows(view) ==>
                exists j :: 0 <= j < Shortest(view.sellers.value, view.prices.value) &&
                            view.sellers.value[j].Found? && view.prices.value[j].Found? &&
                            r == Row(Strip(view.sellers.value[j].value), Strip(view.prices.value[j].value))
  {
    if view.sellers.Found? && view.prices.Found? {
      var sellers, prices := view.sellers.value, view.prices.value;
      var k := FirstUnreadable(sellers, prices, 0);
      var pairs := Pairs(sellers, prices, 0, k);
      RowsArePairsWithoutPlaceholders(view);
      WithoutPlaceholdersKeeps(pairs);
      forall r | r in Rows(view)
        ensures exists j :: 0 <= j < Shortest(sellers, prices) &&
                            sellers[j].Found? && prices[j].Found? &&
                            r == Row(Strip(sellers[j].value), Strip(prices[j].value))
      {
        var j :| 0 <= j < |pairs| && pairs[j] == r;
        assert pairs[j] == PairAt(sellers, prices, j);
      }
    }
  }

  /**
   * `scrape`: wait for and locate both lists, then walk the positions below
   * the shorter length; an exception ends the walk with the rows so far.
   */
  method Scrape(view: View) returns (results: seq<Row>)
    ensures results == Rows(view)
  {
    results := [];
    if view.sellers.Raised? || view.prices.Raised? {
      return;
    }
    var sellers, prices := view.sellers.value, view.prices.value;
    for i := 0 to Shortest(sellers, prices)
      invariant results + RowsFrom(sellers, prices, i) == Rows(view)
    {
      var seller := sellers[i];
      if seller.Raised? {
        assert results + [] == results;
        return;
      }
      var price := prices[i];
      if price.Raised? {
        assert results + [] == results;
        return;
      }
      var row := Row(Strip(seller.value), Strip(price.value));
      assert row == PairAt(sellers, prices, i);
      ScrapeStep(sellers, prices, i, results);
      if !IsPlaceholder(row.price) {
        results := results + [row];
      }
    }
    assert results + [] == results;
  }

  /** What `scrape` returns on each page of the site. */
  function Scraped(site: seq<View>): nat -> seq<Row>
  {
    (p: nat) => Rows(ViewAt(site, p))
  }

  /** Whether `go_to_next_page` succeeds from each page of the site. */
  function Moves(site: seq<View>): nat -> bool
  {
    (p: nat) => GoToNextPage(ViewAt(site, p).bar)
  }

  /** The whole page loop, from `page_number = 1` on the site's first page. */
  function Session(site: seq<View>): Outcome<Row>
  {
    Paging(Scraped(site), Moves(site), MaxPages, 0)
  }

  /**
   * Every page the loop saves is saved once, in site order, with exactly
   * the rows scraped from it, and none of them is empty, so there are at
   * most `max_pages` saves; each saved page is followed by one call of
   * `go_to_next_page`, the last budgeted page included.
   */
  lemma SessionSavesEachNonEmptyPage(site: seq<View>)
    ensures |Session(site).saved| <= MaxPages
    ensures Session(site).navigations == |Session(site).saved|
    ensures forall j :: 0 <= j < |Session(site).saved| ==>
              Session(site).saved[j] == Rows(ViewAt(site, j)) && |Session(site).saved[j]| > 0
  {
    PagingSaves(Scraped(site), Moves(site), MaxPages, 0);
    var s := Session(site).saved;
    forall j | 0 <= j < |s|
      ensures s[j] == Rows(ViewAt(site, j)) && |s[j]| > 0
    {
      assert s[j - 0] == Scraped(site)(j);
    }
  }

  /** Every navigation but a failing last one moved the browser on, so page p is the site's p-th page. */
  lemma SessionNavigatesBetweenSaves(site: seq<View>)
    ensures forall j :: 0 <= j < |Session(site).saved| - 1 ==> GoToNextPage(ViewAt(site, j).bar)
  {
    var moves := Moves(site);
    PagingNavigates(Scraped(site), moves, MaxPages, 0);
    forall j | 0 <= j < |Session(site).saved| - 1
      ensures GoToNextPage(ViewAt(site, j).bar)
    {
      assert moves(j);
    }
  }

  /** The loop ends on an empty page, a failed navigation or the page budget. */
  lemma SessionStops(site: seq<View>)
    ensures Session(site).stop in {EmptyPage, NavigationFailed, BudgetExhausted}
  {
    PagingStops(Scraped(site), Moves(site), MaxPages, 0);
  }

  /** An empty page within the budget ends the loop; it is the page after the last saved one. */
  lemma EmptyPageStops(site: seq<View>)
    requires Session(site).stop == EmptyPage
    ensures |Session(site).saved| < MaxPages
    ensures |Rows(ViewAt(site, |Session(site).saved|))| == 0
  {
    var scraped := Scraped(site);
    PagingStops(scraped, Moves(site), MaxPages, 0);
    assert |scraped(0 + |Session(site).saved|)| == 0;
  }

  /** A failed navigation ends the loop right after the page it was called from was saved. */
  lemma NavigationFailureStops(site: seq<View>)
    requires Session(site).stop == NavigationFailed
    ensures 1 <= |Session(site).saved|
    ensures !GoToNextPage(ViewAt(site, |Session(site).saved| - 1).bar)
  {
    var moves := Moves(site);
    PagingStops(Scraped(site), moves, MaxPages, 0);
    assert !moves(0 + |Session(site).saved| - 1);
  }

  /**
   * The budget runs out only after all `max_pages` pages were saved and the
   * navigation from each of them succeeded, the last one's included.
   */
  lemma BudgetStops(site: seq<View>)
    requires Session(site).stop == BudgetExhausted
    ensures |Session(site).saved| == MaxPages
    ensures forall j :: 0 <= j < MaxPages ==> GoToNextPage(ViewAt(site, j).bar)
  {
    var moves := Moves(site);
    PagingStops(Scraped(site), moves, MaxPages, 0);
    PagingNavigates(Scraped(site), moves, MaxPages, 0);
    forall j | 0 <= j < MaxPages
      ensures GoToNextPage(ViewAt(site, j).bar)
    {
      assert moves(j);
    }
  }

  /**
   * The page loop of `main` with `max_pages == maxPages`, on a connection
   * with no open transaction, where `scraped` and `moves` are what `scrape`
   * and `go_to_next_page` give on each page: it runs `Paging` over them,
   * and the rows it leaves committed are those of the pages the server
   * accepted whole.
   */
  method Crawl(conn: Connection<Row>, site: seq<View>, maxPages: nat,
               ghost scraped: nat -> seq<Row>, ghost moves: nat -> bool)
    returns (ghost outcome: Outcome<Row>)
    modifies conn
    requires conn.pending == []
    requires forall p: nat {:trigger ViewAt(site, p)} :: scraped(p) == Rows(ViewAt(site, p))
    requires forall p: nat {:trigger ViewAt(site, p)} :: moves(p) == GoToNextPage(ViewAt(site, p).bar)
    ensures outcome == Paging(scraped, moves, maxPages, 0)
    ensures conn.tables == old(conn.tables) && conn.pending == []
    ensures conn.committed == old(conn.committed) + AcceptedBatches(outcome.saved, conn.rejects)
  {
    var page := 1;
    while page <= maxPages
      invariant 1 <= page <= maxPages + 1
      invariant Advances(scraped, moves, page - 1)
      invariant conn.tables == old(conn.tables) && conn.pending == []
      invariant conn.committed == old(conn.committed) + AcceptedBatches(Pages(scraped, page - 1), conn.rejects)
    {
      var view := ViewAt(site, page - 1);
      var items := Scrape(view);
      assert items == scraped(page - 1);
      if |items| == 0 {
        PagingStopsEmpty(scraped, moves, maxPages, page - 1);
        return Outcome(EmptyPage, Pages(scraped, page - 1), page - 1);
      }
      ghost var before, pending := conn.committed, conn.pending;
      SaveToDb(conn, items);
      CommitBatch(old(conn.committed), before, pending, conn.committed, Pages(scraped, page - 1), items, conn.rejects);
      var moved := GoToNextPage(view.bar);
      assert moved == moves(page - 1);
      if !moved {
        PagingStopsNavigation(scraped, moves, maxPages, page - 1);
        return Outcome(NavigationFailed, Pages(scraped, page), page);
      }
      page := page + 1;
    }
    PagingStopsBudget(scraped, moves, maxPages);
    outcome := Outcome(BudgetExhausted, Pages(scraped, maxPages), maxPages);
  }

  /**
   * `main`, from the database connection on (a null `conn` is a failed
   * `psycopg2.connect`). The ghost result records what the page loop did,
   * which is `Session(site)`; the rows left committed are those of the
   * batches the server accepted.
   */
  method Run(conn: Connection?<Row>, site: seq<View>) returns (ghost outcome: Outcome<Row>)
    modifies conn
    ensures conn == null ==> outcome == Outcome(NotStarted, [], 0)
    ensures conn != null ==>
              && outcome == Session(site)
              && conn.tables == old(conn.tables) + {TableName}
              && conn.pending == []
              && conn.committed == old(conn.committed) + old(conn.pending) + AcceptedBatches(outcome.saved, conn.rejects)
  {
    if conn == null {
      return Outcome(NotStarted, [], 0);
    }
    conn.CreateTable(TableName);
    outcome := Crawl(conn, site, MaxPages, Scraped(site), Moves(site));
  }
}
