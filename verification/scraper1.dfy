/**
 * scraper1.py: listings addressed by position. `scrape_data` probes the
 * listing containers 1, 2, ..., 99 and stops at the first one whose three
 * elements cannot all be read; `main` saves each non-empty page in one
 * batch and navigates while the (already incremented) page counter is
 * within the budget of two pages.
 */
module Scraper1 {
  import opened Browser
  import opened Database
  import opened Pager
  import opened PageLoop

  /** `range(1, 100)`: the highest container index probed. */
  const LastIndex := 99
  const MaxPages := 2
  const TableName := "table name"

  /** The raw text of the account, seller and price elements of one listing container. */
  datatype Listing = Listing(account: string, seller: string, price: string)

  /**
   * One rendered page as the driver answers it: per container index i
   * (from 1), `listings[i - 1]` is the listing read there or the exception
   * raised; indices past the end time out. `bar` is the pagination bar.
   */
  datatype View = View(listings: seq<Lookup<Listing>>, bar: Lookup<seq<Button>>)

  /** The page shown after the site's last page: nothing to read, no bar. */
  const Blank := View([], Raised(Timeout))

  /** The page the browser shows after `p` successful navigations. */
  function ViewAt(site: seq<View>, p: nat): View
  {
    if p < |site| then site[p] else Blank
  }

  /** The driver's answer for container `i`. */
  function Probe(listings: seq<Lookup<Listing>>, i: nat): Lookup<Listing>
    requires 1 <= i
  {
    if i <= |listings| then listings[i - 1] else Raised(Timeout)
  }

  /** One row of the table: the `(account, seller, price)` tuple `scrape_data` appends. */
  datatype Offer = Offer(account: string, seller: string, price: string)

  /** The stored tuple: every field is the stripped text of its element. */
  function Record(l: Listing): Offer
  {
    Offer(Strip(l.account), Strip(l.seller), Strip(l.price))
  }

  /**
   * The records `scrape_data` collects from container `i` on, `record`
   * turning the texts read from a container into the stored tuple.
   */
  function OffersFrom(listings: seq<Lookup<Listing>>, record: Listing -> Offer, i: nat): seq<Offer>
    requires 1 <= i <= LastIndex + 1
    decreases LastIndex + 1 - i
  {
    if i > LastIndex then []
    else
      match Probe(listings, i)
      case Found(l) => [record(l)] + OffersFrom(listings, record, i + 1)
      case Raised(_) => []
  }

  /** The records `scrape_data` returns for a page. */
  function Offers(listings: seq<Lookup<Listing>>): seq<Offer>
  {
    OffersFrom(listings, Record, 1)
  }

  lemma {:induction false} OffersFromRun(listings: seq<Lookup<Listing>>, record: Listing -> Offer, i: nat)
    requires 1 <= i <= LastIndex + 1
    ensures i + |OffersFrom(listings, record, i)| <= LastIndex + 1
    ensures forall j :: i <= j < i + |OffersFrom(listings, record, i)| ==>
              Probe(listings, j).Found? && OffersFrom(listings, record, i)[j - i] == record(Probe(listings, j).value)
    ensures i + |OffersFrom(listings, record, i)| <= LastIndex ==>
              Probe(listings, i + |OffersFrom(listings, record, i)|).Raised?
    decreases LastIndex + 1 - i
  {
    if i <= LastIndex && Probe(listings, i).Found? {
      var r, rest := OffersFrom(listings, record, i), OffersFrom(listings, record, i + 1);
      OffersFromRun(listings, record, i + 1);
      assert r == [record(Probe(listings, i).value)] + rest;
      forall j | i < j < i + |r|
        ensures Probe(listings, j).Found? && r[j - i] == record(Probe(listings, j).value)
      {
        assert r[j - i] == rest[j - (i + 1)];
      }
    }
  }

  /**
   * The records of a page are those of containers 1 .. k-1, in index
   * order, where k is the first container whose lookup raised; there are
   * at most 99 of them.
   */
  lemma OffersArePrefixUntilFirstFailure(listings: seq<Lookup<Listing>>)
    ensures |Offers(listings)| <= LastIndex
    ensures forall j :: 1 <= j <= |Offers(listings)| ==>
              Probe(listings, j).Found? && Offers(listings)[j - 1] == Record(Probe(listings, j).value)
    ensures |Offers(listings)| < LastIndex ==> Probe(listings, |Offers(listings)| + 1).Raised?
  {
    OffersFromRun(listings, Record, 1);
    var r := Offers(listings);
    forall j | 1 <= j <= |r|
      ensures Probe(listings, j).Found? && r[j - 1] == Record(Probe(listings, j).value)
    {
      assert 1 <= j < 1 + |OffersFrom(listings, Record, 1)|;
    }
  }

  lemma {:induction false} OffersFromIgnoreLaterContainers(a: seq<Lookup<Listing>>, b: seq<Lookup<Listing>>,
                                                           record: Listing -> Offer, i: nat)
    requires 1 <= i <= LastIndex + 1
    requires forall j :: i <= j <= i + |OffersFrom(a, record, i)| && j <= LastIndex ==> Probe(a, j) == Probe(b, j)
    ensures OffersFrom(a, record, i) == OffersFrom(b, record, i)
    decreases LastIndex + 1 - i
  {
    if i <= LastIndex && Probe(a, i).Found? {
      OffersFromIgnoreLaterContainers(a, b, record, i + 1);
    }
  }

  /**
   * Nothing after the first failing container is consulted: two pages that
   * agree on containers 1 .. k, k being the first failing one, give the
   * same records.
   */
  lemma OffersIgnoreLaterContainers(a: seq<Lookup<Listing>>, b: seq<Lookup<Listing>>)
    requires forall j :: 1 <= j <= |Offers(a)| + 1 && j <= LastIndex ==> Probe(a, j) == Probe(b, j)
    ensures Offers(a) == Offers(b)
  {
    OffersFromIgnoreLaterContainers(a, b, Record, 1);
  }

  /** `scrape_data`: the `for i in range(1, 100)` loop that breaks at the first exception. */
  method ScrapeData(listings: seq<Lookup<Listing>>) returns (items: seq<Offer>)
    ensures items == Offers(listings)
  {
    items := [];
    var i := 1;
    while i <= LastIndex
      invariant 1 <= i <= LastIndex + 1
      invariant items + OffersFrom(listings, Record, i) == Offers(listings)
    {
      var probe := Probe(listings, i);
      if probe.Raised? {
        break;
      }
      items := items + [Record(probe.value)];
      i := i + 1;
    }
  }

  /**
   * The page loop of `main` entered with `page_number == page` and the
   * browser on the site's page `shown`, where `scraped(p)` is what
   * `scrape_data` returns on the site's page p and `moves(p)` whether
   * `go_to_next_page` succeeds from it: stop on an empty page; save;
   * increment the counter; navigate only while the counter is within the
   * budget, stopping when navigation fails.
   */
  function SessionFrom(scraped: nat -> seq<Offer>, moves: nat -> bool, page: nat, shown: nat): Outcome<Offer>
    requires 1 <= page <= MaxPages + 1
    decreases MaxPages + 1 - page
  {
    if page > MaxPages then Outcome(BudgetExhausted, [], 0)
    else if |scraped(shown)| == 0 then Outcome(EmptyPage, [], 0)
    else if page + 1 > MaxPages then After(scraped(shown), 0, SessionFrom(scraped, moves, page + 1, shown))
    else if !moves(shown) then Outcome(NavigationFailed, [scraped(shown)], 1)
    else After(scraped(shown), 1, SessionFrom(scraped, moves, page + 1, shown + 1))
  }

  /** What `scrape_data` returns on each page of the site. */
  function Scraped(site: seq<View>): nat -> seq<Offer>
  {
    (p: nat) => Offers(ViewAt(site, p).listings)
  }

  /** Whether `go_to_next_page` succeeds from each page of the site. */
  function Moves(site: seq<View>): nat -> bool
  {
    (p: nat) => GoToNextPage(ViewAt(site, p).bar)
  }

  /** The whole page loop, from `page_number = 1` on the site's first page. */
  function Session(site: seq<View>): Outcome<Offer>
  {
    SessionFrom(Scraped(site), Moves(site), 1, 0)
  }

  lemma {:induction false} SessionFromSaves(scraped: nat -> seq<Offer>, moves: nat -> bool, page: nat, shown: nat)
    requires 1 <= page <= MaxPages + 1
    ensures |SessionFrom(scraped, moves, page, shown).saved| <= MaxPages + 1 - page
    ensures forall j :: shown <= j < shown + |SessionFrom(scraped, moves, page, shown).saved| ==>
              SessionFrom(scraped, moves, page, shown).saved[j - shown] == scraped(j) && |scraped(j)| > 0
    decreases MaxPages + 1 - page
  {
    if page <= MaxPages && |scraped(shown)| > 0 {
      var o := SessionFrom(scraped, moves, page, shown);
      var next := if page + 1 > MaxPages then shown else shown + 1;
      if page + 1 > MaxPages || moves(shown) {
        var rest := SessionFrom(scraped, moves, page + 1, next);
        SessionFromSaves(scraped, moves, page + 1, next);
        assert o.saved == [scraped(shown)] + rest.saved;
        forall j | shown < j < shown + |o.saved|
          ensures o.saved[j - shown] == scraped(j) && |scraped(j)| > 0
        {
          assert next == shown + 1 && o.saved[j - shown] == rest.saved[j - next];
        }
      }
    }
  }

  /**
   * Every page the loop saves is saved once, in site order, with exactly
   * the records scraped from it, and none of them is empty; an empty page
   * is never saved, so there are at most `max_pages` saves.
   */
  lemma SessionSavesEachNonEmptyPage(site: seq<View>)
    ensures |Session(site).saved| <= MaxPages
    ensures forall j :: 0 <= j < |Session(site).saved| ==>
              Session(site).saved[j] == Offers(ViewAt(site, j).listings) && |Session(site).saved[j]| > 0
  {
    SessionFromSaves(Scraped(site), Moves(site), 1, 0);
    var s := Session(site).saved;
    forall j | 0 <= j < |s|
      ensures s[j] == Offers(ViewAt(site, j).listings) && |s[j]| > 0
    {
      assert s[j - 0] == Scraped(site)(j);
    }
  }

  lemma {:induction false} SessionFromStops(scraped: nat -> seq<Offer>, moves: nat -> bool, page: nat, shown: nat)
    requires 1 <= page <= MaxPages + 1
    ensures var o := SessionFrom(scraped, moves, page, shown);
            && o.stop in {EmptyPage, NavigationFailed, BudgetExhausted}
            && (o.stop == EmptyPage ==> o.navigations == |o.saved| && |scraped(shown + |o.saved|)| == 0)
            && (o.stop == NavigationFailed ==>
                  && 1 <= |o.saved| && page - 1 + |o.saved| < MaxPages && o.navigations == |o.saved|
                  && !moves(shown + |o.saved| - 1))
            && (o.stop == BudgetExhausted ==>
                  && page - 1 + |o.saved| == MaxPages
                  && o.navigations + (if page > MaxPages then 0 else 1) == |o.saved|)
    decreases MaxPages + 1 - page
  {
    if page <= MaxPages && |scraped(shown)| > 0 {
      var o := SessionFrom(scraped, moves, page, shown);
      if page + 1 > MaxPages {
        SessionFromStops(scraped, moves, page + 1, shown);
        assert o == After(scraped(shown), 0, SessionFrom(scraped, moves, page + 1, shown));
      } else if moves(shown) {
        SessionFromStops(scraped, moves, page + 1, shown + 1);
        assert o == After(scraped(shown), 1, SessionFrom(scraped, moves, page + 1, shown + 1));
      }
    }
  }

  lemma {:induction false} SessionFromNavigates(scraped: nat -> seq<Offer>, moves: nat -> bool, page: nat, shown: nat)
    requires 1 <= page <= MaxPages + 1
    ensures var o := SessionFrom(scraped, moves, page, shown);
            forall j :: shown <= j < shown + |o.saved| - 1 ==> moves(j)
    decreases MaxPages + 1 - page
  {
    if page < MaxPages && |scraped(shown)| > 0 && moves(shown) {
      var o, rest := SessionFrom(scraped, moves, page, shown), SessionFrom(scraped, moves, page + 1, shown + 1);
      SessionFromNavigates(scraped, moves, page + 1, shown + 1);
      assert |o.saved| == 1 + |rest.saved|;
    }
  }

  /** The loop ends on an empty page, a failed navigation or the page budget. */
  lemma SessionStops(site: seq<View>)
    ensures Session(site).stop in {EmptyPage, NavigationFailed, BudgetExhausted}
  {
    SessionFromStops(Scraped(site), Moves(site), 1, 0);
  }

  /**
   * An empty page stops the loop with one navigation per saved page; the
   * empty page is the one after the last saved page.
   */
  lemma EmptyPageStops(site: seq<View>)
    requires Session(site).stop == EmptyPage
    ensures Session(site).navigations == |Session(site).saved|
    ensures |Offers(ViewAt(site, |Session(site).saved|).listings)| == 0
  {
    var scraped, moves := Scraped(site), Moves(site);
    SessionFromStops(scraped, moves, 1, 0);
    var n := |Session(site).saved|;
    assert |scraped(0 + n)| == 0;
  }

  /**
   * A failed navigation stops the loop after a saved page that was not the
   * last one the budget allows, and it is counted as a navigation.
   */
  lemma NavigationFailureStops(site: seq<View>)
    requires Session(site).stop == NavigationFailed
    ensures 1 <= |Session(site).saved| < MaxPages
    ensures Session(site).navigations == |Session(site).saved|
    ensures !GoToNextPage(ViewAt(site, |Session(site).saved| - 1).bar)
  {
    var scraped, moves := Scraped(site), Moves(site);
    SessionFromStops(scraped, moves, 1, 0);
    var n := |Session(site).saved|;
    assert !moves(0 + n - 1);
  }

  /**
   * When the budget runs out all `max_pages` pages were saved, with one
   * navigation fewer: the last budgeted page is never followed by one.
   */
  lemma BudgetStops(site: seq<View>)
    requires Session(site).stop == BudgetExhausted
    ensures |Session(site).saved| == MaxPages && Session(site).navigations == MaxPages - 1
  {
    SessionFromStops(Scraped(site), Moves(site), 1, 0);
  }

  /**
   * `go_to_next_page` is called only while the already incremented counter
   * is within the budget, so at most `max_pages - 1` times, and every call
   * but a failing last one moved the browser on.
   */
  lemma SessionNavigatesWithinBudget(site: seq<View>)
    ensures var o := Session(site);
            && o.navigations <= MaxPages - 1
            && (forall j :: 0 <= j < |o.saved| - 1 ==> GoToNextPage(ViewAt(site, j).bar))
  {
    var scraped, moves := Scraped(site), Moves(site);
    SessionFromStops(scraped, moves, 1, 0);
    SessionFromSaves(scraped, moves, 1, 0);
    SessionFromNavigates(scraped, moves, 1, 0);
    var o := Session(site);
    forall j | 0 <= j < |o.saved| - 1
      ensures GoToNextPage(ViewAt(site, j).bar)
    {
      assert moves(j);
    }
  }

  /** The loop stops on an empty page, with what it had saved so far. */
  lemma EmptyPageEnds(total: Outcome<Offer>, saved: seq<seq<Offer>>, navigations: nat,
                      scraped: nat -> seq<Offer>, moves: nat -> bool, page: nat, shown: nat)
    requires 1 <= page <= MaxPages
    requires total == Join(saved, navigations, SessionFrom(scraped, moves, page, shown))
    requires |scraped(shown)| == 0
    ensures total == Outcome(EmptyPage, saved, navigations)
  {
    assert saved + [] == saved;
  }

  /** A non-empty page is saved; then the loop navigates, stops, or runs out of budget. */
  lemma SavedPageAdvances(total: Outcome<Offer>, saved: seq<seq<Offer>>, navigations: nat,
                          scraped: nat -> seq<Offer>, moves: nat -> bool, page: nat, shown: nat)
    requires 1 <= page <= MaxPages
    requires total == Join(saved, navigations, SessionFrom(scraped, moves, page, shown))
    requires |scraped(shown)| > 0
    ensures && (page + 1 <= MaxPages && !moves(shown) ==>
                  total == Outcome(NavigationFailed, saved + [scraped(shown)], navigations + 1))
            && (page + 1 <= MaxPages && moves(shown) ==>
                  total == Join(saved + [scraped(shown)], navigations + 1, SessionFrom(scraped, moves, page + 1, shown + 1)))
            && (page + 1 > MaxPages ==>
                  total == Join(saved + [scraped(shown)], navigations, SessionFrom(scraped, moves, page + 1, shown)))
  {
    var next := if page + 1 <= MaxPages then shown + 1 else shown;
    var rest := SessionFrom(scraped, moves, page + 1, next);
    assert saved + ([scraped(shown)] + rest.saved) == saved + [scraped(shown)] + rest.saved;
  }

  /** The loop ends when the counter passes the budget. */
  lemma BudgetEnds(total: Outcome<Offer>, saved: seq<seq<Offer>>, navigations: nat,
                   scraped: nat -> seq<Offer>, moves: nat -> bool, shown: nat)
    requires total == Join(saved, navigations, SessionFrom(scraped, moves, MaxPages + 1, shown))
    ensures total == Outcome(BudgetExhausted, saved, navigations)
  {
    assert saved + [] == saved;
  }

  /**
   * The page loop of `main` on an open connection whose table exists,
   * `scraped` and `moves` standing for what `scrape_data` and
   * `go_to_next_page` do on each page of the site. The ghost result is
   * what the loop did; the rows left committed are those of the batches
   * the server accepted.
   */
  method Crawl(conn: Connection<Offer>, site: seq<View>, ghost scraped: nat -> seq<Offer>, ghost moves: nat -> bool)
      returns (ghost outcome: Outcome<Offer>)
    modifies conn
    requires conn.pending == []
    requires forall p: nat {:trigger ViewAt(site, p)} :: scraped(p) == Offers(ViewAt(site, p).listings)
    requires forall p: nat {:trigger ViewAt(site, p)} :: moves(p) == GoToNextPage(ViewAt(site, p).bar)
    ensures outcome == SessionFrom(scraped, moves, 1, 0)
    ensures conn.tables == old(conn.tables) && conn.pending == []
    ensures conn.committed == old(conn.committed) + AcceptedBatches(outcome.saved, conn.rejects)
  {
    ghost var total := SessionFrom(scraped, moves, 1, 0);
    ghost var saved: seq<seq<Offer>> := [];
    ghost var navigations := 0;
    var shown := 0;  // the site page the browser shows
    var page := 1;
    outcome := Outcome(BudgetExhausted, [], 0);
    assert saved + total.saved == total.saved;
    while page <= MaxPages
      invariant 1 <= page <= MaxPages + 1
      invariant total == Join(saved, navigations, SessionFrom(scraped, moves, page, shown))
      invariant conn.tables == old(conn.tables) && conn.pending == []
      invariant conn.committed == old(conn.committed) + AcceptedBatches(saved, conn.rejects)
    {
      var view := ViewAt(site, shown);
      var items := ScrapeData(view.listings);
      assert items == scraped(shown);
      if |items| == 0 {
        EmptyPageEnds(total, saved, navigations, scraped, moves, page, shown);
        outcome := Outcome(EmptyPage, saved, navigations);
        break;
      }
      SavedPageAdvances(total, saved, navigations, scraped, moves, page, shown);
      ghost var before, pending := conn.committed, conn.pending;
      SaveToDb(conn, items);
      CommitBatch(old(conn.committed), before, pending, conn.committed, saved, items, conn.rejects);
      saved := saved + [items];
      page := page + 1;
      if page <= MaxPages {
        var moved := GoToNextPage(view.bar);
        assert moved == moves(shown);
        navigations := navigations + 1;
        if !moved {
          outcome := Outcome(NavigationFailed, saved, navigations);
          break;
        }
        shown := shown + 1;
      }
    }
    if page > MaxPages {
      BudgetEnds(total, saved, navigations, scraped, moves, shown);
      outcome := Outcome(BudgetExhausted, saved, navigations);
    }
  }

  /**
   * `main`, from the database connection on (a null `conn` is a failed
   * `psycopg2.connect`). The ghost result records what the page loop did,
   * which is `Session(site)`; the rows left committed are those of the
   * batches the server accepted.
   */
  method Run(conn: Connection?<Offer>, site: seq<View>) returns (ghost outcome: Outcome<Offer>)
    modifies conn
    ensures conn == null ==> outcome == Outcome(NotStarted, [], 0)
    ensures conn != null ==>
              && outcome == Session(site)
              && conn.tables == old(conn.tables) + {TableName}
              && conn.pending == []
              && conn.committed == old(conn.committed) + old(conn.pending) + AcceptedBatches(outcome.saved, conn.rejects)
  {
    if conn == null {
      return Outcome(NotStarted, [], 0);
    }
    conn.CreateTable(TableName);
    outcome := Crawl(conn, site, Scraped(site), Moves(site));
  }
}
