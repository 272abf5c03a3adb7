/**
 * scraper3.py: offers read as three parallel element lists and inserted
 * one row at a time into one transaction per page, committed at the end of
 * the page; a failing row rolls the transaction back and the walk goes on.
 * A cookie popup may have to be dismissed on arrival and before each click
 * on the "Next Page" link. There is no empty-page stop: the loop runs until
 * a click fails, an exception escapes into `main`, or 24 pages are done.
 */
module Scraper3 {
  import opened Browser
  import opened Database
  import opened PageLoop

  const MaxPages := 24
  const TableName := "seller_data"

  /** The `(game_name, server, price)` row inserted into `seller_data`. */
  datatype Offer = Offer(game: string, server: string, price: string)

  /**
   * The three driver calls of `handle_cookie_popup` (waiting for the popup,
   * locating its accept button, clicking it): the exception each raised,
   * `None` when it returned normally. A call is made only when the ones
   * before it returned.
   */
  datatype Popup = Popup(wait: Option<Fault>, find: Option<Fault>, click: Option<Fault>)

  /** What `handle_cookie_popup` did: nothing, closed the popup, or let an exception escape. */
  datatype PopupEffect = Untouched | Dismissed | Propagated(fault: Fault)

  /** The exceptions `handle_cookie_popup` swallows. */
  predicate Swallowed(f: Fault)
  {
    f == Timeout || f == NoSuchElement
  }

  /** `handle_cookie_popup`: the first call that raised decides, and only two exception kinds are caught. */
  function HandleCookiePopup(p: Popup): (r: PopupEffect)
    ensures r == Dismissed <==> p.wait.None? && p.find.None? && p.click.None?
    ensures p.wait == Some(Timeout) ==> r == Untouched
    ensures p.wait.None? && p.find == Some(NoSuchElement) ==> r == Untouched
    ensures r.Propagated? <==>
              || (p.wait.Some? && !Swallowed(p.wait.value))
              || (p.wait.None? && p.find.Some? && !Swallowed(p.find.value))
              || (p.wait.None? && p.find.None? && p.click.Some? && !Swallowed(p.click.value))
  {
    var first := if p.wait.Some? then p.wait else if p.find.Some? then p.find else p.click;
    match first
    case None => Dismissed
    case Some(f) => if Swallowed(f) then Untouched else Propagated(f)
  }

  /**
   * A `a.page-link[aria-label="Next Page"]` anchor: its `aria-disabled`
   * attribute, whether it is visible and enabled, and whether the script
   * calls scrolling to it and clicking it raised.
   */
  datatype Anchor = Anchor(ariaDisabled: Option<string>, clickable: bool, scriptRaises: bool)

  /** The anchor matches the selector's `:not([aria-disabled="true"])`. */
  predicate Selectable(a: Anchor)
  {
    a.ariaDisabled != Some("true")
  }

  /** The position of the first selectable anchor, or |links| if there is none. */
  function FirstSelectable(links: seq<Anchor>): (k: nat)
    ensures k <= |links|
    ensures forall j :: 0 <= j < k ==> !Selectable(links[j])
    ensures k < |links| ==> Selectable(links[k])
  {
    if links == [] || Selectable(links[0]) then 0 else 1 + FirstSelectable(links[1..])
  }

  /**
   * `click_next_page`: the popup handler runs first, outside the function's
   * own `try`, so an exception it lets escape escapes `click_next_page`
   * too; then the wait for the first selectable anchor to be clickable and
   * the two script calls, any failure of which gives False.
   */
  function ClickNextPage(popup: Popup, links: seq<Anchor>): (r: Lookup<bool>)
  {
    match HandleCookiePopup(popup)
    case Propagated(f) => Raised(f)
    case _ =>
      var k := FirstSelectable(links);
      Found(k < |links| && links[k].clickable && !links[k].scriptRaises)
  }

  /**
   * `click_next_page` raises exactly when the popup handler lets an
   * exception escape; otherwise it reports success exactly when it
   * script-clicked the first "Next Page" anchor that is not
   * `aria-disabled="true"`, that anchor being clickable.
   */
  lemma ClickNextPageDecides(popup: Popup, links: seq<Anchor>)
    ensures ClickNextPage(popup, links).Raised? <==> HandleCookiePopup(popup).Propagated?
    ensures ClickNextPage(popup, links) == Found(true) <==>
              && !HandleCookiePopup(popup).Propagated?
              && exists k :: && 0 <= k < |links| && Selectable(links[k])
                             && (forall j :: 0 <= j < k ==> !Selectable(links[j]))
                             && links[k].clickable && !links[k].scriptRaises
    ensures (forall j :: 0 <= j < |links| ==> !Selectable(links[j])) && !HandleCookiePopup(popup).Propagated? ==>
              ClickNextPage(popup, links) == Found(false)
  {
    var k := FirstSelectable(links);
    if ClickNextPage(popup, links) == Found(true) {
      assert 0 <= k < |links| && Selectable(links[k]);
    }
    if exists k' :: && 0 <= k' < |links| && Selectable(links[k'])
                    && (forall j :: 0 <= j < k' ==> !Selectable(links[j]))
                    && links[k'].clickable && !links[k'].scriptRaises {
      var k' :| && 0 <= k' < |links| && Selectable(links[k'])
                && (forall j :: 0 <= j < k' ==> !Selectable(links[j]))
                && links[k'].clickable && !links[k'].scriptRaises;
      FirstSelectableIs(links, k');
    }
  }

  /** The first selectable anchor is the only one with no selectable anchor before it. */
  lemma FirstSelectableIs(links: seq<Anchor>, k: nat)
    requires k < |links| && Selectable(links[k])
    requires forall j :: 0 <= j < k ==> !Selectable(links[j])
    ensures FirstSelectable(links) == k
  {
  }

  /**
   * One rendered page as the driver answers it: the popup met on arrival,
   * the game, server and price element lists (each list, or the exception
   * its wait raised; per element its text or the exception reading it
   * raised), the popup met before clicking on, and the "Next Page" anchors.
   */
  datatype View = View(arrival: Popup,
                       games: Lookup<seq<Lookup<string>>>, servers: Lookup<seq<Lookup<string>>>,
                       prices: Lookup<seq<Lookup<string>>>,
                       beforeNext: Popup, links: seq<Anchor>)

  /** A popup that never shows up. */
  const NoPopup := Popup(Some(Timeout), None, None)

  /** The page shown after the site's last page: the waits time out and there is no link. */
  const Blank := View(NoPopup, Raised(Timeout), Raised(Timeout), Raised(Timeout), NoPopup, [])

  /** The page the browser shows after `p` successful clicks. */
  function ViewAt(site: seq<View>, p: nat): View
  {
    if p < |site| then site[p] else Blank
  }

  /** `min(len(games), len(servers), len(prices))`. */
  function Shortest(games: seq<Lookup<string>>, servers: seq<Lookup<string>>, prices: seq<Lookup<string>>): (n: nat)
    ensures n <= |games| && n <= |servers| && n <= |prices|
    ensures n == |games| || n == |servers| || n == |prices|
  {
    var m := if |games| < |servers| then |games| else |servers|;
    if m < |prices| then m else |prices|
  }

  /**
   * Reading position i: the three texts in order, the first read that
   * raised deciding the outcome, or the stripped triple.
   */
  function ReadAt(games: seq<Lookup<string>>, servers: seq<Lookup<string>>, prices: seq<Lookup<string>>, i: nat)
    : Lookup<Offer>
    requires i < |games| && i < |servers| && i < |prices|
  {
    if games[i].Raised? then Raised(games[i].fault)
    else if servers[i].Raised? then Raised(servers[i].fault)
    else if prices[i].Raised? then Raised(prices[i].fault)
    else Found(Offer(Strip(games[i].value), Strip(servers[i].value), Strip(prices[i].value)))
  }

  /** What the loop of `scrape_page` reads, one entry per position below the shortest length. */
  function Reads(games: seq<Lookup<string>>, servers: seq<Lookup<string>>, prices: seq<Lookup<string>>)
    : (r: seq<Lookup<Offer>>)
    ensures |r| == Shortest(games, servers, prices)
    ensures forall i :: 0 <= i < |r| ==> r[i] == ReadAt(games, servers, prices, i)
  {
    seq(Shortest(games, servers, prices), i requires 0 <= i < Shortest(games, servers, prices) =>
      ReadAt(games, servers, prices, i))
  }

  /** The page's readings, or `None` when one of the three list waits raised. */
  function Listed(view: View): Option<seq<Lookup<Offer>>>
  {
    if view.games.Raised? || view.servers.Raised? || view.prices.Raised? then None
    else Some(Reads(view.games.value, view.servers.value, view.prices.value))
  }

  /** The position rolls the transaction back: a read that raised something other than `NoSuchElement`, or a rejected insert. */
  predicate RollsBack(read: Lookup<Offer>, rejects: Offer -> bool)
  {
    (read.Raised? && read.fault != NoSuchElement) || (read.Found? && rejects(read.value))
  }

  /** The open transaction after one position of `scrape_page`'s loop. */
  function StepPending(pending: seq<Offer>, read: Lookup<Offer>, rejects: Offer -> bool): seq<Offer>
  {
    if RollsBack(read, rejects) then []
    else if read.Found? then pending + [read.value]
    else pending
  }

  /** The open transaction after the positions `readings`, starting from `pending`. */
  function OpenAfter(pending: seq<Offer>, readings: seq<Lookup<Offer>>, rejects: Offer -> bool): seq<Offer>
    decreases |readings|
  {
    if |readings| == 0 then pending
    else OpenAfter(StepPending(pending, readings[0], rejects), readings[1..], rejects)
  }

  /** The number of successful `execute` calls over the positions `readings`. */
  function Successes(readings: seq<Lookup<Offer>>, rejects: Offer -> bool): nat
    decreases |readings|
  {
    if |readings| == 0 then 0
    else (if readings[0].Found? && !rejects(readings[0].value) then 1 else 0) + Successes(readings[1..], rejects)
  }

  /** The values of the positions read without an exception, in order. */
  function Values(readings: seq<Lookup<Offer>>): (r: seq<Offer>)
    ensures |r| <= |readings|
  {
    if |readings| == 0 then []
    else (if readings[0].Found? then [readings[0].value] else []) + Values(readings[1..])
  }

  /**
   * A rollback forgets everything before it: the rows that reach the
   * end-of-page commit are those inserted after the last position that
   * rolled back.
   */
  lemma {:induction false} RollbackForgets(pending: seq<Offer>, readings: seq<Lookup<Offer>>, k: nat,
                                           rejects: Offer -> bool)
    requires k < |readings| && RollsBack(readings[k], rejects)
    ensures OpenAfter(pending, readings, rejects) == OpenAfter([], readings[k + 1..], rejects)
    decreases k
  {
    if k > 0 {
      var rest := readings[1..];
      RollbackForgets(StepPending(pending, readings[0], rejects), rest, k - 1, rejects);
      assert rest[k..] == readings[k + 1..];
    }
  }

  /** Without a rollback every row read joins the transaction, after what was already open. */
  lemma {:induction false} NoRollbackKeepsAll(pending: seq<Offer>, readings: seq<Lookup<Offer>>, rejects: Offer -> bool)
    requires forall k :: 0 <= k < |readings| ==> !RollsBack(readings[k], rejects)
    ensures OpenAfter(pending, readings, rejects) == pending + Values(readings)
    decreases |readings|
  {
    if |readings| > 0 {
      var next := StepPending(pending, readings[0], rejects);
      assert forall k :: 0 <= k < |readings[1..]| ==> readings[1..][k] == readings[k + 1];
      NoRollbackKeepsAll(next, readings[1..], rejects);
      assert pending + (if readings[0].Found? then [readings[0].value] else []) == next;
    }
  }

  /** At most `inserted_count` rows of a page reach its commit, on top of what was open before it. */
  lemma {:induction false} CommittedWithinInserted(pending: seq<Offer>, readings: seq<Lookup<Offer>>, rejects: Offer -> bool)
    ensures |OpenAfter(pending, readings, rejects)| <= |pending| + Successes(readings, rejects)
    decreases |readings|
  {
    if |readings| > 0 {
      CommittedWithinInserted(StepPending(pending, readings[0], rejects), readings[1..], rejects);
    }
  }

  /**
   * `scrape_page`: wait for the three lists, then walk the positions below
   * the shortest length; a read raising `NoSuchElement` skips the position,
   * any other exception or a rejected insert rolls back and goes on; the
   * transaction is committed at the end. A failed wait rolls back and
   * inserts nothing. The result is `inserted_count`.
   */
  method ScrapePage(conn: Connection<Offer>, view: View) returns (inserted: nat)
    modifies conn
    ensures conn.tables == old(conn.tables) && conn.pending == []
    ensures Listed(view).None? ==> inserted == 0 && conn.committed == old(conn.committed)
    ensures Listed(view).Some? ==>
              && inserted == Successes(Listed(view).value, conn.rejects)
              && conn.committed == old(conn.committed) + OpenAfter(old(conn.pending), Listed(view).value, conn.rejects)
  {
    if view.games.Raised? || view.servers.Raised? || view.prices.Raised? {
      conn.Rollback();
      return 0;
    }
    var games, servers, prices := view.games.value, view.servers.value, view.prices.value;
    ghost var readings := Reads(games, servers, prices);
    ghost var pending0 := conn.pending;
    inserted := 0;
    for i := 0 to Shortest(games, servers, prices)
      invariant conn.tables == old(conn.tables) && conn.committed == old(conn.committed)
      invariant OpenAfter(conn.pending, readings[i..], conn.rejects) == OpenAfter(pending0, readings, conn.rejects)
      invariant inserted + Successes(readings[i..], conn.rejects) == Successes(readings, conn.rejects)
    {
      var read := ReadAt(games, servers, prices, i);
      assert readings[i..][0] == read && readings[i..][1..] == readings[i + 1..];
      match read
      case Raised(fault) =>
        if fault != NoSuchElement {
          conn.Rollback();
        }
      case Found(offer) =>
        var ok := conn.Execute(offer);
        if ok {
          inserted := inserted + 1;
        } else {
          conn.Rollback();
        }
    }
    conn.Commit();
  }

  /** The rows a page leaves committed when it starts with nothing open. */
  function PageRows(view: View, rejects: Offer -> bool): seq<Offer>
  {
    match Listed(view)
    case None => []
    case Some(readings) => OpenAfter([], readings, rejects)
  }

  /** What `ScrapePage` leaves committed on top of `before`, when it starts with nothing open. */
  lemma PageCommits(view: View, rejects: Offer -> bool, before: seq<Offer>, after: seq<Offer>)
    requires Listed(view).None? ==> after == before
    requires Listed(view).Some? ==> after == before + OpenAfter([], Listed(view).value, rejects)
    ensures after == before + PageRows(view, rejects)
  {
    if Listed(view).None? {
      assert before + [] == before;
    }
  }

  /**
   * The page loop of `main` with a budget of `budget` pages, entered with
   * `page_num == shown + 1`, the browser on the site's page `shown` and its
   * arrival popup handled, where `scraped(p)` is what `scrape_page` commits
   * on the site's page p, `clicks(p)` what `click_next_page` does from it
   * and `settles(p)` whether the popup handler returns on arrival there:
   * scrape; click on, stopping when that fails or raises; count the page;
   * handle the new page's popup, stopping if that raises.
   */
  function SessionFrom(scraped: nat -> seq<Offer>, clicks: nat -> Lookup<bool>, settles: nat -> bool,
                       budget: nat, shown: nat): Outcome<Offer>
    requires shown <= budget
    decreases budget - shown
  {
    if shown == budget then Outcome(BudgetExhausted, [], 0)
    else if clicks(shown).Raised? then Outcome(Aborted, [scraped(shown)], 1)
    else if !clicks(shown).value then Outcome(NavigationFailed, [scraped(shown)], 1)
    else if !settles(shown + 1) then Outcome(Aborted, [scraped(shown)], 1)
    else After(scraped(shown), 1, SessionFrom(scraped, clicks, settles, budget, shown + 1))
  }

  /** What `scrape_page` commits on each page of the site. */
  function Scraped(site: seq<View>, rejects: Offer -> bool): nat -> seq<Offer>
  {
    (p: nat) => PageRows(ViewAt(site, p), rejects)
  }

  /** What `click_next_page` does from each page of the site. */
  function Clicks(site: seq<View>): nat -> Lookup<bool>
  {
    (p: nat) => ClickNextPage(ViewAt(site, p).beforeNext, ViewAt(site, p).links)
  }

  /** Whether the popup handler returns on arriving at each page of the site. */
  function Settles(site: seq<View>): nat -> bool
  {
    (p: nat) => !HandleCookiePopup(ViewAt(site, p).arrival).Propagated?
  }

  /**
   * The whole of `main` once connected, with `max_pages == budget`: the
   * first popup is handled outside the `try`, so an exception there ends
   * `main` before any page is scraped; then the loop from `page_num = 1`.
   */
  function Session(scraped: nat -> seq<Offer>, clicks: nat -> Lookup<bool>, settles: nat -> bool,
                   budget: nat): Outcome<Offer>
  {
    if !settles(0) then Outcome(Aborted, [], 0)
    else SessionFrom(scraped, clicks, settles, budget, 0)
  }

  lemma {:induction false} SessionFromSaves(scraped: nat -> seq<Offer>, clicks: nat -> Lookup<bool>,
                                            settles: nat -> bool, budget: nat, shown: nat)
    requires shown <= budget
    ensures |SessionFrom(scraped, clicks, settles, budget, shown).saved| <= budget - shown
    ensures SessionFrom(scraped, clicks, settles, budget, shown).navigations ==
              |SessionFrom(scraped, clicks, settles, budget, shown).saved|
    ensures forall j :: shown <= j < shown + |SessionFrom(scraped, clicks, settles, budget, shown).saved| ==>
              SessionFrom(scraped, clicks, settles, budget, shown).saved[j - shown] == scraped(j)
    decreases budget - shown
  {
    if shown < budget && clicks(shown) == Found(true) && settles(shown + 1) {
      var o, rest := SessionFrom(scraped, clicks, settles, budget, shown),
                     SessionFrom(scraped, clicks, settles, budget, shown + 1);
      SessionFromSaves(scraped, clicks, settles, budget, shown + 1);
      assert o.saved == [scraped(shown)] + rest.saved;
      forall j | shown < j < shown + |o.saved|
        ensures o.saved[j - shown] == scraped(j)
      {
        var next := shown + 1;
        assert o.saved[j - shown] == rest.saved[j - next];
      }
    }
  }

  /** `click_next_page` clicked and the next page settled from every page from `from` up to `to - 1`. */
  ghost predicate Navigated(clicks: nat -> Lookup<bool>, settles: nat -> bool, from: nat, to: int)
  {
    forall j :: from <= j < to ==> clicks(j) == Found(true) && settles(j + 1)
  }

  lemma NavigatedExtends(clicks: nat -> Lookup<bool>, settles: nat -> bool, from: nat, to: int)
    requires clicks(from) == Found(true) && settles(from + 1) && Navigated(clicks, settles, from + 1, to)
    ensures Navigated(clicks, settles, from, to)
  {
  }

  lemma {:induction false} SessionFromNavigates(scraped: nat -> seq<Offer>, clicks: nat -> Lookup<bool>,
                                                settles: nat -> bool, budget: nat, shown: nat)
    requires shown <= budget
    ensures var o := SessionFrom(scraped, clicks, settles, budget, shown);
            && Navigated(clicks, settles, shown, shown + |o.saved| - 1)
            && (o.stop == BudgetExhausted ==> Navigated(clicks, settles, shown, budget))
    decreases budget - shown
  {
    if shown < budget && clicks(shown) == Found(true) && settles(shown + 1) {
      var o, rest := SessionFrom(scraped, clicks, settles, budget, shown),
                     SessionFrom(scraped, clicks, settles, budget, shown + 1);
      SessionFromNavigates(scraped, clicks, settles, budget, shown + 1);
      assert o.stop == rest.stop && shown + |o.saved| - 1 == shown + 1 + |rest.saved| - 1;
      NavigatedExtends(clicks, settles, shown, shown + |o.saved| - 1);
      if o.stop == BudgetExhausted {
        NavigatedExtends(clicks, settles, shown, budget);
      }
    }
  }

  lemma {:induction false} SessionFromStops(scraped: nat -> seq<Offer>, clicks: nat -> Lookup<bool>,
                                            settles: nat -> bool, budget: nat, shown: nat)
    requires shown <= budget
    ensures var o := SessionFrom(scraped, clicks, settles, budget, shown);
            && o.stop in {NavigationFailed, BudgetExhausted, Aborted}
            && (o.stop == NavigationFailed ==> 1 <= |o.saved| && clicks(shown + |o.saved| - 1) == Found(false))
            && (o.stop == Aborted ==>
                  && 1 <= |o.saved|
                  && (clicks(shown + |o.saved| - 1).Raised? ||
                      (clicks(shown + |o.saved| - 1) == Found(true) && !settles(shown + |o.saved|))))
            && (o.stop == BudgetExhausted ==> shown + |o.saved| == budget)
    decreases budget - shown
  {
    if shown < budget && clicks(shown) == Found(true) && settles(shown + 1) {
      var o, rest := SessionFrom(scraped, clicks, settles, budget, shown),
                     SessionFrom(scraped, clicks, settles, budget, shown + 1);
      SessionFromStops(scraped, clicks, settles, budget, shown + 1);
      assert o.stop == rest.stop && |o.saved| == 1 + |rest.saved|;
    }
  }

  /**
   * Every page the loop visits is scraped once, in site order, whatever it
   * yields (there is no empty-page stop), and followed by exactly one call
   * of `click_next_page`; at most `max_pages` pages are visited.
   */
  lemma SessionScrapesEachPage(scraped: nat -> seq<Offer>, clicks: nat -> Lookup<bool>, settles: nat -> bool, budget: nat)
    ensures |Session(scraped, clicks, settles, budget).saved| <= budget
    ensures Session(scraped, clicks, settles, budget).navigations == |Session(scraped, clicks, settles, budget).saved|
    ensures forall j :: 0 <= j < |Session(scraped, clicks, settles, budget).saved| ==>
              Session(scraped, clicks, settles, budget).saved[j] == scraped(j)
  {
    if settles(0) {
      SessionFromSaves(scraped, clicks, settles, budget, 0);
      var s := Session(scraped, clicks, settles, budget).saved;
      forall j | 0 <= j < |s|
        ensures s[j] == scraped(j)
      {
        assert s[j - 0] == scraped(j);
      }
    }
  }

  /**
   * `page_num` is incremented only after a successful click: every page
   * but the last one visited was left by a click that succeeded and
   * arrived at a page whose popup was handled.
   */
  lemma SessionClicksBetweenPages(scraped: nat -> seq<Offer>, clicks: nat -> Lookup<bool>, settles: nat -> bool, budget: nat)
    ensures forall j :: 0 <= j < |Session(scraped, clicks, settles, budget).saved| - 1 ==>
              clicks(j) == Found(true) && settles(j + 1)
  {
    if settles(0) {
      SessionFromNavigates(scraped, clicks, settles, budget, 0);
      var o := Session(scraped, clicks, settles, budget);
      forall j | 0 <= j < |o.saved| - 1
        ensures clicks(j) == Found(true) && settles(j + 1)
      {
        assert 0 <= j < 0 + |o.saved| - 1;
      }
    }
  }

  /** The loop never stops for an empty page: only a failed click, an escaping exception or the budget end it. */
  lemma SessionStops(scraped: nat -> seq<Offer>, clicks: nat -> Lookup<bool>, settles: nat -> bool, budget: nat)
    ensures Session(scraped, clicks, settles, budget).stop in {NavigationFailed, BudgetExhausted, Aborted}
  {
    if settles(0) {
      SessionFromStops(scraped, clicks, settles, budget, 0);
    }
  }

  /** A click that reports failure ends the loop right after the page it was made from. */
  lemma NavigationFailureStops(scraped: nat -> seq<Offer>, clicks: nat -> Lookup<bool>, settles: nat -> bool, budget: nat)
    requires Session(scraped, clicks, settles, budget).stop == NavigationFailed
    ensures 1 <= |Session(scraped, clicks, settles, budget).saved|
    ensures clicks(|Session(scraped, clicks, settles, budget).saved| - 1) == Found(false)
  {
    SessionFromStops(scraped, clicks, settles, budget, 0);
    assert clicks(0 + |Session(scraped, clicks, settles, budget).saved| - 1) == Found(false);
  }

  /**
   * An exception escapes into `main` only from the popup handler: on the
   * first page before anything is scraped, inside the click from the last
   * page visited, or on arriving after a successful click.
   */
  lemma AbortStops(scraped: nat -> seq<Offer>, clicks: nat -> Lookup<bool>, settles: nat -> bool, budget: nat)
    requires Session(scraped, clicks, settles, budget).stop == Aborted
    ensures var n := |Session(scraped, clicks, settles, budget).saved|;
            || (n == 0 && !settles(0))
            || (n >= 1 && clicks(n - 1).Raised?)
            || (n >= 1 && clicks(n - 1) == Found(true) && !settles(n))
  {
    if settles(0) {
      SessionFromStops(scraped, clicks, settles, budget, 0);
      var n := |Session(scraped, clicks, settles, budget).saved|;
      assert clicks(0 + n - 1).Raised? || (clicks(0 + n - 1) == Found(true) && !settles(0 + n));
    }
  }

  /** The budget ends the loop only after all `budget` pages were visited and clicked on from. */
  lemma BudgetStops(scraped: nat -> seq<Offer>, clicks: nat -> Lookup<bool>, settles: nat -> bool, budget: nat)
    requires Session(scraped, clicks, settles, budget).stop == BudgetExhausted
    ensures |Session(scraped, clicks, settles, budget).saved| == budget
    ensures forall j :: 0 <= j < budget ==> clicks(j) == Found(true) && settles(j + 1)
  {
    SessionFromStops(scraped, clicks, settles, budget, 0);
    SessionFromNavigates(scraped, clicks, settles, budget, 0);
  }

  lemma NavigatedAppends(clicks: nat -> Lookup<bool>, settles: nat -> bool, from: nat, to: nat)
    requires from <= to && Navigated(clicks, settles, from, to) && clicks(to) == Found(true) && settles(to + 1)
    ensures Navigated(clicks, settles, from, to + 1)
  {
  }

  /**
   * A loop that got past its first `k` pages has committed exactly those
   * pages, clicked once from each, and goes on from page `k`.
   */
  lemma {:induction false} SessionFromPrefix(scraped: nat -> seq<Offer>, clicks: nat -> Lookup<bool>,
                                             settles: nat -> bool, budget: nat, k: nat)
    requires k <= budget && Navigated(clicks, settles, 0, k)
    ensures SessionFrom(scraped, clicks, settles, budget, 0) ==
              Join(Pages(scraped, k), k, SessionFrom(scraped, clicks, settles, budget, k))
  {
    if k == 0 {
      var o := SessionFrom(scraped, clicks, settles, budget, 0);
      assert [] + o.saved == o.saved;
    } else {
      assert clicks(k - 1) == Found(true) && settles(k);
      SessionFromPrefix(scraped, clicks, settles, budget, k - 1);
      var rest := SessionFrom(scraped, clicks, settles, budget, k);
      assert SessionFrom(scraped, clicks, settles, budget, k - 1) == After(scraped(k - 1), 1, rest);
      JoinAfter(Pages(scraped, k - 1), k - 1, scraped(k - 1), 1, rest);
    }
  }

  /**
   * The loop leaves page `k` for good when the click from it raises or
   * reports failure, or the page it lands on raises from its popup: page
   * `k` is the last one committed.
   */
  lemma SessionLeaves(scraped: nat -> seq<Offer>, clicks: nat -> Lookup<bool>, settles: nat -> bool,
                      budget: nat, k: nat)
    requires k < budget && Navigated(clicks, settles, 0, k)
    requires !(clicks(k) == Found(true) && settles(k + 1))
    ensures SessionFrom(scraped, clicks, settles, budget, 0) ==
              Outcome(if clicks(k) == Found(false) then NavigationFailed else Aborted, Pages(scraped, k + 1), k + 1)
  {
    SessionFromPrefix(scraped, clicks, settles, budget, k);
  }

  /** Getting past every budgeted page ends the loop with all of them committed. */
  lemma SessionUsesBudget(scraped: nat -> seq<Offer>, clicks: nat -> Lookup<bool>, settles: nat -> bool, budget: nat)
    requires Navigated(clicks, settles, 0, budget)
    ensures SessionFrom(scraped, clicks, settles, budget, 0) ==
              Outcome(BudgetExhausted, Pages(scraped, budget), budget)
  {
    SessionFromPrefix(scraped, clicks, settles, budget, budget);
    assert Pages(scraped, budget) + [] == Pages(scraped, budget);
  }

  /**
   * The `while page_num <= max_pages` loop of `main` and the exception
   * handler around it, entered with nothing open in the transaction; the
   * ghost result is what the loop did.
   */
  method Crawl(conn: Connection<Offer>, site: seq<View>, maxPages: nat,
               ghost scraped: nat -> seq<Offer>, ghost clicks: nat -> Lookup<bool>, ghost settles: nat -> bool)
    returns (ghost outcome: Outcome<Offer>)
    modifies conn
    requires conn.pending == []
    requires forall p: nat {:trigger ViewAt(site, p)} :: scraped(p) == PageRows(ViewAt(site, p), conn.rejects)
    requires forall p: nat {:trigger ViewAt(site, p)} :: clicks(p) == ClickNextPage(ViewAt(site, p).beforeNext, ViewAt(site, p).links)
    requires forall p: nat {:trigger ViewAt(site, p)} :: settles(p) == !HandleCookiePopup(ViewAt(site, p).arrival).Propagated?
    ensures outcome == SessionFrom(scraped, clicks, settles, maxPages, 0)
    ensures conn.tables == old(conn.tables) && conn.pending == []
    ensures conn.committed == old(conn.committed) + Concat(outcome.saved)
  {
    var page := 1;
    while page <= maxPages
      invariant 1 <= page <= maxPages + 1
      invariant Navigated(clicks, settles, 0, page - 1)
      invariant conn.tables == old(conn.tables) && conn.pending == []
      invariant conn.committed == old(conn.committed) + Concat(Pages(scraped, page - 1))
    {
      var view := ViewAt(site, page - 1);
      ghost var before := conn.committed;
      var inserted := ScrapePage(conn, view);
      PageCommits(view, conn.rejects, before, conn.committed);
      assert PageRows(view, conn.rejects) == scraped(page - 1);
      CommitAppends(old(conn.committed), before, conn.committed, Pages(scraped, page - 1), scraped(page - 1));
      var next := ClickNextPage(view.beforeNext, view.links);
      assert next == clicks(page - 1);
      if next.Raised? || !next.value {
        SessionLeaves(scraped, clicks, settles, maxPages, page - 1);
        return Outcome(if next.Raised? then Aborted else NavigationFailed, Pages(scraped, page), page);
      }
      page := page + 1;
      var arrival := HandleCookiePopup(ViewAt(site, page - 1).arrival);
      if arrival.Propagated? {
        assert !settles(page - 1);
        SessionLeaves(scraped, clicks, settles, maxPages, page - 2);
        return Outcome(Aborted, Pages(scraped, page - 1), page - 1);
      }
      NavigatedAppends(clicks, settles, 0, page - 2);
    }
    SessionUsesBudget(scraped, clicks, settles, maxPages);
    outcome := Outcome(BudgetExhausted, Pages(scraped, maxPages), maxPages);
  }

  /**
   * `main` once `connect_to_db` has run (a null `conn` is its `None`): it
   * creates the table, then runs `Session` over what each page of the site
   * does; the rows left committed are those each visited page committed,
   * in page order.
   */
  method Run(conn: Connection?<Offer>, site: seq<View>) returns (ghost outcome: Outcome<Offer>)
    modifies conn
    ensures conn == null ==> outcome == Outcome(NotStarted, [], 0)
    ensures conn != null ==>
              && outcome == Session(Scraped(site, conn.rejects), Clicks(site), Settles(site), MaxPages)
              && conn.tables == old(conn.tables) + {TableName}
              && conn.pending == []
              && conn.committed == old(conn.committed) + old(conn.pending) + Concat(outcome.saved)
  {
    if conn == null {
      return Outcome(NotStarted, [], 0);
    }
    conn.CreateTable(TableName);
    var first := HandleCookiePopup(ViewAt(site, 0).arrival);
    if first.Propagated? {
      assert !Settles(site)(0);
      return Outcome(Aborted, [], 0);
    }
    assert Settles(site)(0);
    outcome := Crawl(conn, site, MaxPages, Scraped(site, conn.rejects), Clicks(site), Settles(site));
  }
}
