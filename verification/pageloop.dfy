/**
 * What every scraper's `main` page loop produces, as far as it can be
 * observed: why the loop ended, the rows each page contributed in page
 * order, and how many times the next-page step was called.
 */
module PageLoop {

  /** Why a scraper's page loop ended. */
  datatype Stop =
    | NotStarted        // no database connection: the loop is never entered
    | EmptyPage         // the page produced no records
    | NavigationFailed  // the next-page step reported failure
    | BudgetExhausted   // the page counter passed max_pages
    | Aborted           // an exception escaped into `main` itself

  datatype Outcome<R> = Outcome(stop: Stop, saved: seq<seq<R>>, navigations: nat)

  /** `o` preceded by one more page contributing `items` and `n` more navigations. */
  function After<R>(items: seq<R>, n: nat, o: Outcome<R>): Outcome<R>
  {
    Outcome(o.stop, [items] + o.saved, n + o.navigations)
  }

  /** `o` preceded by the pages `saved` and the `navigations` made before it. */
  function Join<R>(saved: seq<seq<R>>, navigations: nat, o: Outcome<R>): Outcome<R>
  {
    Outcome(o.stop, saved + o.saved, navigations + o.navigations)
  }

  /**
   * The page loop of scraper2's and scraper4's `main` with a budget of
   * `budget` pages, entered with the page counter at `shown + 1` and the
   * browser on the site's page `shown`, where `scraped(p)` is what the page
   * scraper returns on the site's page p and `moves(p)` whether
   * `go_to_next_page` succeeds from it: stop on an empty page; keep the
   * page; navigate, stopping when that fails; count the page.
   */
  function Paging<R>(scraped: nat -> seq<R>, moves: nat -> bool, budget: nat, shown: nat): Outcome<R>
    requires shown <= budget
    decreases budget - shown
  {
    if shown == budget then Outcome(BudgetExhausted, [], 0)
    else if |scraped(shown)| == 0 then Outcome(EmptyPage, [], 0)
    else if !moves(shown) then Outcome(NavigationFailed, [scraped(shown)], 1)
    else After(scraped(shown), 1, Paging(scraped, moves, budget, shown + 1))
  }

  lemma {:induction false} PagingSaves<R>(scraped: nat -> seq<R>, moves: nat -> bool, budget: nat, shown: nat)
    requires shown <= budget
    ensures |Paging(scraped, moves, budget, shown).saved| <= budget - shown
    ensures Paging(scraped, moves, budget, shown).navigations == |Paging(scraped, moves, budget, shown).saved|
    ensures forall j :: shown <= j < shown + |Paging(scraped, moves, budget, shown).saved| ==>
              Paging(scraped, moves, budget, shown).saved[j - shown] == scraped(j) && |scraped(j)| > 0
    decreases budget - shown
  {
    if shown < budget && |scraped(shown)| > 0 && moves(shown) {
      var o, rest := Paging(scraped, moves, budget, shown), Paging(scraped, moves, budget, shown + 1);
      PagingSaves(scraped, moves, budget, shown + 1);
      assert o.saved == [scraped(shown)] + rest.saved;
      forall j | shown < j < shown + |o.saved|
        ensures o.saved[j - shown] == scraped(j) && |scraped(j)| > 0
      {
        var next := shown + 1;
        assert o.saved[j - shown] == rest.saved[j - next];
      }
    }
  }

  lemma {:induction false} PagingNavigates<R>(scraped: nat -> seq<R>, moves: nat -> bool, budget: nat, shown: nat)
    requires shown <= budget
    ensures var o := Paging(scraped, moves, budget, shown);
            && (forall j :: shown <= j < shown + |o.saved| - 1 ==> moves(j))
            && (o.stop == BudgetExhausted ==> forall j :: shown <= j < budget ==> moves(j))
    decreases budget - shown
  {
    if shown < budget && |scraped(shown)| > 0 && moves(shown) {
      var o, rest := Paging(scraped, moves, budget, shown), Paging(scraped, moves, budget, shown + 1);
      PagingNavigates(scraped, moves, budget, shown + 1);
      assert o.stop == rest.stop && |o.saved| == 1 + |rest.saved|;
    }
  }

  lemma {:induction false} PagingStops<R>(scraped: nat -> seq<R>, moves: nat -> bool, budget: nat, shown: nat)
    requires shown <= budget
    ensures var o := Paging(scraped, moves, budget, shown);
            && o.stop in {EmptyPage, NavigationFailed, BudgetExhausted}
            && (o.stop == EmptyPage ==> shown + |o.saved| < budget && |scraped(shown + |o.saved|)| == 0)
            && (o.stop == NavigationFailed ==> 1 <= |o.saved| && !moves(shown + |o.saved| - 1))
            && (o.stop == BudgetExhausted ==> shown + |o.saved| == budget)
    decreases budget - shown
  {
    if shown < budget && |scraped(shown)| > 0 && moves(shown) {
      var o, rest := Paging(scraped, moves, budget, shown), Paging(scraped, moves, budget, shown + 1);
      PagingStops(scraped, moves, budget, shown + 1);
      assert o.stop == rest.stop && |o.saved| == 1 + |rest.saved|;
    }
  }

  /** One more page moved from the loop still to run to the pages already done. */
  lemma JoinAfter<R>(saved: seq<seq<R>>, navigations: nat, items: seq<R>, n: nat, o: Outcome<R>)
    ensures Join(saved, navigations, After(items, n, o)) == Join(saved + [items], navigations + n, o)
  {
    assert saved + ([items] + o.saved) == saved + [items] + o.saved;
  }

  /** What the page scraper returned on the site's first `n` pages, in page order. */
  function Pages<R>(scraped: nat -> seq<R>, n: nat): (r: seq<seq<R>>)
    ensures |r| == n
  {
    if n == 0 then [] else Pages(scraped, n - 1) + [scraped(n - 1)]
  }

  /** Each of the first `n` pages had records and the step to the next one succeeded. */
  predicate Advances<R>(scraped: nat -> seq<R>, moves: nat -> bool, n: nat)
  {
    n == 0 || (Advances(scraped, moves, n - 1) && |scraped(n - 1)| > 0 && moves(n - 1))
  }

  /**
   * A loop that got past its first `k` pages has saved exactly those
   * pages, made one navigation after each, and goes on from page `k`.
   */
  lemma {:induction false} PagingPrefix<R>(scraped: nat -> seq<R>, moves: nat -> bool, budget: nat, k: nat)
    requires k <= budget && Advances(scraped, moves, k)
    ensures Paging(scraped, moves, budget, 0) == Join(Pages(scraped, k), k, Paging(scraped, moves, budget, k))
  {
    if k == 0 {
      assert [] + Paging(scraped, moves, budget, 0).saved == Paging(scraped, moves, budget, 0).saved;
    } else {
      PagingPrefix(scraped, moves, budget, k - 1);
      var rest := Paging(scraped, moves, budget, k);
      assert Paging(scraped, moves, budget, k - 1) == After(scraped(k - 1), 1, rest);
      JoinAfter(Pages(scraped, k - 1), k - 1, scraped(k - 1), 1, rest);
    }
  }

  /** The loop stops on the first empty page, with the pages before it saved. */
  lemma PagingStopsEmpty<R>(scraped: nat -> seq<R>, moves: nat -> bool, budget: nat, k: nat)
    requires k < budget && Advances(scraped, moves, k) && |scraped(k)| == 0
    ensures Paging(scraped, moves, budget, 0) == Outcome(EmptyPage, Pages(scraped, k), k)
  {
    PagingPrefix(scraped, moves, budget, k);
    assert Pages(scraped, k) + [] == Pages(scraped, k);
  }

  /** A failed navigation stops the loop right after saving the page it left. */
  lemma PagingStopsNavigation<R>(scraped: nat -> seq<R>, moves: nat -> bool, budget: nat, k: nat)
    requires k < budget && Advances(scraped, moves, k) && |scraped(k)| > 0 && !moves(k)
    ensures Paging(scraped, moves, budget, 0) == Outcome(NavigationFailed, Pages(scraped, k + 1), k + 1)
  {
    PagingPrefix(scraped, moves, budget, k);
  }

  /** Getting past every budgeted page stops the loop with all of them saved. */
  lemma PagingStopsBudget<R>(scraped: nat -> seq<R>, moves: nat -> bool, budget: nat)
    requires Advances(scraped, moves, budget)
    ensures Paging(scraped, moves, budget, 0) == Outcome(BudgetExhausted, Pages(scraped, budget), budget)
  {
    PagingPrefix(scraped, moves, budget, budget);
    assert Pages(scraped, budget) + [] == Pages(scraped, budget);
  }
}
