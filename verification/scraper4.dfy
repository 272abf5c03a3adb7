/**
 * scraper4.py: the feedback scraper. It walks the feedback entries of a
 * page by position until a wait times out, retrying an entry whose
 * elements went stale and skipping one that raises anything else; each
 * entry it reads is stored with an INSERT and a commit of its own. Then it
 * tries up to three times to reach the next page through the first
 * "Next" control one of three queries finds.
 */
module Scraper4 {
  import opened Browser
  import opened Database
  import opened PageLoop

  /** `max_pages` in `main`. */
  const MaxPages := 10
  /** `max_attempts` in `go_to_next_page`. */
  const MaxAttempts := 3
  const TableName := "feedback"

  /** The values `insert_feedback` stores: `feedback_rating`, `comment`, `date`, `left_by`. */
  datatype Feedback = Feedback(rating: string, comment: string, date: string, leftBy: string)

  /** A located element: its `title` attribute (None when it has none) and its text. */
  datatype Element = Element(title: Option<string>, text: string)

  /** The rating, comment, date and author elements of one feedback entry. */
  datatype Entry = Entry(feedback: Element, comment: Element, date: Element, leftBy: Element)

  /**
   * How the reading of an entry ends once its stale-element errors are
   * over: all four elements are read, a wait times out (there is no such
   * entry), or some other exception is raised.
   */
  datatype Settled = Present(entry: Entry) | Missing | Broken

  /**
   * The entry `div[j + 1]` of a page: the number of attempts at it that
   * raise a stale-element error, then how it settles.
   */
  datatype Slot = Slot(staleRetries: nat, settled: Settled)

  // ---------------------------------------------------------------------
  // Field normalisation
  // ---------------------------------------------------------------------

  /** The position of the first newline of `s` at or after `i`, or |s| when there is none. */
  function LineEndFrom(s: string, i: nat): (k: nat)
    requires i <= |s|
    ensures i <= k <= |s|
    ensures k < |s| ==> s[k] == '\n'
    decreases |s| - i
  {
    if i == |s| || s[i] == '\n' then i else LineEndFrom(s, i + 1)
  }

  /** The position of the first newline of `s`, or |s| when there is none. */
  function LineEnd(s: string): (k: nat)
    ensures k <= |s|
    ensures k < |s| ==> s[k] == '\n'
  {
    LineEndFrom(s, 0)
  }

  /** `s` holds no newline. */
  predicate OneLine(s: string)
  {
    forall i :: 0 <= i < |s| ==> s[i] != '\n'
  }

  /** No newline lies between `i` and `LineEndFrom(s, i)`. */
  lemma {:induction false} LineEndFromIsFirst(s: string, i: nat)
    requires i <= |s|
    ensures forall j :: i <= j < LineEndFrom(s, i) ==> s[j] != '\n'
    decreases |s| - i
  {
    if i < |s| && s[i] != '\n' {
      LineEndFromIsFirst(s, i + 1);
    }
  }

  /** No newline comes before `LineEnd(s)`. */
  lemma LineEndIsFirst(s: string)
    ensures OneLine(s[..LineEnd(s)])
  {
    LineEndFromIsFirst(s, 0);
  }

  /** `"\n" in s` holds exactly when the first newline lies inside `s`. */
  lemma NewlineWithin(s: string)
    ensures '\n' in s <==> LineEnd(s) < |s|
  {
    LineEndIsFirst(s);
    if LineEnd(s) == |s| {
      assert s[..|s|] == s;
    }
  }

  /** Python's `s.split("\n")`: the pieces between newlines, empty ones included. */
  function Lines(s: string): (r: seq<string>)
    ensures |r| >= 1
    decreases |s|
  {
    var k := LineEnd(s);
    if k == |s| then [s] else [s[..k]] + Lines(s[k + 1..])
  }

  /** The pieces joined back together with a newline between each two. */
  function JoinLines(lines: seq<string>): string
    requires |lines| >= 1
  {
    if |lines| == 1 then lines[0] else lines[0] + "\n" + JoinLines(lines[1..])
  }

  /** Splitting at the newlines loses nothing, and no piece holds a newline. */
  lemma {:induction false} LinesRoundTrip(s: string)
    ensures JoinLines(Lines(s)) == s
    ensures forall j :: 0 <= j < |Lines(s)| ==> OneLine(Lines(s)[j])
    decreases |s|
  {
    var k := LineEnd(s);
    LineEndIsFirst(s);
    if k < |s| {
      var rest := s[k + 1..];
      LinesRoundTrip(rest);
      var lines := Lines(s);
      assert lines == [s[..k]] + Lines(rest);
      assert lines[1..] == Lines(rest);
      assert s == s[..k] + "\n" + rest;
      forall j | 1 <= j < |lines|
        ensures OneLine(lines[j])
      {
        assert lines[j] == Lines(rest)[j - 1];
      }
    } else {
      assert s[..k] == s;
    }
  }

  /** The first piece of `s.split("\n")` is the text up to the first newline. */
  lemma FirstLine(s: string)
    ensures Lines(s)[0] == s[..LineEnd(s)]
  {
    if LineEnd(s) == |s| {
      assert s[..|s|] == s;
    }
  }

  /** `left_by`: the text after the first newline, up to the next one or the end; the whole text when it has no newline. */
  function LeftBy(text: string): string
  {
    var k := LineEnd(text);
    if k < |text| then
      var rest := text[k + 1..];
      rest[..LineEnd(rest)]
    else text
  }

  /** With a newline in `text`, the second piece of the split is the first piece of what follows it. */
  lemma SecondLine(text: string)
    requires LineEnd(text) < |text|
    ensures |Lines(text)| >= 2 && Lines(text)[1] == Lines(text[LineEnd(text) + 1..])[0]
  {
    var k := LineEnd(text);
    var lines, rest := Lines(text), Lines(text[k + 1..]);
    assert lines == [text[..k]] + rest;
    assert lines[1] == rest[0];
  }

  /** With a newline in `text`, `LeftBy` is the second piece of the split, and a single line. */
  lemma LeftByAfterNewline(text: string)
    requires LineEnd(text) < |text|
    ensures |Lines(text)| >= 2 && LeftBy(text) == Lines(text)[1] && OneLine(LeftBy(text))
  {
    var rest := text[LineEnd(text) + 1..];
    SecondLine(text);
    FirstLine(rest);
    LineEndIsFirst(rest);
  }

  /**
   * The author is the second piece of `text.split("\n")` when the text
   * holds a newline (so there is such a piece), and the whole text
   * otherwise; it never holds a newline when the text does.
   */
  lemma LeftBySecondPiece(text: string)
    ensures '\n' in text ==> |Lines(text)| >= 2 && LeftBy(text) == Lines(text)[1] && OneLine(LeftBy(text))
    ensures '\n' !in text ==> LeftBy(text) == text
  {
    NewlineWithin(text);
    if LineEnd(text) < |text| {
      LeftByAfterNewline(text);
    }
  }

  /** `feedback_element.get_attribute("title") or feedback_element.text`. */
  function Rating(e: Element): string
  {
    if e.title.Some? && |e.title.value| > 0 then e.title.value else e.text
  }

  /** The record `scrape_current_page` builds from an entry it has read. */
  function Normalise(entry: Entry): Feedback
  {
    Feedback(Rating(entry.feedback), entry.comment.text, entry.date.text, LeftBy(entry.leftBy.text))
  }

  /**
   * The rating is the title when it is a non-empty string and the text
   * otherwise (so it is empty only when the text is), comment and date are
   * the texts as they are, and the author is one line of the author text:
   * the whole text when it has no newline.
   */
  lemma NormaliseFields(entry: Entry)
    ensures var r := Normalise(entry);
            && (r.rating == entry.feedback.text || (entry.feedback.title.Some? && r.rating == entry.feedback.title.value))
            && (|r.rating| == 0 ==> |entry.feedback.text| == 0)
            && (entry.feedback.title.Some? && |entry.feedback.title.value| > 0 ==> r.rating == entry.feedback.title.value)
            && r.comment == entry.comment.text && r.date == entry.date.text
            && ('\n' in entry.leftBy.text ==> OneLine(r.leftBy))
            && ('\n' !in entry.leftBy.text ==> r.leftBy == entry.leftBy.text)
  {
    LeftBySecondPiece(entry.leftBy.text);
  }

  // ---------------------------------------------------------------------
  // One page: scrape_current_page and insert_feedback
  // ---------------------------------------------------------------------

  /**
   * What attempt number `tries` at entry `div[j + 1]` produces: the stale
   * errors come first, then the settled answer. Past the page's entries
   * the waits time out.
   */
  function Attempt(slots: seq<Slot>, j: nat, tries: nat): Lookup<Entry>
  {
    if j >= |slots| then Raised(Timeout)
    else if tries < slots[j].staleRetries then Raised(StaleElement)
    else match slots[j].settled
      case Present(e) => Found(e)
      case Missing => Raised(Timeout)
      case Broken => Raised(OtherError)
  }

  /**
   * The four waits and reads of one pass at entry `div[j + 1]`: a read
   * entry is one that settled as present, a timeout means the entry is
   * missing or past the end, a stale element means retries are left, and
   * any other exception means the entry is broken.
   */
  method ReadEntry(slots: seq<Slot>, j: nat, tries: nat) returns (a: Lookup<Entry>)
    ensures a.Found? ==> j < |slots| && slots[j].settled == Present(a.value)
    ensures a == Raised(Timeout) ==> j >= |slots| || slots[j].settled.Missing?
    ensures a == Raised(StaleElement) ==> j < |slots| && tries < slots[j].staleRetries
    ensures a.Raised? && a.fault != Timeout && a.fault != StaleElement ==> j < |slots| && slots[j].settled.Broken?
  {
    a := Attempt(slots, j, tries);
  }

  /**
   * The records `scrape_current_page` returns from entry `div[j + 1]` on:
   * a timed-out entry ends the page, an entry that raised is skipped, and
   * a read entry contributes its normalised record.
   */
  function Records(slots: seq<Slot>, j: nat): (r: seq<Feedback>)
    ensures j <= |slots| ==> |r| <= |slots| - j
    ensures j >= |slots| ==> |r| == 0
    decreases |slots| - j
  {
    if j >= |slots| then []
    else match slots[j].settled
      case Missing => []
      case Broken => Records(slots, j + 1)
      case Present(e) => [Normalise(e)] + Records(slots, j + 1)
  }

  /** No entry before `j` times out. */
  predicate NoTimeoutBefore(slots: seq<Slot>, j: nat)
  {
    forall i :: 0 <= i < j && i < |slots| ==> !slots[i].settled.Missing?
  }

  lemma NoTimeoutExtends(slots: seq<Slot>, k: nat)
    requires NoTimeoutBefore(slots, k) && k < |slots| && !slots[k].settled.Missing?
    ensures NoTimeoutBefore(slots, k + 1)
  {
  }

  /** The record entry `div[k + 1]` contributes when it is reached: its normalised record if it was read. */
  function RecordOf(slot: Slot): seq<Feedback>
  {
    if slot.settled.Present? then [Normalise(slot.settled.entry)] else []
  }

  /** The records of the first `n` entries, when all of them are reached. */
  function RecordsBefore(slots: seq<Slot>, n: nat): seq<Feedback>
    requires n <= |slots|
  {
    if n == 0 then [] else RecordsBefore(slots, n - 1) + RecordOf(slots[n - 1])
  }

  /** An entry that did not time out contributes its record and the page goes on. */
  lemma RecordsStep(slots: seq<Slot>, i: nat)
    requires i < |slots| && !slots[i].settled.Missing?
    ensures Records(slots, i) == RecordOf(slots[i]) + Records(slots, i + 1)
  {
    if slots[i].settled.Broken? {
      assert [] + Records(slots, i + 1) == Records(slots, i + 1);
    }
  }

  /** With no timeout before entry `j`, the page's records are those before `j` followed by those from `j` on. */
  lemma {:induction false} RecordsSplit(slots: seq<Slot>, j: nat)
    requires j <= |slots| && NoTimeoutBefore(slots, j)
    ensures Records(slots, 0) == RecordsBefore(slots, j) + Records(slots, j)
  {
    if j == 0 {
      assert [] + Records(slots, 0) == Records(slots, 0);
    } else {
      RecordsSplit(slots, j - 1);
      RecordsStep(slots, j - 1);
      AppendAssociates(RecordsBefore(slots, j - 1), RecordOf(slots[j - 1]), Records(slots, j));
    }
  }

  /**
   * A timeout at entry `k` (or running past the last entry) ends the page
   * with exactly the records of the entries before it.
   */
  lemma TimeoutEndsPage(slots: seq<Slot>, k: nat)
    requires k <= |slots| && NoTimeoutBefore(slots, k)
    requires k < |slots| ==> slots[k].settled.Missing?
    ensures Records(slots, 0) == RecordsBefore(slots, k)
  {
    RecordsSplit(slots, k);
  }

  /** What follows a timed-out entry is never read: the page's records ignore it. */
  lemma {:induction false} RecordsStopAtTimeout(slots: seq<Slot>, j: nat, k: nat)
    requires j <= k < |slots| && slots[k].settled.Missing?
    ensures Records(slots, j) == Records(slots[..k], j)
    decreases k - j
  {
    if j < k {
      assert slots[..k][j] == slots[j];
      RecordsStopAtTimeout(slots, j + 1, k);
    }
  }

  /**
   * Every record comes from an entry that was read, with no timeout before
   * it: the index returned is that entry.
   */
  lemma {:induction false} RecordSource(slots: seq<Slot>, j: nat, x: Feedback) returns (i: nat)
    requires x in Records(slots, j)
    ensures j <= i < |slots| && slots[i].settled.Present? && x == Normalise(slots[i].settled.entry)
    ensures forall m :: j <= m < i ==> !slots[m].settled.Missing?
    decreases |slots| - j
  {
    if slots[j].settled.Present? && x == Normalise(slots[j].settled.entry) {
      i := j;
    } else {
      assert x in Records(slots, j + 1);
      i := RecordSource(slots, j + 1, x);
    }
  }

  /** Every entry read before the first timeout contributes its record. */
  lemma {:induction false} RecordsKeepReadEntries(slots: seq<Slot>, j: nat, k: nat)
    requires j <= k < |slots| && slots[k].settled.Present?
    requires forall i :: j <= i < k ==> !slots[i].settled.Missing?
    ensures Normalise(slots[k].settled.entry) in Records(slots, j)
    decreases k - j
  {
    if j < k {
      RecordsKeepReadEntries(slots, j + 1, k);
    }
  }

  /**
   * Retrying an entry after a stale-element error changes nothing: two
   * pages whose entries settle the same way give the same records,
   * however many stale errors each entry raises first.
   */
  lemma {:induction false} StaleRetriesDoNotMatter(a: seq<Slot>, b: seq<Slot>, j: nat)
    requires |a| == |b| && forall i :: 0 <= i < |a| ==> a[i].settled == b[i].settled
    ensures Records(a, j) == Records(b, j)
    decreases |a| - j
  {
    if j < |a| {
      StaleRetriesDoNotMatter(a, b, j + 1);
    }
  }

  /**
   * `insert_feedback`: INSERT then commit; a database error is rolled back
   * and goes no further.
   */
  method InsertFeedback(conn: Connection<Feedback>, record: Feedback)
    modifies conn
    ensures conn.tables == old(conn.tables) && conn.pending == []
    ensures conn.committed == old(conn.committed) + (if conn.rejects(record) then [] else old(conn.pending) + [record])
  {
    var ok := conn.Execute(record);
    if ok {
      conn.Commit();
    } else {
      conn.Rollback();
    }
  }

  /**
   * `scrape_current_page` on a page whose entries are `slots`: it returns
   * `Records(slots, 0)` whatever the stale retries, and leaves committed
   * exactly the records the server accepted, each in a transaction of its
   * own.
   */
  method ScrapeCurrentPage(conn: Connection<Feedback>, slots: seq<Slot>) returns (items: seq<Feedback>)
    modifies conn
    requires conn.pending == []
    ensures items == Records(slots, 0)
    ensures conn.tables == old(conn.tables) && conn.pending == []
    ensures conn.committed == old(conn.committed) + AcceptedRows(items, conn.rejects)
  {
    items := [];
    var i := 1;
    var tries := 0;
    while true
      invariant 1 <= i <= |slots| + 1
      invariant items == RecordsBefore(slots, i - 1)
      invariant NoTimeoutBefore(slots, i - 1)
      invariant i - 1 < |slots| ==> tries <= slots[i - 1].staleRetries
      invariant conn.tables == old(conn.tables) && conn.pending == []
      invariant conn.committed == old(conn.committed) + AcceptedRows(items, conn.rejects)
      decreases |slots| + 1 - i, if i - 1 < |slots| then slots[i - 1].staleRetries - tries else 0
    {
      var attempt := ReadEntry(slots, i - 1, tries);
      if attempt.Found? {
        var record := Normalise(attempt.value);
        InsertFeedback(conn, record);
        AcceptedRowsAppend(items, [record], conn.rejects);
        AppendAssociates(old(conn.committed), AcceptedRows(items, conn.rejects), AcceptedRows([record], conn.rejects));
        NoTimeoutExtends(slots, i - 1);
        items := items + [record];
        i, tries := i + 1, 0;
      } else if attempt.fault == Timeout {
        TimeoutEndsPage(slots, i - 1);
        break;
      } else if attempt.fault == StaleElement {
        tries := tries + 1;
      } else {
        NoTimeoutExtends(slots, i - 1);
        assert items + [] == items;
        i, tries := i + 1, 0;
      }
    }
  }

  // ---------------------------------------------------------------------
  // go_to_next_page
  // ---------------------------------------------------------------------

  /** A "Next" control: what `is_enabled()` and `is_displayed()` answer. */
  datatype Control = Control(enabled: Lookup<bool>, displayed: Lookup<bool>)

  /**
   * One pass of the `go_to_next_page` loop body as the driver answers it:
   * the scroll script, the page-link "Next" query, the any-link "Next"
   * query, the `li.next` query, the click script and the wait for a
   * feedback item on the new page.
   */
  datatype Try = Try(scroll: Option<Fault>,
                     pageLinks: Lookup<seq<Control>>, nextLinks: Lookup<seq<Control>>,
                     listLinks: Lookup<seq<Control>>,
                     click: Option<Fault>, arrival: Option<Fault>)

  /** A pass that finds no control at all; attempts past the listed ones behave so. */
  const NoControls := Try(None, Found([]), Found([]), Found([]), None, None)

  /** How a pass ends: on the next page, with `return False`, or with an exception. */
  datatype Pass = Moved | Declined | Threw

  /** The q-th query of a pass, in the order they are tried. */
  function Query(t: Try, q: nat): Lookup<seq<Control>>
    requires q < 3
  {
    if q == 0 then t.pageLinks else if q == 1 then t.nextLinks else t.listLinks
  }

  /** The controls the pass ends up with: the first query's, falling back to the next while none is found. */
  function Candidates(t: Try): Lookup<seq<Control>>
  {
    match t.pageLinks
    case Raised(f) => Raised(f)
    case Found(a) =>
      if |a| > 0 then Found(a)
      else match t.nextLinks
        case Raised(f) => Raised(f)
        case Found(b) => if |b| > 0 then Found(b) else t.listLinks
  }

  /**
   * The fallback order: the pass uses the controls of the first query that
   * finds any, provided every query before it ran and found none; a query
   * that raises makes the pass raise.
   */
  lemma CandidatesInOrder(t: Try)
    ensures (Candidates(t).Found? && |Candidates(t).value| > 0) <==>
              exists q :: 0 <= q < 3 && Query(t, q).Found? && |Query(t, q).value| > 0
                          && (forall p :: 0 <= p < q ==> Query(t, p) == Found([]))
    ensures forall q :: 0 <= q < 3 && Query(t, q).Found? && |Query(t, q).value| > 0
                        && (forall p :: 0 <= p < q ==> Query(t, p) == Found([])) ==>
              Candidates(t) == Query(t, q)
    ensures Candidates(t).Raised? <==>
              exists q :: 0 <= q < 3 && Query(t, q).Raised? && (forall p :: 0 <= p < q ==> Query(t, p) == Found([]))
  {
    assert Query(t, 0) == t.pageLinks && Query(t, 1) == t.nextLinks && Query(t, 2) == t.listLinks;
  }

  /** One pass of the loop body. */
  function TryOnce(t: Try): (r: Pass)
    ensures r == Moved <==>
              && t.scroll.None? && t.click.None? && t.arrival.None?
              && Candidates(t).Found? && |Candidates(t).value| > 0
              && Candidates(t).value[0].enabled == Found(true)
              && Candidates(t).value[0].displayed == Found(true)
    ensures r == Declined <==> && t.scroll.None? && Candidates(t).Found?
                               && (|Candidates(t).value| == 0
                                   || Candidates(t).value[0].enabled == Found(false)
                                   || (Candidates(t).value[0].enabled == Found(true)
                                       && Candidates(t).value[0].displayed == Found(false)))
  {
    if t.scroll.Some? then Threw
    else match Candidates(t)
      case Raised(_) => Threw
      case Found(cs) =>
        if |cs| == 0 then Declined
        else
          var c := cs[0];
          if c.enabled.Raised? then Threw
          else if !c.enabled.value then Declined
          else if c.displayed.Raised? then Threw
          else if !c.displayed.value then Declined
          else if t.click.Some? || t.arrival.Some? then Threw
          else Moved
  }

  /** The pass made at attempt `a`. */
  function TryAt(tries: seq<Try>, a: nat): Try
  {
    if a < |tries| then tries[a] else NoControls
  }

  /** Whether the loop of `go_to_next_page`, at attempt `a`, ends on the next page. */
  function NavigatesFrom(tries: seq<Try>, a: nat): bool
    decreases MaxAttempts - a
  {
    if a >= MaxAttempts then false
    else match TryOnce(TryAt(tries, a))
      case Moved => true
      case Declined => false
      case Threw => NavigatesFrom(tries, a + 1)
  }

  /**
   * `go_to_next_page` succeeds exactly when one of the first three passes
   * moves and every pass before it raised: finding no control or a
   * disabled or hidden one gives up at once, and only an exception costs
   * an attempt.
   */
  lemma {:induction false} NavigatesIff(tries: seq<Try>, a: nat)
    requires a <= MaxAttempts
    ensures NavigatesFrom(tries, a) <==>
              exists m :: a <= m < MaxAttempts && TryOnce(TryAt(tries, m)) == Moved
                          && (forall b :: a <= b < m ==> TryOnce(TryAt(tries, b)) == Threw)
    decreases MaxAttempts - a
  {
    if a < MaxAttempts {
      NavigatesIff(tries, a + 1);
      if TryOnce(TryAt(tries, a)) == Threw && NavigatesFrom(tries, a + 1) {
        var m :| a + 1 <= m < MaxAttempts && TryOnce(TryAt(tries, m)) == Moved
                 && (forall b :: a + 1 <= b < m ==> TryOnce(TryAt(tries, b)) == Threw);
        assert forall b :: a <= b < m ==> TryOnce(TryAt(tries, b)) == Threw;
      }
    }
  }

  /** `go_to_next_page`, the pass at attempt `a` being `TryAt(tries, a)`. */
  method GoToNextPage(tries: seq<Try>) returns (moved: bool)
    ensures moved == NavigatesFrom(tries, 0)
  {
    var attempts := 0;
    while attempts < MaxAttempts
      invariant 0 <= attempts <= MaxAttempts
      invariant NavigatesFrom(tries, 0) == NavigatesFrom(tries, attempts)
    {
      var pass := TryOnce(TryAt(tries, attempts));
      if pass == Moved {
        return true;
      } else if pass == Declined {
        return false;
      }
      attempts := attempts + 1;
    }
    return false;
  }

  // ---------------------------------------------------------------------
  // main
  // ---------------------------------------------------------------------

  /** One page of the site: its feedback entries and the passes `go_to_next_page` would make from it. */
  datatype View = View(slots: seq<Slot>, tries: seq<Try>)

  /** Past the site's last page: no entries, no controls. */
  const Blank := View([], [])

  function ViewAt(site: seq<View>, p: nat): View
  {
    if p < |site| then site[p] else Blank
  }

  /** What `scrape_current_page` returns on each page of the site. */
  function Scraped(site: seq<View>): nat -> seq<Feedback>
  {
    (p: nat) => Records(ViewAt(site, p).slots, 0)
  }

  /** Whether `go_to_next_page` succeeds from each page of the site. */
  function Moves(site: seq<View>): nat -> bool
  {
    (p: nat) => NavigatesFrom(ViewAt(site, p).tries, 0)
  }

  /** The page loop of `main` with `max_pages == budget`, from `page_number = 1` on the site's first page. */
  function Session(site: seq<View>, budget: nat): Outcome<Feedback>
  {
    Paging(Scraped(site), Moves(site), budget, 0)
  }

  /**
   * At most `max_pages` pages are kept, none of them empty, each holding
   * exactly the records of the site page with its position, and each
   * followed by one call of `go_to_next_page`.
   */
  lemma SessionKeepsEachNonEmptyPage(site: seq<View>, budget: nat)
    ensures |Session(site, budget).saved| <= budget
    ensures Session(site, budget).navigations == |Session(site, budget).saved|
    ensures forall j :: 0 <= j < |Session(site, budget).saved| ==>
              Session(site, budget).saved[j] == Records(ViewAt(site, j).slots, 0)
              && |Session(site, budget).saved[j]| > 0
  {
    var scraped := Scraped(site);
    PagingSaves(scraped, Moves(site), budget, 0);
    var s := Session(site, budget).saved;
    forall j | 0 <= j < |s|
      ensures s[j] == Records(ViewAt(site, j).slots, 0) && |s[j]| > 0
    {
      assert s[j - 0] == scraped(j);
    }
  }

  /** The page counter moves on only after a successful `go_to_next_page`. */
  lemma SessionNavigatesBetweenPages(site: seq<View>, budget: nat)
    ensures forall j :: 0 <= j < |Session(site, budget).saved| - 1 ==> NavigatesFrom(ViewAt(site, j).tries, 0)
  {
    var moves := Moves(site);
    PagingNavigates(Scraped(site), moves, budget, 0);
    forall j | 0 <= j < |Session(site, budget).saved| - 1
      ensures NavigatesFrom(ViewAt(site, j).tries, 0)
    {
      assert moves(j);
    }
  }

  /** The loop ends on an empty page, a failed navigation or the page budget. */
  lemma SessionStops(site: seq<View>, budget: nat)
    ensures Session(site, budget).stop in {EmptyPage, NavigationFailed, BudgetExhausted}
  {
    PagingStops(Scraped(site), Moves(site), budget, 0);
  }

  /** An empty page ends the loop; it is the page after the last kept one. */
  lemma EmptyPageStops(site: seq<View>, budget: nat)
    requires Session(site, budget).stop == EmptyPage
    ensures |Session(site, budget).saved| < budget
    ensures |Records(ViewAt(site, |Session(site, budget).saved|).slots, 0)| == 0
  {
    var scraped := Scraped(site);
    PagingStops(scraped, Moves(site), budget, 0);
    assert |scraped(0 + |Session(site, budget).saved|)| == 0;
  }

  /** A failed navigation ends the loop right after the page it was called from. */
  lemma NavigationFailureStops(site: seq<View>, budget: nat)
    requires Session(site, budget).stop == NavigationFailed
    ensures 1 <= |Session(site, budget).saved|
    ensures !NavigatesFrom(ViewAt(site, |Session(site, budget).saved| - 1).tries, 0)
  {
    var moves := Moves(site);
    PagingStops(Scraped(site), moves, budget, 0);
    assert !moves(0 + |Session(site, budget).saved| - 1);
  }

  /** The budget runs out only after all `max_pages` pages were kept and left successfully. */
  lemma BudgetStops(site: seq<View>, budget: nat)
    requires Session(site, budget).stop == BudgetExhausted
    ensures |Session(site, budget).saved| == budget
    ensures forall j :: 0 <= j < budget ==> NavigatesFrom(ViewAt(site, j).tries, 0)
  {
    var moves := Moves(site);
    PagingStops(Scraped(site), moves, budget, 0);
    PagingNavigates(Scraped(site), moves, budget, 0);
    forall j | 0 <= j < budget
      ensures NavigatesFrom(ViewAt(site, j).tries, 0)
    {
      assert moves(j);
    }
  }

  /** One more page of rows inserted one by one on top of the rows committed so far. */
  lemma PageFlushes(base: seq<Feedback>, before: seq<Feedback>, after: seq<Feedback>,
                    saved: seq<seq<Feedback>>, items: seq<Feedback>, rejects: Feedback -> bool)
    requires before == base + AcceptedRows(Concat(saved), rejects)
    requires after == before + AcceptedRows(items, rejects)
    ensures after == base + AcceptedRows(Concat(saved + [items]), rejects)
  {
    ConcatAppend(saved, items);
    AcceptedRowsAppend(Concat(saved), items, rejects);
    AppendAssociates(base, AcceptedRows(Concat(saved), rejects), AcceptedRows(items, rejects));
  }

  /**
   * `scraped` and `moves` are what `scrape_current_page` returns on each
   * page of the site and whether `go_to_next_page` succeeds from it.
   */
  ghost predicate Oracles(site: seq<View>, scraped: nat -> seq<Feedback>, moves: nat -> bool)
  {
    && (forall p: nat {:trigger ViewAt(site, p)} :: scraped(p) == Records(ViewAt(site, p).slots, 0))
    && (forall p: nat {:trigger ViewAt(site, p)} :: moves(p) == NavigatesFrom(ViewAt(site, p).tries, 0))
  }

  /**
   * One pass of the body of `main`'s loop on the site's page `p`: scrape
   * it, then, when it had records, try to go to the next page.
   */
  method VisitPage(conn: Connection<Feedback>, site: seq<View>, p: nat,
                   ghost scraped: nat -> seq<Feedback>, ghost moves: nat -> bool)
    returns (items: seq<Feedback>, moved: bool)
    modifies conn
    requires conn.pending == [] && Oracles(site, scraped, moves)
    ensures items == scraped(p)
    ensures |items| > 0 ==> moved == moves(p)
    ensures conn.tables == old(conn.tables) && conn.pending == []
    ensures conn.committed == old(conn.committed) + AcceptedRows(items, conn.rejects)
  {
    var view := ViewAt(site, p);
    items := ScrapeCurrentPage(conn, view.slots);
    moved := false;
    if |items| > 0 {
      moved := GoToNextPage(view.tries);
    }
  }

  /**
   * The page loop of `main` with `max_pages == maxPages`: it runs
   * `Paging` over what each page gives, and the rows it leaves committed
   * are the records of the kept pages that the server accepted, in order.
   */
  method Crawl(conn: Connection<Feedback>, site: seq<View>, maxPages: nat,
               ghost scraped: nat -> seq<Feedback>, ghost moves: nat -> bool)
    returns (ghost outcome: Outcome<Feedback>)
    modifies conn
    requires conn.pending == [] && Oracles(site, scraped, moves)
    ensures outcome == Paging(scraped, moves, maxPages, 0)
    ensures conn.tables == old(conn.tables) && conn.pending == []
    ensures conn.committed == old(conn.committed) + AcceptedRows(Concat(outcome.saved), conn.rejects)
  {
    var page := 1;
    while page <= maxPages
      invariant 1 <= page <= maxPages + 1
      invariant Advances(scraped, moves, page - 1)
      invariant conn.tables == old(conn.tables) && conn.pending == []
      invariant conn.committed == old(conn.committed) + AcceptedRows(Concat(Pages(scraped, page - 1)), conn.rejects)
    {
      ghost var before := conn.committed;
      var items, moved := VisitPage(conn, site, page - 1, scraped, moves);
      if |items| == 0 {
        PagingStopsEmpty(scraped, moves, maxPages, page - 1);
        return Outcome(EmptyPage, Pages(scraped, page - 1), page - 1);
      }
      PageFlushes(old(conn.committed), before, conn.committed, Pages(scraped, page - 1), items, conn.rejects);
      if !moved {
        PagingStopsNavigation(scraped, moves, maxPages, page - 1);
        return Outcome(NavigationFailed, Pages(scraped, page), page);
      }
      page := page + 1;
    }
    PagingStopsBudget(scraped, moves, maxPages);
    outcome := Outcome(BudgetExhausted, Pages(scraped, maxPages), maxPages);
  }

  /**
   * `main` once connected: the table is created (which also commits
   * whatever was open), then `Session(site, MaxPages)` runs.
   */
  method Run(conn: Connection<Feedback>, site: seq<View>) returns (ghost outcome: Outcome<Feedback>)
    modifies conn
    ensures outcome == Session(site, MaxPages)
    ensures conn.tables == old(conn.tables) + {TableName} && conn.pending == []
    ensures conn.committed == old(conn.committed) + old(conn.pending)
                              + AcceptedRows(Concat(outcome.saved), conn.rejects)
  {
    conn.CreateTable(TableName);
    outcome := Crawl(conn, site, MaxPages, Scraped(site), Moves(site));
  }
}
