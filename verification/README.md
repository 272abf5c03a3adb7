# Marketplace scrapers, modelled in Dafny

Four Python scripts drive a Selenium browser over the pages of a
marketplace and store what they read in PostgreSQL through psycopg2:

- `scraper1.py` reads listings by container index, 1 to 99. It stops at
  the first container it cannot read. It saves each page with one
  `executemany` and a commit, over a budget of 2 pages.
- `scraper2.py` pairs seller and price elements position by position. It
  skips buy-button labels and saves each page in one batch, over a budget
  of 5 pages.
- `scraper3.py` reads game, server and price lists. It inserts the rows of
  a page one by one into one transaction, which a failing row rolls back,
  and commits at the end of the page. It dismisses a cookie popup and
  clicks a "Next Page" link, over a budget of 24 pages.
- `scraper4.py` reads feedback entries by index. It retries stale
  elements, skips broken entries and stops at the first timeout. It
  inserts and commits each record on its own, then makes up to three
  attempts to reach the next page through three fallback queries, over a
  budget of 10 pages.

The model replaces the browser by what it answers. A site is a sequence of
per-page views, and each driver call becomes a value that was either found
(`Browser.Lookup.Found`) or raised an exception of a given kind
(`Browser.Lookup.Raised`). The database is a class, `Database.Connection`.
It holds the tables, the rows of the open transaction (`pending`) and the
rows made durable by a commit (`committed`). An oracle fixed when the
connection is made, `rejects`, says which rows the server refuses.

Each page function of a scraper is a method proved against a function that
says what it returns. Each `main` page loop is a method (`Crawl`, called
from `Run`) whose ghost result is an `Outcome`: why the loop stopped, the
rows each page contributed, and how many times the next-page step ran. Its
`ensures` ties that result to a recursive function of the site: `Paging`
for scraper2 and scraper4, and `SessionFrom` for scraper1 and scraper3,
whose loops differ. It also ties the committed rows to the pages the loop
kept. Lemmas then prove what these functions promise: which pages are
kept, in which order, why the loop stops, and after which pages it
navigated.

Modules:

- `browser.dfy` (`Browser`): driver answers and Python's `str.strip()`.
- `database.dfy` (`Database`): the connection class and `save_to_db`.
- `pager.dfy` (`Pager`): the `q-pagination` next-page rule, written the
  same way in scraper1 and scraper2.
- `pageloop.dfy` (`PageLoop`): the loop outcome and the shared page loop.
- `scraper1.dfy` to `scraper4.dfy` (`Scraper1` to `Scraper4`): one module
  per script.

## Model

| member | source | states |
|---|---|---|
| Browser.Strip | scraper1.py:61-63 | Python's `str.strip()`: leading and trailing whitespace is removed one character at a time. Its properties are the three rows below. |
| Browser.StripSlice | scraper1.py:61-63 | `strip()` returns a slice `s[i..j]` of its input. Everything before `i` and from `j` on is whitespace, and when non-empty the slice starts and ends with a non-whitespace character. |
| Browser.StripTrims | scraper1.py:61-63 | what `strip()` removes is whitespace at the two ends only, and its result neither starts nor ends with whitespace |
| Browser.StripIdempotent | scraper2.py:60-61 | stripping an already stripped text changes nothing |
| Database.Connection.constructor | scraper1.py:109-115 | a new connection has no table, nothing open and nothing committed, with the given rejection oracle |
| Database.Connection.CreateTable | scraper1.py:15-31 | `CREATE TABLE IF NOT EXISTS` plus commit: the table exists afterwards, and the open rows become committed |
| Database.Connection.Execute | scraper4.py:51-55 | an `INSERT` succeeds exactly when the server accepts the row, and only then does the row join the open transaction |
| Database.Connection.ExecuteMany | scraper1.py:36-40 | `executemany` succeeds exactly when every row is accepted. Only the rows before the first rejected one join the transaction. |
| Database.Connection.Commit | scraper1.py:41 | the open rows are appended to the committed ones, and nothing is left open |
| Database.Connection.Rollback | scraper1.py:44 | the open transaction is discarded and the committed rows stay |
| Database.SaveToDb | scraper1.py:33-44 | a page is stored whole when every row is accepted and not at all otherwise, leaving no transaction open (scraper2.py:35-46 is the same code) |
| Database.AcceptedRowsMembers | scraper4.py:48-59 | with one transaction per row, a row stays committed exactly when it was inserted and the server accepted it |
| Database.AcceptedBatches | scraper1.py:33-44 | with one transaction per batch, no committed row is one the server rejects, and at most all rows are committed |
| Database.CommitBatch | scraper2.py:130-131 | one more all-or-nothing batch extends the committed rows by that batch when every row is accepted, and leaves them as they were otherwise |
| Pager.GoToNextPage | scraper1.py:75-102 | navigation fails when the bar cannot be found or has fewer than two buttons. Otherwise it succeeds exactly when the last button's stripped icon reads `keyboard_arrow_right` and the script click does not raise (scraper2.py:72-99 is the same code). |
| PageLoop.Paging | scraper2.py:126-140 | the page loop of scraper2 and scraper4 (scraper4.py:199-211): stop at the budget or on an empty page, keep the page, stop when navigation fails, otherwise go on. Its properties are the PageLoop rows below. |
| PageLoop.PagingSaves | scraper2.py:126-140 | the loop keeps at most `budget` pages, each exactly the non-empty page at its position, in site order, with one navigation per kept page |
| PageLoop.PagingNavigates | scraper2.py:136-140 | every kept page but a failing last one was left by a successful navigation, and the budget runs out only after all budgeted pages navigated |
| PageLoop.PagingStops | scraper2.py:126-140 | the loop stops on an empty page inside the budget, on a failed navigation from the last kept page, or when all budgeted pages were kept |
| PageLoop.PagingPrefix | scraper4.py:199-211 | after `k` pages that had records and navigated, the loop has kept exactly those pages with `k` navigations and goes on from page `k` |
| PageLoop.PagingStopsEmpty | scraper4.py:203-205 | the first empty page ends the loop with exactly the pages before it |
| PageLoop.PagingStopsNavigation | scraper4.py:207-209 | a failed navigation ends the loop with the page it was called from kept |
| PageLoop.PagingStopsBudget | scraper4.py:196-199 | getting past every budgeted page ends the loop with all of them kept |
| Scraper1.Offers | scraper1.py:47-72 | what `scrape_data` returns: the stripped records of the containers from index 1 until the first one whose read raises, up to index 99 |
| Scraper1.OffersFromRun | scraper1.py:51-70 | from container `i` on, the records are those of consecutive readable containers, in order, and the walk ends at a raising container or at index 99 |
| Scraper1.OffersArePrefixUntilFirstFailure | scraper1.py:47-72 | `scrape_data` returns at most 99 records: those of containers 1 to k-1 in order, where k is the first container whose read raised |
| Scraper1.OffersIgnoreLaterContainers | scraper1.py:68-70 | two pages that agree up to and including the first failing container give the same records |
| Scraper1.ScrapeData | scraper1.py:47-72 | the `for i in range(1, 100)` loop with `break` returns `Offers` of the page |
| Scraper1.SessionFrom | scraper1.py:129-145 | the page loop of scraper1. It stops on an empty page and saves a non-empty one. It increments the counter and navigates only while the counter is within the budget, stopping when that fails. |
| Scraper1.Session | scraper1.py:126-145 | the loop from `page_number = 1` on the site's first page |
| Scraper1.SessionSavesEachNonEmptyPage | scraper1.py:129-139 | at most `max_pages` pages are saved, each exactly the non-empty page at its position, in site order |
| Scraper1.SessionStops | scraper1.py:129-145 | the loop ends on an empty page, a failed navigation or the page budget |
| Scraper1.EmptyPageStops | scraper1.py:133-137 | an empty page stops the loop with one navigation per saved page. The empty page is the one after the last saved page. |
| Scraper1.NavigationFailureStops | scraper1.py:141-145 | a failed navigation ends the loop after a page that was not the last one the budget allows |
| Scraper1.BudgetStops | scraper1.py:126-141 | the budget stops the loop after `max_pages` saves and one navigation fewer, because the counter is incremented before the budget test |
| Scraper1.SessionNavigatesWithinBudget | scraper1.py:139-145 | `go_to_next_page` runs at most `max_pages - 1` times, and every call but a failing last one moved the browser on |
| Scraper1.Crawl | scraper1.py:126-145 | the page loop does what `SessionFrom` says, and the committed rows are those of the saved pages the server accepted whole |
| Scraper1.Run | scraper1.py:105-149 | with no connection nothing happens. Otherwise the table is created, the loop runs `Session(site)`, and the accepted batches are committed. |
| Scraper2.Rows | scraper2.py:49-69 | what `scrape` returns for a page: nothing when a list cannot be located, otherwise the stripped pairs up to the first unreadable position, without placeholder prices |
| Scraper2.WithoutPlaceholdersKeeps | scraper2.py:62-65 | filtering keeps exactly the pairs whose price is not `Unit price` or `Buy now` |
| Scraper2.RowsArePairsWithoutPlaceholders | scraper2.py:56-65 | `scrape` pairs seller i with price i, both stripped, up to the first unreadable position below the shorter length, and drops placeholder prices |
| Scraper2.RowsBounded | scraper2.py:49-69 | a page whose lists cannot be located yields nothing. Otherwise there are at most as many rows as the shorter list, and each row is a stripped seller and price read at the same position, never a placeholder price. |
| Scraper2.Scrape | scraper2.py:49-69 | the position loop, which returns what it has gathered when anything raises, computes `Rows` of the page |
| Scraper2.SessionSavesEachNonEmptyPage | scraper2.py:126-140 | at most 5 pages are saved, each exactly the non-empty page at its position, in site order, each followed by one `go_to_next_page` |
| Scraper2.SessionNavigatesBetweenSaves | scraper2.py:136-140 | every saved page but a failing last one was left by a successful navigation |
| Scraper2.SessionStops | scraper2.py:126-140 | the loop ends on an empty page, a failed navigation or the page budget |
| Scraper2.EmptyPageStops | scraper2.py:130-134 | an empty page inside the budget ends the loop, and it is the page after the last saved one |
| Scraper2.NavigationFailureStops | scraper2.py:136-138 | a failed navigation ends the loop right after the page it was called from was saved |
| Scraper2.BudgetStops | scraper2.py:124-140 | the budget runs out only after 5 saved pages, each of which navigated successfully |
| Scraper2.Crawl | scraper2.py:126-140 | the page loop runs `Paging` over what each page gives, and commits the pages the server accepted whole |
| Scraper2.Run | scraper2.py:102-144 | with no connection nothing happens. Otherwise the table is created and the loop runs `Session(site)` with its batches committed all-or-nothing. |
| Scraper3.HandleCookiePopup | scraper3.py:48-59 | the popup is dismissed exactly when the wait, the lookup and the click all return. Only a timeout or a missing element is swallowed, and any other exception propagates. |
| Scraper3.FirstSelectable | scraper3.py:114-116 | the anchor the wait settles on is the first one not marked `aria-disabled="true"` |
| Scraper3.ClickNextPage | scraper3.py:109-124 | `click_next_page`: the popup handler runs outside the `try`, so its exception escapes. Then the result is whether the first selectable anchor was clickable and both scripts ran. |
| Scraper3.ClickNextPageDecides | scraper3.py:109-124 | `click_next_page` raises exactly when the popup handler lets an exception escape. It returns True exactly when the first selectable "Next Page" anchor is clickable and both scripts run. |
| Scraper3.RollbackForgets | scraper3.py:94-102 | a rollback in a page's loop discards every row inserted before it, so only the rows after the last rollback reach the commit |
| Scraper3.NoRollbackKeepsAll | scraper3.py:80-102 | without a rollback, every row read joins the transaction in order |
| Scraper3.CommittedWithinInserted | scraper3.py:78-103 | at most `inserted_count` rows of a page reach its commit |
| Scraper3.ScrapePage | scraper3.py:61-107 | `scrape_page` leaves nothing open and commits `OpenAfter` of the page's readings, and its count is the number of successful inserts. A failed list wait rolls back and commits nothing new. |
| Scraper3.SessionFrom | scraper3.py:144-156 | the page loop of scraper3. It scrapes the page and clicks on, stopping when the click fails or raises. It counts the page and handles the new page's popup, stopping if that raises. |
| Scraper3.Session | scraper3.py:141-156 | `main` once connected: an exception from the first popup ends it before any page, otherwise the loop runs from page 1 |
| Scraper3.SessionScrapesEachPage | scraper3.py:144-151 | every visited page is scraped once, in site order, whatever it yields, and followed by one click. At most `max_pages` pages are visited. |
| Scraper3.SessionClicksBetweenPages | scraper3.py:147-153 | `page_num` moves on only after a successful click that reached a page whose popup was handled |
| Scraper3.SessionStops | scraper3.py:141-156 | there is no empty-page stop: the loop ends on a failed click, an escaping exception or the budget |
| Scraper3.NavigationFailureStops | scraper3.py:147-149 | a click returning False ends the loop right after the page it was made from |
| Scraper3.AbortStops | scraper3.py:141-156 | an exception ends `main` only from the popup handler: on arrival before anything is scraped, inside the last click, or after arriving on a new page |
| Scraper3.BudgetStops | scraper3.py:144-151 | the budget ends the loop only after all pages were visited and clicked on from |
| Scraper3.SessionLeaves | scraper3.py:147-156 | a click that fails or raises, or a popup that raises on arrival, ends the loop with the current page as the last one committed |
| Scraper3.SessionUsesBudget | scraper3.py:144-151 | getting past every budgeted page ends the loop with all of them committed |
| Scraper3.Crawl | scraper3.py:143-156 | the loop and its exception handler run `SessionFrom` over the site, and commit each visited page's rows in page order |
| Scraper3.Run | scraper3.py:126-156 | with no connection nothing happens. Otherwise the table is created, and a popup raising on arrival ends `main` at once; else the loop runs. |
| Scraper4.NewlineWithin | scraper4.py:93 | `"\n" in text` holds exactly when the first newline lies inside the text |
| Scraper4.LinesRoundTrip | scraper4.py:93 | `split("\n")` loses nothing: joining the pieces with newlines gives the text back, and no piece holds a newline |
| Scraper4.LeftBySecondPiece | scraper4.py:93 | the author is piece 1 of `split("\n")` when the text holds a newline, and then a single line. Otherwise it is the whole text. |
| Scraper4.LeftBy | scraper4.py:93 | the author: the text between the first and the second newline, or the whole text when there is no newline |
| Scraper4.Normalise | scraper4.py:90-93 | the record built from a read entry: rating, comment, date and author |
| Scraper4.NormaliseFields | scraper4.py:90-93 | the rating is the non-empty title, else the text; comment and date are the texts; the author is normalised as above |
| Scraper4.Attempt | scraper4.py:76-87 | what one pass of the four waits at entry `div[j + 1]` answers. The entry's stale errors come first, then its settled answer, and past the page's entries the waits time out. |
| Scraper4.ReadEntry | scraper4.py:76-87 | a read entry settled as present; a timeout means a missing entry or one past the end; a stale error means retries are left; anything else means a broken entry |
| Scraper4.Records | scraper4.py:61-121 | a page yields at most one record per entry, and none past its entries |
| Scraper4.TimeoutEndsPage | scraper4.py:109-111 | a timeout at entry k ends the page with exactly the records of the entries before it |
| Scraper4.RecordsStopAtTimeout | scraper4.py:109-111 | nothing after a timed-out entry is read |
| Scraper4.StaleRetriesDoNotMatter | scraper4.py:112-115 | a stale element is retried at the same index, so the number of stale errors does not change the page's records |
| Scraper4.RecordSource | scraper4.py:98-105 | every record comes from an entry that was read, with no timeout before it |
| Scraper4.RecordsKeepReadEntries | scraper4.py:116-119 | every entry read before the first timeout contributes its record, whatever broken entries come before it |
| Scraper4.InsertFeedback | scraper4.py:48-59 | INSERT then commit. A rejected row is rolled back, and nothing is left open either way. |
| Scraper4.ScrapeCurrentPage | scraper4.py:61-121 | the page returns `Records(slots, 0)` whether its inserts fail or not, and commits exactly the accepted records, each in its own transaction |
| Scraper4.CandidatesInOrder | scraper4.py:135-147 | the pass uses the first query that finds a control, each earlier one having found none, and a raising query makes the pass raise |
| Scraper4.TryOnce | scraper4.py:128-162 | a pass moves exactly when every call returns and the first control is enabled and displayed. It gives up exactly when no control is found or the first one is disabled or hidden. |
| Scraper4.NavigatesFrom | scraper4.py:125-170 | the attempt loop from attempt `a`. A pass that moves returns True and one that gives up returns False; only a pass that raises goes on, and there are at most three attempts. |
| Scraper4.NavigatesIff | scraper4.py:125-170 | `go_to_next_page` succeeds exactly when one of the first three passes moves and every pass before it raised: only exceptions use up an attempt |
| Scraper4.GoToNextPage | scraper4.py:123-170 | the attempt loop returns `NavigatesFrom(tries, 0)` |
| Scraper4.SessionKeepsEachNonEmptyPage | scraper4.py:199-211 | at most `max_pages` pages are kept, none empty, each exactly the records of its page, each followed by one `go_to_next_page` |
| Scraper4.SessionNavigatesBetweenPages | scraper4.py:207-211 | `page_number` moves on only after a successful `go_to_next_page` |
| Scraper4.SessionStops | scraper4.py:199-211 | the loop ends on an empty page, a failed navigation or the page budget |
| Scraper4.EmptyPageStops | scraper4.py:203-205 | an empty page ends the loop, and it is the page after the last kept one |
| Scraper4.NavigationFailureStops | scraper4.py:207-209 | a failed navigation ends the loop right after the page it was called from |
| Scraper4.BudgetStops | scraper4.py:196-199 | the budget runs out only after `max_pages` kept pages that were all left successfully |
| Scraper4.VisitPage | scraper4.py:201-209 | one pass of the loop body scrapes the page and, only when it had records, tries to go on |
| Scraper4.Crawl | scraper4.py:196-211 | the page loop runs `Paging` over the site and commits the accepted records of the kept pages, in order |
| Scraper4.Run | scraper4.py:194-211 | the table is created, then the loop runs `Session(site, 10)` |

## Left out

- Driver setup, page loading, scrolling, `time.sleep`, `print` and
  closing the driver and the connection: none of them changes what is
  read or stored.
- A page is one fixed view. Elements that change between two reads of
  the same page are not modelled, except scraper4's stale-element retries.
- The text an element shows, its attributes and whether it is enabled or
  displayed are given as data. XPath and CSS selectors are not evaluated.
- Connection failures: a failed `psycopg2.connect` is `Run` with a null
  connection (scraper1 to 3). In scraper4 it ends the process with
  `sys.exit(1)`, so `Scraper4.Run` starts from an open connection.
- Database.Connection.CreateTable: never fails. A failing `CREATE TABLE`
  and its rollback are not modelled.
- Database.Connection.Rollback: never fails. In scraper3 a raising
  rollback (scraper3.py:97-99, 105-107), such as one on a lost connection,
  would escape `scrape_page` into `main`'s handler and end the crawl. That
  way out is not modelled, so `Scraper3.AbortStops` names only the popup
  handler.
- Database.Connection.Commit: never fails. A failing commit, which the
  scrapers roll back, is not modelled.
- The table names and the SQL text are not checked. The quoted
  `'table name'` of scraper1 and scraper2 is kept as a name.
- PostgreSQL's aborted-transaction state is not modelled. Every failing
  statement in the scrapers is followed by a rollback before the next
  one.
- Exceptions other than psycopg2 errors raised inside `insert_feedback`
  (scraper4.py:57), which `scrape_current_page` would treat as a broken
  entry, are not modelled. Every database failure is a rejected row.
- Scraper4.ScrapeCurrentPage: retries a stale entry only finitely often.
  Each entry carries the number of stale errors it raises
  (`Slot.staleRetries`). The source retries without bound, so a page
  whose element stays stale forever, where it would never return, is
  not modelled.
- Scraper4.ScrapeCurrentPage: assumes that a page ends in a timeout after
  finitely many broken entries. Every index past the listed entries times
  out. An endless run of non-timeout errors is not modelled, such as a
  dead session raising `WebDriverException` at every index, where the
  source never leaves its `while True` loop (scraper4.py:66, 116-119).
- Scraper4.ScrapeCurrentPage: requires that no transaction is open. This
  holds at every call in `main`, because `create_feedback_table` and
  every insert end with a commit or a rollback.
- Scraper4.GoToNextPage: takes every pass from the page it was called on.
  A pass whose click navigates but whose verification wait then raises
  (scraper4.py:152-158, 164-167) counts as raised in the model, and the
  next pass is still taken from the same page. In the source the retry
  starts from the page already reached, and a second success skips that
  page. The Session lemmas ("in site order", "each page's records") are
  therefore about the pages the loop lands on, and that skip is not
  modelled.
- Scraper4.GoToNextPage: passes past the listed ones find no control
  (`NoControls`).
- Scraper1.Crawl, Scraper2.Crawl, Scraper3.Crawl, Scraper4.Crawl: require
  that no transaction is open. `Run` establishes this by creating the
  table, which commits.
- Pager.GoToNextPage: an `innerHTML` that is `None`, whose `strip()`
  raises, counts as an icon lookup that raised, and is caught the same
  way.
- scraper3's `connect_to_db` is `Run` with a null connection when the
  connection fails. Its own `CREATE TABLE` rollback path is the same as
  for the other scrapers.
