# Paging search loop of lucenetest

This project models the interactive paging loop `SearchFiles.doPagingSearch` of the
lucenetest demo: a search runs once, collecting five pages' worth of hits, and the user
then pages through them with `p` (previous), `n` (next), a page number (jump), or an
empty line or `q` (quit). When a page reaches past the hits collected so far, the loop
asks "Collect more (y/n) ?" and, on a yes, runs the search again for all matching hits.

The loop's state is a few integers: `start` (first hit shown), `end` (one past the last
hit shown), the length of the `hits` buffer, `numTotalHits` and the fixed `hitsPerPage`.
The model keeps that form:

- `wrappers.dfy` — `Option` and `Result`.
- `commands.dfy` (module `Commands`) — how a typed line is read: `Integer.parseInt` as
  `ParseInt`, following its digit loop and its `int` limits, the navigation-prompt
  reading as `ClassifyNavigation`, and the collect-more reading as `DeclinesCollect`.
- `paging.dfy` (module `Paging`) — the page arithmetic as functions (`PreviousStart`,
  `NextStart`, `JumpTarget`, `PageEnd`, the prompt guards) and the lemmas about it:
  which pages a jump accepts, the "on a page" invariant the moves keep, and that the
  prompt offers exactly the moves that change the page.
- `trace.dfy` (module `Trace`) — what a session looks like from outside: the pages
  shown (`Screen`), the lines read between two pages (`Transition`), and how the lines
  after the last page end the session (`Ended`, `Finish`).
- `session.dfy` (module `Session`) — the loop itself: a `Cursor` class whose fields are
  the loop's locals, one method per assignment or move, and `PagingSearch`, the whole
  loop over a sequence of input lines, proved to produce a session as `Trace` describes.

The searcher is a function `search: nat -> nat` from the limit asked for to the number
of hits returned. The model assumes only what Lucene promises (`Honest`): no more hits
than the limit, and no more than match. `LuceneSearch` is Lucene's exact behaviour,
`Min(limit, total)`. The input is a `seq<string>`. When it runs out, `readLine` returns
null and `line.length()` throws; the model reports this as `Crashed(InputClosed)`. The
exceptions that escape the loop (`NumberFormatException` from `parseInt`,
`ArrayIndexOutOfBoundsException` from `hits[i]`) are `Crashed` outcomes rather than
preconditions.

How `doPagingSearch` behaves, as the model states it:

- A page number whose first hit index is `>= numTotalHits` is refused: the loop prints
  "No such page" and reads another line. Page 0 and negative pages are accepted (see
  Findings).
- Declining to collect more ends the whole session.
- At the collect-more prompt only an empty line or a line starting with `n` declines.
  Every other line accepts, `q` included.
- After a page is shown, the session ends right there, reading nothing more, when it
  is not interactive or the page is empty (line 134). Every other ending follows a
  prompt after an interactive, non-empty page.
- The guard `numTotalHits >= end` of line 138 always holds when it is reached, so the
  navigation prompt always follows an interactive, non-empty page. `DisplayPage`
  asserts it.
- A line that is not `q`, `p` or `n` and does not parse as an `int` ends the session
  with a `NumberFormatException`.

## Model

| member | source | states |
|---|---|---|
| `Commands.ParseInt` | src/main/java/com/lucenetest/search/SearchFiles.java:164 | parses exactly the lines made of an optional `+` or `-` and one or more ASCII digits whose value lies in the `int` range, and yields that value (`+5` is 5, `007` is 7); every other line is a `NumberFormatException` |
| `Commands.AccumulateValue` | src/main/java/com/lucenetest/search/SearchFiles.java:164 | the digit loop of `parseInt`, with its limit (`MIN_VALUE` for a negative literal, `-MAX_VALUE` otherwise) and its `limit / 10` pre-check, yields minus the value of the digits exactly when all are digits and the value is within the limit |
| `Commands.ParseIntSignsAndZeros` | src/main/java/com/lucenetest/search/SearchFiles.java:164 | `+5` reads as 5 and `007` as 7; a lone `-`, an empty line and `1a` are refused |
| `Commands.ParseIntBounds` | src/main/java/com/lucenetest/search/SearchFiles.java:164 | `-2147483648` and `2147483647` are read as the two ends of the `int` range |
| `Commands.ParseIntOverflow` | src/main/java/com/lucenetest/search/SearchFiles.java:164 | `2147483648` and `-2147483649`, one past either end, are refused |
| `Commands.ParseShowInt` | src/main/java/com/lucenetest/search/SearchFiles.java:164 | parsing reads back every `int` written in decimal, negatives included |
| `Commands.ClassifyNavigation` | src/main/java/com/lucenetest/search/SearchFiles.java:150-171 | empty or `q…` quits; `p…` and `n…` are decided by the first character alone; any other line is a jump to its parsed value, or malformed exactly when parsing fails |
| `Commands.TypedPageNumberIsJump` | src/main/java/com/lucenetest/search/SearchFiles.java:155-166 | typing any `int` page number in decimal is read as a jump to that page, including 0 and negative numbers |
| `Commands.DeclinesCollect` | src/main/java/com/lucenetest/search/SearchFiles.java:105 | at "Collect more (y/n) ?" an empty line or one starting with `n` declines; every other line accepts |
| `Paging.FirstLimit` | src/main/java/com/lucenetest/search/SearchFiles.java:90-91 | the first search asks for `5 * hitsPerPage` hits; what it is used for is stated by `Session.Cursor.constructor`, whose buffer is `search(FirstLimit(hitsPerPage))` |
| `Paging.Honest` | src/main/java/com/lucenetest/search/SearchFiles.java:91-92 | what the session assumes of the searcher: a search limited to `n` returns at most `n` hits and at most `numTotalHits` |
| `Paging.LuceneSearch` | src/main/java/com/lucenetest/search/SearchFiles.java:109 | Lucene's collector: a search limited to `n` returns `min(n, numTotalHits)` hits |
| `Paging.Indices` | src/main/java/com/lucenetest/search/SearchFiles.java:114 | the display loop visits `hi - lo` consecutive positions from `lo`, none when `hi <= lo` |
| `Paging.PageEnd` | src/main/java/com/lucenetest/search/SearchFiles.java:112 | the page from `start` ends at the limit or one page after `start`, whichever comes first; the limit is the buffer length at line 112 and `numTotalHits` after a move at line 174 |
| `Paging.OffersPrevious` | src/main/java/com/lucenetest/search/SearchFiles.java:142 | "(p)revious page" is printed exactly when `start - hitsPerPage >= 0` |
| `Paging.OffersNext` | src/main/java/com/lucenetest/search/SearchFiles.java:145 | "(n)ext page" is printed exactly when `start + hitsPerPage < numTotalHits` |
| `Paging.PreviousStart` | src/main/java/com/lucenetest/search/SearchFiles.java:155-157 | previous is never negative; it goes back one page exactly when the prompt offers it, and to 0 otherwise |
| `Paging.NextStart` | src/main/java/com/lucenetest/search/SearchFiles.java:158-162 | next advances exactly one page when the prompt offers it and otherwise leaves `start` unchanged; `start < numTotalHits` is preserved |
| `Paging.JumpTarget` | src/main/java/com/lucenetest/search/SearchFiles.java:164-170 | an accepted start is below `numTotalHits` and a multiple of the page size, and is negative only for a page `<= 0` |
| `Paging.CheckedJumpTarget` | src/main/java/com/lucenetest/search/SearchFiles.java:165-166 | the corrected jump agrees with the written one where it accepts, and always lands on a page |
| `Paging.DisplayedWithinBuffer` | src/main/java/com/lucenetest/search/SearchFiles.java:112-114 | whenever `start >= 0`, every index printed is a valid index into `hits`, and at most one page is printed |
| `Paging.PreviousKeepsOnPage` | src/main/java/com/lucenetest/search/SearchFiles.java:155-157 | previous keeps `start` non-negative, a multiple of the page size, and a real hit position (or 0) |
| `Paging.NextKeepsOnPage` | src/main/java/com/lucenetest/search/SearchFiles.java:158-162 | next keeps the same invariant; in particular it never moves `start` to or past `numTotalHits` |
| `Paging.OffersMatchMoves` | src/main/java/com/lucenetest/search/SearchFiles.java:142-162 | on a page, "(n)ext page" is printed exactly when next moves, and "(p)revious page" exactly when previous moves |
| `Paging.MovesUndoEachOther` | src/main/java/com/lucenetest/search/SearchFiles.java:155-162 | an offered next followed by previous returns to the same page, and so does an offered previous followed by next |
| `Paging.JumpAcceptsExactlyExistingPages` | src/main/java/com/lucenetest/search/SearchFiles.java:164-170 | for pages from 1 on, the jump is accepted if and only if the page is at most the number of pages needed for `numTotalHits` |
| `Paging.JumpAcceptsNonPositivePages` | src/main/java/com/lucenetest/search/SearchFiles.java:164-174 | the written guard accepts every page `<= 0`; `start` becomes negative, no collect-more prompt intervenes, and the next displayed range begins at a negative index |
| `Paging.CheckedJumpAcceptsExactlyExistingPages` | src/main/java/com/lucenetest/search/SearchFiles.java:165 | the corrected guard accepts exactly the pages that exist |
| `Paging.CollectMorePromptBeyondFifthPage` | src/main/java/com/lucenetest/search/SearchFiles.java:90-103 | with Lucene's collector, while the buffer holds the first search's hits the collect-more prompt appears exactly when a page reaches past the fifth page and more than five pages of hits match; once all matches are collected no page shows it again |
| `Paging.LuceneSearchIsHonest` | src/main/java/com/lucenetest/search/SearchFiles.java:91-92 | Lucene's collector returns no more hits than asked for and no more than match |
| `Paging.TwentyThreeHits` | src/main/java/com/lucenetest/search/SearchFiles.java:164-170 | with 23 hits at 10 per page, page 3 shows hits 20 to 22 and page 4 is refused |
| `Trace.DisplayedScreenWellFormed` | src/main/java/com/lucenetest/search/SearchFiles.java:112-132 | a page displayed from an aligned `start >= 0` shows the positions from `start` to the page end within the buffer, at most one page of valid indices |
| `Trace.MoveKeepsOnPage` | src/main/java/com/lucenetest/search/SearchFiles.java:155-170 | previous, next or an accepted jump from a page to a non-negative start lands on a page |
| `Trace.FinishOnLastPage` | src/main/java/com/lucenetest/search/SearchFiles.java:134 | a session whose last page is not interactive or empty ends on that page with no further line read, as `NotInteractive` or `NoHits`; no prompt follows it |
| `Trace.NoPageAfterStop` | src/main/java/com/lucenetest/search/SearchFiles.java:112-135 | no page is shown after an empty page or after the page of a non-interactive session: line 134 ends the session there |
| `Trace.ShownPagesOnPage` | src/main/java/com/lucenetest/search/SearchFiles.java:87-177 | every page a session shows starts at an existing hit (or at 0), at a multiple of the page size: no move shows a page past the last match, even with the written jump guard |
| `Session.Cursor.constructor` | src/main/java/com/lucenetest/search/SearchFiles.java:91-98 | the loop starts at `start = 0` and `end = min(numTotalHits, hitsPerPage)`, with at most five pages of hits collected |
| `Session.Cursor.CollectMore` | src/main/java/com/lucenetest/search/SearchFiles.java:109 | accepting replaces the buffer with a search limited to `numTotalHits`; nothing else changes |
| `Session.Cursor.UpdateDisplayEnd` | src/main/java/com/lucenetest/search/SearchFiles.java:112 | `end` becomes the page end within the buffer; nothing else changes |
| `Session.Cursor.Displayed` | src/main/java/com/lucenetest/search/SearchFiles.java:114-132 | the display loop completes exactly when its range is empty or inside the buffer, printing positions `start` to `end - 1`; otherwise it throws at the first position outside the buffer |
| `Session.Cursor.Previous` | src/main/java/com/lucenetest/search/SearchFiles.java:155-157 | `start` becomes `max(0, start - hitsPerPage)`; nothing else changes |
| `Session.Cursor.Next` | src/main/java/com/lucenetest/search/SearchFiles.java:158-162 | `start` advances one page only when `start + hitsPerPage < numTotalHits`; nothing else changes |
| `Session.Cursor.Jump` | src/main/java/com/lucenetest/search/SearchFiles.java:164-170 | the written guard: accepted if and only if `(page - 1) * hitsPerPage < numTotalHits`, and a refused page leaves the state unchanged |
| `Session.Cursor.JumpToPage` | src/main/java/com/lucenetest/search/SearchFiles.java:165-166 | the corrected jump: accepted if and only if `1 <= page <= ` the page count; the cursor stays on a page |
| `Session.Cursor.UpdateNavigationEnd` | src/main/java/com/lucenetest/search/SearchFiles.java:174 | after a move, `end` becomes the page end within `numTotalHits` |
| `Session.Move` | src/main/java/com/lucenetest/search/SearchFiles.java:155-174 | `p` sets `start` to `PreviousStart`, `n` to `NextStart`, and a page number to its `JumpTarget` when that exists; a refused page number changes nothing; after a move `end` is the page end within `numTotalHits` |
| `Session.Navigate` | src/main/java/com/lucenetest/search/SearchFiles.java:138-174 | the prompt loop reads refused page numbers until a line moves the page (to that line's target), quits, cannot be parsed, or no line is left; every line before the last one read is a refused page number |
| `Session.DisplayPage` | src/main/java/com/lucenetest/search/SearchFiles.java:100-137 | the collect-more prompt is shown exactly when `end` exceeds the buffer: a declining line ends the session, no line crashes, any other line replaces the buffer with `search(numTotalHits)`; without the prompt no line is read and the buffer is kept; the page shown runs from `start` to the page end within the buffer; a negative `start` throws at `hits[start]`; a non-interactive session ends after the page, an interactive one exactly when the buffer is empty |
| `Session.ShowPage` | src/main/java/com/lucenetest/search/SearchFiles.java:100-137 | one pass up to the prompt, as a step of the whole session: the page reached is appended with the lines it read, or the session ends before or on it as `Trace.Finish` describes; a page that does not continue (not interactive, or empty) ends the session with no further line read, and a page left for the prompt is interactive and non-empty (`Trace.Continued`) |
| `Session.PagingSearch` | src/main/java/com/lucenetest/search/SearchFiles.java:87-177 | the pages shown start at hit 0, every page but the last went on past line 134 (interactive and not empty), and each later one is reached from the previous one by refused page numbers, the move on the next line, and the collect-more step (`Trace.Shown`); the lines after the last page end the session exactly as `Trace.Finish` lists; when the last page does not continue past line 134 the session ends on it, reading no more lines, as `NotInteractive` when it is not interactive and otherwise as `NoHits`; a non-interactive session shows at most one page; with no matches one empty page is shown |

## Findings

| source | as written | input that shows it | evidently intended | confidence | as-written member | corrected member |
|---|---|---|---|---|---|---|
| src/main/java/com/lucenetest/search/SearchFiles.java:165 | `(page - 1) * hitsPerPage < numTotalHits` accepts every page `<= 0`, since the left side is then negative | 23 hits, 10 per page, user types `0`: `start = -10`, `end = 0`, and the display loop reads `hits[-10]`, throwing ArrayIndexOutOfBoundsException | also require `page >= 1`, so that page 0 and below print "No such page" | high; not executed | `Paging.JumpAcceptsNonPositivePages` (about `Paging.JumpTarget` and `Session.Cursor.Jump`) | `Paging.CheckedJumpAcceptsExactlyExistingPages` (about `Paging.CheckedJumpTarget` and `Session.Cursor.JumpToPage`) |

`Session.PagingSearch` keeps the guard as written so that it models the program as it
is. Its contract shows the consequence: `Trace.Ended` admits an index crash only right
after a move to a negative start, and only a page number `<= 0` moves there. No page
with a negative start is ever shown (`Trace.ShownPagesOnPage`), because the display
throws first. With the corrected guard, `Paging.OnPage` holds after every move, so
`Paging.DisplayedWithinBuffer` applies to every page the loop starts to display.

## Left out

- Console output (prompts, "No such page", the hit listing) is not modelled. Input is
  the list of lines typed; an `IOException` from `readLine` is not modelled.
- Stored-document retrieval and the printing of `path` and `title` (lines 115-131) are
  not modelled, and neither is the `raw` flag. Both branches read `hits[i]` in the same
  way, so the model keeps only which positions are visited.
- The content of the hits (document ids, scores) and Lucene's search itself are left
  out. The searcher is a function giving how many hits a search collects.
- Java `int` overflow is not modelled: `(page - 1) * hitsPerPage` (line 165),
  `5 * hitsPerPage` (line 91) and `start + hitsPerPage` use unbounded integers.
  The match count is an unbounded `nat`; the `ArithmeticException` that
  `Math.toIntExact` (line 94) throws above `Integer.MAX_VALUE` is not modelled.
- Commands.ParseInt: accepts ASCII digits only. Java's `parseInt` also accepts the
  other Unicode decimal digits. Dafny `char`s are Unicode scalar values, not UTF-16
  units.
- `hitsPerPage > 0` is a precondition. The source does not check it, and what the
  searcher does with a non-positive limit is not part of this model.
- Paging.CheckedJumpTarget: the corrected guard `page >= 1` does not cover Java's
  `int` overflow of `(page - 1) * hitsPerPage`. Page 300000000 at 10 per page gives
  2999999990, which Java wraps to -1294967306, so the program accepts it and starts
  at a negative position. The model's unbounded arithmetic refuses that page.
- Session.PagingSearch: assumes only that the searcher is honest (`Paging.Honest`),
  which is weaker than Lucene's exact `Min(limit, total)`. Facts that need exact counts
  are stated for `Paging.LuceneSearch` in `Paging.CollectMorePromptBeyondFifthPage`.
- `SearchFiles.main` (lines 31-75) is left out: it opens the index, runs one fixed
  query and logs.
- `IndexDocs.java` (indexing, field types, analyzers, commit, the price range query
  over `double` values) is left out, as is `LucenetestApplication.java` (bootstrap).
  Both are calls into Lucene or the framework, whose behaviour is not visible here.
- The inverted index, analysis, postings, numeric points, snapshots and scoring are
  left out. This repository does not implement them; they live inside Lucene.
