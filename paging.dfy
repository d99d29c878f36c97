/** Page arithmetic of the interactive paging loop: where a page starts and ends,
    how the previous, next and jump moves change the first hit shown, and which
    moves the prompt offers. Java's `int` arithmetic is taken to be unbounded. */
module Paging {
  import opened Wrappers

  function Min(a: int, b: int): int { if a <= b then a else b }

  function Max(a: int, b: int): int { if a <= b then b else a }

  /** The first search asks for enough hits to fill five pages. */
  function FirstLimit(hitsPerPage: int): nat
    requires hitsPerPage > 0
  {
    5 * hitsPerPage
  }

  /** What the searcher promises about `search(limit)`, the number of hits it
      collects when asked for at most `limit`: no more than asked for and no more
      than `total`, the number of matching documents. */
  ghost predicate Honest(search: nat -> nat, total: nat)
  {
    forall limit: nat :: search(limit) <= limit && search(limit) <= total
  }

  /** Lucene's collector, which returns exactly the top `Min(limit, total)` hits. */
  function LuceneSearch(total: nat): nat -> nat
  {
    (limit: nat) => if limit <= total then limit else total
  }

  /** The hit positions lo, lo + 1, ..., hi - 1 that the display loop visits. */
  function Indices(lo: int, hi: int): (r: seq<int>)
    ensures |r| == Max(0, hi - lo)
    ensures forall k :: 0 <= k < |r| ==> r[k] == lo + k
    decreases hi - lo
  {
    if hi <= lo then [] else Indices(lo, hi - 1) + [hi - 1]
  }

  /** Position one past the last hit of the page that starts at `start`: the page
      is cut at `limit`, the buffer length when displaying (line 112) and
      numTotalHits after a move (line 174). */
  function PageEnd(limit: nat, start: int, hitsPerPage: int): (end: int)
    requires hitsPerPage > 0
    ensures end <= limit && end <= start + hitsPerPage
    ensures end == limit || end == start + hitsPerPage
  {
    Min(limit, start + hitsPerPage)
  }

  /** The prompt offers "(p)revious page" (line 142). */
  predicate OffersPrevious(start: int, hitsPerPage: int)
  {
    start - hitsPerPage >= 0
  }

  /** The prompt offers "(n)ext page" (line 145). */
  predicate OffersNext(start: int, hitsPerPage: int, total: nat)
  {
    start + hitsPerPage < total
  }

  /** The first hit shown after 'p' (line 156). */
  function PreviousStart(start: int, hitsPerPage: int): (r: int)
    requires hitsPerPage > 0
    ensures r >= 0
    ensures OffersPrevious(start, hitsPerPage) ==> r == start - hitsPerPage
    ensures !OffersPrevious(start, hitsPerPage) ==> r == 0
    ensures start % hitsPerPage == 0 ==> r % hitsPerPage == 0
  {
    ShiftKeepsAlignment(start, hitsPerPage);
    Max(0, start - hitsPerPage)
  }

  /** The first hit shown after 'n' (lines 159-161). */
  function NextStart(start: int, hitsPerPage: int, total: nat): (r: int)
    requires hitsPerPage > 0
    ensures OffersNext(start, hitsPerPage, total) ==> r == start + hitsPerPage
    ensures !OffersNext(start, hitsPerPage, total) ==> r == start
    ensures start < total ==> r < total
    ensures start % hitsPerPage == 0 ==> r % hitsPerPage == 0
  {
    ShiftKeepsAlignment(start, hitsPerPage);
    if start + hitsPerPage < total then start + hitsPerPage else start
  }

  /** The first hit shown after typing page number `page`, as the guard of line 165
      is written; None is "No such page". */
  function JumpTarget(page: int, hitsPerPage: int, total: nat): (r: Option<int>)
    requires hitsPerPage > 0
    ensures r.Some? ==> r.value < total
    ensures r.Some? ==> r.value % hitsPerPage == 0
    ensures r.Some? && r.value < 0 ==> page <= 0 && r.value + hitsPerPage <= 0
  {
    var first := (page - 1) * hitsPerPage;
    if first < total then
      MultipleIsAligned(page - 1, hitsPerPage);
      if page >= 1 then
        NonNegativeProduct(page - 1, hitsPerPage);
        Some(first)
      else
        MonotoneProduct(page - 1, -1, hitsPerPage);
        Some(first)
    else None
  }

  /** The jump guard as evidently intended: page numbers start at 1. */
  function CheckedJumpTarget(page: int, hitsPerPage: int, total: nat): (r: Option<int>)
    requires hitsPerPage > 0
    ensures r.Some? ==> OnPage(r.value, hitsPerPage, total)
    ensures r.Some? ==> r == JumpTarget(page, hitsPerPage, total)
  {
    if 1 <= page then
      NonNegativeProduct(page - 1, hitsPerPage);
      JumpTarget(page, hitsPerPage, total)
    else None
  }

  /** Number of pages needed to show `total` hits. */
  function PageCount(total: nat, hitsPerPage: int): nat
    requires hitsPerPage > 0
  {
    (total + hitsPerPage - 1) / hitsPerPage
  }

  /** A first hit position that the navigation moves keep: a non-negative multiple
      of the page size that is a real hit, or 0 when there are none. */
  ghost predicate OnPage(start: int, hitsPerPage: int, total: nat)
    requires hitsPerPage > 0
  {
    0 <= start && start % hitsPerPage == 0 && (start < total || start == 0)
  }

  lemma NonNegativeProduct(a: int, b: int)
    requires a >= 0 && b >= 0
    ensures a * b >= 0
  {
  }

  lemma MultipleIsAligned(k: int, h: int)
    requires h > 0
    ensures (k * h) % h == 0
  {
    ModOfMultiple(k, h, 0);
  }

  /** Euclidean division is unique: a value written as q * h + r with 0 <= r < h
      has remainder r. */
  lemma ModOfMultiple(q: int, h: int, r: int)
    requires h > 0 && 0 <= r < h
    ensures (q * h + r) % h == r
  {
    var a := q * h + r;
    var q', r' := a / h, a % h;
    assert a == q' * h + r';
    assert (q - q') * h == r' - r;
    if q > q' {
      MonotoneProduct(1, q - q', h);
    } else if q < q' {
      MonotoneProduct(1, q' - q, h);
    }
  }

  lemma MonotoneProduct(a: int, b: int, h: int)
    requires a <= b && h >= 0
    ensures a * h <= b * h
  {
    assert b * h - a * h == (b - a) * h;
    NonNegativeProduct(b - a, h);
  }

  /** Moving by one page keeps a position's remainder modulo the page size. */
  lemma ShiftKeepsAlignment(a: int, h: int)
    requires h > 0
    ensures (a + h) % h == a % h
    ensures (a - h) % h == a % h
  {
    var q, r := a / h, a % h;
    assert a + h == (q + 1) * h + r;
    ModOfMultiple(q + 1, h, r);
    assert a - h == (q - 1) * h + r;
    ModOfMultiple(q - 1, h, r);
  }

  /** Every displayed position lies in the collected buffer: whenever the first
      hit is not negative, the range [start, PageEnd) printed by the loop of
      lines 114-132 holds valid indices of `hits`, at most one page of them. */
  lemma DisplayedWithinBuffer(collected: nat, start: int, hitsPerPage: int)
    requires hitsPerPage > 0 && 0 <= start
    ensures var shown := Indices(start, PageEnd(collected, start, hitsPerPage));
      |shown| <= hitsPerPage &&
      forall k :: 0 <= k < |shown| ==> 0 <= shown[k] < collected
  {
  }

  /** 'p' keeps the cursor on a page. */
  lemma PreviousKeepsOnPage(start: int, hitsPerPage: int, total: nat)
    requires hitsPerPage > 0 && OnPage(start, hitsPerPage, total)
    ensures OnPage(PreviousStart(start, hitsPerPage), hitsPerPage, total)
  {
    ShiftKeepsAlignment(start, hitsPerPage);
  }

  /** 'n' keeps the cursor on a page; in particular it never moves the first hit
      shown past the last matching document. */
  lemma NextKeepsOnPage(start: int, hitsPerPage: int, total: nat)
    requires hitsPerPage > 0 && OnPage(start, hitsPerPage, total)
    ensures OnPage(NextStart(start, hitsPerPage, total), hitsPerPage, total)
  {
    ShiftKeepsAlignment(start, hitsPerPage);
  }

  /** On a page, the prompt offers a move exactly when that move changes the
      first hit shown: the guard printed for "(n)ext page" is the guard of the
      move itself, and "(p)revious page" is left out only on the first page. */
  lemma OffersMatchMoves(start: int, hitsPerPage: int, total: nat)
    requires hitsPerPage > 0 && OnPage(start, hitsPerPage, total)
    ensures OffersNext(start, hitsPerPage, total) <==> NextStart(start, hitsPerPage, total) != start
    ensures OffersPrevious(start, hitsPerPage) <==> PreviousStart(start, hitsPerPage) != start
  {
    if !OffersPrevious(start, hitsPerPage) {
      ModOfMultiple(0, hitsPerPage, start);
    }
  }

  /** 'p' undoes 'n' and 'n' undoes 'p' whenever the prompt offered the first move. */
  lemma MovesUndoEachOther(start: int, hitsPerPage: int, total: nat)
    requires hitsPerPage > 0 && OnPage(start, hitsPerPage, total)
    ensures OffersNext(start, hitsPerPage, total) ==>
      PreviousStart(NextStart(start, hitsPerPage, total), hitsPerPage) == start
    ensures OffersPrevious(start, hitsPerPage) ==>
      NextStart(PreviousStart(start, hitsPerPage), hitsPerPage, total) == start
  {
  }

  /** For page numbers from 1 on, the jump guard accepts exactly the pages that
      exist: 1 up to the number of pages needed for `total` hits. */
  lemma JumpAcceptsExactlyExistingPages(page: int, hitsPerPage: int, total: nat)
    requires hitsPerPage > 0 && page >= 1
    ensures JumpTarget(page, hitsPerPage, total).Some? <==> page <= PageCount(total, hitsPerPage)
  {
    var q := PageCount(total, hitsPerPage);
    var r := (total + hitsPerPage - 1) % hitsPerPage;
    assert total + hitsPerPage - 1 == q * hitsPerPage + r;
    if page <= q {
      MonotoneProduct(page - 1, q - 1, hitsPerPage);
      assert (q - 1) * hitsPerPage == q * hitsPerPage - hitsPerPage;
    } else {
      MonotoneProduct(q, page - 1, hitsPerPage);
    }
  }

  /** The guard as written also accepts page 0 and every negative page: the first
      hit becomes negative, at least one page before the start, and the next
      display loop begins at that negative position, outside the buffer. */
  lemma JumpAcceptsNonPositivePages(page: int, hitsPerPage: int, total: nat, collected: nat)
    requires hitsPerPage > 0 && page <= 0
    ensures JumpTarget(page, hitsPerPage, total).Some?
    ensures var start := JumpTarget(page, hitsPerPage, total).value;
      start + hitsPerPage <= 0 &&
      PageEnd(total, start, hitsPerPage) <= collected &&
      var shown := Indices(start, PageEnd(collected, start, hitsPerPage));
      |shown| > 0 && shown[0] < 0
  {
    MonotoneProduct(page - 1, -1, hitsPerPage);
  }

  /** With the page number checked, a jump is accepted for exactly the pages that
      exist, and the cursor stays on a page. */
  lemma CheckedJumpAcceptsExactlyExistingPages(page: int, hitsPerPage: int, total: nat)
    requires hitsPerPage > 0
    ensures CheckedJumpTarget(page, hitsPerPage, total).Some? <==>
      1 <= page <= PageCount(total, hitsPerPage)
  {
    if page >= 1 {
      JumpAcceptsExactlyExistingPages(page, hitsPerPage, total);
    }
  }

  /** With Lucene's collector, while the buffer holds the first search's hits
      (five pages' worth) the "Collect more" prompt of line 101 appears exactly
      when a page reaches beyond the fifth and more hits match. Once line 109 has
      collected all matches, no page shows the prompt again. */
  lemma CollectMorePromptBeyondFifthPage(total: nat, start: int, hitsPerPage: int)
    requires hitsPerPage > 0
    ensures var collected := LuceneSearch(total)(FirstLimit(hitsPerPage));
      PageEnd(total, start, hitsPerPage) > collected <==>
      start + hitsPerPage > 5 * hitsPerPage && total > 5 * hitsPerPage
    ensures PageEnd(total, start, hitsPerPage) <= LuceneSearch(total)(total)
  {
  }

  /** Lucene's collector keeps the searcher's promise. */
  lemma LuceneSearchIsHonest(total: nat)
    ensures Honest(LuceneSearch(total), total)
  {
  }

  /** 23 matching documents at 10 per page: page 3 shows hits 20, 21 and 22, and
      page 4 is "No such page". */
  lemma TwentyThreeHits()
    ensures JumpTarget(3, 10, 23) == Some(20)
    ensures Indices(20, PageEnd(23, 20, 10)) == [20, 21, 22]
    ensures JumpTarget(4, 10, 23) == None
  {
  }
}
