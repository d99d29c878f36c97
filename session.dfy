/** The interactive paging loop of SearchFiles.doPagingSearch: a cursor over the
    collected hits, moved by the lines a user types, with the searcher given as a
    function from a requested limit to the number of hits it collects. */
module Session {
  import opened Wrappers
  import opened Paging
  import opened Commands
  import opened Trace

  /** The loop state of doPagingSearch: `start`, `end`, and `collected`, the
      length of the `hits` buffer; `total` is numTotalHits. */
  class Cursor {
    const total: nat
    const hitsPerPage: int
    var start: int
    var end: int
    var collected: nat

    ghost predicate Valid()
      reads this
    {
      hitsPerPage > 0 && collected <= total
    }

    /** Lines 91-98: collect five pages' worth of hits and start on the first page. */
    constructor (search: nat -> nat, total: nat, hitsPerPage: int)
      requires hitsPerPage > 0 && Honest(search, total)
      ensures Valid()
      ensures this.total == total && this.hitsPerPage == hitsPerPage
      ensures collected == search(FirstLimit(hitsPerPage))
      ensures collected <= FirstLimit(hitsPerPage)
      ensures start == 0 && end == Min(total, hitsPerPage)
    {
      this.total := total;
      this.hitsPerPage := hitsPerPage;
      collected := search(FirstLimit(hitsPerPage));
      start := 0;
      end := Min(total, hitsPerPage);
    }

    /** Line 109: run the search again asking for all `total` hits; only the
        buffer changes. */
    method CollectMore(search: nat -> nat)
      requires Valid() && Honest(search, total)
      modifies this
      ensures Valid()
      ensures collected == search(total)
      ensures start == old(start) && end == old(end)
    {
      collected := search(total);
    }

    /** Line 112: the range to display ends at the buffer or at one page. */
    method UpdateDisplayEnd()
      requires Valid()
      modifies this
      ensures Valid()
      ensures end == PageEnd(collected, start, hitsPerPage)
      ensures start == old(start) && collected == old(collected)
    {
      end := Min(collected, start + hitsPerPage);
    }

    /** The loop of lines 114-132: visit hits[start] up to hits[end - 1]; the
        first position outside the buffer throws. */
    method Displayed() returns (r: Result<seq<int>, int>)
      ensures r.Success? <==> end <= start || (0 <= start && end <= collected)
      ensures r.Success? ==> r.value == Indices(start, end)
      ensures r.Failure? ==> r.error == if start < 0 then start else Max(start, collected)
    {
      var shown := [];
      var i := start;
      while i < end
        invariant start < end ==> start <= i <= end
        invariant start >= end ==> i == start
        invariant shown == Indices(start, i)
        invariant start < i ==> 0 <= start && i <= collected
      {
        if i < 0 || i >= collected {
          return Failure(i);
        }
        shown := shown + [i];
        i := i + 1;
      }
      return Success(shown);
    }

    /** Line 156: 'p'. */
    method Previous()
      requires Valid()
      modifies this
      ensures Valid()
      ensures start == PreviousStart(old(start), hitsPerPage)
      ensures end == old(end) && collected == old(collected)
    {
      start := Max(0, start - hitsPerPage);
    }

    /** Lines 159-161: 'n'. */
    method Next()
      requires Valid()
      modifies this
      ensures Valid()
      ensures start == NextStart(old(start), hitsPerPage, total)
      ensures end == old(end) && collected == old(collected)
    {
      if start + hitsPerPage < total {
        start := start + hitsPerPage;
      }
    }

    /** Lines 165-170: a page number, with the guard as written; a rejected page
        ("No such page") changes nothing. */
    method Jump(page: int) returns (accepted: bool)
      requires Valid()
      modifies this
      ensures Valid()
      ensures accepted <==> JumpTarget(page, hitsPerPage, total).Some?
      ensures start == if accepted then JumpTarget(page, hitsPerPage, total).value else old(start)
      ensures end == old(end) && collected == old(collected)
    {
      if (page - 1) * hitsPerPage < total {
        start := (page - 1) * hitsPerPage;
        accepted := true;
      } else {
        accepted := false;
      }
    }

    /** A page number with the evidently intended guard, which also rejects
        pages below 1; the cursor stays on a page. */
    method JumpToPage(page: int) returns (accepted: bool)
      requires Valid() && OnPage(start, hitsPerPage, total)
      modifies this
      ensures Valid() && OnPage(start, hitsPerPage, total)
      ensures accepted <==> 1 <= page <= PageCount(total, hitsPerPage)
      ensures start == if accepted then (page - 1) * hitsPerPage else old(start)
      ensures end == old(end) && collected == old(collected)
    {
      CheckedJumpAcceptsExactlyExistingPages(page, hitsPerPage, total);
      var target := CheckedJumpTarget(page, hitsPerPage, total);
      accepted := target.Some?;
      if accepted {
        start := target.value;
      }
    }

    /** Line 174: after a move the page ends at the last match or at one page. */
    method UpdateNavigationEnd()
      requires Valid()
      modifies this
      ensures Valid()
      ensures end == PageEnd(total, start, hitsPerPage)
      ensures start == old(start) && collected == old(collected)
    {
      end := Min(total, start + hitsPerPage);
    }
  }

  /** Lines 155-174 for a line read as a move: apply it and, if it was accepted,
      recompute the end of the page. Only a refused page number is not `moved`,
      and it changes nothing. */
  method Move(c: Cursor, command: Command) returns (moved: bool)
    requires c.Valid() && 0 <= c.start && c.start % c.hitsPerPage == 0
    requires command.Previous? || command.Next? || command.Jump?
    modifies c
    ensures c.Valid() && c.collected == old(c.collected)
    ensures c.start % c.hitsPerPage == 0
    ensures command.Previous? ==> moved && c.start == PreviousStart(old(c.start), c.hitsPerPage)
    ensures command.Next? ==> moved && c.start == NextStart(old(c.start), c.hitsPerPage, c.total)
    ensures command.Jump? ==> (moved <==> JumpTarget(command.page, c.hitsPerPage, c.total).Some?)
    ensures command.Jump? && moved ==>
      c.start == JumpTarget(command.page, c.hitsPerPage, c.total).value
    ensures !moved ==> c.start == old(c.start) && c.end == old(c.end)
    ensures moved ==> c.end == PageEnd(c.total, c.start, c.hitsPerPage)
    ensures c.start < 0 ==> command.Jump? && command.page <= 0 && c.start + c.hitsPerPage <= 0
  {
    match command {
      case Previous =>
        c.Previous();
        moved := true;
      case Next =>
        c.Next();
        moved := true;
      case Jump(page) =>
        moved := c.Jump(page);
    }
    if moved {
      c.UpdateNavigationEnd();
    }
  }

  /** The prompt loop of lines 138-174: read lines until one quits, moves, or
      throws; "No such page" asks again. `stop` is None when the cursor moved, and
      otherwise says how the session ends. */
  method Navigate(c: Cursor, input: seq<string>, from: nat) returns (stop: Option<Outcome>, consumed: nat)
    requires c.Valid() && from <= |input| && 0 <= c.start && c.start % c.hitsPerPage == 0
    modifies c
    ensures c.Valid() && c.collected == old(c.collected)
    ensures from <= consumed <= |input|
    ensures c.start % c.hitsPerPage == 0
    ensures stop.None? ==> Navigated(old(c.start), c.start, input, from, consumed, c.hitsPerPage, c.total)
    ensures stop.None? ==> c.end == PageEnd(c.total, c.start, c.hitsPerPage)
    ensures stop.None? && c.start < 0 ==>
      IsNonPositiveJump(input[consumed - 1]) && c.start + c.hitsPerPage <= 0
    ensures stop.Some? ==> c.start == old(c.start)
    ensures stop.Some? ==>
      stop.value in {Finished(UserQuit), Crashed(NumberFormat), Crashed(InputClosed)}
    ensures stop == Some(Crashed(InputClosed)) ==>
      consumed == |input| && AllRefused(input, from, consumed, c.hitsPerPage, c.total)
    ensures stop.Some? && stop.value != Crashed(InputClosed) ==>
      from < consumed && AllRefused(input, from, consumed - 1, c.hitsPerPage, c.total)
    ensures stop.Some? ==> EndingJustified(stop.value, true, input, consumed)
  {
    consumed := from;
    while true
      invariant c.Valid() && c.collected == old(c.collected)
      invariant from <= consumed <= |input|
      invariant c.start == old(c.start)
      invariant AllRefused(input, from, consumed, c.hitsPerPage, c.total)
      decreases |input| - consumed
    {
      if consumed == |input| {
        return Some(Crashed(InputClosed)), consumed;
      }
      var line := input[consumed];
      consumed := consumed + 1;
      var command := ClassifyNavigation(line);
      if command == Quit {
        return Some(Finished(UserQuit)), consumed;
      } else if command == Malformed {
        return Some(Crashed(NumberFormat)), consumed;
      }
      var moved := Move(c, command);
      if moved {
        return None, consumed;
      }
    }
  }

  /** Lines 101-136, one pass of the outer loop up to the prompt: offer to collect
      more hits when the page reaches past the buffer, display the page, and stop
      when the session is not interactive or the page is empty. `screen` is the
      page displayed, and `stop` is None when the navigation prompt comes next. */
  method DisplayPage(c: Cursor, search: nat -> nat, interactive: bool, input: seq<string>, from: nat)
    returns (stop: Option<Outcome>, screen: Option<Screen>, consumed: nat)
    requires c.Valid() && Honest(search, c.total) && from <= |input|
    requires c.start % c.hitsPerPage == 0 && c.end == PageEnd(c.total, c.start, c.hitsPerPage)
    requires c.start < 0 ==> c.start + c.hitsPerPage <= 0
    modifies c
    ensures c.Valid() && c.start == old(c.start)
    ensures from <= consumed <= from + 1 && consumed <= |input|
    ensures old(c.end) <= old(c.collected) ==> consumed == from && c.collected == old(c.collected)
    ensures stop == Some(Finished(DeclinedCollectMore)) <==>
      old(c.end) > old(c.collected) && from < |input| && DeclinesCollect(input[from])
    ensures stop == Some(Crashed(InputClosed)) <==> old(c.end) > old(c.collected) && from == |input|
    ensures old(c.end) > old(c.collected) && from < |input| ==> consumed == from + 1
    ensures old(c.end) > old(c.collected) && from < |input| && !DeclinesCollect(input[from]) ==>
      c.collected == search(c.total)
    ensures screen.Some? ==> WellFormed(screen.value, c.hitsPerPage, c.total)
    ensures screen.Some? ==> screen.value.start == c.start && screen.value.collected == c.collected
    ensures screen.Some? ==>
      Arrived(old(c.collected), screen.value, input, from, consumed, search, c.hitsPerPage, c.total)
    ensures screen.None? <==> (stop.Some? &&
      (stop.value == Finished(DeclinedCollectMore) || stop.value == Crashed(InputClosed) ||
       (stop.value.Crashed? && stop.value.fault.IndexOutOfBounds?)))
    ensures stop.Some? && screen.Some? ==>
      stop.value == Finished(NotInteractive) || stop.value == Finished(NoHits)
    ensures stop.None? ==> 0 <= c.start && c.end <= c.total
    ensures (stop.Some? && stop.value.Crashed? && stop.value.fault.IndexOutOfBounds?) <==> c.start < 0
    ensures c.start < 0 ==> consumed == from && stop == Some(Crashed(IndexOutOfBounds(c.start)))
    ensures stop == Some(Finished(NotInteractive)) <==> !interactive && screen.Some?
    ensures stop == Some(Finished(NoHits)) <==>
      interactive && screen.Some? && screen.value.collected == 0
    ensures stop == Some(Finished(NoHits)) ==> screen.value.indices == []
    ensures stop.Some? && 0 <= c.start ==> EndingJustified(stop.value, interactive, input, consumed)
    ensures c.total == 0 && 0 <= c.start ==>
      consumed == from && screen == Some(Screen(c.start, [], 0)) && stop.Some? && stop.value.Finished?
  {
    consumed := from;
    if c.end > c.collected {
      if consumed == |input| {
        return Some(Crashed(InputClosed)), None, consumed;
      }
      var line := input[consumed];
      consumed := consumed + 1;
      if DeclinesCollect(line) {
        return Some(Finished(DeclinedCollectMore)), None, consumed;
      }
      c.CollectMore(search);
    }
    c.UpdateDisplayEnd();
    var shown := c.Displayed();
    if shown.Failure? {
      return Some(Crashed(IndexOutOfBounds(shown.error))), None, consumed;
    }
    DisplayedScreenWellFormed(c.collected, c.start, c.hitsPerPage, c.total);
    screen := Some(Screen(c.start, shown.value, c.collected));
    if !interactive || c.end == 0 {
      return Some(Finished(if !interactive then NotInteractive else NoHits)), screen, consumed;
    }
    // The guard of line 138 always holds here, so the prompt is always reached.
    assert c.total >= c.end;
    stop := None;
  }

  /** Lines 101-136 as a step of the whole session: from the state after the last
      move, the page reached is shown and added to the session, or the session ends
      before it or on it. */
  method ShowPage(c: Cursor, search: nat -> nat, interactive: bool, input: seq<string>, from: nat,
                  screens: seq<Screen>, ghost marks: seq<nat>)
    returns (stop: Option<Outcome>, screens': seq<Screen>, consumed: nat, ghost marks': seq<nat>)
    requires c.Valid() && Honest(search, c.total) && from <= |input|
    requires c.start % c.hitsPerPage == 0 && c.end == PageEnd(c.total, c.start, c.hitsPerPage)
    requires c.start < 0 ==>
      0 < from && IsNonPositiveJump(input[from - 1]) && c.start + c.hitsPerPage <= 0
    requires Shown(screens, marks, interactive, input, search, c.hitsPerPage, c.total)
    requires Paused(screens, marks, c.start, c.collected, from, input, search, c.hitsPerPage, c.total)
    requires !interactive || c.total == 0 ==> screens == []
    requires screens != [] ==> Continued(screens[|screens| - 1], interactive)
    modifies c
    ensures c.Valid() && from <= consumed <= |input|
    ensures Shown(screens', marks', interactive, input, search, c.hitsPerPage, c.total)
    ensures stop.Some? ==>
      Finish(stop.value, interactive, screens', marks', input, consumed, search, c.hitsPerPage, c.total) &&
      EndingJustified(stop.value, interactive, input, consumed)
    ensures stop.None? ==>
      |screens'| > 0 && screens'[|screens'| - 1].start == c.start &&
      screens'[|screens'| - 1].collected == c.collected && marks'[|marks'| - 1] == consumed &&
      Continued(screens'[|screens'| - 1], interactive) && 0 <= c.start && c.start % c.hitsPerPage == 0
    ensures !interactive ==> stop.Some? && |screens'| <= 1 && consumed <= 1
    ensures c.total == 0 ==>
      stop.Some? && screens' == [Screen(0, [], 0)] && consumed == 0 && stop.value.Finished?
  {
    ghost var start, collected := c.start, c.collected;
    var screen;
    stop, screen, consumed := DisplayPage(c, search, interactive, input, from);
    if screen.None? {
      FinishBeforePage(stop.value, interactive, screens, marks, start, collected, from, consumed,
                       input, search, c.hitsPerPage, c.total);
      return stop, screens, consumed, marks;
    }
    ExtendShown(screens, marks, start, collected, from, screen.value, consumed, interactive, input,
                search, c.hitsPerPage, c.total);
    screens', marks' := screens + [screen.value], marks + [consumed];
    if stop.Some? {
      FinishOnPage(stop.value, interactive, screens', marks', input, consumed, search,
                   c.hitsPerPage, c.total);
      return;
    }
    assert screens'[|screens'| - 1] == screen.value && marks'[|marks'| - 1] == consumed;
  }

  /** doPagingSearch (lines 87-177). `input` holds the lines the user types, in
      order; the result is how the session ended, the pages it displayed, and how
      many lines it read. `marks[k]` is the number of lines read when page
      `screens[k]` was shown. */
  method PagingSearch(search: nat -> nat, total: nat, hitsPerPage: int, interactive: bool,
                      input: seq<string>)
    returns (outcome: Outcome, screens: seq<Screen>, consumed: nat, ghost marks: seq<nat>)
    requires hitsPerPage > 0 && Honest(search, total)
    ensures consumed <= |input|
    ensures Shown(screens, marks, interactive, input, search, hitsPerPage, total)
    ensures Finish(outcome, interactive, screens, marks, input, consumed, search, hitsPerPage, total)
    ensures screens != [] && !Continued(screens[|screens| - 1], interactive) ==>
      consumed == marks[|marks| - 1] && outcome == Finished(if !interactive then NotInteractive else NoHits)
    ensures !interactive ==> |screens| <= 1 && consumed <= 1
    ensures total == 0 ==> screens == [Screen(0, [], 0)] && consumed == 0 && outcome.Finished?
    ensures EndingJustified(outcome, interactive, input, consumed)
  {
    var c := new Cursor(search, total, hitsPerPage);
    screens, consumed, marks := [], 0, [];
    while true
      invariant c.Valid() && c.total == total && c.hitsPerPage == hitsPerPage
      invariant consumed <= |input|
      invariant c.start % hitsPerPage == 0 && c.end == PageEnd(total, c.start, hitsPerPage)
      invariant c.start < 0 ==>
        0 < consumed && IsNonPositiveJump(input[consumed - 1]) && c.start + hitsPerPage <= 0
      invariant Shown(screens, marks, interactive, input, search, hitsPerPage, total)
      invariant Paused(screens, marks, c.start, c.collected, consumed, input, search, hitsPerPage, total)
      invariant !interactive || total == 0 ==> screens == []
      invariant screens != [] ==> Continued(screens[|screens| - 1], interactive)
      decreases |input| - consumed
    {
      var stop;
      stop, screens, consumed, marks := ShowPage(c, search, interactive, input, consumed, screens, marks);
      if stop.Some? {
        return stop.value, screens, consumed, marks;
      }
      ghost var before, start := consumed, c.start;
      stop, consumed := Navigate(c, input, consumed);
      if stop.Some? {
        FinishAtPrompt(stop.value, interactive, screens, marks, input, consumed, search, hitsPerPage, total);
        return stop.value, screens, consumed, marks;
      }
      assert Navigated(start, c.start, input, before, consumed, hitsPerPage, total);
    }
  }
}
