/** The observable course of a paging session: the pages shown, the lines read
    between them, and how the session ends, described independently of the loop
    that produces them. */
module Trace {
  import opened Wrappers
  import opened Paging
  import opened Commands

  /** How a session ends normally. */
  datatype Ending =
    | NotInteractive       // line 134: one page shown, no prompt
    | NoHits               // line 134: the page shown was empty
    | UserQuit             // line 151: empty line or 'q'
    | DeclinedCollectMore  // line 105: empty line or 'n' at "Collect more (y/n) ?"

  /** An exception that escapes doPagingSearch. */
  datatype Fault =
    | InputClosed              // readLine returned null; line.length() throws NullPointerException
    | NumberFormat             // Integer.parseInt threw NumberFormatException (line 164)
    | IndexOutOfBounds(index: int)  // hits[i] threw ArrayIndexOutOfBoundsException (lines 116, 120)

  datatype Outcome = Finished(ending: Ending) | Crashed(fault: Fault)

  /** One page as displayed: its first hit, the hit positions printed, and how
      many hits the buffer held at that time. */
  datatype Screen = Screen(start: int, indices: seq<int>, collected: nat)

  /** What every displayed page satisfies: it starts at a non-negative multiple of
      the page size and shows the positions from there to the end of the page or
      of the buffer, which are at most one page of valid buffer indices. */
  ghost predicate WellFormed(s: Screen, hitsPerPage: int, total: nat)
    requires hitsPerPage > 0
  {
    0 <= s.start && s.start % hitsPerPage == 0 && s.collected <= total &&
    s.indices == Indices(s.start, PageEnd(s.collected, s.start, hitsPerPage)) &&
    |s.indices| <= hitsPerPage &&
    (forall k :: 0 <= k < |s.indices| ==> 0 <= s.indices[k] < s.collected)
  }

  /** Why a session may end as it did: the last line read asked for it, no line
      was left to read, or the session was not interactive. */
  predicate EndingJustified(outcome: Outcome, interactive: bool, input: seq<string>, consumed: nat)
  {
    consumed <= |input| &&
    match outcome
    case Finished(NotInteractive) => !interactive
    case Finished(NoHits) => interactive
    case Finished(UserQuit) => 0 < consumed && ClassifyNavigation(input[consumed - 1]) == Quit
    case Finished(DeclinedCollectMore) => 0 < consumed && DeclinesCollect(input[consumed - 1])
    case Crashed(InputClosed) => consumed == |input|
    case Crashed(NumberFormat) => 0 < consumed && ClassifyNavigation(input[consumed - 1]) == Malformed
    case Crashed(IndexOutOfBounds(i)) =>
      i < 0 && 0 < consumed && IsNonPositiveJump(input[consumed - 1])
  }

  /** The first hit shown after a line read at the navigation prompt, from a page
      starting at `start`; None when the line does not move the page, which for a
      page number means "No such page". */
  function MoveTarget(start: int, command: Command, hitsPerPage: int, total: nat): Option<int>
    requires hitsPerPage > 0
  {
    match command
    case Previous => Some(PreviousStart(start, hitsPerPage))
    case Next => Some(NextStart(start, hitsPerPage, total))
    case Jump(page) => JumpTarget(page, hitsPerPage, total)
    case _ => None
  }

  /** A page number answered with "No such page" (line 169). */
  predicate RefusedJump(line: string, hitsPerPage: int, total: nat)
    requires hitsPerPage > 0
  {
    ClassifyNavigation(line).Jump? &&
    JumpTarget(ClassifyNavigation(line).page, hitsPerPage, total).None?
  }

  /** Every line of input[from..to) is a refused page number. */
  predicate AllRefused(input: seq<string>, from: nat, to: nat, hitsPerPage: int, total: nat)
    requires hitsPerPage > 0
  {
    from <= to <= |input| &&
    forall k :: from <= k < to ==> RefusedJump(input[k], hitsPerPage, total)
  }

  /** The prompt loop read input[from..to): refused page numbers, then a line that
      moved the first hit shown from `before` to `after`. */
  predicate Navigated(before: int, after: int, input: seq<string>, from: nat, to: nat,
                      hitsPerPage: int, total: nat)
    requires hitsPerPage > 0
  {
    from < to <= |input| && AllRefused(input, from, to - 1, hitsPerPage, total) &&
    MoveTarget(before, ClassifyNavigation(input[to - 1]), hitsPerPage, total) == Some(after)
  }

  /** Lines 101-110 before the page `next` is shown, reading input[from..to) with
      `collected` hits in the buffer: when the page reaches past the buffer, a line
      that accepts collecting more and a search for all matches; otherwise no line
      and the same buffer. */
  ghost predicate Arrived(collected: nat, next: Screen, input: seq<string>, from: nat, to: nat,
                          search: nat -> nat, hitsPerPage: int, total: nat)
    requires hitsPerPage > 0
  {
    if PageEnd(total, next.start, hitsPerPage) > collected then
      to == from + 1 && to <= |input| && !DeclinesCollect(input[from]) &&
      next.collected == search(total)
    else
      to == from && next.collected == collected
  }

  /** From page `prev` to page `next`, reading input[from..to): refused page
      numbers, the line that moves to `next.start`, and the collect-more step. */
  ghost predicate Transition(prev: Screen, next: Screen, input: seq<string>, from: nat, to: nat,
                             search: nat -> nat, hitsPerPage: int, total: nat)
    requires hitsPerPage > 0
  {
    var moved := if PageEnd(total, next.start, hitsPerPage) > prev.collected then to - 1 else to;
    0 <= moved &&
    Navigated(prev.start, next.start, input, from, moved, hitsPerPage, total) &&
    Arrived(prev.collected, next, input, moved, to, search, hitsPerPage, total)
  }

  /** After refused page numbers in input[from..to - 1), the line input[to - 1]
      moves from `last` to a page that reaches past its buffer. */
  predicate MovedPastBuffer(last: Screen, input: seq<string>, from: nat, to: nat,
                            hitsPerPage: int, total: nat)
    requires hitsPerPage > 0
  {
    from < to <= |input| && AllRefused(input, from, to - 1, hitsPerPage, total) &&
    var target := MoveTarget(last.start, ClassifyNavigation(input[to - 1]), hitsPerPage, total);
    target.Some? && PageEnd(total, target.value, hitsPerPage) > last.collected
  }

  /** Line 134 lets the session go on past the page `last` to the navigation
      prompt: the session is interactive and the page is not empty. */
  predicate Continued(last: Screen, interactive: bool)
  {
    interactive && 0 < last.collected
  }

  /** How the lines input[from..to) read after the last page shown, `last`, end
      the session. Only line 134 ends it on the page itself, reading nothing
      more; every other ending comes from the prompts that follow a page that
      `Continued`. */
  predicate Ended(last: Screen, outcome: Outcome, interactive: bool, input: seq<string>,
                  from: nat, to: nat, hitsPerPage: int, total: nat)
    requires hitsPerPage > 0
  {
    from <= to <= |input| &&
    match outcome
    case Finished(NotInteractive) => !interactive && to == from
    case Finished(NoHits) => interactive && last.collected == 0 && to == from
    case Finished(UserQuit) =>
      Continued(last, interactive) &&
      from < to && AllRefused(input, from, to - 1, hitsPerPage, total) &&
      ClassifyNavigation(input[to - 1]) == Quit
    case Crashed(NumberFormat) =>
      Continued(last, interactive) &&
      from < to && AllRefused(input, from, to - 1, hitsPerPage, total) &&
      ClassifyNavigation(input[to - 1]) == Malformed
    case Crashed(InputClosed) =>
      Continued(last, interactive) && to == |input| &&
      (AllRefused(input, from, to, hitsPerPage, total) ||
       MovedPastBuffer(last, input, from, to, hitsPerPage, total))
    case Finished(DeclinedCollectMore) =>
      Continued(last, interactive) &&
      from + 1 < to && MovedPastBuffer(last, input, from, to - 1, hitsPerPage, total) &&
      DeclinesCollect(input[to - 1])
    case Crashed(IndexOutOfBounds(i)) =>
      Continued(last, interactive) &&
      i < 0 && Navigated(last.start, i, input, from, to, hitsPerPage, total)
  }

  /** How a session ends before showing any page: the first page reaches past the
      five pages collected, and the "Collect more" prompt is declined or finds no
      line to read. */
  ghost predicate EndedBeforeFirstPage(outcome: Outcome, input: seq<string>, consumed: nat,
                                       search: nat -> nat, hitsPerPage: int, total: nat)
    requires hitsPerPage > 0
  {
    PageEnd(total, 0, hitsPerPage) > search(FirstLimit(hitsPerPage)) &&
    ((outcome == Crashed(InputClosed) && consumed == 0 == |input|) ||
     (outcome == Finished(DeclinedCollectMore) && consumed == 1 <= |input| &&
      DeclinesCollect(input[0])))
  }

  /** The page that the display loop prints from a non-negative, aligned first hit
      is a well-formed screen. */
  lemma DisplayedScreenWellFormed(collected: nat, start: int, hitsPerPage: int, total: nat)
    requires hitsPerPage > 0 && 0 <= start && start % hitsPerPage == 0 && collected <= total
    ensures WellFormed(Screen(start, Indices(start, PageEnd(collected, start, hitsPerPage)), collected),
                       hitsPerPage, total)
  {
    DisplayedWithinBuffer(collected, start, hitsPerPage);
  }

  /** The pages of a session, in order, each reached from the one before by the
      lines read in between; `marks[k]` is the number of lines read when
      `screens[k]` was shown. The first page starts at hit 0, and every page but
      the last went on past line 134 to the prompt. */
  ghost predicate Shown(screens: seq<Screen>, marks: seq<nat>, interactive: bool, input: seq<string>,
                        search: nat -> nat, hitsPerPage: int, total: nat)
    requires hitsPerPage > 0
  {
    |marks| == |screens| &&
    (forall k :: 0 <= k < |screens| ==> WellFormed(screens[k], hitsPerPage, total)) &&
    (screens != [] ==>
      screens[0].start == 0 &&
      Arrived(search(FirstLimit(hitsPerPage)), screens[0], input, 0, marks[0], search, hitsPerPage, total)) &&
    (forall k :: 0 <= k < |screens| - 1 ==> Continued(screens[k], interactive)) &&
    (forall k :: 0 < k < |screens| ==>
      Transition(screens[k - 1], screens[k], input, marks[k - 1], marks[k], search, hitsPerPage, total))
  }

  /** How the lines after the last page shown (or, with no page shown, all the
      lines read) end the session with `outcome`. */
  ghost predicate Finish(outcome: Outcome, interactive: bool, screens: seq<Screen>, marks: seq<nat>,
                         input: seq<string>, consumed: nat, search: nat -> nat,
                         hitsPerPage: int, total: nat)
    requires hitsPerPage > 0
  {
    |marks| == |screens| &&
    (screens == [] ==> EndedBeforeFirstPage(outcome, input, consumed, search, hitsPerPage, total)) &&
    (screens != [] ==>
      Ended(screens[|screens| - 1], outcome, interactive, input, marks[|screens| - 1], consumed,
            hitsPerPage, total))
  }

  /** A session that shows a page that does not continue ends on it, reading no
      more lines: as not interactive when it is not, and otherwise for lack of
      hits. */
  lemma FinishOnLastPage(outcome: Outcome, interactive: bool, screens: seq<Screen>, marks: seq<nat>,
                         input: seq<string>, consumed: nat, search: nat -> nat,
                         hitsPerPage: int, total: nat)
    requires hitsPerPage > 0
    requires Finish(outcome, interactive, screens, marks, input, consumed, search, hitsPerPage, total)
    requires screens != [] && !Continued(screens[|screens| - 1], interactive)
    ensures consumed == marks[|marks| - 1]
    ensures outcome == Finished(if !interactive then NotInteractive else NoHits)
  {
  }

  /** A session shows nothing after an empty page or after a page of a session
      that is not interactive: line 134 ends it there. */
  lemma NoPageAfterStop(screens: seq<Screen>, marks: seq<nat>, interactive: bool, input: seq<string>,
                        search: nat -> nat, hitsPerPage: int, total: nat, k: nat)
    requires hitsPerPage > 0 && Shown(screens, marks, interactive, input, search, hitsPerPage, total)
    requires k < |screens| && (!interactive || screens[k].collected == 0)
    ensures k == |screens| - 1
  {
  }

  /** The state at the top of the outer loop: before the first page, or after a
      move from the last page shown to `start`, with the buffer unchanged. */
  ghost predicate Paused(screens: seq<Screen>, marks: seq<nat>, start: int, collected: nat,
                         consumed: nat, input: seq<string>, search: nat -> nat,
                         hitsPerPage: int, total: nat)
    requires hitsPerPage > 0
  {
    |marks| == |screens| &&
    (screens == [] ==> consumed == 0 && start == 0 && collected == search(FirstLimit(hitsPerPage))) &&
    (screens != [] ==>
      collected == screens[|screens| - 1].collected &&
      Navigated(screens[|screens| - 1].start, start, input, marks[|screens| - 1], consumed,
                hitsPerPage, total))
  }

  /** A move accepted from a page that leads to a non-negative first hit lands on
      a page again. */
  lemma MoveKeepsOnPage(start: int, command: Command, hitsPerPage: int, total: nat)
    requires hitsPerPage > 0 && OnPage(start, hitsPerPage, total)
    requires MoveTarget(start, command, hitsPerPage, total).Some?
    requires MoveTarget(start, command, hitsPerPage, total).value >= 0
    ensures OnPage(MoveTarget(start, command, hitsPerPage, total).value, hitsPerPage, total)
  {
    match command {
      case Previous => PreviousKeepsOnPage(start, hitsPerPage, total);
      case Next => NextKeepsOnPage(start, hitsPerPage, total);
      case Jump(_) =>
    }
  }

  /** Every page of a session starts at a hit that exists, or at 0 when there are
      none: no move reaches past the last matching document. */
  lemma {:induction false} ShownPagesOnPage(screens: seq<Screen>, marks: seq<nat>, interactive: bool,
                                            input: seq<string>, search: nat -> nat, hitsPerPage: int,
                                            total: nat, k: nat)
    requires hitsPerPage > 0 && Shown(screens, marks, interactive, input, search, hitsPerPage, total)
    requires k < |screens|
    ensures OnPage(screens[k].start, hitsPerPage, total)
    decreases k
  {
    if k > 0 {
      ShownPagesOnPage(screens, marks, interactive, input, search, hitsPerPage, total, k - 1);
      var prev, next := screens[k - 1], screens[k];
      assert Transition(prev, next, input, marks[k - 1], marks[k], search, hitsPerPage, total);
      var moved := if PageEnd(total, next.start, hitsPerPage) > prev.collected then marks[k] - 1 else marks[k];
      MoveKeepsOnPage(prev.start, ClassifyNavigation(input[moved - 1]), hitsPerPage, total);
    } else {
      ModOfMultiple(0, hitsPerPage, 0);
    }
  }

  /** Refused page numbers and a move, then the collect-more step, make one
      transition between pages. */
  lemma MakeTransition(prev: Screen, next: Screen, input: seq<string>, from: nat, mid: nat, to: nat,
                       search: nat -> nat, hitsPerPage: int, total: nat)
    requires hitsPerPage > 0
    requires Navigated(prev.start, next.start, input, from, mid, hitsPerPage, total)
    requires Arrived(prev.collected, next, input, mid, to, search, hitsPerPage, total)
    ensures Transition(prev, next, input, from, to, search, hitsPerPage, total)
  {
    assert mid == if PageEnd(total, next.start, hitsPerPage) > prev.collected then to - 1 else to;
  }

  /** Appending a page reached from the last one keeps every transition. */
  lemma AppendTransition(screens: seq<Screen>, marks: seq<nat>, next: Screen, to: nat,
                         input: seq<string>, search: nat -> nat, hitsPerPage: int, total: nat)
    requires hitsPerPage > 0 && |marks| == |screens|
    requires forall k :: 0 < k < |screens| ==>
      Transition(screens[k - 1], screens[k], input, marks[k - 1], marks[k], search, hitsPerPage, total)
    requires screens != [] ==>
      Transition(screens[|screens| - 1], next, input, marks[|screens| - 1], to, search, hitsPerPage, total)
    ensures var screens', marks' := screens + [next], marks + [to];
      forall k :: 0 < k < |screens'| ==>
        Transition(screens'[k - 1], screens'[k], input, marks'[k - 1], marks'[k], search, hitsPerPage, total)
  {
    var screens', marks' := screens + [next], marks + [to];
    forall k | 0 < k < |screens'|
      ensures Transition(screens'[k - 1], screens'[k], input, marks'[k - 1], marks'[k],
                         search, hitsPerPage, total)
    {
      assert screens'[k - 1] == screens[k - 1] && marks'[k - 1] == marks[k - 1];
      if k < |screens| {
        assert screens'[k] == screens[k] && marks'[k] == marks[k];
      }
    }
  }

  /** Showing the page reached by the last move extends the session. */
  lemma ExtendShown(screens: seq<Screen>, marks: seq<nat>, start: int, collected: nat, from: nat,
                    next: Screen, to: nat, interactive: bool, input: seq<string>, search: nat -> nat,
                    hitsPerPage: int, total: nat)
    requires hitsPerPage > 0
    requires Shown(screens, marks, interactive, input, search, hitsPerPage, total)
    requires screens != [] ==> Continued(screens[|screens| - 1], interactive)
    requires Paused(screens, marks, start, collected, from, input, search, hitsPerPage, total)
    requires WellFormed(next, hitsPerPage, total) && next.start == start
    requires Arrived(collected, next, input, from, to, search, hitsPerPage, total)
    ensures Shown(screens + [next], marks + [to], interactive, input, search, hitsPerPage, total)
  {
    var n := |screens|;
    if n > 0 {
      MakeTransition(screens[n - 1], next, input, marks[n - 1], from, to, search, hitsPerPage, total);
    }
    AppendTransition(screens, marks, next, to, input, search, hitsPerPage, total);
    var screens', marks' := screens + [next], marks + [to];
    assert forall k :: 0 <= k < n ==> screens'[k] == screens[k];
    assert n > 0 ==> marks'[0] == marks[0];
  }

  /** A session that stops at the page just shown: not interactive, or no hits. */
  lemma FinishOnPage(outcome: Outcome, interactive: bool, screens: seq<Screen>, marks: seq<nat>,
                     input: seq<string>, consumed: nat, search: nat -> nat, hitsPerPage: int, total: nat)
    requires hitsPerPage > 0 && |marks| == |screens| && screens != []
    requires marks[|marks| - 1] == consumed <= |input|
    requires (outcome == Finished(NotInteractive) && !interactive) ||
      (outcome == Finished(NoHits) && interactive && screens[|screens| - 1].collected == 0)
    ensures Finish(outcome, interactive, screens, marks, input, consumed, search, hitsPerPage, total)
    ensures EndingJustified(outcome, interactive, input, consumed)
  {
  }

  /** A session that stops between a move and the page it leads to: the collect-more
      prompt is declined or finds no line, or the page starts at a negative hit. */
  lemma FinishBeforePage(outcome: Outcome, interactive: bool, screens: seq<Screen>, marks: seq<nat>,
                         start: int, collected: nat, from: nat, consumed: nat, input: seq<string>,
                         search: nat -> nat, hitsPerPage: int, total: nat)
    requires hitsPerPage > 0
    requires Paused(screens, marks, start, collected, from, input, search, hitsPerPage, total)
    requires screens != [] ==> Continued(screens[|screens| - 1], interactive)
    requires
      (outcome == Crashed(IndexOutOfBounds(start)) && start < 0 && consumed == from &&
       0 < from && IsNonPositiveJump(input[from - 1])) ||
      (outcome == Crashed(InputClosed) && PageEnd(total, start, hitsPerPage) > collected &&
       from == consumed == |input|) ||
      (outcome == Finished(DeclinedCollectMore) && PageEnd(total, start, hitsPerPage) > collected &&
       from < |input| && consumed == from + 1 && DeclinesCollect(input[from]))
    ensures Finish(outcome, interactive, screens, marks, input, consumed, search, hitsPerPage, total)
    ensures EndingJustified(outcome, interactive, input, consumed)
  {
  }

  /** A session that stops at the navigation prompt after the page just shown. */
  lemma FinishAtPrompt(outcome: Outcome, interactive: bool, screens: seq<Screen>, marks: seq<nat>,
                       input: seq<string>, consumed: nat, search: nat -> nat, hitsPerPage: int, total: nat)
    requires hitsPerPage > 0 && |marks| == |screens| && screens != []
    requires Continued(screens[|screens| - 1], interactive)
    requires var from := marks[|marks| - 1];
      (outcome == Crashed(InputClosed) && consumed == |input| &&
       AllRefused(input, from, consumed, hitsPerPage, total)) ||
      ((outcome == Finished(UserQuit) || outcome == Crashed(NumberFormat)) &&
       from < consumed && AllRefused(input, from, consumed - 1, hitsPerPage, total) &&
       EndingJustified(outcome, true, input, consumed))
    ensures Finish(outcome, interactive, screens, marks, input, consumed, search, hitsPerPage, total)
  {
  }

}
