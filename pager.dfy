/**
 * `view_all_therapist_notes`: the notes are shown three to a page, and with
 * more than one page the user moves with `p`, `n` and `q`.  The choices the
 * user types are an input; the model returns the pages shown and the
 * positions of the notes displayed, in order.
 */
module Pager {
  import opened Wrappers
  import opened Text

  const PAGE_SIZE: nat := 3

  /** `(total + page_size - 1) // page_size`. */
  function TotalPages(total: nat): nat {
    (total + PAGE_SIZE - 1) / PAGE_SIZE
  }

  function PageStart(page: nat): nat {
    page * PAGE_SIZE
  }

  /** `min(start_idx + page_size, total_notes)`. */
  function PageEnd(page: nat, total: nat): nat {
    if PageStart(page) + PAGE_SIZE < total then PageStart(page) + PAGE_SIZE else total
  }

  /** The page count is the ceiling of a third: enough pages for every note, and no page more. */
  lemma PagesCeiling(total: nat)
    ensures TotalPages(total) * PAGE_SIZE >= total
    ensures total > 0 ==> (TotalPages(total) - 1) * PAGE_SIZE < total
    ensures total == 0 <==> TotalPages(total) == 0
  {
  }

  /** Every page that exists shows between one and three notes, all of them in range. */
  lemma PageBounds(page: nat, total: nat)
    requires page < TotalPages(total)
    ensures PageStart(page) < PageEnd(page, total) <= total
    ensures PageEnd(page, total) - PageStart(page) <= PAGE_SIZE
  {
  }

  /** Every note is on a page: note `i` is on page `i / 3`. */
  lemma PageOf(i: nat, total: nat)
    requires i < total
    ensures i / PAGE_SIZE < TotalPages(total)
    ensures PageStart(i / PAGE_SIZE) <= i < PageEnd(i / PAGE_SIZE, total)
  {
  }

  /** No note is on two pages. */
  lemma PagesDisjoint(p: nat, q: nat, i: nat, total: nat)
    requires PageStart(p) <= i < PageEnd(p, total)
    requires PageStart(q) <= i < PageEnd(q, total)
    ensures p == q
  {
  }

  /**
   * One navigation choice on a multi-page listing: the next page, or `None`
   * to return to the menu.  `p` on the first page and `n` on the last page
   * redisplay the page, as does anything else but `q`.
   */
  function Navigate(page: nat, pages: nat, choice: string): Option<nat> {
    if choice == "p" && page > 0 then Some(page - 1)
    else if choice == "n" && page + 1 < pages then Some(page + 1)
    else if choice == "q" then None
    else Some(page)
  }

  /** Navigation never leaves the pages, moves by at most one, and only `q` leaves. */
  lemma NavigateInRange(page: nat, pages: nat, choice: string)
    requires page < pages
    ensures Navigate(page, pages, choice).None? <==> choice == "q"
    ensures Navigate(page, pages, choice).Some? ==>
      var next := Navigate(page, pages, choice).value;
      && next < pages
      && (next == page - 1 <==> choice == "p" && page > 0)
      && (next == page + 1 <==> choice == "n" && page + 1 < pages)
  {
  }

  /**
   * The pages shown, starting from `page`, for the choices still to come
   * (typed text, lowered as the listing does).  A single page is shown once
   * and the listing waits for Enter; running out of choices ends it.
   */
  function Visits(page: nat, pages: nat, choices: seq<string>): seq<nat>
    decreases |choices|
  {
    if pages <= 1 || choices == [] then [page]
    else
      match Navigate(page, pages, Lower(choices[0]))
      case None => [page]
      case Some(next) => [page] + Visits(next, pages, choices[1..])
  }

  /** The positions of the notes on the given pages, page after page. */
  function Displayed(visited: seq<nat>, total: nat): seq<nat> {
    if visited == [] then []
    else Range(PageStart(visited[0]), PageEnd(visited[0], total)) + Displayed(visited[1..], total)
  }

  /** `range(lo, hi)`. */
  function Range(lo: nat, hi: nat): (r: seq<nat>)
    ensures |r| == if lo <= hi then hi - lo else 0
    ensures forall k :: 0 <= k < |r| ==> r[k] == lo + k
    decreases hi - lo
  {
    if lo < hi then [lo] + Range(lo + 1, hi) else []
  }

  lemma {:induction false} DisplayedSnoc(visited: seq<nat>, page: nat, total: nat)
    ensures Displayed(visited + [page], total) == Displayed(visited, total) + Range(PageStart(page), PageEnd(page, total))
  {
    if visited == [] {
      assert ([page])[1..] == [];
    } else {
      assert (visited + [page])[0] == visited[0] && (visited + [page])[1..] == visited[1..] + [page];
      DisplayedSnoc(visited[1..], page, total);
    }
  }

  /** Every page visited from a page that exists exists too. */
  lemma {:induction false} VisitsInRange(page: nat, pages: nat, choices: seq<string>)
    requires page < pages
    ensures forall k :: 0 <= k < |Visits(page, pages, choices)| ==> Visits(page, pages, choices)[k] < pages
    decreases |choices|
  {
    if pages > 1 && choices != [] {
      NavigateInRange(page, pages, Lower(choices[0]));
      match Navigate(page, pages, Lower(choices[0]))
      case None =>
      case Some(next) => VisitsInRange(next, pages, choices[1..]);
    }
  }

  /** The inner loop: the positions of the notes on one page, in order. */
  method ShowPage(page: nat, total: nat) returns (shown: seq<nat>)
    requires page < TotalPages(total)
    ensures shown == Range(PageStart(page), PageEnd(page, total))
  {
    var start := PageStart(page);
    var end := PageEnd(page, total);
    PageBounds(page, total);
    shown := [];
    var i := start;
    while i < end
      invariant start <= i <= end
      invariant shown == Range(start, i)
      decreases end - i
    {
      RangeSnoc(start, i);
      shown := shown + [i];
      i := i + 1;
    }
  }

  /**
   * The listing loop: the pages it shows, and the positions of the notes it
   * displays, for `total` notes and the choices typed.  With no notes it
   * shows nothing.
   */
  method ViewAllNotes(total: nat, choices: seq<string>) returns (visited: seq<nat>, displayed: seq<nat>)
    ensures total == 0 ==> visited == [] && displayed == []
    ensures total > 0 ==> visited == Visits(0, TotalPages(total), choices)
    ensures displayed == Displayed(visited, total)
  {
    visited, displayed := [], [];
    if total == 0 {
      return;
    }
    var pages := TotalPages(total);
    var page := 0;
    var k := 0;
    while page < pages
      invariant page < pages && k <= |choices|
      invariant Visits(0, pages, choices) == visited + Visits(page, pages, choices[k..])
      invariant displayed == Displayed(visited, total)
      decreases |choices| - k
    {
      PageBounds(page, total);
      DisplayedSnoc(visited, page, total);
      var shown := ShowPage(page, total);
      displayed := displayed + shown;
      ghost var seen := visited;
      visited := visited + [page];
      if pages > 1 && k < |choices| {
        var choice := Lower(choices[k]);
        VisitsNext(page, pages, choices, k);
        NavigateInRange(page, pages, choice);
        ghost var here := page;
        if choice == "p" && page > 0 {
          page := page - 1;
        } else if choice == "n" && page < pages - 1 {
          page := page + 1;
        } else if choice == "q" {
          break;
        }
        assert Navigate(here, pages, choice) == Some(page);
        assert Visits(here, pages, choices[k..]) == [here] + Visits(page, pages, choices[k + 1..]);
        Regroup(seen, [here], Visits(page, pages, choices[k + 1..]));
        k := k + 1;
      } else {
        break;
      }
    }
  }

  /** With more than one page, the listing shows a page and goes where the next choice leads. */
  lemma VisitsNext(page: nat, pages: nat, choices: seq<string>, k: nat)
    requires pages > 1 && k < |choices|
    ensures Visits(page, pages, choices[k..]) ==
      match Navigate(page, pages, Lower(choices[k]))
      case None => [page]
      case Some(next) => [page] + Visits(next, pages, choices[k + 1..])
  {
    assert choices[k..][0] == choices[k] && choices[k..][1..] == choices[k + 1..];
  }

  lemma {:induction false} RangeSnoc(lo: nat, hi: nat)
    requires lo <= hi
    ensures Range(lo, hi + 1) == Range(lo, hi) + [hi]
  {
  }

  lemma {:induction false} RangeConcat(lo: nat, mid: nat, hi: nat)
    requires lo <= mid <= hi
    ensures Range(lo, mid) + Range(mid, hi) == Range(lo, hi)
    decreases mid - lo
  {
    if lo < mid {
      RangeConcat(lo + 1, mid, hi);
      Regroup([lo], Range(lo + 1, mid), Range(mid, hi));
    }
  }

  /** The first `n` pages show the first `min(3n, total)` notes, each once, in order. */
  lemma {:induction false} DisplayedPages(n: nat, total: nat)
    requires n <= TotalPages(total)
    ensures Displayed(Range(0, n), total) == Range(0, if n * PAGE_SIZE < total then n * PAGE_SIZE else total)
  {
    if n > 0 {
      RangeSnoc(0, n - 1);
      DisplayedSnoc(Range(0, n - 1), n - 1, total);
      DisplayedPages(n - 1, total);
      PageBounds(n - 1, total);
      RangeConcat(0, PageStart(n - 1), PageEnd(n - 1, total));
    }
  }

  /** `n` typed before each page but the last. */
  function Forward(count: nat): (r: seq<string>)
    ensures |r| == count && forall k :: 0 <= k < count ==> r[k] == "n"
  {
    seq(count, k => "n")
  }

  lemma {:induction false} ForwardVisits(page: nat, pages: nat)
    requires 1 < pages && page < pages
    ensures Visits(page, pages, Forward(pages - 1 - page)) == Range(page, pages)
    decreases pages - page
  {
    var choices := Forward(pages - 1 - page);
    if page + 1 < pages {
      assert Lower(choices[0]) == "n";
      assert choices[1..] == Forward(pages - 1 - (page + 1));
      ForwardVisits(page + 1, pages);
    } else {
      assert choices == [];
    }
  }

  /**
   * Paging forward to the last page displays every note exactly once, in
   * order.
   */
  lemma PagingForwardShowsAll(total: nat)
    requires total > 0
    ensures var pages := TotalPages(total);
      var choices := if pages > 1 then Forward(pages - 1) else [];
      Displayed(Visits(0, pages, choices), total) == Range(0, total)
  {
    var pages := TotalPages(total);
    if pages > 1 {
      ForwardVisits(0, pages);
    }
    PagesCeiling(total);
    DisplayedPages(pages, total);
  }
}
