/**
  Page navigation (paginate.rs): a reply shows page 1 of a non-empty list of pages with
  a "previous" and a "next" button; each press of one of them moves a cursor, wrapping
  around at either end, and replaces the shown page. Other button presses change nothing.

  The stream of button presses the chat service delivers until its four-hour timeout is
  given here as a finite sequence of button ids.
*/
module Paginate {
  import opened Wrappers
  import opened Decimal
  import opened Serenity

  const PREV_SUFFIX: string := "prev"
  const NEXT_SUFFIX: string := "next"

  predicate StartsWith(s: string, prefix: string) {
    |prefix| <= |s| && s[..|prefix|] == prefix
  }

  /** The "previous" button's id: the invocation's id followed by "prev". */
  function PrevButtonId(ctxId: nat): (id: string)
    ensures StartsWith(id, ToDecimal(ctxId)) && id[|ToDecimal(ctxId)|..] == PREV_SUFFIX
  {
    var id := ToDecimal(ctxId) + PREV_SUFFIX;
    assert id[..|ToDecimal(ctxId)|] == ToDecimal(ctxId);
    id
  }

  /** The "next" button's id: the invocation's id followed by "next". */
  function NextButtonId(ctxId: nat): (id: string)
    ensures StartsWith(id, ToDecimal(ctxId)) && id[|ToDecimal(ctxId)|..] == NEXT_SUFFIX
  {
    var id := ToDecimal(ctxId) + NEXT_SUFFIX;
    assert id[..|ToDecimal(ctxId)|] == ToDecimal(ctxId);
    id
  }

  /** Both button ids start with the invocation's id, so both pass the press filter, and
      they differ, so a press is never taken for both. */
  lemma ButtonIds(ctxId: nat)
    ensures StartsWith(PrevButtonId(ctxId), ToDecimal(ctxId))
    ensures StartsWith(NextButtonId(ctxId), ToDecimal(ctxId))
    ensures PrevButtonId(ctxId) != NextButtonId(ctxId)
  {
    var c := ToDecimal(ctxId);
    assert PrevButtonId(ctxId)[|c|] == 'p' && NextButtonId(ctxId)[|c|] == 'n';
    assert PrevButtonId(ctxId)[..|c|] == c && NextButtonId(ctxId)[..|c|] == c;
  }

  /** The footer under page `current` (counted from 0) of `length` pages. */
  function Footer(current: nat, length: nat): (s: string)
    ensures var page := ToDecimal(current + 1);
      var count := ToDecimal(length);
      && s == "page " + page + " out of " + count
      && Canonical(page) && DigitsValue(page) == current + 1
      && Canonical(count) && DigitsValue(count) == length
  {
    ToDecimalValue(current + 1);
    ToDecimalValue(length);
    "page " + ToDecimal(current + 1) + " out of " + ToDecimal(length)
  }

  /** The first reply's footer reads "page 1 out of" the page count. */
  lemma FirstFooter(length: nat)
    ensures Footer(0, length) == "page 1 out of " + ToDecimal(length)
  {
    assert ToDecimal(1) == [DigitChar(1)] == "1";
    assert "page " + "1" + " out of " == "page 1 out of ";
  }

  /** The embed that shows page `current`. */
  function PageEmbed(title: string, pages: seq<string>, current: nat): (e: Embed)
    requires current < |pages|
    ensures e == Embed(Some(title), Some(pages[current]), [], Some(Footer(current, |pages|)))
  {
    EMPTY_EMBED.WithTitle(title).WithDescription(pages[current]).WithFooter(Footer(current, |pages|))
  }

  /** The "next" button: forward one page, from the last page back to the first. */
  function Next(current: nat, length: nat): (r: nat)
    requires current < length
    ensures r < length
  {
    if current + 1 >= length then 0 else current + 1
  }

  /** The "previous" button: back one page, from the first page round to the last. */
  function Prev(current: nat, length: nat): (r: nat)
    requires current < length
    ensures r < length
  {
    if current == 0 then length - 1 else current - 1
  }

  /** "Next" undoes "previous" and "previous" undoes "next". */
  lemma NextPrevInverse(current: nat, length: nat)
    requires current < length
    ensures Prev(Next(current, length), length) == current
    ensures Next(Prev(current, length), length) == current
  {
  }

  datatype Action = GoNext | GoPrev | Ignore

  /** What a press does. Presses that do not start with the invocation's id belong to some
      other reply and are filtered out before they reach the loop; presses that do but are
      neither button are skipped by the loop itself. */
  function Classify(ctxId: nat, id: string): (a: Action)
    ensures a == GoNext <==> id == NextButtonId(ctxId)
    ensures a == GoPrev <==> id == PrevButtonId(ctxId)
  {
    ButtonIds(ctxId);
    if !StartsWith(id, ToDecimal(ctxId)) then Ignore
    else if id == NextButtonId(ctxId) then GoNext
    else if id == PrevButtonId(ctxId) then GoPrev
    else Ignore
  }

  function Step(current: nat, length: nat, a: Action): (r: nat)
    requires current < length
    ensures r < length
  {
    match a
    case GoNext => Next(current, length)
    case GoPrev => Prev(current, length)
    case Ignore => current
  }

  /** The page shown after a sequence of presses, starting from page `start`: always a
      page that exists. */
  function PageAfter(start: nat, length: nat, ctxId: nat, ids: seq<string>): (r: nat)
    requires start < length
    ensures r < length
    decreases |ids|
  {
    if ids == [] then start
    else Step(PageAfter(start, length, ctxId, ids[..|ids| - 1]), length, Classify(ctxId, ids[|ids| - 1]))
  }

  /** The message updates a sequence of presses produces, starting from page `start`: one
      per button press, showing the page the cursor moved to. */
  function Updates(title: string, pages: seq<string>, ctxId: nat, start: nat, ids: seq<string>): seq<Embed>
    requires start < |pages|
    decreases |ids|
  {
    if ids == [] then []
    else
      var before := PageAfter(start, |pages|, ctxId, ids[..|ids| - 1]);
      var a := Classify(ctxId, ids[|ids| - 1]);
      Updates(title, pages, ctxId, start, ids[..|ids| - 1])
        + (if a == Ignore then [] else [PageEmbed(title, pages, Step(before, |pages|, a))])
  }

  /** The embed shows one of the pages, under the reply's title and with that page's footer. */
  predicate ShowsPage(e: Embed, title: string, pages: seq<string>) {
    exists p :: 0 <= p < |pages| && e == PageEmbed(title, pages, p)
  }

  /** Every update shows one of the pages. */
  lemma {:induction false} UpdatesShowPages(title: string, pages: seq<string>, ctxId: nat, start: nat, ids: seq<string>)
    requires start < |pages|
    ensures forall k :: 0 <= k < |Updates(title, pages, ctxId, start, ids)| ==>
      ShowsPage(Updates(title, pages, ctxId, start, ids)[k], title, pages)
    decreases |ids|
  {
    if ids != [] {
      var init := ids[..|ids| - 1];
      UpdatesShowPages(title, pages, ctxId, start, init);
      var a := Classify(ctxId, ids[|ids| - 1]);
      var prev := Updates(title, pages, ctxId, start, init);
      var u := Updates(title, pages, ctxId, start, ids);
      var added := if a == Ignore then [] else [PageEmbed(title, pages, Step(PageAfter(start, |pages|, ctxId, init), |pages|, a))];
      assert u == prev + added;
      forall k | 0 <= k < |u|
        ensures ShowsPage(u[k], title, pages)
      {
        if k < |prev| {
          assert u[k] == prev[k];
        } else {
          assert ShowsPage(added[0], title, pages);
          assert u[k] == added[0];
        }
      }
    }
  }

  /** `paginate`: the first reply, then one update per navigation press. */
  method Paginate(ctxId: nat, title: string, pages: seq<string>, presses: seq<string>)
    returns (first: Embed, updates: seq<Embed>, finalPage: nat)
    requires |pages| > 0
    ensures first == PageEmbed(title, pages, 0)
    ensures finalPage < |pages| && finalPage == PageAfter(0, |pages|, ctxId, presses)
    ensures updates == Updates(title, pages, ctxId, 0, presses)
  {
    var prefix := ToDecimal(ctxId);
    var prevButtonId := prefix + PREV_SUFFIX;
    var nextButtonId := prefix + NEXT_SUFFIX;
    var length := |pages|;

    first := EMPTY_EMBED.WithTitle(title).WithDescription(pages[0]).WithFooter("page 1 out of " + ToDecimal(length));
    FirstFooter(length);

    var currentPage: nat := 0;
    updates := [];
    var i := 0;
    while i < |presses|
      invariant 0 <= i <= |presses|
      invariant currentPage == PageAfter(0, length, ctxId, presses[..i])
      invariant updates == Updates(title, pages, ctxId, 0, presses[..i])
    {
      var id := presses[i];
      assert presses[..i + 1][..i] == presses[..i] && presses[..i + 1][i] == id;
      i := i + 1;
      if !StartsWith(id, prefix) {
        continue;
      }
      if id == nextButtonId {
        currentPage := currentPage + 1;
        if currentPage >= length {
          currentPage := 0;
        }
      } else if id == prevButtonId {
        currentPage := if currentPage == 0 then length - 1 else currentPage - 1;
      } else {
        continue;
      }
      var footer := "page " + ToDecimal(currentPage + 1) + " out of " + ToDecimal(length);
      updates := updates + [EMPTY_EMBED.WithTitle(title).WithDescription(pages[currentPage]).WithFooter(footer)];
    }
    assert presses[..i] == presses;
    finalPage := currentPage;
  }

  /** How many of the presses are navigation presses. */
  function NavigationPresses(ctxId: nat, ids: seq<string>): nat {
    if ids == [] then 0
    else NavigationPresses(ctxId, ids[..|ids| - 1]) + (if Classify(ctxId, ids[|ids| - 1]) == Ignore then 0 else 1)
  }

  /** Each navigation press produces exactly one update and every other press none. */
  lemma {:induction false} OneUpdatePerNavigation(title: string, pages: seq<string>, ctxId: nat, start: nat, ids: seq<string>)
    requires start < |pages|
    ensures |Updates(title, pages, ctxId, start, ids)| == NavigationPresses(ctxId, ids)
    decreases |ids|
  {
    if ids != [] {
      OneUpdatePerNavigation(title, pages, ctxId, start, ids[..|ids| - 1]);
    }
  }

  /** Presses of neither button leave the page where it was and change no message. */
  lemma {:induction false} UnrelatedPressesIgnored(title: string, pages: seq<string>, ctxId: nat, start: nat, ids: seq<string>)
    requires start < |pages|
    requires forall k :: 0 <= k < |ids| ==> ids[k] != NextButtonId(ctxId) && ids[k] != PrevButtonId(ctxId)
    ensures PageAfter(start, |pages|, ctxId, ids) == start
    ensures Updates(title, pages, ctxId, start, ids) == []
    decreases |ids|
  {
    if ids != [] {
      UnrelatedPressesIgnored(title, pages, ctxId, start, ids[..|ids| - 1]);
    }
  }

  /** `k` presses of "next". */
  function NextPresses(ctxId: nat, k: nat): (ids: seq<string>)
    ensures |ids| == k && forall j :: 0 <= j < k ==> ids[j] == NextButtonId(ctxId)
  {
    seq(k, _ => NextButtonId(ctxId))
  }

  /** Short of the last page, `k` presses of "next" move the cursor `k` pages on. */
  lemma {:induction false} NextPressesAdvance(ctxId: nat, start: nat, length: nat, k: nat)
    requires start + k < length
    ensures PageAfter(start, length, ctxId, NextPresses(ctxId, k)) == start + k
    decreases k
  {
    if k > 0 {
      assert NextPresses(ctxId, k)[..k - 1] == NextPresses(ctxId, k - 1);
      NextPressesAdvance(ctxId, start, length, k - 1);
    }
  }

  /** Reaching past the last page, the cursor starts again from the first page. */
  lemma {:induction false} NextPressesWrap(ctxId: nat, start: nat, length: nat, k: nat)
    requires start < length <= start + k
    ensures PageAfter(start, length, ctxId, NextPresses(ctxId, k))
         == PageAfter(0, length, ctxId, NextPresses(ctxId, start + k - length))
    decreases k
  {
    assert NextPresses(ctxId, k)[..k - 1] == NextPresses(ctxId, k - 1);
    if start + k == length {
      NextPressesAdvance(ctxId, start, length, k - 1);
    } else {
      var j := start + k - length;
      assert NextPresses(ctxId, j)[..j - 1] == NextPresses(ctxId, j - 1);
      NextPressesWrap(ctxId, start, length, k - 1);
    }
  }

  /** As many presses of "next" as there are pages come back to the starting page. */
  lemma FullCycle(ctxId: nat, start: nat, length: nat)
    requires start < length
    ensures PageAfter(start, length, ctxId, NextPresses(ctxId, length)) == start
  {
    NextPressesWrap(ctxId, start, length, length);
    NextPressesAdvance(ctxId, 0, length, start);
  }
}
