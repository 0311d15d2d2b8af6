/** The page numbers the pagination bar shows around the current page `pageNo`, and the page
    changes its buttons make. */
module Pagination {
  import Seqs

  /** `Array.from({ length: 3 }, (_, index) => pageNo - 1 - index)`. */
  function PrevCandidates(pageNo: int): seq<int> {
    [pageNo - 1, pageNo - 2, pageNo - 3]
  }

  function IsPositive(): int -> bool {
    (value: int) => value > 0
  }

  /** `prevThreeNo`: the candidates, positive ones only, reversed. */
  function PrevThreeNo(pageNo: int): seq<int> {
    Seqs.Reverse(Seqs.Filter(PrevCandidates(pageNo), IsPositive()))
  }

  /** `nextFourNo`: `Array.from({ length: 4 }, (_, index) => pageNo + index)`. */
  function NextFourNo(pageNo: int): seq<int> {
    seq(4, index => pageNo + index)
  }

  /** `paginationArray`. */
  function PaginationArray(pageNo: int): seq<int> {
    PrevThreeNo(pageNo) + NextFourNo(pageNo)
  }

  /** How many previous pages are listed: `pageNo - 1` clamped into `[0, 3]`. */
  function PrevCount(pageNo: int): (k: nat)
    ensures k <= 3
  {
    if pageNo <= 1 then 0 else if pageNo >= 4 then 3 else pageNo - 1
  }

  /** The positive candidates, before the reversal: `pageNo - 1` downwards, `PrevCount(pageNo)`
      of them. */
  lemma PositiveCandidates(pageNo: int)
    ensures var f := Seqs.Filter(PrevCandidates(pageNo), IsPositive());
            && |f| == PrevCount(pageNo)
            && forall i :: 0 <= i < |f| ==> f[i] == pageNo - 1 - i
  {
    var pos := IsPositive();
    Seqs.FilterThree(pageNo - 1, pageNo - 2, pageNo - 3, pos);
    var f := Seqs.Filter(PrevCandidates(pageNo), pos);
    if pageNo >= 4 {
      assert f == [pageNo - 1, pageNo - 2, pageNo - 3];
    } else if pageNo == 3 {
      assert f == [pageNo - 1, pageNo - 2];
    } else if pageNo == 2 {
      assert f == [pageNo - 1];
    } else {
      assert f == [];
    }
  }

  /** `prevThreeNo` lists the positive page numbers among `pageNo - 3 .. pageNo - 1`, in
      ascending order. */
  lemma PrevThreeNoIsPositiveRun(pageNo: int)
    ensures var prev := PrevThreeNo(pageNo);
            && |prev| == PrevCount(pageNo)
            && (forall i :: 0 <= i < |prev| ==> prev[i] == pageNo - |prev| + i)
            && (forall v :: v in prev <==> pageNo - 3 <= v < pageNo && v > 0)
  {
    var f := Seqs.Filter(PrevCandidates(pageNo), IsPositive());
    PositiveCandidates(pageNo);
    var prev := PrevThreeNo(pageNo);
    forall i | 0 <= i < |prev| ensures prev[i] == pageNo - |prev| + i {
      Seqs.ReverseAt(f, i);
    }
    forall v ensures v in prev <==> pageNo - 3 <= v < pageNo && v > 0 {
      if v in prev {
        var i :| 0 <= i < |prev| && prev[i] == v;
      }
      if pageNo - 3 <= v < pageNo && v > 0 {
        assert prev[v - pageNo + |prev|] == v;
      }
    }
  }

  /** The bar is a contiguous ascending run ending at `pageNo + 3`, of `4 + PrevCount(pageNo)`
      pages, in which `pageNo` occurs exactly once. */
  lemma PaginationArrayIsRun(pageNo: int)
    ensures var bar := PaginationArray(pageNo);
            && |bar| == 4 + PrevCount(pageNo)
            && bar[|bar| - 1] == pageNo + 3
            && (forall i :: 0 <= i < |bar| ==> bar[i] == pageNo + 3 - (|bar| - 1 - i))
            && multiset(bar)[pageNo] == 1
  {
    PrevThreeNoIsPositiveRun(pageNo);
    var prev := PrevThreeNo(pageNo);
    var bar := PaginationArray(pageNo);
    assert forall i :: 0 <= i < |bar| ==> bar[i] == pageNo - |prev| + i by {
      forall i | 0 <= i < |bar| ensures bar[i] == pageNo - |prev| + i {
        if i < |prev| {
          assert bar[i] == prev[i];
        } else {
          assert bar[i] == NextFourNo(pageNo)[i - |prev|];
        }
      }
    }
    var k := |prev|;
    assert bar == bar[..k] + [pageNo] + bar[k + 1..];
    assert pageNo !in bar[..k];
    assert pageNo !in bar[k + 1..];
  }

  /** For a page number of at least 1, every listed page number is at least 1. */
  lemma ListedPagesArePositive(pageNo: int)
    requires pageNo >= 1
    ensures forall i :: 0 <= i < |PaginationArray(pageNo)| ==> PaginationArray(pageNo)[i] >= 1
  {
    PrevThreeNoIsPositiveRun(pageNo);
    PaginationArrayIsRun(pageNo);
  }

  /** The bar on the initial page 0: page 0 itself and the next three. */
  lemma InitialPageBar()
    ensures PaginationArray(0) == [0, 1, 2, 3]
  {
    PositiveCandidates(0);
  }

  /** For a page number of at least 0 every listed page number is at least 0, and 0 is listed
      exactly when it is the current page. */
  lemma ListedPagesAreNonNegative(pageNo: int)
    requires pageNo >= 0
    ensures forall i :: 0 <= i < |PaginationArray(pageNo)| ==> PaginationArray(pageNo)[i] >= 0
    ensures 0 in PaginationArray(pageNo) <==> pageNo == 0
  {
    PrevThreeNoIsPositiveRun(pageNo);
    PaginationArrayIsRun(pageNo);
    var bar := PaginationArray(pageNo);
    if pageNo == 0 {
      assert bar[0] == 0;
    }
  }

  /** The "<" button is rendered exactly when `pageNo > 1`. */
  predicate ShowsPrev(pageNo: int) {
    pageNo > 1
  }

  /** What the user can do on the bar. */
  datatype Click = PrevButton | NextButton | PageButton(index: nat)

  /** The page after a click: `handlePrev` and `handleNext` step by one; a page button selects
      its number. A click on a button that is not rendered changes nothing. */
  function AfterClick(pageNo: int, click: Click): int {
    match click
    case PrevButton => if ShowsPrev(pageNo) then pageNo - 1 else pageNo
    case NextButton => pageNo + 1
    case PageButton(index) =>
      if index < |PaginationArray(pageNo)| then PaginationArray(pageNo)[index] else pageNo
  }

  /** Once the page is at least 1, no sequence of clicks reaches a page number below 1: the prev
      button is shown only above page 1, and every listed page is positive. Prev and next change the
      page by exactly one. */
  lemma ClicksKeepPagePositive(pageNo: int, click: Click)
    requires pageNo >= 1
    ensures AfterClick(pageNo, click) >= 1
    ensures click.PrevButton? && ShowsPrev(pageNo) ==> AfterClick(pageNo, click) == pageNo - 1
    ensures click.NextButton? ==> AfterClick(pageNo, click) == pageNo + 1
  {
    ListedPagesArePositive(pageNo);
  }

  /** From the initial page 0 on, no click leads below 0, and once the page has left 0 no click
      brings it back: 0 is listed only on page 0, and the prev button is hidden on page 1. */
  lemma ClicksKeepPageNonNegative(pageNo: int, click: Click)
    requires pageNo >= 0
    ensures AfterClick(pageNo, click) >= 0
    ensures AfterClick(pageNo, click) == 0 ==> pageNo == 0
  {
    ListedPagesAreNonNegative(pageNo);
    if click.PageButton? && click.index < |PaginationArray(pageNo)| {
      assert PaginationArray(pageNo)[click.index] in PaginationArray(pageNo);
    }
  }
}
