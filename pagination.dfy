/**
 * The listing's page navigation: which page numbers are shown around the
 * current page, where ellipses go between them, and the previous/next
 * controls.
 */
module Pagination {

  /** A page number, or the ellipsis between two shown pages. */
  datatype Item = PageItem(n: int) | Ellipsis

  /** A page is shown when it is the first, the last, or within two of the current page. */
  predicate Shown(p: int, totalPages: int, current: int) {
    1 <= p <= totalPages && (p == 1 || p == totalPages || (current - 2 <= p <= current + 2))
  }

  predicate Increasing(s: seq<int>) {
    forall i, j :: 0 <= i < j < |s| ==> s[i] < s[j]
  }

  /** The shown pages among `from..totalPages`, in ascending order. */
  function ShownFrom(from: int, totalPages: int, current: int): (r: seq<int>)
    requires from >= 1
    ensures Increasing(r)
    ensures forall p :: p in r <==> from <= p && Shown(p, totalPages, current)
    decreases totalPages - from
  {
    if from > totalPages then []
    else
      var rest := ShownFrom(from + 1, totalPages, current);
      assert forall k :: 0 <= k < |rest| ==> from < rest[k] by {
        forall k | 0 <= k < |rest|
          ensures from < rest[k]
        {
          assert rest[k] in rest;
        }
      }
      if Shown(from, totalPages, current) then [from] + rest else rest
  }

  /** `showPages`: the pages 1 to `totalPages` filtered by `Shown`. */
  function ShowPages(totalPages: int, current: int): (r: seq<int>)
    ensures Increasing(r)
    ensures forall p :: p in r <==> Shown(p, totalPages, current)
    ensures totalPages <= 0 ==> r == []
  {
    ShownFrom(1, totalPages, current)
  }

  /** The page numbers of a list of items, ellipses dropped. */
  function PagesOf(items: seq<Item>): seq<int> {
    if items == [] then []
    else
      var last := items[|items| - 1];
      PagesOf(items[..|items| - 1]) + (if last.PageItem? then [last.n] else [])
  }

  lemma {:induction false} PagesOfAppend(a: seq<Item>, b: seq<Item>)
    ensures PagesOf(a + b) == PagesOf(a) + PagesOf(b)
    decreases |b|
  {
    if b != [] {
      var init := b[..|b| - 1];
      assert (a + b)[..|a + b| - 1] == a + init;
      PagesOfAppend(a, init);
    } else {
      assert a + b == a;
    }
  }

  /** The items pushed for page `index` of `pages`: an ellipsis after a gap, then the page. */
  function Step(pages: seq<int>, index: nat): seq<Item>
    requires index < |pages|
  {
    (if index > 0 && pages[index] - pages[index - 1] > 1 then [Ellipsis] else []) + [PageItem(pages[index])]
  }

  /**
   * The pages with an ellipsis before each page that is more than one
   * past the previous one: the value `pagesWithEllipsis` ends with.
   */
  function Ellipsized(pages: seq<int>): seq<Item> {
    if pages == [] then []
    else Ellipsized(pages[..|pages| - 1]) + Step(pages, |pages| - 1)
  }

  /** Dropping the ellipses gives the pages back. */
  lemma {:induction false} EllipsizedPages(pages: seq<int>)
    ensures PagesOf(Ellipsized(pages)) == pages
    decreases |pages|
  {
    if pages != [] {
      var init := pages[..|pages| - 1];
      var step := Step(pages, |pages| - 1);
      EllipsizedPages(init);
      PagesOfAppend(Ellipsized(init), step);
      assert step[..|step| - 1] == [] || step[..|step| - 1] == [Ellipsis];
      assert PagesOf(step) == [pages[|pages| - 1]] by {
        if |step| == 2 {
          assert PagesOf(step[..1]) == PagesOf([]) + [];
        }
      }
      assert init + [pages[|pages| - 1]] == pages;
    }
  }

  /** The list starts and ends with a page, the first and the last of `pages`. */
  lemma {:induction false} EllipsizedEnds(pages: seq<int>)
    requires pages != []
    ensures var r := Ellipsized(pages);
            |r| > 0 && r[0] == PageItem(pages[0]) && r[|r| - 1] == PageItem(pages[|pages| - 1])
    decreases |pages|
  {
    var init := pages[..|pages| - 1];
    if init != [] {
      EllipsizedEnds(init);
    }
  }

  /**
   * Every ellipsis sits between two pages more than one apart, and two
   * adjacent pages are at most one apart: an ellipsis marks exactly the
   * gaps. In particular no two ellipses are adjacent.
   */
  lemma {:induction false} EllipsizedGaps(pages: seq<int>)
    ensures var r := Ellipsized(pages);
            && (forall k :: 0 <= k < |r| && r[k] == Ellipsis ==>
                  0 < k < |r| - 1 && r[k - 1].PageItem? && r[k + 1].PageItem? && r[k + 1].n - r[k - 1].n > 1)
            && (forall k :: 0 <= k < |r| - 1 && r[k].PageItem? && r[k + 1].PageItem? ==> r[k + 1].n - r[k].n <= 1)
    decreases |pages|
  {
    if pages != [] {
      var init := pages[..|pages| - 1];
      var prefix := Ellipsized(init);
      var step := Step(pages, |pages| - 1);
      var r := Ellipsized(pages);
      assert r == prefix + step;
      EllipsizedGaps(init);
      if init != [] {
        EllipsizedEnds(init);
        assert prefix[|prefix| - 1] == PageItem(pages[|pages| - 2]);
      }
      forall k | 0 <= k < |r| && r[k] == Ellipsis
        ensures 0 < k < |r| - 1 && r[k - 1].PageItem? && r[k + 1].PageItem? && r[k + 1].n - r[k - 1].n > 1
      {
        if k < |prefix| {
          assert prefix[k] == Ellipsis;
          assert r[k - 1] == prefix[k - 1];
          if k + 1 < |prefix| {
            assert r[k + 1] == prefix[k + 1];
          }
        } else {
          assert k == |prefix| && |step| == 2;
        }
      }
      forall k | 0 <= k < |r| - 1 && r[k].PageItem? && r[k + 1].PageItem?
        ensures r[k + 1].n - r[k].n <= 1
      {
        if k + 1 < |prefix| {
          assert r[k] == prefix[k] && r[k + 1] == prefix[k + 1];
        } else {
          assert k + 1 == |prefix| && |step| == 1;
        }
      }
    }
  }

  /** `pagesWithEllipsis`, built by one push per shown page and one per gap. */
  method WithEllipsis(showPages: seq<int>) returns (items: seq<Item>)
    ensures items == Ellipsized(showPages)
  {
    items := [];
    for index := 0 to |showPages|
      invariant items == Ellipsized(showPages[..index])
    {
      ghost var before := items;
      if index > 0 {
        var prevPage := showPages[index - 1];
        if showPages[index] - prevPage > 1 {
          items := items + [Ellipsis];
        }
      }
      items := items + [PageItem(showPages[index])];
      var next := showPages[..index + 1];
      assert next[..index] == showPages[..index];
      assert Step(next, index) == Step(showPages, index);
      assert items == before + Step(showPages, index);
    }
    assert showPages[..|showPages|] == showPages;
  }

  /**
   * Consecutive pages more than one apart get exactly one ellipsis
   * between them, and adjacent ones none.
   */
  lemma EllipsisExactlyAtGaps(pages: seq<int>, j: nat)
    requires 0 < j < |pages|
    ensures pages[j] - pages[j - 1] > 1 ==>
              Ellipsized(pages[..j + 1]) == Ellipsized(pages[..j]) + [Ellipsis, PageItem(pages[j])]
    ensures pages[j] - pages[j - 1] <= 1 ==>
              Ellipsized(pages[..j + 1]) == Ellipsized(pages[..j]) + [PageItem(pages[j])]
  {
    var p := pages[..j + 1];
    assert p[..|p| - 1] == pages[..j];
  }

  /** Previous is disabled on page 1 and moves one page back. */
  function PreviousDisabled(current: int): bool {
    current == 1
  }

  /** Next is disabled on the last page and moves one page on. */
  function NextDisabled(current: int, totalPages: int): bool {
    current == totalPages
  }

  /** On a page within range, an enabled control never leaves the range. */
  lemma ControlsStayInRange(current: int, totalPages: int)
    requires 1 <= current <= totalPages
    ensures !PreviousDisabled(current) ==> 1 <= current - 1 <= totalPages
    ensures !NextDisabled(current, totalPages) ==> 1 <= current + 1 <= totalPages
    ensures PreviousDisabled(current) <==> current - 1 < 1
    ensures NextDisabled(current, totalPages) <==> current + 1 > totalPages
  {
  }

  /** The current page itself is always shown when it is in range. */
  lemma CurrentPageShown(current: int, totalPages: int)
    requires 1 <= current <= totalPages
    ensures current in ShowPages(totalPages, current)
    ensures 1 in ShowPages(totalPages, current) && totalPages in ShowPages(totalPages, current)
  {
  }
}
