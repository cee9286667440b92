/**
 * What the display update shows for a page: the thumbnail strip, the two
 * navigation buttons, the counter, the optional page-number overlay and the
 * main image. The whole view is a function of the current page.
 */
module Display {
  import opened Wrappers
  import opened JsText

  datatype View = View(
    active: seq<bool>,        // the 'active' class of each thumbnail, in strip order
    prevDisabled: bool,       // .prev-btn disabled
    nextDisabled: bool,       // .next-btn disabled
    pageText: string,         // text of #currentPage
    totalText: string,        // text of #totalPages
    overlay: Option<string>,  // text of .page-number, None when the page has no such element
    imageSrc: string,         // src of the main image
    imageAlt: string)         // alt of the main image

  /** The asset path of a page image. */
  function PageImage(page: nat): string {
    "assets/pages/page" + DecimalString(page) + ".jpg"
  }

  /** The label of a page ("Page 3"), used as alt text and in the overlay. */
  function PageLabel(page: nat): string {
    "Page " + DecimalString(page)
  }

  /** The thumbnail loop: thumbnail `i` (0-based) is active exactly when i + 1 is the page. */
  function ActiveFlags(count: nat, page: int): seq<bool> {
    seq(count, i => i + 1 == page)
  }

  /** The view the display update leaves behind for `page`. */
  function Render(totalPages: nat, page: int, hasOverlay: bool): View
    requires 1 <= page <= totalPages
  {
    View(
      ActiveFlags(totalPages, page),
      page == 1,
      page == totalPages,
      DecimalString(page),
      DecimalString(totalPages),
      if hasOverlay then Some(PageLabel(page)) else None,
      PageImage(page),
      PageLabel(page))
  }

  /** The number of active thumbnails. */
  function CountActive(flags: seq<bool>): nat {
    if flags == [] then 0 else (if flags[0] then 1 else 0) + CountActive(flags[1..])
  }

  lemma {:induction false} CountNoneActive(flags: seq<bool>)
    requires forall i :: 0 <= i < |flags| ==> !flags[i]
    ensures CountActive(flags) == 0
  {
    if flags != [] {
      CountNoneActive(flags[1..]);
    }
  }

  lemma {:induction false} CountOneActive(flags: seq<bool>, k: nat)
    requires k < |flags| && flags[k]
    requires forall i :: 0 <= i < |flags| && i != k ==> !flags[i]
    ensures CountActive(flags) == 1
  {
    if k == 0 {
      CountNoneActive(flags[1..]);
    } else {
      CountOneActive(flags[1..], k - 1);
    }
  }

  /** Exactly one thumbnail is active, the one at index page - 1. */
  lemma ExactlyOneActive(totalPages: nat, page: int, hasOverlay: bool)
    requires 1 <= page <= totalPages
    ensures var active := Render(totalPages, page, hasOverlay).active;
      && |active| == totalPages
      && active[page - 1]
      && (forall i :: 0 <= i < totalPages && active[i] ==> i == page - 1)
      && CountActive(active) == 1
  {
    CountOneActive(ActiveFlags(totalPages, page), page - 1);
  }

  /** Previous is disabled exactly on the first page, next exactly on the last. */
  lemma ButtonsAtBounds(totalPages: nat, page: int, hasOverlay: bool)
    requires 1 <= page <= totalPages
    ensures Render(totalPages, page, hasOverlay).prevDisabled <==> page == 1
    ensures Render(totalPages, page, hasOverlay).nextDisabled <==> page == totalPages
    ensures totalPages > 1 ==> !(Render(totalPages, page, hasOverlay).prevDisabled && Render(totalPages, page, hasOverlay).nextDisabled)
  {
  }

  /** The counter reads back as the page and the page count. */
  lemma CounterShowsPage(totalPages: nat, page: int, hasOverlay: bool)
    requires 1 <= page <= totalPages
    ensures ParseInt(Render(totalPages, page, hasOverlay).pageText) == Some(page)
    ensures ParseInt(Render(totalPages, page, hasOverlay).totalText) == Some(totalPages)
  {
    assert DecimalString(page) + [] == DecimalString(page);
    assert DecimalString(totalPages) + [] == DecimalString(totalPages);
    ParseIntDecimal(page, []);
    ParseIntDecimal(totalPages, []);
  }

  /** The view determines the page: two pages never look the same. */
  lemma RenderInjective(totalPages: nat, page: int, other: int, hasOverlay: bool)
    requires 1 <= page <= totalPages && 1 <= other <= totalPages
    requires Render(totalPages, page, hasOverlay) == Render(totalPages, other, hasOverlay)
    ensures page == other
  {
    assert Render(totalPages, page, hasOverlay).active[page - 1];
    assert Render(totalPages, other, hasOverlay).active[page - 1];
  }
}
