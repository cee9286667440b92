/**
 * The brochure viewer as the page script keeps it: module-level counters
 * for the page and the zoom, and the DOM it writes (thumbnail classes,
 * button states, texts, the main image, the URL fragment, the modal, the
 * mobile menu) abstracted to fields. Every handler is a method.
 */
module Brochure {
  import opened Wrappers
  import opened JsText
  import Navigation
  import Fragment
  import Display
  import Zoom

  class Viewer {
    const totalPages: nat
    const hasOverlay: bool          // whether the page has a .page-number element
    const thumbnails: array<bool>   // the 'active' class of each thumbnail, in strip order

    var currentPage: int
    var zoomQuarters: int           // zoomLevel, in quarters

    // what the display update writes
    var prevDisabled: bool
    var nextDisabled: bool
    var pageText: string
    var totalText: string
    var overlayText: Option<string>
    var imageSrc: string
    var imageAlt: string
    var fragment: string            // location.hash, without its '#'

    // the fullscreen modal and the body scroll lock it takes
    var modalShown: bool            // modal style.display == 'block'
    var scrollLocked: bool          // body style.overflow == 'hidden'
    var modalSrc: string
    var modalAlt: string

    // the mobile menu
    var menuActive: bool            // .nav-menu has 'active'
    var toggleActive: bool          // .nav-toggle has 'active'

    // the last touch positions seen on the main image
    var touchStartX: int
    var touchEndX: int

    /** The state invariants that hold at every moment, even between a page change and its display update. */
    ghost predicate Consistent()
      reads this
    {
      && 1 <= currentPage <= totalPages
      && thumbnails.Length == totalPages
      && overlayText.Some? == hasOverlay
      && Zoom.MinQuarters <= zoomQuarters <= Zoom.MaxQuarters
      && modalShown == scrollLocked
      && menuActive == toggleActive
    }

    /** What is on screen. */
    ghost function Shown(): Display.View
      reads this, thumbnails
    {
      Display.View(thumbnails[..], prevDisabled, nextDisabled, pageText, totalText,
                   overlayText, imageSrc, imageAlt)
    }

    /** The invariant between handlers: the screen shows the current page. */
    ghost predicate Valid()
      reads this, thumbnails
    {
      Consistent() && Shown() == Display.Render(totalPages, currentPage, hasOverlay)
    }

    /** The URL fragment names the current page. */
    ghost predicate Synced()
      reads this
    {
      currentPage >= 1 && fragment == Fragment.PageFragment(currentPage)
    }

    /**
     * The page script once the document is loaded: the zoom at 1, the
     * thumbnail strip built with the first thumbnail active, then the first
     * display update, which also writes "page-1" into the fragment.
     */
    constructor (totalPages: nat, hasOverlay: bool)
      requires totalPages >= 1
      ensures Valid() && Synced()
      ensures this.totalPages == totalPages && this.hasOverlay == hasOverlay
      ensures currentPage == 1 && zoomQuarters == Zoom.DefaultQuarters
      ensures !modalShown && !menuActive
      ensures fresh(thumbnails)
    {
      this.totalPages := totalPages;
      this.hasOverlay := hasOverlay;
      var strip := new bool[totalPages];
      var i := 1;
      while i <= totalPages
        invariant 1 <= i <= totalPages + 1
        invariant forall j :: 0 <= j < i - 1 ==> strip[j] == (j == 0)
      {
        strip[i - 1] := i == 1;
        i := i + 1;
      }
      thumbnails := strip;
      currentPage := 1;
      zoomQuarters := Zoom.DefaultQuarters;
      overlayText := if hasOverlay then Some("") else None;
      fragment := "";
      modalShown, scrollLocked := false, false;
      modalSrc, modalAlt := "", "";
      menuActive, toggleActive := false, false;
      touchStartX, touchEndX := 0, 0;
      new;
      UpdatePageDisplay();
    }

    /** The thumbnail loop of the display update: only the thumbnail of the current page keeps 'active'. */
    method MarkActiveThumbnail()
      requires thumbnails.Length == totalPages
      modifies thumbnails
      ensures thumbnails[..] == Display.ActiveFlags(totalPages, currentPage)
    {
      var index := 0;
      while index < thumbnails.Length
        invariant 0 <= index <= thumbnails.Length
        invariant forall j :: 0 <= j < index ==> thumbnails[j] == (j + 1 == currentPage)
      {
        thumbnails[index] := index + 1 == currentPage;
        index := index + 1;
      }
    }

    /** The main image of the display update shows the current page. */
    method ShowPageImage()
      requires currentPage >= 1
      modifies this`imageSrc, this`imageAlt
      ensures imageSrc == Display.PageImage(currentPage) && imageAlt == Display.PageLabel(currentPage)
    {
      imageSrc := Display.PageImage(currentPage);
      imageAlt := Display.PageLabel(currentPage);
    }

    /** The counter and, when the page has one, the page-number overlay. */
    method ShowPageNumber()
      requires currentPage >= 1 && overlayText.Some? == hasOverlay
      modifies this`pageText, this`totalText, this`overlayText
      ensures pageText == DecimalString(currentPage) && totalText == DecimalString(totalPages)
      ensures overlayText == if hasOverlay then Some(Display.PageLabel(currentPage)) else None
    {
      pageText := DecimalString(currentPage);
      totalText := DecimalString(totalPages);
      if overlayText.Some? {
        overlayText := Some(Display.PageLabel(currentPage));
      }
    }

    /** The button states: previous off on the first page, next off on the last. */
    method ShowButtons()
      modifies this`prevDisabled, this`nextDisabled
      ensures prevDisabled == (currentPage == 1) && nextDisabled == (currentPage == totalPages)
    {
      prevDisabled := currentPage == 1;
      nextDisabled := currentPage == totalPages;
    }

    /** The display update without the fragment write: project the current page onto the screen. */
    method RenderPage()
      requires Consistent()
      modifies thumbnails, this`prevDisabled, this`nextDisabled, this`pageText, this`totalText,
               this`overlayText, this`imageSrc, this`imageAlt
      ensures Valid()
    {
      ShowPageImage();
      ShowPageNumber();
      MarkActiveThumbnail();
      ShowButtons();
    }

    /**
     * updatePageDisplay as the page ends up calling it: the display update
     * followed by writing "page-<n>" into the fragment. Running it again on
     * the same page changes nothing.
     */
    method UpdatePageDisplay()
      requires Consistent()
      modifies thumbnails, this`prevDisabled, this`nextDisabled, this`pageText, this`totalText,
               this`overlayText, this`imageSrc, this`imageAlt, this`fragment
      ensures Valid() && Synced()
      ensures old(Valid() && Synced()) ==> Shown() == old(Shown()) && fragment == old(fragment)
    {
      RenderPage();
      fragment := Fragment.PageFragment(currentPage);
    }

    /** nextPage: forward one page and update the display, unless on the last page. */
    method NextPage()
      requires Valid()
      modifies thumbnails, this`currentPage, this`prevDisabled, this`nextDisabled, this`pageText,
               this`totalText, this`overlayText, this`imageSrc, this`imageAlt, this`fragment
      ensures Valid()
      ensures currentPage == Navigation.NextOf(totalPages, old(currentPage))
      ensures old(currentPage) == totalPages ==> unchanged(this) && unchanged(thumbnails)
      ensures old(currentPage) < totalPages ==> Synced()
      ensures zoomQuarters == old(zoomQuarters)
    {
      if currentPage < totalPages {
        currentPage := currentPage + 1;
        UpdatePageDisplay();
      }
    }

    /** previousPage: back one page and update the display, unless on the first page. */
    method PreviousPage()
      requires Valid()
      modifies thumbnails, this`currentPage, this`prevDisabled, this`nextDisabled, this`pageText,
               this`totalText, this`overlayText, this`imageSrc, this`imageAlt, this`fragment
      ensures Valid()
      ensures currentPage == Navigation.PreviousOf(totalPages, old(currentPage))
      ensures old(currentPage) == 1 ==> unchanged(this) && unchanged(thumbnails)
      ensures old(currentPage) > 1 ==> Synced()
      ensures zoomQuarters == old(zoomQuarters)
    {
      if currentPage > 1 {
        currentPage := currentPage - 1;
        UpdatePageDisplay();
      }
    }

    /** goToPage: take a page in range and update the display; drop any other request. */
    method GoToPage(pageNumber: int)
      requires Valid()
      modifies thumbnails, this`currentPage, this`prevDisabled, this`nextDisabled, this`pageText,
               this`totalText, this`overlayText, this`imageSrc, this`imageAlt, this`fragment
      ensures Valid()
      ensures currentPage == Navigation.GoToOf(totalPages, old(currentPage), pageNumber)
      ensures !(1 <= pageNumber <= totalPages) ==> unchanged(this) && unchanged(thumbnails)
      ensures 1 <= pageNumber <= totalPages ==> Synced()
      ensures old(Synced()) && pageNumber == old(currentPage) ==> Shown() == old(Shown()) && fragment == old(fragment)
      ensures zoomQuarters == old(zoomQuarters)
    {
      if pageNumber >= 1 && pageNumber <= totalPages {
        currentPage := pageNumber;
        UpdatePageDisplay();
      }
    }

    /** A click on thumbnail `i` (1-based). */
    method ClickThumbnail(i: int)
      requires Valid() && 1 <= i <= totalPages
      modifies thumbnails, this`currentPage, this`prevDisabled, this`nextDisabled, this`pageText,
               this`totalText, this`overlayText, this`imageSrc, this`imageAlt, this`fragment
      ensures Valid() && Synced()
      ensures currentPage == i && thumbnails[i - 1]
    {
      GoToPage(i);
    }

    /**
     * initializeFromHash: when the hash is "#page-" followed by a page
     * number, go to that page; otherwise leave everything as it is.
     */
    method InitializeFromHash()
      requires Valid()
      modifies thumbnails, this`currentPage, this`prevDisabled, this`nextDisabled, this`pageText,
               this`totalText, this`overlayText, this`imageSrc, this`imageAlt, this`fragment
      ensures Valid()
      ensures Fragment.DecodeHash(Fragment.HashOf(old(fragment)), totalPages).None? ==>
                unchanged(this) && unchanged(thumbnails)
      ensures Fragment.DecodeHash(Fragment.HashOf(old(fragment)), totalPages).Some? ==>
                currentPage == Fragment.DecodeHash(Fragment.HashOf(old(fragment)), totalPages).value && Synced()
      ensures old(Synced()) ==> currentPage == old(currentPage) && Shown() == old(Shown()) && fragment == old(fragment)
    {
      var hash := Fragment.HashOf(fragment);
      ghost var decoded := Fragment.DecodeHash(hash, totalPages);
      if Synced() {
        Fragment.DecodeEncode(currentPage, totalPages);
        assert decoded == Some(currentPage);
      }
      if StartsWith(hash, "#page-") {
        var pageNum := ParseInt(ReplaceFirst(hash, "#page-", ""));
        if pageNum.Some? && pageNum.value >= 1 && pageNum.value <= totalPages {
          assert decoded == Some(pageNum.value);
          currentPage := pageNum.value;
          UpdatePageDisplay();
        } else {
          assert decoded == None;
        }
      } else {
        assert decoded == None;
      }
    }

    /** The browser moves to a new fragment (typed, followed link, history) and fires hashchange. */
    method HashChange(newFragment: string)
      requires Valid()
      modifies thumbnails, this`currentPage, this`prevDisabled, this`nextDisabled, this`pageText,
               this`totalText, this`overlayText, this`imageSrc, this`imageAlt, this`fragment
      ensures Valid()
      ensures Fragment.DecodeHash(Fragment.HashOf(newFragment), totalPages).None? ==>
                currentPage == old(currentPage) && Shown() == old(Shown()) && fragment == newFragment
      ensures Fragment.DecodeHash(Fragment.HashOf(newFragment), totalPages).Some? ==>
                currentPage == Fragment.DecodeHash(Fragment.HashOf(newFragment), totalPages).value && Synced()
    {
      fragment := newFragment;
      InitializeFromHash();
    }

    // -------------------------------------------------------------------
    // Zoom
    // -------------------------------------------------------------------

    /** zoomIn: a quarter more, up to 3. */
    method ZoomIn()
      requires Consistent()
      modifies this`zoomQuarters
      ensures Consistent()
      ensures zoomQuarters == Zoom.ZoomedIn(old(zoomQuarters))
      ensures currentPage == old(currentPage)
    {
      if zoomQuarters < Zoom.MaxQuarters {
        zoomQuarters := zoomQuarters + 1;
      }
    }

    /** zoomOut: a quarter less, down to 0.5. */
    method ZoomOut()
      requires Consistent()
      modifies this`zoomQuarters
      ensures Consistent()
      ensures zoomQuarters == Zoom.ZoomedOut(old(zoomQuarters))
      ensures currentPage == old(currentPage)
    {
      if zoomQuarters > Zoom.MinQuarters {
        zoomQuarters := zoomQuarters - 1;
      }
    }

    /** resetZoom: back to 1 from anywhere. */
    method ResetZoom()
      requires Consistent()
      modifies this`zoomQuarters
      ensures Consistent()
      ensures zoomQuarters == Zoom.DefaultQuarters && Zoom.Scale(zoomQuarters) == 1.0
      ensures currentPage == old(currentPage)
    {
      zoomQuarters := Zoom.DefaultQuarters;
    }

    // -------------------------------------------------------------------
    // Modal
    // -------------------------------------------------------------------

    /** openModal: show the image enlarged and lock the page's scrolling. */
    method OpenModal(imageSrc: string, altText: string)
      requires Consistent()
      modifies this`modalShown, this`scrollLocked, this`modalSrc, this`modalAlt
      ensures Consistent()
      ensures modalShown && scrollLocked
      ensures modalSrc == imageSrc && modalAlt == altText
    {
      modalSrc := imageSrc;
      modalAlt := altText;
      modalShown := true;
      scrollLocked := true;
    }

    /** closeModal: hide the modal and release the scroll lock. */
    method CloseModal()
      requires Consistent()
      modifies this`modalShown, this`scrollLocked
      ensures Consistent()
      ensures !modalShown && !scrollLocked
    {
      modalShown := false;
      scrollLocked := false;
    }

    /** A click on the main image opens it in the modal. */
    method ClickPageImage()
      requires Valid()
      modifies this`modalShown, this`scrollLocked, this`modalSrc, this`modalAlt
      ensures Valid()
      ensures modalShown && scrollLocked
      ensures modalSrc == Display.PageImage(currentPage) && modalAlt == Display.PageLabel(currentPage)
    {
      OpenModal(imageSrc, imageAlt);
    }

    /** A click on grid item `i` (1-based) opens that page in the modal. */
    method ClickGridItem(i: int)
      requires Consistent() && 1 <= i <= totalPages
      modifies this`modalShown, this`scrollLocked, this`modalSrc, this`modalAlt
      ensures Consistent()
      ensures modalShown && scrollLocked
      ensures modalSrc == Display.PageImage(i) && modalAlt == Display.PageLabel(i)
    {
      OpenModal(Display.PageImage(i), Display.PageLabel(i));
    }

    /** A click that reaches the modal: only a click on the backdrop itself closes it. */
    method ClickModal(onBackdrop: bool)
      requires Consistent()
      modifies this`modalShown, this`scrollLocked
      ensures Consistent()
      ensures onBackdrop ==> !modalShown && !scrollLocked
      ensures !onBackdrop ==> modalShown == old(modalShown) && scrollLocked == old(scrollLocked)
    {
      if onBackdrop {
        CloseModal();
      }
    }

    // -------------------------------------------------------------------
    // Keyboard and touch
    // -------------------------------------------------------------------

    /** The keydown listener. */
    method KeyDown(key: string)
      requires Valid()
      modifies thumbnails, this`currentPage, this`prevDisabled, this`nextDisabled, this`pageText,
               this`totalText, this`overlayText, this`imageSrc, this`imageAlt, this`fragment,
               this`modalShown, this`scrollLocked
      ensures Valid()
      ensures key == "ArrowRight" ==> currentPage == Navigation.NextOf(totalPages, old(currentPage))
      ensures key == "ArrowLeft" ==> currentPage == Navigation.PreviousOf(totalPages, old(currentPage))
      ensures key != "ArrowRight" && key != "ArrowLeft" ==> unchanged(thumbnails) && currentPage == old(currentPage)
      ensures key == "Escape" ==> !modalShown && !scrollLocked
      ensures key != "Escape" ==> modalShown == old(modalShown)
      ensures currentPage == old(currentPage) ==> fragment == old(fragment)
      ensures currentPage != old(currentPage) ==> Synced()
    {
      match Navigation.KeyAction(key)
      case Previous => PreviousPage();
      case Next => NextPage();
      case Close => CloseModal();
      case Idle =>
    }

    /** touchstart on the main image. */
    method TouchStart(screenX: int)
      modifies this`touchStartX
      ensures touchStartX == screenX
    {
      touchStartX := screenX;
    }

    /** touchend on the main image, followed by handleSwipe. */
    method TouchEnd(screenX: int)
      requires Valid()
      modifies thumbnails, this`currentPage, this`prevDisabled, this`nextDisabled, this`pageText,
               this`totalText, this`overlayText, this`imageSrc, this`imageAlt, this`fragment,
               this`touchEndX
      ensures Valid()
      ensures touchEndX == screenX
      ensures touchStartX - screenX > Navigation.SwipeThreshold ==>
                currentPage == Navigation.NextOf(totalPages, old(currentPage))
      ensures touchStartX - screenX < -Navigation.SwipeThreshold ==>
                currentPage == Navigation.PreviousOf(totalPages, old(currentPage))
      ensures -Navigation.SwipeThreshold <= touchStartX - screenX <= Navigation.SwipeThreshold ==>
                currentPage == old(currentPage) && unchanged(thumbnails) && fragment == old(fragment)
      ensures currentPage == old(currentPage) ==> fragment == old(fragment)
      ensures currentPage != old(currentPage) ==> Synced()
    {
      touchEndX := screenX;
      match Navigation.SwipeAction(touchStartX - touchEndX)
      case Next => NextPage();
      case Previous => PreviousPage();
      case _ =>
    }

    // -------------------------------------------------------------------
    // Mobile menu
    // -------------------------------------------------------------------

    /** A click on the hamburger toggle flips both flags. */
    method ClickNavToggle()
      requires Consistent()
      modifies this`menuActive, this`toggleActive
      ensures Consistent()
      ensures menuActive == !old(menuActive)
    {
      menuActive := !menuActive;
      toggleActive := !toggleActive;
    }

    /** A click on a navigation link closes the menu. */
    method ClickNavLink()
      requires Consistent()
      modifies this`menuActive, this`toggleActive
      ensures Consistent()
      ensures !menuActive
    {
      menuActive := false;
      toggleActive := false;
    }

    /** Any click on the document: one outside both the menu and the toggle closes the menu. */
    method ClickDocument(insideMenu: bool, insideToggle: bool)
      requires Consistent()
      modifies this`menuActive, this`toggleActive
      ensures Consistent()
      ensures !insideMenu && !insideToggle ==> !menuActive
      ensures insideMenu || insideToggle ==> menuActive == old(menuActive)
    {
      if !insideMenu && !insideToggle {
        menuActive := false;
        toggleActive := false;
      }
    }
  }

  /**
   * Two sessions on an eleven-page brochure: after the first display update
   * the first page is shown with previous disabled and next enabled; after
   * jumping to the last page, next is disabled and pressing it changes
   * nothing.
   */
  method BrowseToLastPage()
  {
    var viewer := new Viewer(11, true);
    Display.ButtonsAtBounds(11, 1, true);
    assert viewer.prevDisabled && !viewer.nextDisabled;
    viewer.GoToPage(11);
    Display.ButtonsAtBounds(11, 11, true);
    assert viewer.currentPage == 11 && viewer.nextDisabled;
    viewer.NextPage();
    assert viewer.currentPage == 11 && viewer.nextDisabled;
    viewer.GoToPage(12);
    assert viewer.currentPage == 11;
  }
}
