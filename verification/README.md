# Brochure viewer: page navigation, in Dafny

This project models the page viewer of a static image brochure (`script.js`).
The viewer keeps one page counter, `currentPage`, in `[1, totalPages]`. The
next and previous buttons, the thumbnails, the arrow keys, swipes and the URL
fragment all change it. Every change is followed by a display update. That
update marks exactly one thumbnail active, enables or disables the two buttons,
writes the counter text and the main image, and writes `page-<n>` into the
URL fragment. Beside the counter sit a zoom level, a fullscreen modal that
locks page scrolling, and a mobile menu.

Layout, one module per concern:

- `wrappers.dfy` (`Wrappers`): the `Option` type.
- `js_text.dfy` (`JsText`): JavaScript text handling.
  - `DecimalString` models how a number prints (`${n}`, `textContent = n`).
  - `ParseInt` models the global `parseInt` without a radix, as ECMAScript
    defines it. It skips leading white space, reads one sign, switches to
    radix 16 on `0x`/`0X`, and reads the longest run of digits. No digits
    gives NaN, written `None`.
- `navigation.dfy` (`Navigation`): the counter transitions as pure
  functions. It also holds the key and swipe dispatch (`KeyAction`,
  `SwipeAction`).
- `fragment.dfy` (`Fragment`): the fragment encoder (`PageFragment`) and the
  decision of `initializeFromHash` (`DecodeHash`).
- `display.dfy` (`Display`): the view as a function of the page (`Render`).
- `zoom.dfy` (`Zoom`): the zoom level, held exactly as a whole number of
  quarters. 2..12 stands for 0.5..3, and 4 is the default 1.
- `viewer.dfy` (`Brochure`): class `Viewer`, the script's module-level state
  and DOM fields, with one method per handler.
  - `Consistent()` is the invariant that holds at every point: page in
    range, zoom in range, modal flag equal to the scroll-lock flag, and the
    two menu flags equal.
  - `Valid()` adds that the screen shows `Render` of the current page.
  - `Synced()` says that the fragment names the current page.

`totalPages` is a constructor parameter (`>= 1`). The source fixes it at 11,
and the worked examples use 11.

Two facts about the code are worth stating up front:

- From zoom 1, five `zoomIn` calls give 2.25 (`Zoom.ZoomFromDefault`).
- The script listens for `hashchange` (script.js:571), so fragment changes
  after load re-enter the state machine (`Brochure.Viewer.HashChange`).

## Model

| member | source | states |
|---|---|---|
| `Navigation.NextOf` | script.js:68-73 | the next page stays in range; it differs from the current page exactly when that page is not the last, and then it is one more |
| `Navigation.PreviousOf` | script.js:75-80 | the previous page stays in range; it differs from the current page exactly when that page is not the first, and then it is one less |
| `Navigation.GoToOf` | script.js:82-87 | the result is the requested page exactly when the request is in `[1, totalPages]`; otherwise the current page is kept |
| `Navigation.NextTimesSaturates` | script.js:68-73 | `k` presses of next from `p` land on `min(p + k, totalPages)` |
| `Navigation.PreviousTimesSaturates` | script.js:75-80 | `k` presses of previous from `p` land on `max(p - k, 1)` |
| `Navigation.NextPreviousInverse` | script.js:68-80 | away from the bounds, previous undoes next and next undoes previous |
| `Navigation.KeyAction` | script.js:255-261 | the keydown dispatch chain; `KeyActionCases` states which key selects which action |
| `Navigation.SwipeAction` | script.js:280-291 | the handleSwipe decision on `diff`; `SwipeActionCases`, `SwipeMirror` and `SwipeAgreesWithKeys` state its meaning |
| `Navigation.KeyActionCases` | script.js:254-262 | ArrowRight means next, ArrowLeft previous, Escape close, and every other key nothing |
| `Navigation.SwipeActionCases` | script.js:279-292 | with `diff = touchStartX - touchEndX`: `diff > 50` means next, `diff < -50` previous, `abs(diff) <= 50` nothing; a swipe never closes the modal |
| `Navigation.SwipeMirror` | script.js:279-292 | a swipe of the same length in the opposite direction does the opposite |
| `Navigation.SwipeAgreesWithKeys` | script.js:254-292 | a long leftward swipe acts like ArrowRight, a long rightward one like ArrowLeft |
| `JsText.StartsWith` | script.js:556 | `hash.startsWith('#page-')`; `DecodeRejects` states that a hash without the prefix selects nothing |
| `JsText.ReplaceFirst` | script.js:557 | `hash.replace('#page-', '')`, first occurrence only; `Fragment.DecodeAfterPrefix` states that on a prefixed hash it yields the rest |
| `JsText.DecimalString` | script.js:577 | the printed number is a non-empty run of decimal digits, with a leading zero only for 0 |
| `JsText.TrimStart` | script.js:557 | parseInt's trim drops exactly the leading white space and leaves a suffix of the input |
| `JsText.DigitPrefix` | script.js:557 | parseInt reads the longest prefix of digits of the radix |
| `JsText.DecimalValue` | script.js:557 | reading the printed digits of `n` gives `n` |
| `JsText.SignOf` | script.js:557 | the sign step of `parseInt`; `ParseIntSignExamples` shows a minus sign negating the value |
| `JsText.StripSign` | script.js:557 | removes one leading `+` or `-` before the digits; `StartsWithAlphanumeric` states that text starting with a digit or letter passes through unchanged |
| `JsText.HasHexPrefix` | script.js:557 | the `0x`/`0X` switch to radix 16 that `parseInt` without a radix makes; `ParseIntExamples` reads `0xA` as 10 |
| `JsText.ParseUnsigned` | script.js:557 | the digit reading of `parseInt`; `ParseUnsignedDecimal` states that it reads a printed number back up to the first non-digit |
| `JsText.ParseInt` | script.js:557 | global `parseInt` without a radix; `ParseIntDecimal`, `ParseIntLeadingZeros`, `ParseIntExamples` and `ParseIntSignExamples` state its results |
| `JsText.ParseUnsignedDecimal` | script.js:557 | reading digits after a printed `n` with no sign or hex prefix stops at the first non-digit and yields `n` |
| `JsText.ParseIntDecimal` | script.js:557 | parseInt of the printed `n`, followed by anything that is not a digit, is `n` |
| `JsText.ParseIntLeadingZeros` | script.js:557 | parseInt skips leading zeros: zeros followed by the printed `n >= 1` read as `n` |
| `JsText.ParseIntExamples` | script.js:557 | `"abc"` is NaN, `"999"` is 999, `"0xA"` is 10 (no radix is passed, so `0x` switches to hexadecimal) |
| `JsText.ParseIntSignExamples` | script.js:557 | leading white space is skipped and a sign is honoured: `" 7"` is 7, `"-3"` is -3 |
| `Fragment.PageFragment` | script.js:577 | the fragment written after each display update; `DecodeEncode` reads it back and `PageFragmentInjective` states that distinct pages get distinct fragments |
| `Fragment.HashOf` | script.js:555 | `location.hash` as read back: `#` before a non-empty fragment; `DecodeEncode` goes through it |
| `Fragment.DecodeHash` | script.js:554-559 | the handler selects a page only when the hash starts with `#page-`, and the page it selects is in range |
| `Fragment.DecodeAfterPrefix` | script.js:556-558 | after the `#page-` prefix, the page is parseInt of the rest when that is in range, and nothing otherwise |
| `Fragment.DecodeRejects` | script.js:556-558 | the page is left alone when the prefix is missing, when parseInt gives NaN, and when the number is out of range |
| `Fragment.DecodeEncode` | script.js:554-578 | round trip: the hash written for a valid page (`page-<n>`, read back with its `#`) decodes to that page |
| `Fragment.DecodeIgnoresTrailingText` | script.js:557-559 | `#page-<n>` followed by a non-digit still selects page `n` (`#page-4x` is page 4) |
| `Fragment.DecodeLeadingZeros` | script.js:557-559 | zeros before the number are skipped (`#page-04` is page 4) |
| `Fragment.PageFragmentInjective` | script.js:577 | distinct pages are written as distinct fragments |
| `Fragment.DecodeTrailingExample` | script.js:556-559 | `#page-4x` selects page 4 of 11 |
| `Fragment.DecodeZeroExample` | script.js:556-559 | `#page-04` selects page 4 of 11 |
| `Fragment.DecodeOutOfRangeExample` | script.js:556-559 | `#page-999` selects nothing in an eleven-page brochure |
| `Fragment.DecodeNaNExample` | script.js:556-559 | `#page-abc` selects nothing |
| `Fragment.DecodeHexExample` | script.js:556-559 | `#page-0xA` selects page 10 |
| `Display.PageImage` | script.js:92 | the image path of a page; `RenderInjective` states that the view tells pages apart |
| `Display.PageLabel` | script.js:93 | the `Page <n>` label used as alt text and overlay; `RenderInjective` states that the view tells pages apart |
| `Display.ActiveFlags` | script.js:108-112 | the active flags the thumbnail loop leaves; `ExactlyOneActive` states that exactly the current page's flag is set |
| `Display.Render` | script.js:89-119 | the whole view of a page; `ExactlyOneActive`, `ButtonsAtBounds`, `CounterShowsPage` and `RenderInjective` state its meaning |
| `Display.ExactlyOneActive` | script.js:108-112 | after a display update exactly one thumbnail is active, the one at index `currentPage - 1` |
| `Display.ButtonsAtBounds` | script.js:114-119 | previous is disabled iff the page is 1 and next iff it is the last; with more than one page they are never both disabled |
| `Display.CounterShowsPage` | script.js:98-100 | the counter texts read back as the current page and the page count |
| `Display.RenderInjective` | script.js:89-119 | different pages produce different views |
| `Zoom.ZoomedIn` | script.js:486-491 | zoomIn stays within 0.5..3, adds exactly 0.25 when it acts, and does nothing exactly at 3 |
| `Zoom.ZoomedOut` | script.js:493-498 | zoomOut stays within 0.5..3, takes away exactly 0.25 when it acts, and does nothing exactly at 0.5 |
| `Zoom.ZoomInTimesCaps` | script.js:486-491 | `k` zoomIn calls add `k` quarters, capped at 3 |
| `Zoom.ZoomOutTimesFloors` | script.js:493-498 | `k` zoomOut calls take away `k` quarters, floored at 0.5 |
| `Zoom.ZoomFromDefault` | script.js:483-498 | from 1: five zoomIn give 2.25, eight reach 3, a ninth changes nothing, six zoomOut reach 0.5 |
| `Zoom.ZoomInOutInverse` | script.js:486-498 | away from the bounds, zoomOut undoes zoomIn and zoomIn undoes zoomOut |
| `Zoom.ScaleBounds` | script.js:483-503 | every level in the quarter range is between 0.5 and 3 |
| `Brochure.Viewer.constructor` | script.js:6-35 | after load: page 1, zoom 1, modal and menu closed, the view rendered for page 1, and the fragment `page-1` |
| `Brochure.Viewer.ShowPageImage` | script.js:90-93 | the page image shows `assets/pages/page<n>.jpg` with alt text `Page <n>` for the current page |
| `Brochure.Viewer.ShowPageNumber` | script.js:98-106 | the counter shows the current page and the total in decimal; the overlay, when present, reads `Page <n>` |
| `Brochure.Viewer.MarkActiveThumbnail` | script.js:108-112 | after the loop over the strip exactly the thumbnail at index `currentPage - 1` is active |
| `Brochure.Viewer.ShowButtons` | script.js:114-119 | Previous is disabled exactly on page 1 and Next exactly on the last page |
| `Brochure.Viewer.RenderPage` | script.js:89-126 | the original display update: the screen becomes `Render` of the current page |
| `Brochure.Viewer.UpdatePageDisplay` | script.js:574-578 | the wrapped update renders and writes `page-<currentPage>` to the fragment; on a page already shown and synced it changes nothing |
| `Brochure.Viewer.NextPage` | script.js:68-73 | the page becomes `NextOf` of the old page; at the last page nothing at all changes; otherwise the fragment follows; zoom is untouched |
| `Brochure.Viewer.PreviousPage` | script.js:75-80 | the page becomes `PreviousOf` of the old page; at page 1 nothing at all changes; otherwise the fragment follows; zoom is untouched |
| `Brochure.Viewer.GoToPage` | script.js:82-87 | the page becomes `GoToOf` of the request; an out-of-range request changes nothing; otherwise the fragment follows; going to the page already shown and synced changes neither the screen nor the fragment, so a repeated call acts as one; zoom is untouched |
| `Brochure.Viewer.ClickThumbnail` | script.js:23 | a click on thumbnail `i` shows page `i` and makes that thumbnail active |
| `Brochure.Viewer.InitializeFromHash` | script.js:554-567 | when the hash decodes to a page, that page is shown and the fragment names it; otherwise nothing changes; on a fragment the viewer wrote itself, the page, the screen and the fragment stay as they are |
| `Brochure.Viewer.HashChange` | script.js:570-571 | a new fragment either moves to the page it decodes to, or is kept while the page and screen stay as they were |
| `Brochure.Viewer.ZoomIn` | script.js:486-491 | the zoom becomes `ZoomedIn` of the old zoom; the page is untouched |
| `Brochure.Viewer.ZoomOut` | script.js:493-498 | the zoom becomes `ZoomedOut` of the old zoom; the page is untouched |
| `Brochure.Viewer.ResetZoom` | script.js:500-503 | the zoom becomes 1 from any level; the page is untouched |
| `Brochure.Viewer.OpenModal` | script.js:129-141 | the modal shows the given image and label, and page scrolling is locked |
| `Brochure.Viewer.CloseModal` | script.js:149-153 | the modal is hidden and the scroll lock is released |
| `Brochure.Viewer.ClickPageImage` | script.js:155-158 | a click on the main image opens the current page's image and label in the modal |
| `Brochure.Viewer.ClickGridItem` | script.js:45 | a click on grid item `i` opens page `i`'s image and label in the modal |
| `Brochure.Viewer.ClickModal` | script.js:160-165 | a click on the backdrop closes the modal and releases the lock; a click on its content changes nothing |
| `Brochure.Viewer.KeyDown` | script.js:254-262 | ArrowRight goes next, ArrowLeft goes previous, Escape closes the modal and releases the lock; other keys change neither the page nor the modal; a page move leaves the fragment naming the new page, and every other case leaves the fragment as it was |
| `Brochure.Viewer.TouchStart` | script.js:270-272 | the start position of the touch is recorded |
| `Brochure.Viewer.TouchEnd` | script.js:274-292 | a swipe longer than 50 pixels goes next (leftward) or previous (rightward); a shorter one changes nothing on screen; a page move leaves the fragment naming the new page, and every other case leaves the fragment as it was |
| `Brochure.Viewer.ClickNavToggle` | script.js:340-343 | the toggle flips the menu open or closed, and the two flags stay equal |
| `Brochure.Viewer.ClickNavLink` | script.js:345-351 | a click on a navigation link closes the menu |
| `Brochure.Viewer.ClickDocument` | script.js:353-359 | a click outside both the menu and the toggle closes the menu; any other click leaves it as it is |

## Left out

- DOM construction is not modelled: the thumbnail and grid elements and the overlay markup (script.js:16-65) are not built. Only the resulting flags, texts and the `hasOverlay` switch are kept.
- Image `onerror` fallbacks to placeholder URLs (script.js:28-30, 50-52, 94-96, 135-137) are left out. They depend on network loading.
- Timers, smooth scrolling and layout are left out: `scrollIntoView` of the active thumbnail and the modal (script.js:121-125, 142-146), `scrollToSection` after a hash jump (script.js:561-564, 322-328), and the scroll-spy (script.js:296-320), which depends on live geometry.
- The notification, download, print, share and form handlers are left out (script.js:167-249, 435-480). They are external collaborators with no navigation state.
- Injected CSS, zoom-control markup and `scale(...)` transform strings are left out (script.js:362-411, 489, 496, 502, 505-551). The model keeps the zoom level itself.
- IntersectionObserver fade-in and lazy loading are left out (script.js:413-433, 580-598).
- The order of the browser's `DOMContentLoaded`, `load` and `hashchange` events is not modelled (script.js:6-13, 570-571). The decoder and the encoder are separate operations. No claim is made that a fragment present at first load survives the first display update, which writes `page-1`.
- When the menu elements are missing, `setupMobileMenu` logs an error and installs no handlers (script.js:335-338). That case is not modelled; the model assumes the elements exist.
- Brochure.Viewer.GoToPage: takes integer page numbers only. Every caller in the script passes an integer, but a JavaScript `goToPage(2.5)` would store 2.5.
- Brochure.Viewer.TouchEnd: touch positions are integers rather than floating-point `screenX` values.
- JsText.ParseInt: computes with unbounded integers. JavaScript rounds digit strings longer than about 15 significant digits to a double. Such values are far out of page range either way. A negative zero is read as 0.
- JsText.IsStrWhiteSpaceChar: works on Unicode scalar values rather than UTF-16 code units. The white-space set has no surrogates, so the two agree.
- Page numbers are unbounded integers. A JavaScript Number is exact only up to 2^53, where `currentPage++` stops changing it, and from 10^21 it prints in exponent form (`1e+21`), which `parseInt` reads back as 1. So `Navigation.NextOf`'s "one more" and `Fragment.DecodeEncode` hold in JavaScript only below those bounds. The script's 11 pages are far below them.
- Fragment.HashOf: does not model the percent-encoding the browser applies to characters that cannot appear in a URL fragment.
