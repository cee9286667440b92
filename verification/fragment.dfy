/**
 * The URL fragment as a second, textual replica of the current page: the
 * display update writes `page-<n>` into `location.hash`, and the hash
 * handler reads a page back from it.
 */
module Fragment {
  import opened Wrappers
  import opened JsText

  /** What the display update assigns to `location.hash` for page `page`. */
  function PageFragment(page: nat): string {
    "page-" + DecimalString(page)
  }

  /** What reading `location.hash` returns once the fragment is `fragment`: a '#' in front, or "" for no fragment. */
  function HashOf(fragment: string): string {
    if fragment == "" then "" else "#" + fragment
  }

  /**
   * The decision of initializeFromHash: the page the hash selects, or `None`
   * when the handler leaves the current page alone (no "#page-" prefix,
   * parseInt gives NaN, or the number is not a page).
   */
  function DecodeHash(hash: string, totalPages: nat): (r: Option<int>)
    ensures r.Some? ==> 1 <= r.value <= totalPages
    ensures r.Some? ==> StartsWith(hash, "#page-")
  {
    if StartsWith(hash, "#page-") then
      match ParseInt(ReplaceFirst(hash, "#page-", ""))
      case None => None
      case Some(n) => if 1 <= n <= totalPages then Some(n) else None
    else None
  }

  /** Once the prefix is present, the number is read from what follows it. */
  lemma DecodeAfterPrefix(rest: string, totalPages: nat)
    ensures ReplaceFirst("#page-" + rest, "#page-", "") == rest
    ensures DecodeHash("#page-" + rest, totalPages) ==
      match ParseInt(rest)
      case None => None
      case Some(n) => if 1 <= n <= totalPages then Some(n) else None
  {
    var h := "#page-" + rest;
    assert h[..6] == "#page-";
    assert h[6..] == rest;
  }

  /**
   * A page number followed by anything that is not a digit still selects
   * that page: "#page-4x" goes to page 4.
   */
  lemma DecodeIgnoresTrailingText(page: int, rest: string, totalPages: nat)
    requires 1 <= page <= totalPages
    requires rest == [] || !IsRadixDigit(rest[0], 10)
    ensures DecodeHash("#page-" + DecimalString(page) + rest, totalPages) == Some(page)
  {
    assert "#page-" + DecimalString(page) + rest == "#page-" + (DecimalString(page) + rest);
    DecodeAfterPrefix(DecimalString(page) + rest, totalPages);
    ParseIntDecimal(page, rest);
  }

  /** Round trip: decoding the hash written for a valid page gives that page. */
  lemma DecodeEncode(page: int, totalPages: nat)
    requires 1 <= page <= totalPages
    ensures DecodeHash(HashOf(PageFragment(page)), totalPages) == Some(page)
  {
    assert HashOf(PageFragment(page)) == "#page-" + DecimalString(page) + [];
    DecodeIgnoresTrailingText(page, [], totalPages);
  }

  /** Distinct pages are written as distinct fragments. */
  lemma PageFragmentInjective(a: int, b: int, totalPages: nat)
    requires 1 <= a <= totalPages && 1 <= b <= totalPages
    requires PageFragment(a) == PageFragment(b)
    ensures a == b
  {
    DecodeEncode(a, totalPages);
    DecodeEncode(b, totalPages);
  }

  /** Zeros in front of the number are skipped: "#page-04" goes to page 4. */
  lemma DecodeLeadingZeros(zeros: string, page: int, totalPages: nat)
    requires forall i :: 0 <= i < |zeros| ==> zeros[i] == '0'
    requires 1 <= page <= totalPages
    ensures DecodeHash("#page-" + zeros + DecimalString(page), totalPages) == Some(page)
  {
    assert "#page-" + zeros + DecimalString(page) == "#page-" + (zeros + DecimalString(page));
    DecodeAfterPrefix(zeros + DecimalString(page), totalPages);
    ParseIntLeadingZeros(zeros, page);
  }

  /** The three ways the handler leaves the page alone. */
  lemma DecodeRejects(hash: string, totalPages: nat)
    ensures !StartsWith(hash, "#page-") ==> DecodeHash(hash, totalPages) == None
    ensures StartsWith(hash, "#page-") && ParseInt(hash[6..]).None? ==> DecodeHash(hash, totalPages) == None
    ensures (StartsWith(hash, "#page-") && ParseInt(hash[6..]).Some? &&
             !(1 <= ParseInt(hash[6..]).value <= totalPages)) ==> DecodeHash(hash, totalPages) == None
  {
    if StartsWith(hash, "#page-") {
      assert hash == "#page-" + hash[6..];
      DecodeAfterPrefix(hash[6..], totalPages);
    }
  }

  /** "#page-4x": parseInt reads the leading 4 and ignores the rest. */
  lemma DecodeTrailingExample()
    ensures DecodeHash("#page-4x", 11) == Some(4)
  {
    assert DecimalString(4) == "4";
    DecodeIgnoresTrailingText(4, "x", 11);
    assert "#page-" + "4" + "x" == "#page-4x";
  }

  /** "#page-04" reads as page 4. */
  lemma DecodeZeroExample()
    ensures DecodeHash("#page-04", 11) == Some(4)
  {
    assert DecimalString(4) == "4";
    DecodeLeadingZeros("0", 4, 11);
    assert "#page-" + "0" + "4" == "#page-04";
  }

  /** "#page-999" is a number but not a page of an eleven-page brochure. */
  lemma DecodeOutOfRangeExample()
    ensures DecodeHash("#page-" + "999", 11) == None
  {
    DecodeAfterPrefix("999", 11);
    ParseIntExamples();
  }

  /** "#page-abc" has no number: parseInt gives NaN. */
  lemma DecodeNaNExample()
    ensures DecodeHash("#page-" + "abc", 11) == None
  {
    DecodeAfterPrefix("abc", 11);
    ParseIntExamples();
  }

  /** "#page-0xA": parseInt without a radix reads hexadecimal, so this is page 10. */
  lemma DecodeHexExample()
    ensures DecodeHash("#page-" + "0xA", 11) == Some(10)
  {
    DecodeAfterPrefix("0xA", 11);
    ParseIntExamples();
  }
}
