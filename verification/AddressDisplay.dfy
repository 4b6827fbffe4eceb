/**
 * The abbreviated account shown on the connect button:
 * `address.slice(0, 6) + '...' + address.slice(-4)`.
 */
module AddressDisplay {
  import opened JsString

  const Ellipsis: string := "..."

  function ShortAddress(a: string): (r: string)
    ensures |r| == (if |a| < 6 then |a| else 6) + 3 + (if |a| < 4 then |a| else 4)
  {
    Slice(a, 0, 6) + Ellipsis + SliceFrom(a, -4)
  }

  /** The slices in terms of plain sequence operations, for any length. */
  lemma ShortAddressParts(a: string)
    ensures ShortAddress(a) == (if |a| < 6 then a else a[..6]) + Ellipsis + (if |a| < 4 then a else a[|a| - 4..])
  {
    SlicePrefix(a, 6);
    SliceSuffix(a, 4);
  }

  /** For addresses of ten or more characters: first six, an ellipsis, last four. */
  lemma ShortAddressOfLong(a: string)
    requires |a| >= 10
    ensures var r := ShortAddress(a);
      && |r| == 13
      && r[..6] == a[..6]
      && r[6..9] == Ellipsis
      && r[9..] == a[|a| - 4..]
  {
    ShortAddressParts(a);
  }

  /** Below four characters both slices are the whole address. */
  lemma ShortAddressOfTiny(a: string)
    requires |a| < 4
    ensures ShortAddress(a) == a + Ellipsis + a
  {
    ShortAddressParts(a);
  }

  /**
   * For long addresses the short form identifies exactly the first six and
   * the last four characters: two addresses share a short form iff they
   * agree there.
   */
  lemma ShortAddressEqualIff(a: string, b: string)
    requires |a| >= 10 && |b| >= 10
    ensures ShortAddress(a) == ShortAddress(b) <==> a[..6] == b[..6] && a[|a| - 4..] == b[|b| - 4..]
  {
    ShortAddressOfLong(a);
    ShortAddressOfLong(b);
    ShortAddressParts(a);
    ShortAddressParts(b);
  }
}
