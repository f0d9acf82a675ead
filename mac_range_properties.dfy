/** What the MAC range codec computes: the range is the block of EUI-48 values under
    the prefix, and the canonical text it returns is read back to the same range. */
module MacRangeProperties {
  import opened Common
  import opened Text
  import opened MacRange

  // ---------------------------------------------------------------------
  // What the codec computes
  // ---------------------------------------------------------------------

  /** Without a mask, the mask is four bits per prefix digit and the CIDR is the
      padded prefix with that mask. */
  lemma {:induction false} UnmaskedCidr(val: string)
    requires '/' !in val
    requires ToMacRange(val).Success?
    ensures var digits := StripSeparators(val);
      && |digits| <= MacDigits && IsHex(digits)
      && ToMacRange(val).value.cidr == CanonicalCidr(digits + Zeros(MacDigits - |digits|), 4 * |digits|)
  {
    UnmaskedPrefix(val);
    UnmaskedMask(val);
  }

  /** Without a mask, the range starts at the prefix scaled past the padding digits and
      holds 16^(12 - L) values for L digits. */
  lemma {:induction false} UnmaskedRangeIsPrefixBlock(val: string)
    requires '/' !in val
    requires ToMacRange(val).Success?
    ensures var digits := StripSeparators(val);
      var r := ToMacRange(val).value;
      && |digits| <= MacDigits && IsHex(digits)
      && r.first == HexValue(digits) * Pow(16, MacDigits - |digits|)
      && r.last - r.first == Pow(16, MacDigits - |digits|)
  {
    UnmaskedIsRangeOf(val);
    var digits := StripSeparators(val);
    NibbleRangeSize(digits);
  }

  /** Without a mask, the codec returns the range of the prefix digits under four bits
      per digit. */
  lemma {:induction false} UnmaskedIsRangeOf(val: string)
    requires '/' !in val
    requires ToMacRange(val).Success?
    ensures var digits := StripSeparators(val);
      && |digits| <= MacDigits && IsHex(digits)
      && ToMacRange(val) == Success(RangeOf(digits, 4 * |digits|))
  {
    UnmaskedPrefix(val);
    UnmaskedMask(val);
  }

  /** Under four bits per digit, the range holds 16^(12 - L) values for L digits. */
  lemma {:induction false} NibbleRangeSize(digits: string)
    requires IsHex(digits) && |digits| <= MacDigits
    ensures var r := RangeOf(digits, 4 * |digits|);
      r.last - r.first == Pow(16, MacDigits - |digits|)
  {
    NibbleMask(MacDigits - |digits|, 4 * |digits|);
  }

  /** A mask of four bits per digit leaves `16^d` values for `d` missing digits. */
  lemma NibbleMask(d: nat, mask: int)
    requires mask == 48 - 4 * d
    ensures Pow(2, 48 - mask) == Pow(16, d)
  {
    Pow2Nibbles(d);
  }

  lemma UnmaskedPrefix(val: string)
    requires '/' !in val
    ensures PrefixDigits(val) == StripSeparators(val)
  {
    SplitWithoutSeparator(val, '/');
  }

  lemma UnmaskedMask(val: string)
    requires '/' !in val
    ensures MaskOf(val) == Some(4 * |StripSeparators(val)|)
  {
    SplitWithoutSeparator(val, '/');
  }

  /** Without a mask, a MAC is in the range exactly when its leading hex digits are
      the prefix. */
  lemma {:induction false} UnmaskedRangeMembers(val: string, x: nat)
    requires '/' !in val
    requires ToMacRange(val).Success?
    ensures var digits := StripSeparators(val);
      var r := ToMacRange(val).value;
      && |digits| <= MacDigits && IsHex(digits)
      && (r.first <= x < r.last <==> LeadingDigits(x, MacDigits - |digits|) == HexValue(digits))
  {
    UnmaskedIsRangeOf(val);
    NibbleRangeMembers(StripSeparators(val), x);
  }

  /** Under four bits per digit, a MAC is in the range exactly when its leading digits
      are the prefix. */
  lemma {:induction false} NibbleRangeMembers(digits: string, x: nat)
    requires IsHex(digits) && |digits| <= MacDigits
    ensures var r := RangeOf(digits, 4 * |digits|);
      r.first <= x < r.last <==> LeadingDigits(x, MacDigits - |digits|) == HexValue(digits)
  {
    var r := RangeOf(digits, 4 * |digits|);
    NibbleRangeSize(digits);
    BlockMembers(HexValue(digits), MacDigits - |digits|, r.first, r.last, x);
  }

  /** The block of `16^n` values from `h * 16^n` holds exactly the values whose
      leading digits are `h`. */
  lemma BlockMembers(h: nat, n: nat, first: nat, last: nat, x: nat)
    requires first == h * Pow(16, n) && last == first + Pow(16, n)
    ensures first <= x < last <==> LeadingDigits(x, n) == h
  {
    PowPositive(16, n);
    QuotientInterval(x, h, Pow(16, n));
  }

  /** With a mask, the range starts at the prefix padded to twelve digits and holds
      2^(48 - mask) values, the mask being `int` of the second '/'-separated piece. */
  lemma {:induction false} MaskedRangeSize(prefix: string, mask: string)
    requires '/' !in prefix
    requires ToMacRange(prefix + "/" + mask).Success?
    ensures var digits := StripSeparators(prefix);
      var r := ToMacRange(prefix + "/" + mask).value;
      var m := ParseInt(Split(mask, '/')[0]);
      && m.Some? && m.value <= 48
      && |digits| <= MacDigits && IsHex(digits)
      && r.first == HexValue(digits) * Pow(16, MacDigits - |digits|)
      && r.last == r.first + Pow(2, 48 - m.value)
      && r.cidr == CanonicalCidr(digits + Zeros(MacDigits - |digits|), m.value)
  {
    SplitAtFirstSeparator(prefix, '/', mask);
    var digits := StripSeparators(prefix);
    var m := ParseInt(Split(mask, '/')[0]);
    assert PrefixDigits(prefix + "/" + mask) == digits;
    assert MaskOf(prefix + "/" + mask) == m;
  }

  /** The canonical text is a fixed point: feeding the returned CIDR back to the codec
      returns the same CIDR and the same bounds. */
  lemma {:induction false} CanonicalCidrIsFixedPoint(val: string)
    requires ToMacRange(val).Success?
    ensures ToMacRange(ToMacRange(val).value.cidr) == ToMacRange(val)
  {
    var r := ToMacRange(val).value;
    var digits := PrefixDigits(val);
    var m := MaskOf(val).value;
    var padded := digits + Zeros(MacDigits - |digits|);
    HexValuePadded(digits, MacDigits - |digits|);
    UpperHexValue(padded);
    var u := UpperHex(padded);
    CanonicalCidrPrefix(u, m);
    CanonicalCidrMask(u, m);
    assert u + Zeros(0) == u;
    HexValuePadded(u, 0);
    assert RangeOf(u, m) == r;
  }
}
