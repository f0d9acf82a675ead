/** The MAC range codec (`_to_mac_range`, obligate/obligate.py:223-246):
    a textual EUI-48 prefix such as `AA:BB:CC` or `AA-BB-CC`, optionally
    followed by `/mask`, becomes the canonical CIDR text, the first MAC of
    the range (inclusive) and the end of the range (exclusive). */
module MacRange {
  import opened Common
  import opened Text

  /** The number of EUI-48 values, 2^48. */
  const MacSpace: nat := 0x1_0000_0000_0000

  /** The MAC prefix is twelve hexadecimal digits long once padded. */
  const MacDigits: nat := 12

  /** The ways `_to_mac_range` raises instead of returning:
      MalformedMask   `int(cidr_parts[1])` rejects the mask text (line 235);
      NegativeShift   the mask exceeds 48, so `1 << (48 - mask)` is a negative shift (line 238);
      MalformedPrefix the padded prefix is not twelve hex digits: either `int(prefix, 16)`
                      rejects it (line 245) or `EUI(prefix)` does and `cidr` is left
                      unbound at the return (lines 240-246). */
  datatype RangeError = MalformedMask | NegativeShift | MalformedPrefix

  /** The returned triple `(cidr, first_address, last_address)`. */
  datatype MacBounds = MacBounds(cidr: string, first: nat, last: nat)

  /** `prefix.replace(':', '').replace('-', '')`. */
  function StripSeparators(prefix: string): (r: string)
    ensures ':' !in r && '-' !in r
  {
    DeleteCharMembers(DeleteChar(prefix, ':'), '-', ':');
    DeleteChar(DeleteChar(prefix, ':'), '-')
  }

  /** How netaddr prints hex digits as an EUI-48 with '-' turned into ':', followed by
      `/mask`: reading the text back gives the digits, upper-cased, and the mask. */
  function CanonicalCidr(digits: string, mask: int): (c: string)
    requires IsHex(digits)
    ensures PrefixDigits(c) == UpperHex(digits) && MaskOf(c) == Some(mask)
  {
    UpperHexValue(digits);
    CanonicalCidrPrefix(UpperHex(digits), mask);
    CanonicalCidrMask(UpperHex(digits), mask);
    Octets(UpperHex(digits)) + "/" + DecimalText(mask)
  }

  /** The prefix digits: the text before the first '/', separators removed. */
  function PrefixDigits(val: string): (digits: string)
    ensures ':' !in digits && '-' !in digits
  {
    StripSeparators(Split(val, '/')[0])
  }

  /** The mask: `int` of the second '/'-separated piece (`cidr_parts[1]`) when there is
      one (None when `int` raises), otherwise `48 - diff * 4` with `diff = 12 - len(prefix)`. */
  function MaskOf(val: string): (m: Option<int>)
    ensures |Split(val, '/')| == 1 ==> m == Some(4 * |PrefixDigits(val)|)
    ensures |Split(val, '/')| > 1 ==> m == ParseInt(Split(val, '/')[1])
  {
    var parts := Split(val, '/');
    if |parts| > 1 then ParseInt(parts[1])
    else Some(48 - (MacDigits - |PrefixDigits(val)|) * 4)
  }

  /** Hex digits hold no separator the codec splits or strips on. */
  lemma HexHasNoSeparators(u: string)
    requires IsHex(u)
    ensures '/' !in u && ':' !in u && '-' !in u
  {
    forall i | 0 <= i < |u| ensures u[i] != '/' && u[i] != ':' && u[i] != '-' {
      assert IsHexDigit(u[i]);
    }
  }

  /** The canonical text splits at its one '/' into the paired digits and the mask. */
  lemma CanonicalCidrSplit(u: string, m: int)
    requires IsHex(u)
    ensures Split(Octets(u) + "/" + DecimalText(m), '/') == [Octets(u), DecimalText(m)]
  {
    HexHasNoSeparators(u);
    var text := Octets(u);
    assert '/' !in text by {
      if '/' in text { OctetsMembers(u, '/'); }
    }
    SplitAtFirstSeparator(text, '/', DecimalText(m));
    SplitWithoutSeparator(DecimalText(m), '/');
  }

  /** Reading the canonical text back gives the digits it was printed from. */
  lemma CanonicalCidrPrefix(u: string, m: int)
    requires IsHex(u)
    ensures PrefixDigits(Octets(u) + "/" + DecimalText(m)) == u
  {
    CanonicalCidrSplit(u, m);
    HexHasNoSeparators(u);
    OctetsDeleteColons(u);
    DeleteCharAbsent(u, '-');
  }

  /** Reading the canonical text back gives the mask it was printed with. */
  lemma CanonicalCidrMask(u: string, m: int)
    requires IsHex(u)
    ensures MaskOf(Octets(u) + "/" + DecimalText(m)) == Some(m)
  {
    CanonicalCidrSplit(u, m);
    ParseDecimalText(m);
  }

  /** The range for an accepted prefix and mask: the prefix padded with zero digits to
      twelve is the first MAC, and the range holds `1 << (48 - mask)` values. The first
      MAC is in the 48-bit space; with a small mask the end may pass 2^48. */
  function RangeOf(digits: string, mask: int): (b: MacBounds)
    requires IsHex(digits) && |digits| <= MacDigits && mask <= 48
    ensures b.first < MacSpace && b.first < b.last
    ensures b.first == HexValue(digits) * Pow(16, MacDigits - |digits|)
    ensures b.last == b.first + Pow(2, 48 - mask)
  {
    var padded := digits + Zeros(MacDigits - |digits|);
    HexValuePadded(digits, MacDigits - |digits|);
    Pow16Digits();
    PowPositive(2, 48 - mask);
    var first := HexValue(padded);
    MacBounds(CanonicalCidr(padded, mask), first, first + Pow(2, 48 - mask))
  }

  /** `_to_mac_range(val)`, checking in the order the source fails: the mask text
      (line 235), the shift (line 238), then the prefix digits (lines 240-245). The
      length check of lines 229-231 has no effect and is not a failure here either. */
  function ToMacRange(val: string): (r: Result<MacBounds, RangeError>)
    ensures r.Success? ==> r.value.first < r.value.last && r.value.first < MacSpace
  {
    var digits := PrefixDigits(val);
    var mask := MaskOf(val);
    if mask.None? then Failure(MalformedMask)
    else if mask.value > 48 then Failure(NegativeShift)
    else if |digits| > MacDigits || !IsHex(digits) then Failure(MalformedPrefix)
    else Success(RangeOf(digits, mask.value))
  }

  /** The value of the leading digits of a MAC once its `n` trailing hex digits are
      dropped. */
  function LeadingDigits(x: nat, n: nat): nat
  {
    PowPositive(16, n);
    x / Pow(16, n)
  }

  // ---------------------------------------------------------------------
  // Arithmetic facts
  // ---------------------------------------------------------------------

  lemma Pow16Digits()
    ensures Pow(16, MacDigits) == MacSpace
  {
  }

  /** A hex digit is four bits. */
  lemma {:induction false} Pow2Nibbles(d: nat)
    ensures Pow(2, 4 * d) == Pow(16, d)
    decreases d
  {
    if d > 0 {
      Pow2Nibbles(d - 1);
      var e := 4 * (d - 1);
      assert Pow(2, e + 4) == 2 * Pow(2, e + 3) == 4 * Pow(2, e + 2) == 8 * Pow(2, e + 1);
      assert Pow(2, 4 * d) == 16 * Pow(2, e);
    }
  }

  lemma MulMonotone(a: nat, b: nat, p: nat)
    requires a <= b
    ensures a * p <= b * p
  {
  }

  /** `h` is the quotient of `x` by `p` exactly when `x` lies in `[h * p, h * p + p)`. */
  lemma QuotientInterval(x: nat, h: nat, p: nat)
    requires p > 0
    ensures h * p <= x < h * p + p <==> x / p == h
  {
    var q := x / p;
    assert x == q * p + x % p;
    if h * p <= x < h * p + p {
      if q < h {
        MulMonotone(q + 1, h, p);
      } else if q > h {
        MulMonotone(h + 1, q, p);
      }
    }
  }
}
