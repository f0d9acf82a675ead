/** Worked inputs of the MAC range codec, one per outcome. */
module MacRangeExamples {
  import opened Common
  import opened Text
  import opened MacRange

  // ---------------------------------------------------------------------
  // Worked examples
  // ---------------------------------------------------------------------

  lemma HexValueSnoc(s: string, c: char)
    requires IsHex(s) && IsHexDigit(c)
    ensures IsHex(s + [c])
    ensures HexValue(s + [c]) == HexValue(s) * 16 + HexDigitValue(c)
  {
    assert (s + [c])[..|s|] == s;
  }

  lemma HexValueOfSix()
    ensures IsHex("AABBCC") && HexValue("AABBCC") == 0xaabbcc
  {
    assert IsHex("");
    HexValueSnoc("", 'A');
    assert "" + ['A'] == "A";
    HexValueSnoc("A", 'A');
    assert "A" + ['A'] == "AA";
    HexValueSnoc("AA", 'B');
    assert "AA" + ['B'] == "AAB";
    HexValueSnoc("AAB", 'B');
    assert "AAB" + ['B'] == "AABB";
    HexValueSnoc("AABB", 'C');
    assert "AABB" + ['C'] == "AABBC";
    HexValueSnoc("AABBC", 'C');
    assert "AABBC" + ['C'] == "AABBCC";
  }

  lemma HexValueOfPadded()
    ensures IsHex("AABBCC000000") && HexValue("AABBCC000000") == 0xaabbcc000000
  {
    HexValueOfSix();
    HexValuePadded("AABBCC", 6);
    assert "AABBCC" + Zeros(6) == "AABBCC000000";
  }

  lemma HexValueOfFull()
    ensures IsHex("AABBCCDDEEFF") && HexValue("AABBCCDDEEFF") == 0xaabbccddeeff
  {
    HexValueOfSix();
    HexValueSnoc("AABBCC", 'D');
    assert "AABBCC" + ['D'] == "AABBCCD";
    HexValueSnoc("AABBCCD", 'D');
    assert "AABBCCD" + ['D'] == "AABBCCDD";
    HexValueSnoc("AABBCCDD", 'E');
    assert "AABBCCDD" + ['E'] == "AABBCCDDE";
    HexValueSnoc("AABBCCDDE", 'E');
    assert "AABBCCDDE" + ['E'] == "AABBCCDDEE";
    HexValueSnoc("AABBCCDDEE", 'F');
    assert "AABBCCDDEE" + ['F'] == "AABBCCDDEEF";
    HexValueSnoc("AABBCCDDEEF", 'F');
    assert "AABBCCDDEEF" + ['F'] == "AABBCCDDEEFF";
  }

  lemma UpperHexOfUpper(h: string)
    requires forall i :: 0 <= i < |h| ==> !('a' <= h[i] <= 'f')
    ensures UpperHex(h) == h
  {
    assert forall i :: 0 <= i < |h| ==> UpperHex(h)[i] == h[i];
  }

  /** A prefix without '/', ':' or '-' is taken as it is, with four mask bits per digit. */
  lemma PlainPrefix(val: string)
    requires '/' !in val && ':' !in val && '-' !in val
    ensures PrefixDigits(val) == val
    ensures MaskOf(val) == Some(4 * |val|)
  {
    PlainPrefixDigits(val);
    SplitWithoutSeparator(val, '/');
  }

  lemma PlainPrefixDigits(val: string)
    requires '/' !in val && ':' !in val && '-' !in val
    ensures PrefixDigits(val) == val
  {
    SplitWithoutSeparator(val, '/');
    DeleteCharAbsent(val, ':');
    DeleteCharAbsent(val, '-');
  }

  /** A plain prefix followed by `/mask` is taken as it is, with the mask as written. */
  lemma PlainPrefixWithMask(prefix: string, mask: string)
    requires '/' !in prefix && ':' !in prefix && '-' !in prefix && '/' !in mask
    ensures PrefixDigits(prefix + "/" + mask) == prefix
    ensures MaskOf(prefix + "/" + mask) == ParseInt(mask)
  {
    SplitAtFirstSeparator(prefix, '/', mask);
    assert prefix + "/" + mask == prefix + ['/'] + mask;
    SplitWithoutSeparator(mask, '/');
    DeleteCharAbsent(prefix, ':');
    DeleteCharAbsent(prefix, '-');
  }

  /** The range of twelve upper-case digits. */
  lemma RangeOfTwelve(h: string, mask: int)
    requires |h| == MacDigits && IsHex(h) && mask <= 48
    requires forall i :: 0 <= i < |h| ==> !('a' <= h[i] <= 'f')
    ensures RangeOf(h, mask) == MacBounds(Octets(h) + "/" + DecimalText(mask), HexValue(h), HexValue(h) + Pow(2, 48 - mask))
  {
    assert h + Zeros(0) == h;
    UpperHexOfUpper(h);
  }

  lemma OctetsOfFullTail()
    ensures Octets("DDEEFF") == "DD:EE:FF"
  {
    assert "EEFF"[..2] == "EE" && "EEFF"[2..] == "FF";
    assert Octets("EEFF") == "EE" + ":" + Octets("FF");
    assert "DDEEFF"[..2] == "DD" && "DDEEFF"[2..] == "EEFF";
    assert Octets("DDEEFF") == "DD" + ":" + Octets("EEFF");
  }

  lemma OctetsOfFullMiddle()
    ensures Octets("CCDDEEFF") == "CC:DD:EE:FF"
  {
    OctetsOfFullTail();
    assert "CCDDEEFF"[..2] == "CC" && "CCDDEEFF"[2..] == "DDEEFF";
    assert Octets("CCDDEEFF") == "CC" + ":" + Octets("DDEEFF");
  }

  lemma OctetsOfFull()
    ensures Octets("AABBCCDDEEFF") == "AA:BB:CC:DD:EE:FF"
  {
    OctetsOfFullMiddle();
    assert "BBCCDDEEFF"[..2] == "BB" && "BBCCDDEEFF"[2..] == "CCDDEEFF";
    assert Octets("BBCCDDEEFF") == "BB" + ":" + Octets("CCDDEEFF");
    assert "AABBCCDDEEFF"[..2] == "AA" && "AABBCCDDEEFF"[2..] == "BBCCDDEEFF";
    assert Octets("AABBCCDDEEFF") == "AA" + ":" + Octets("BBCCDDEEFF");
  }

  lemma OctetsOfPaddedTail()
    ensures Octets("000000") == "00:00:00"
  {
    assert "0000"[..2] == "00" && "0000"[2..] == "00";
    assert Octets("0000") == "00" + ":" + Octets("00");
    assert "000000"[..2] == "00" && "000000"[2..] == "0000";
    assert Octets("000000") == "00" + ":" + Octets("0000");
  }

  lemma OctetsOfPaddedMiddle()
    ensures Octets("CC000000") == "CC:00:00:00"
  {
    OctetsOfPaddedTail();
    assert "CC000000"[..2] == "CC" && "CC000000"[2..] == "000000";
    assert Octets("CC000000") == "CC" + ":" + Octets("000000");
  }

  lemma OctetsOfPadded()
    ensures Octets("AABBCC000000") == "AA:BB:CC:00:00:00"
  {
    OctetsOfPaddedMiddle();
    assert "BBCC000000"[..2] == "BB" && "BBCC000000"[2..] == "CC000000";
    assert Octets("BBCC000000") == "BB" + ":" + Octets("CC000000");
    assert "AABBCC000000"[..2] == "AA" && "AABBCC000000"[2..] == "BBCC000000";
    assert Octets("AABBCC000000") == "AA" + ":" + Octets("BBCC000000");
  }

  lemma Pow2Of24()
    ensures Pow(2, 24) == 0x100_0000
  {
    Pow2Nibbles(6);
    assert Pow(16, 2) == 0x100;
    assert Pow(16, 4) == 0x1_0000;
    assert Pow(16, 6) == 0x100_0000;
  }

  lemma DecimalExamples()
    ensures DecimalText(48) == "48" && DecimalText(24) == "24"
    ensures ParseInt("24") == Some(24)
  {
    assert DecimalDigits(4) == "4" && DecimalDigits(2) == "2";
    assert "24"[1..] == "4" && "24"[..1] == "2" && "2"[..0] == "";
    assert IsDecimal("24");
    assert DecimalValue("2") == 2;
    assert DecimalValue("24") == 24;
  }

  lemma FullAddressAccepted()
    ensures ToMacRange("AABBCCDDEEFF") == Success(RangeOf("AABBCCDDEEFF", 48))
  {
    PlainPrefix("AABBCCDDEEFF");
    HexValueOfFull();
  }

  lemma FullAddressCidr()
    ensures RangeOf("AABBCCDDEEFF", 48).cidr == "AA:BB:CC:DD:EE:FF/48"
  {
    HexValueOfFull();
    RangeOfTwelve("AABBCCDDEEFF", 48);
    OctetsOfFull();
    DecimalExamples();
  }

  lemma FullAddressBounds()
    ensures RangeOf("AABBCCDDEEFF", 48).first == 0xaabbccddeeff
    ensures RangeOf("AABBCCDDEEFF", 48).last == 0xaabbccddeeff + 1
  {
    HexValueOfFull();
    RangeOfTwelve("AABBCCDDEEFF", 48);
    assert Pow(2, 0) == 1;
  }

  /** Twelve digits and no mask: a single MAC, mask 48. The prefix is longer than the
      ten digits the disabled length check would allow, and is still accepted. */
  lemma FullAddressExample()
    ensures |PrefixDigits("AABBCCDDEEFF")| > 10
    ensures ToMacRange("AABBCCDDEEFF")
         == Success(MacBounds("AA:BB:CC:DD:EE:FF/48", 0xaabbccddeeff, 0xaabbccddeeff + 1))
  {
    PlainPrefix("AABBCCDDEEFF");
    FullAddressAccepted();
    FullAddressCidr();
    FullAddressBounds();
  }

  lemma MaskedAccepted()
    ensures ToMacRange("AABBCC/24") == Success(RangeOf("AABBCC", 24))
  {
    MaskedParts();
    assert IsHex("AABBCC");
  }

  lemma MaskedParts()
    ensures PrefixDigits("AABBCC/24") == "AABBCC"
    ensures MaskOf("AABBCC/24") == Some(24)
  {
    assert "AABBCC" + "/" + "24" == "AABBCC/24";
    PlainPrefixWithMask("AABBCC", "24");
    DecimalExamples();
  }

  /** The padded prefix is what the range is computed from. */
  lemma MaskedPadded()
    ensures RangeOf("AABBCC", 24) == RangeOf("AABBCC000000", 24)
  {
    HexValueOfPadded();
    assert "AABBCC" + Zeros(6) == "AABBCC000000";
    assert "AABBCC000000" + Zeros(0) == "AABBCC000000";
  }

  lemma MaskedCidr()
    ensures RangeOf("AABBCC000000", 24).cidr == "AA:BB:CC:00:00:00/24"
  {
    HexValueOfPadded();
    RangeOfTwelve("AABBCC000000", 24);
    OctetsOfPadded();
    DecimalExamples();
  }

  lemma MaskedBounds()
    ensures RangeOf("AABBCC000000", 24).first == 0xaabbcc000000
    ensures RangeOf("AABBCC000000", 24).last == 0xaabbcc000000 + 0x100_0000
  {
    HexValueOfPadded();
    RangeOfTwelve("AABBCC000000", 24);
    Pow2Of24();
  }

  /** Six digits and an explicit 24-bit mask: the 2^24 MACs under `AA:BB:CC`. */
  lemma MaskedExample()
    ensures ToMacRange("AABBCC/24")
         == Success(MacBounds("AA:BB:CC:00:00:00/24", 0xaabbcc000000, 0xaabbcc000000 + 0x100_0000))
  {
    MaskedAccepted();
    MaskedPadded();
    MaskedCidr();
    MaskedBounds();
  }

  /** A short mask runs the range past the 48-bit space, as the shift at line 238 does:
      `AABBCC/0` starts at `0xaabbcc000000` and ends 2^48 later. */
  lemma ZeroMaskPassesSpace()
    ensures ToMacRange("AABBCC/0").Success?
    ensures ToMacRange("AABBCC/0").value.last > MacSpace
  {
    ZeroMaskAccepted();
    ZeroMaskEnd();
  }

  lemma ZeroMaskAccepted()
    ensures ToMacRange("AABBCC/0") == Success(RangeOf("AABBCC", 0))
  {
    ZeroMaskParts();
    assert IsHex("AABBCC");
  }

  lemma ZeroMaskParts()
    ensures PrefixDigits("AABBCC/0") == "AABBCC"
    ensures MaskOf("AABBCC/0") == Some(0)
  {
    assert "AABBCC" + "/" + "0" == "AABBCC/0";
    PlainPrefixWithMask("AABBCC", "0");
    assert IsDecimal("0") && DecimalValue("0") == 0;
  }

  lemma ZeroMaskEnd()
    ensures IsHex("AABBCC") && RangeOf("AABBCC", 0).last > MacSpace
  {
    HexValueOfSix();
    var r := RangeOf("AABBCC", 0);
    Pow2Nibbles(12);
    Pow16Digits();
    MulPositive(HexValue("AABBCC"), Pow(16, 6));
    assert r.last == r.first + MacSpace;
  }

  /** Thirteen digits and no mask: the derived mask is 52 and the shift is negative. */
  lemma OverlongPrefixExample()
    ensures ToMacRange("AABBCCDDEEFF0") == Failure(NegativeShift)
  {
    PlainPrefix("AABBCCDDEEFF0");
  }

  /** A digit that is not hexadecimal fails the parse. */
  lemma MalformedHexExample()
    ensures ToMacRange("AABBGG") == Failure(MalformedPrefix)
  {
    PlainPrefix("AABBGG");
    assert !IsHexDigit("AABBGG"[4]);
  }

  /** Mask text that `int` rejects. */
  lemma MalformedMaskExample()
    ensures ToMacRange("AABBCC/x") == Failure(MalformedMask)
  {
    MalformedMaskText();
  }

  lemma MalformedMaskText()
    ensures MaskOf("AABBCC/x") == None
  {
    assert "AABBCC" + "/" + "x" == "AABBCC/x";
    PlainPrefixWithMask("AABBCC", "x");
    assert ParseInt("x") == None;
  }
}
