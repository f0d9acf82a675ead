/** The string operations the range codec relies on: Python's `str.split`
    and `str.replace(c, '')` for one character, `int(s, 16)`, `int(s)` and
    `str(n)`, each with the round trip that makes it usable. */
module Text {
  import opened Common

  // ---------------------------------------------------------------------
  // Splitting on one separator character (`s.split(sep)`)
  // ---------------------------------------------------------------------

  /** The pieces of `s` between occurrences of `sep`, in order; like Python,
      an empty string gives one empty piece. */
  function Split(s: string, sep: char): (parts: seq<string>)
    ensures |parts| >= 1
    decreases |s|
  {
    if |s| == 0 then [""]
    else
      var rest := Split(s[1..], sep);
      if s[0] == sep then [""] + rest
      else [[s[0]] + rest[0]] + rest[1..]
  }

  /** No piece contains the separator. */
  lemma {:induction false} SplitPiecesHaveNoSeparator(s: string, sep: char)
    ensures forall i :: 0 <= i < |Split(s, sep)| ==> sep !in Split(s, sep)[i]
    decreases |s|
  {
    if |s| > 0 {
      SplitPiecesHaveNoSeparator(s[1..], sep);
    }
  }

  /** `sep.join(parts)`: the inverse of Split. */
  function Join(parts: seq<string>, sep: char): string
    decreases |parts|
  {
    if |parts| == 0 then ""
    else if |parts| == 1 then parts[0]
    else parts[0] + [sep] + Join(parts[1..], sep)
  }

  lemma JoinCons(c: char, p: seq<string>, sep: char)
    requires |p| >= 1
    ensures Join([[c] + p[0]] + p[1..], sep) == [c] + Join(p, sep)
  {
    var q := [[c] + p[0]] + p[1..];
    assert q[1..] == p[1..];
  }

  /** Joining the pieces again gives back the original string. */
  lemma {:induction false} JoinSplit(s: string, sep: char)
    ensures Join(Split(s, sep), sep) == s
    decreases |s|
  {
    if |s| > 0 {
      JoinSplit(s[1..], sep);
      var rest := Split(s[1..], sep);
      if s[0] == sep {
        assert ([""] + rest)[1..] == rest;
        assert s == [sep] + s[1..];
      } else {
        JoinCons(s[0], rest, sep);
        assert s == [s[0]] + s[1..];
      }
    }
  }

  /** A string without the separator is one piece. */
  lemma {:induction false} SplitWithoutSeparator(a: string, sep: char)
    requires sep !in a
    ensures Split(a, sep) == [a]
    decreases |a|
  {
    if |a| > 0 {
      assert sep !in a[1..];
      SplitWithoutSeparator(a[1..], sep);
      assert [a[0]] + a[1..] == a;
    }
  }

  /** Splitting `a + sep + b`, where `a` has no separator, gives `a` and then the pieces of `b`. */
  lemma {:induction false} SplitAtFirstSeparator(a: string, sep: char, b: string)
    requires sep !in a
    ensures Split(a + [sep] + b, sep) == [a] + Split(b, sep)
    decreases |a|
  {
    var s := a + [sep] + b;
    if |a| == 0 {
      assert s[1..] == b;
    } else {
      assert s[1..] == a[1..] + [sep] + b;
      assert sep !in a[1..];
      SplitAtFirstSeparator(a[1..], sep, b);
      assert [a[0]] + a[1..] == a;
    }
  }

  // ---------------------------------------------------------------------
  // Deleting one character (`s.replace(c, '')`)
  // ---------------------------------------------------------------------

  /** `s` with every occurrence of `c` removed, the rest in order. */
  function DeleteChar(s: string, c: char): (r: string)
    ensures c !in r
    ensures |r| <= |s|
    decreases |s|
  {
    if |s| == 0 then ""
    else if s[0] == c then DeleteChar(s[1..], c)
    else [s[0]] + DeleteChar(s[1..], c)
  }

  lemma {:induction false} DeleteCharAbsent(s: string, c: char)
    requires c !in s
    ensures DeleteChar(s, c) == s
    decreases |s|
  {
    if |s| > 0 {
      assert c !in s[1..];
      DeleteCharAbsent(s[1..], c);
      assert [s[0]] + s[1..] == s;
    }
  }

  /** Deleting keeps every other character and adds none. */
  lemma {:induction false} DeleteCharMembers(s: string, c: char, x: char)
    ensures x in DeleteChar(s, c) <==> x in s && x != c
    decreases |s|
  {
    if |s| > 0 {
      DeleteCharMembers(s[1..], c, x);
      assert s == [s[0]] + s[1..];
    }
  }

  lemma {:induction false} DeleteCharConcat(a: string, b: string, c: char)
    ensures DeleteChar(a + b, c) == DeleteChar(a, c) + DeleteChar(b, c)
    decreases |a|
  {
    if |a| > 0 {
      assert (a + b)[1..] == a[1..] + b;
      DeleteCharConcat(a[1..], b, c);
    } else {
      assert a + b == b;
    }
  }

  // ---------------------------------------------------------------------
  // Hexadecimal (`int(s, 16)` on plain digit strings)
  // ---------------------------------------------------------------------

  predicate IsHexDigit(c: char)
  {
    ('0' <= c <= '9') || ('a' <= c <= 'f') || ('A' <= c <= 'F')
  }

  predicate IsHex(s: string)
  {
    forall i :: 0 <= i < |s| ==> IsHexDigit(s[i])
  }

  function HexDigitValue(c: char): (v: nat)
    requires IsHexDigit(c)
    ensures v < 16
  {
    if '0' <= c <= '9' then c as nat - '0' as nat
    else if 'a' <= c <= 'f' then c as nat - 'a' as nat + 10
    else c as nat - 'A' as nat + 10
  }

  /** The value of a big-endian string of hex digits (`int(s, 16)`); it fits its digit
      count. */
  function HexValue(s: string): (v: nat)
    requires IsHex(s)
    ensures v < Pow(16, |s|)
    decreases |s|
  {
    if |s| == 0 then 0
    else
      var h := HexValue(s[..|s| - 1]);
      var d := HexDigitValue(s[|s| - 1]);
      HexStep(h, d, Pow(16, |s| - 1));
      h * 16 + d
  }

  /** One more digit: a value below `p` followed by a digit is below `16 * p`. */
  lemma HexStep(h: nat, d: nat, p: nat)
    requires h < p && d < 16
    ensures h * 16 + d < p * 16
  {
    assert (h + 1) * 16 <= p * 16;
  }

  /** `n` zero digits (`"0" * n`). */
  function Zeros(n: nat): (z: string)
    ensures |z| == n && IsHex(z)
  {
    seq(n, _ => '0')
  }

  /** Right-padding with zero digits multiplies the value by the place value of the padding. */
  lemma {:induction false} HexValuePadded(s: string, n: nat)
    requires IsHex(s)
    ensures IsHex(s + Zeros(n))
    ensures HexValue(s + Zeros(n)) == HexValue(s) * Pow(16, n)
    decreases n
  {
    var t := s + Zeros(n);
    PaddedIsHex(s, n);
    if n > 0 {
      var shorter := s + Zeros(n - 1);
      PaddedIsHex(s, n - 1);
      HexValuePadded(s, n - 1);
      assert t[..|t| - 1] == shorter;
      assert t[|t| - 1] == '0';
      var a, p := HexValue(s), Pow(16, n - 1);
      assert HexValue(t) == HexValue(shorter) * 16;
      assert HexValue(shorter) == a * p;
      MulAssoc(a, p, 16);
      assert Pow(16, n) == 16 * p;
    } else {
      assert t == s;
    }
  }

  lemma PaddedIsHex(s: string, n: nat)
    requires IsHex(s)
    ensures IsHex(s + Zeros(n))
  {
    var t := s + Zeros(n);
    forall i | 0 <= i < |t| ensures IsHexDigit(t[i]) {
      if i >= |s| { assert t[i] == Zeros(n)[i - |s|]; }
    }
  }

  lemma MulAssoc(a: nat, b: nat, c: nat)
    ensures a * b * c == a * (c * b)
  {
  }

  /** The upper-case form of a hex digit; other characters are left alone. */
  function UpperHexDigit(c: char): (u: char)
    ensures IsHexDigit(c) ==> IsHexDigit(u) && HexDigitValue(u) == HexDigitValue(c)
    ensures !('a' <= u <= 'z')  || u == c
  {
    if 'a' <= c <= 'f' then (c as int - 'a' as int + 'A' as int) as char else c
  }

  /** Hex digits in upper case, as netaddr's default EUI-48 dialect prints them. */
  function UpperHex(s: string): (u: string)
  {
    seq(|s|, i requires 0 <= i < |s| => UpperHexDigit(s[i]))
  }

  /** Upper-casing keeps a digit string's value and is idempotent. */
  lemma {:induction false} UpperHexValue(s: string)
    requires IsHex(s)
    ensures IsHex(UpperHex(s))
    ensures HexValue(UpperHex(s)) == HexValue(s)
    ensures UpperHex(UpperHex(s)) == UpperHex(s)
    decreases |s|
  {
    if |s| > 0 {
      var p := s[..|s| - 1];
      UpperHexValue(p);
      assert UpperHex(s)[..|s| - 1] == UpperHex(p);
    }
  }

  /** The digits in pairs joined by ':' (`AABBCC` becomes `AA:BB:CC`). */
  function Octets(h: string): string
    decreases |h|
  {
    if |h| <= 2 then h else h[..2] + ":" + Octets(h[2..])
  }

  /** Pairing adds only colons. */
  lemma {:induction false} OctetsMembers(h: string, x: char)
    requires x in Octets(h)
    ensures x in h || x == ':'
    decreases |h|
  {
    if |h| > 2 {
      if x in Octets(h[2..]) {
        OctetsMembers(h[2..], x);
      }
    }
  }

  /** Deleting the colons from a paired digit string gives back the digits. */
  lemma {:induction false} OctetsDeleteColons(h: string)
    requires ':' !in h
    ensures DeleteChar(Octets(h), ':') == h
    decreases |h|
  {
    if |h| <= 2 {
      DeleteCharAbsent(h, ':');
    } else {
      assert ':' !in h[2..];
      OctetsDeleteColons(h[2..]);
      DeleteCharAbsent(h[..2], ':');
      DeleteCharConcat(h[..2], ":" + Octets(h[2..]), ':');
      DeleteCharConcat(":", Octets(h[2..]), ':');
      assert h[..2] + ":" + Octets(h[2..]) == h[..2] + (":" + Octets(h[2..]));
      assert h[..2] + h[2..] == h;
    }
  }

  // ---------------------------------------------------------------------
  // Decimal (`int(s)` and `str(n)` on plain signed digit strings)
  // ---------------------------------------------------------------------

  predicate IsDecimal(s: string)
  {
    |s| > 0 && forall i :: 0 <= i < |s| ==> '0' <= s[i] <= '9'
  }

  function DecimalValue(s: string): (v: nat)
    requires forall i :: 0 <= i < |s| ==> '0' <= s[i] <= '9'
    decreases |s|
  {
    if |s| == 0 then 0
    else DecimalValue(s[..|s| - 1]) * 10 + (s[|s| - 1] as nat - '0' as nat)
  }

  /** `int(s)` for an optionally signed string of decimal digits, None when Python would raise. */
  function ParseInt(s: string): (r: Option<int>)
    ensures r.Some? ==> |s| > 0
  {
    if |s| > 0 && (s[0] == '-' || s[0] == '+') then
      if IsDecimal(s[1..]) then
        var magnitude: int := DecimalValue(s[1..]);
        Some(if s[0] == '-' then -magnitude else magnitude)
      else None
    else if IsDecimal(s) then Some(DecimalValue(s))
    else None
  }

  function DigitChar(d: nat): (c: char)
    requires d < 10
    ensures '0' <= c <= '9' && c as nat - '0' as nat == d
  {
    ('0' as int + d) as char
  }

  /** The shortest decimal digits of `n`. */
  function DecimalDigits(n: nat): (s: string)
    ensures IsDecimal(s)
    decreases n
  {
    if n < 10 then [DigitChar(n)] else DecimalDigits(n / 10) + [DigitChar(n % 10)]
  }

  /** `str(m)` for an integer. */
  function DecimalText(m: int): (s: string)
    ensures '/' !in s && ':' !in s
  {
    if m < 0 then "-" + DecimalDigits(-m) else DecimalDigits(m)
  }

  lemma {:induction false} DecimalDigitsValue(n: nat)
    ensures DecimalValue(DecimalDigits(n)) == n
    decreases n
  {
    if n >= 10 {
      DecimalDigitsValue(n / 10);
      var s := DecimalDigits(n);
      assert s[..|s| - 1] == DecimalDigits(n / 10);
    }
  }

  /** `int(str(m)) == m`. */
  lemma {:induction false} ParseDecimalText(m: int)
    ensures ParseInt(DecimalText(m)) == Some(m)
  {
    if m < 0 {
      DecimalDigitsValue(-m);
      assert DecimalText(m)[1..] == DecimalDigits(-m);
    } else {
      DecimalDigitsValue(m);
    }
  }
}
