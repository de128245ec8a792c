/**
 The DER encoder of src/features/github/config.ts, and a strict reader of the same format (X.690, sections
 8.1.3 and 10.1: definite lengths in the least number of octets).
 */
module Der {
  import opened Common
  import opened Bytes

  const WRAP: nat := 0x1_0000_0000

  // ----- length octets -----

  /** The value of octets written most significant first. */
  function BigEndian(s: seq<byte>): nat {
    if s == [] then 0 else BigEndian(s[..|s| - 1]) * 256 + s[|s| - 1]
  }

  /** `>>> 8` first takes its operand modulo 2^32. */
  function ShiftRight8(n: nat): nat {
    n % WRAP / 256
  }

  /** The octets that the loop of `derLength` puts in front of one another. */
  function LengthDigits(n: nat): (r: seq<byte>)
    ensures |r| <= 4
    ensures n < 0x100_0000 ==> |r| <= 3
    ensures n < 0x1_0000 ==> |r| <= 2
    ensures n < 0x100 ==> |r| <= 1
  {
    if n == 0 then [] else LengthDigits(ShiftRight8(n)) + [n % 256]
  }

  function LengthOctets(n: nat): (r: seq<byte>)
    ensures 1 <= |r| <= 5
  {
    if n < 0x80 then [n] else [0x80 + |LengthDigits(n)|] + LengthDigits(n)
  }

  method DerLength(length: nat) returns (octets: seq<byte>)
    ensures octets == LengthOctets(length)
  {
    if length < 0x80 {
      return [length];
    }
    var bytes: seq<byte> := [];
    var remaining := length;
    while remaining > 0
      invariant LengthDigits(length) == LengthDigits(remaining) + bytes
    {
      bytes := [remaining % 256] + bytes;
      remaining := ShiftRight8(remaining);
    }
    assert bytes == LengthDigits(length);
    return [0x80 + |bytes|] + bytes;
  }

  lemma {:induction false} FourOctetsBelowWrap(s: seq<byte>)
    requires |s| <= 4
    ensures BigEndian(s) < WRAP
    ensures |s| <= 3 ==> BigEndian(s) < 0x100_0000
    ensures |s| <= 2 ==> BigEndian(s) < 0x1_0000
    ensures |s| <= 1 ==> BigEndian(s) < 0x100
  {
    if s != [] {
      FourOctetsBelowWrap(s[..|s| - 1]);
    }
  }

  lemma ShiftBelowWrap(n: nat)
    requires n < WRAP
    ensures ShiftRight8(n) * 256 + n % 256 == n && ShiftRight8(n) < WRAP
  {
    assert n % WRAP == n;
  }

  /** Below 2^32 the octets have the value n, and the first of them is not zero. */
  lemma {:induction false} DigitsValue(n: nat)
    requires 0 < n < WRAP
    ensures LengthDigits(n) != [] && LengthDigits(n)[0] != 0
    ensures BigEndian(LengthDigits(n)) == n
  {
    var m, low := ShiftRight8(n), n % 256;
    var higher := LengthDigits(m);
    ShiftBelowWrap(n);
    assert LengthDigits(n) == higher + [low];
    BigEndianStep(higher, low);
    if m > 0 {
      DigitsValue(m);
    }
  }

  lemma BigEndianStep(s: seq<byte>, low: byte)
    ensures BigEndian(s + [low]) == BigEndian(s) * 256 + low
  {
    assert (s + [low])[..|s|] == s;
  }

  /** No octets with the value n are fewer, and none of them but these begins without a zero octet. */
  lemma {:induction false} LeastDigits(d: seq<byte>, n: nat)
    requires BigEndian(d) == n < WRAP
    ensures |LengthDigits(n)| <= |d|
    ensures d == [] || d[0] != 0 ==> d == LengthDigits(n)
  {
    if n == 0 {
      if d != [] && d[0] != 0 {
        LeadingDigit(d);
      }
    } else {
      ShiftBelowWrap(n);
      assert BigEndian(d[..|d| - 1]) == ShiftRight8(n);
      LeastDigits(d[..|d| - 1], ShiftRight8(n));
    }
  }

  lemma {:induction false} LeadingDigit(d: seq<byte>)
    requires d != [] && d[0] != 0
    ensures BigEndian(d) > 0
  {
    if |d| > 1 {
      LeadingDigit(d[..|d| - 1]);
    }
  }

  // ----- reading -----

  datatype Length = Length(value: nat, octets: nat)

  /** Section 8.1.3 with the restriction of section 10.1: no other octets for the same length are accepted. */
  function ReadLength(s: seq<byte>): Option<Length> {
    if s == [] then None
    else if s[0] < 0x80 then Some(Length(s[0], 1))
    else
      var k := s[0] - 0x80;
      if k == 0 || k == 0x7f || |s| < 1 + k || s[1] == 0 || BigEndian(s[1..1 + k]) < 0x80 then None
      else Some(Length(BigEndian(s[1..1 + k]), 1 + k))
  }

  datatype Element = Element(tag: byte, contents: seq<byte>)

  datatype Parsed = Parsed(element: Element, rest: seq<byte>)

  function ReadElement(s: seq<byte>): Option<Parsed> {
    if s == [] then None
    else
      match ReadLength(s[1..])
      case None => None
      case Some(l) =>
        var start := 1 + l.octets;
        if |s| < start + l.value then None
        else Some(Parsed(Element(s[0], s[start..start + l.value]), s[start + l.value..]))
  }

  /** The strict reader gets n back from `derLength(n)`, whatever follows, exactly when n is below 2^32. */
  lemma LengthReadsBack(n: nat, rest: seq<byte>)
    ensures ReadLength(LengthOctets(n) + rest) == Some(Length(n, |LengthOctets(n)|)) <==> n < WRAP
  {
    var s := LengthOctets(n) + rest;
    if n >= 0x80 {
      var digits := LengthDigits(n);
      assert s[1..1 + |digits|] == digits;
      if n < WRAP {
        DigitsValue(n);
        assert s[1] == digits[0];
      } else {
        FourOctetsBelowWrap(digits);
      }
    }
  }

  /** The strict reader accepts no other octets for a length: the encoding of `derLength` is the only one. */
  lemma OnlyLengthOctets(s: seq<byte>)
    requires ReadLength(s).Some? && ReadLength(s).value.value < WRAP
    ensures s[..ReadLength(s).value.octets] == LengthOctets(ReadLength(s).value.value)
  {
    if s[0] >= 0x80 {
      var k, n := s[0] - 0x80, ReadLength(s).value.value;
      var digits := s[1..1 + k];
      assert BigEndian(digits) == n >= 0x80 && digits[0] == s[1] != 0;
      LeastDigits(digits, n);
      assert s[..1 + k] == [s[0]] + digits;
    }
  }

  // ----- elements -----

  function ElementOctets(tag: byte, contents: seq<byte>): seq<byte> {
    [tag] + LengthOctets(|contents|) + contents
  }

  method DerElement(tag: byte, contents: seq<byte>) returns (element: array<byte>)
    ensures fresh(element) && element[..] == ElementOctets(tag, contents)
  {
    var length := DerLength(|contents|);
    element := new byte[1 + |length| + |contents|];
    element[0] := tag;
    forall i | 0 <= i < |length| {
      element[1 + i] := length[i];
    }
    forall i | 0 <= i < |contents| {
      element[1 + |length| + i] := contents[i];
    }
  }

  /** An element reads back, with nothing of what follows it, exactly when its contents are below 2^32 long. */
  lemma ElementReadsBack(tag: byte, contents: seq<byte>, rest: seq<byte>)
    ensures ReadElement(ElementOctets(tag, contents) + rest) == Some(Parsed(Element(tag, contents), rest))
       <==> |contents| < WRAP
  {
    var length := LengthOctets(|contents|);
    var s := ElementOctets(tag, contents) + rest;
    assert s[1..] == length + (contents + rest);
    LengthReadsBack(|contents|, contents + rest);
    if |contents| < WRAP {
      assert s[1 + |length|..1 + |length| + |contents|] == contents;
      assert s[1 + |length| + |contents|..] == rest;
    } else {
      ReadLengthIsBounded(length, contents + rest);
    }
  }

  /** What is read after `derLength` wrote its at most five octets is below 2^32. */
  lemma ReadLengthIsBounded(length: seq<byte>, rest: seq<byte>)
    requires exists n: nat :: length == LengthOctets(n)
    ensures ReadLength(length + rest).Some? ==> ReadLength(length + rest).value.value < WRAP
  {
    var n: nat :| length == LengthOctets(n);
    if n >= 0x80 {
      assert (length + rest)[1..|length|] == LengthDigits(n);
      FourOctetsBelowWrap(LengthDigits(n));
    }
  }
}
