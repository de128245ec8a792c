/** `btoa` and `atob` (the forgiving decoder), which src/features/github/config.ts wraps. */
module Base64 {
  import opened Common
  import opened Bytes

  type sextet = x: int | 0 <= x < 64

  function Digit(v: sextet): char {
    if v < 26 then ('A' as int + v) as char
    else if v < 52 then ('a' as int + v - 26) as char
    else if v < 62 then ('0' as int + v - 52) as char
    else if v == 62 then '+'
    else '/'
  }

  predicate IsDigit(c: char) {
    'A' <= c <= 'Z' || 'a' <= c <= 'z' || '0' <= c <= '9' || c == '+' || c == '/'
  }

  function Value(c: char): sextet
    requires IsDigit(c)
  {
    if 'A' <= c <= 'Z' then c as int - 'A' as int
    else if 'a' <= c <= 'z' then c as int - 'a' as int + 26
    else if '0' <= c <= '9' then c as int - '0' as int + 52
    else if c == '+' then 62
    else 63
  }

  lemma DigitValue(v: sextet)
    ensures IsDigit(Digit(v)) && Value(Digit(v)) == v
  {
  }

  /** Three octets become four sextets; one or two octets at the end, filled with zero bits, two or three. */
  function Sextets(b: seq<byte>): seq<sextet> {
    if b == [] then []
    else if |b| == 1 then Quad(b[0], 0, 0)[..2]
    else if |b| == 2 then Quad(b[0], b[1], 0)[..3]
    else Quad(b[0], b[1], b[2]) + Sextets(b[3..])
  }

  function Quad(x: byte, y: byte, z: byte): seq<sextet> {
    [x / 4, x % 4 * 16 + y / 16, y % 16 * 4 + z / 64, z % 64]
  }

  /** Only whole groups of four stand before the last group. */
  lemma {:induction false} SextetCount(b: seq<byte>)
    ensures |Sextets(b)| % 4 == if |b| % 3 == 0 then 0 else |b| % 3 + 1
  {
    if |b| >= 3 {
      SextetCount(b[3..]);
      WholeGroup(|b[3..]|, |Sextets(b[3..])|);
    }
  }

  lemma WholeGroup(octets: nat, sextets: nat)
    ensures (octets + 3) % 3 == octets % 3 && (4 + sextets) % 4 == sextets % 4
  {
  }

  /** Bits left over at the end are dropped. */
  function Octets(s: seq<sextet>): seq<byte>
    requires |s| % 4 != 1
  {
    if s == [] then []
    else if |s| == 2 then Triple(s[0], s[1], 0, 0)[..1]
    else if |s| == 3 then Triple(s[0], s[1], s[2], 0)[..2]
    else Triple(s[0], s[1], s[2], s[3]) + Octets(s[4..])
  }

  function Triple(s: sextet, t: sextet, u: sextet, v: sextet): seq<byte> {
    [s * 4 + t / 16, t % 16 * 16 + u / 4, u % 4 * 64 + v]
  }

  /** The number that digits stand for, the first being the most significant. */
  function Weighted(digits: seq<int>, base: int): int {
    if digits == [] then 0 else Weighted(digits[..|digits| - 1], base) * base + digits[|digits| - 1]
  }

  lemma FourWeighted(p: int, q: int, r: int, s: int, base: int)
    ensures Weighted([p, q, r, s], base) == ((p * base + q) * base + r) * base + s
    ensures Weighted([p, q, r], base) == (p * base + q) * base + r
  {
    assert [p, q, r, s][..3] == [p, q, r] && [p, q, r][..2] == [p, q] && [p, q][..1] == [p] && [p][..0] == [];
    assert Weighted([p], base) == p && Weighted([p, q], base) == p * base + q;
  }

  /** Four sextets are the same 24-bit number as three octets (section 4 of RFC 4648). */
  lemma QuadHasValue(x: byte, y: byte, z: byte)
    ensures var q := Quad(x, y, z); Weighted([q[0], q[1], q[2], q[3]], 64) == Weighted([x, y, z], 256)
  {
    var q := Quad(x, y, z);
    FourWeighted(q[0], q[1], q[2], q[3], 64);
    FourWeighted(x, y, z, 0, 256);
    assert x == 4 * (x / 4) + x % 4 && y == 16 * (y / 16) + y % 16 && z == 64 * (z / 64) + z % 64;
  }

  lemma TripleOfQuad(x: byte, y: byte, z: byte)
    ensures var q := Quad(x, y, z); Triple(q[0], q[1], q[2], q[3]) == [x, y, z]
  {
    assert (x % 4 * 16 + y / 16) / 16 == x % 4;
    assert (y % 16 * 4 + z / 64) / 4 == y % 16;
  }

  lemma {:induction false} SextetsReadBack(b: seq<byte>)
    ensures |Sextets(b)| % 4 != 1
    ensures Octets(Sextets(b)) == b
  {
    SextetCount(b);
    if |b| >= 3 {
      SextetsReadBack(b[3..]);
      TripleOfQuad(b[0], b[1], b[2]);
      assert Sextets(b)[4..] == Sextets(b[3..]);
      assert b == [b[0], b[1], b[2]] + b[3..];
    } else if |b| > 0 {
      TripleOfQuad(b[0], if |b| == 2 then b[1] else 0, 0);
    }
  }

  predicate AllDigits(s: string) {
    forall i :: 0 <= i < |s| ==> IsDigit(s[i])
  }

  function Digits(s: seq<sextet>): string {
    seq(|s|, i requires 0 <= i < |s| => Digit(s[i]))
  }

  function Values(s: string): seq<sextet>
    requires AllDigits(s)
  {
    seq(|s|, i requires 0 <= i < |s| => Value(s[i]))
  }

  lemma ValuesOfDigits(s: seq<sextet>)
    ensures AllDigits(Digits(s)) && Values(Digits(s)) == s
  {
    forall v: sextet ensures IsDigit(Digit(v)) && Value(Digit(v)) == v {
      DigitValue(v);
    }
  }

  /** The padding after the digits of that many octets. */
  function Padding(n: nat): string {
    if n % 3 == 0 then "" else if n % 3 == 1 then "==" else "="
  }

  function Btoa(b: seq<byte>): string {
    Digits(Sextets(b)) + Padding(|b|)
  }

  function Unpad(s: string): string {
    if |s| % 4 != 0 || s == "" || s[|s| - 1] != '=' then s
    else if s[|s| - 2] != '=' then s[..|s| - 1]
    else s[..|s| - 2]
  }

  /** `atob` on a string without white space; `None` where it throws. */
  function Atob(s: string): Option<seq<byte>> {
    var t := Unpad(s);
    if |t| % 4 == 1 || !AllDigits(t) then None else Some(Octets(Values(t)))
  }

  lemma PaddingIsEquals(n: nat)
    ensures |Padding(n)| == (if n % 3 == 0 then 0 else 3 - n % 3) && forall c :: c in Padding(n) ==> c == '='
  {
  }

  lemma UnpadPadded(d: string, n: nat)
    requires AllDigits(d) && |d| % 4 == if n % 3 == 0 then 0 else n % 3 + 1
    ensures Unpad(d + Padding(n)) == d
  {
    var p := Padding(n);
    var s := d + p;
    assert s[..|d|] == d;
    if d == "" {
      assert s == "";
    } else {
      assert IsDigit(s[|d| - 1]) && s[|d| - 1] != '=';
      PaddingIsEquals(n);
      assert forall i :: |d| <= i < |s| ==> s[i] == p[i - |d|];
    }
  }

  /** `atob` undoes `btoa` for every byte string. */
  lemma AtobOfBtoa(b: seq<byte>)
    ensures Atob(Btoa(b)) == Some(b)
  {
    SextetCount(b);
    SextetsReadBack(b);
    ValuesOfDigits(Sextets(b));
    UnpadPadded(Digits(Sextets(b)), |b|);
  }

  const CHUNK: nat := 0x8000

  /** The bytes become a binary string in chunks of 0x8000, so that no call has too many arguments. */
  method EncodeBase64(value: seq<byte>) returns (encoded: string)
    ensures encoded == Btoa(value)
  {
    var binary: seq<byte> := [];
    var index := 0;
    while index < |value|
      invariant binary == if index < |value| then value[..index] else value
      decreases |value| - index
    {
      var end := if index + CHUNK < |value| then index + CHUNK else |value|;
      assert value[..index] + value[index..end] == value[..end];
      binary := binary + value[index..end];
      index := index + CHUNK;
    }
    encoded := Btoa(binary);
  }

  method DecodeBase64(value: string) returns (bytes: Option<seq<byte>>)
    ensures bytes == Atob(value)
  {
    var decoded := Atob(value);
    if decoded.None? {
      return None;
    }
    var binary := decoded.value;
    var buffer := new byte[|binary|];
    for index := 0 to |binary|
      invariant buffer[..index] == binary[..index]
    {
      buffer[index] := binary[index];
    }
    assert buffer[..] == buffer[..|binary|] && binary == binary[..|binary|];
    bytes := Some(buffer[..]);
  }
}
