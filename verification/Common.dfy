/** Small datatypes shared by the component models. */
module Common {

  /** A value that may be absent: the source's `null` and `undefined`. */
  datatype Option<+T> = None | Some(value: T)

  /** A returned value, or the code of the error the source throws. */
  datatype Result<+T, +E> = Ok(value: T) | Err(error: E)

  /** No element occurs twice. */
  ghost predicate Distinct<T>(s: seq<T>) {
    forall i, j :: 0 <= i < j < |s| ==> s[i] != s[j]
  }

  /** A prefix grows by one element. */
  lemma PrefixStep<T>(s: seq<T>, i: nat)
    requires i < |s|
    ensures s[..i + 1] == s[..i] + [s[i]]
  {
  }

  lemma FullPrefix<T>(s: seq<T>)
    ensures s[..|s|] == s
  {
  }

  lemma Associates<T>(a: seq<T>, b: seq<T>, c: seq<T>)
    ensures a + b + c == a + (b + c)
  {
  }

  /** `p` stands at position `i`. */
  predicate Occurs<T(==)>(s: seq<T>, p: seq<T>, i: nat) {
    i + |p| <= |s| && s[i..i + |p|] == p
  }

  /** `indexOf`, from position `i` on. */
  function IndexFrom<T(==)>(s: seq<T>, p: seq<T>, i: nat): (r: Option<nat>)
    ensures r.Some? ==> i <= r.value && Occurs(s, p, r.value)
    ensures r.Some? ==> forall k: nat :: i <= k < r.value ==> !Occurs(s, p, k)
    ensures r.None? ==> forall k: nat :: i <= k ==> !Occurs(s, p, k)
    decreases |s| - i
  {
    if i + |p| > |s| then None
    else if Occurs(s, p, i) then Some(i)
    else IndexFrom(s, p, i + 1)
  }

  /** White space as `\s` and `trim` understand it. */
  predicate IsSpace(c: char) {
    '\t' <= c <= '\r' || c == ' ' || c == '\U{a0}' || c == '\U{1680}' || '\U{2000}' <= c <= '\U{200a}'
    || c in "\U{2028}\U{2029}\U{202f}\U{205f}\U{3000}\U{feff}"
  }

  /** `join(separator)`. */
  function Joined<T>(parts: seq<seq<T>>, separator: seq<T>): seq<T> {
    if parts == [] then [] else if |parts| == 1 then parts[0] else parts[0] + separator + Joined(parts[1..], separator)
  }

  /** The parts one after the other. */
  function Flatten<T>(parts: seq<seq<T>>): seq<T> {
    if parts == [] then [] else Flatten(parts[..|parts| - 1]) + parts[|parts| - 1]
  }

  /** A number as it stands in a string. */
  function Decimal(n: nat): string {
    if n < 10 then [('0' as int + n) as char] else Decimal(n / 10) + [('0' as int + n % 10) as char]
  }

  lemma {:induction false} DecimalDigits(n: nat)
    ensures Decimal(n) != "" && forall i :: 0 <= i < |Decimal(n)| ==> '0' <= Decimal(n)[i] <= '9'
  {
    if n >= 10 {
      DecimalDigits(n / 10);
    }
  }

  lemma {:induction false} DecimalInjective(m: nat, n: nat)
    requires Decimal(m) == Decimal(n)
    ensures m == n
  {
    var s, t := Decimal(m), Decimal(n);
    assert s[|s| - 1] == t[|t| - 1];
    if m >= 10 {
      DecimalDigits(m / 10);
    }
    if n >= 10 {
      DecimalDigits(n / 10);
    }
    if m >= 10 && n >= 10 {
      assert s[..|s| - 1] == Decimal(m / 10) && t[..|t| - 1] == Decimal(n / 10);
      DecimalInjective(m / 10, n / 10);
    }
  }
}
