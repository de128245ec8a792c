/**
 Relative and elapsed time labels, and when they next change (src/components/shared/time-format.ts). Times are
 whole milliseconds; a timestamp that does not parse is not modelled here: its label never changes.
 */
module TimeFormat {
  import opened Common

  const MINUTE_MS: int := 60_000
  const HOUR_MS: int := 60 * MINUTE_MS
  const DAY_MS: int := 24 * HOUR_MS

  function Max(a: int, b: int): int {
    if a < b then b else a
  }

  // ----- relative labels -----

  function FormatRelative(thenMs: int, nowMs: int): string {
    var age := Max(0, nowMs - thenMs);
    if age < MINUTE_MS then "just now"
    else if age < HOUR_MS then Decimal(age / MINUTE_MS) + "m ago"
    else if age < DAY_MS then Decimal(age / HOUR_MS) + "h ago"
    else Decimal(age / DAY_MS) + "d ago"
  }

  function NextRelativeUpdateDelay(thenMs: int, nowMs: int): int {
    var age := Max(0, nowMs - thenMs);
    var unit := if age < HOUR_MS then MINUTE_MS else if age < DAY_MS then HOUR_MS else DAY_MS;
    Max(1, thenMs + (age / unit + 1) * unit - nowMs)
  }

  /** The unit of a label and its count; `n` is 0 for "just now". */
  datatype Label = Label(unit: char, n: nat)

  function LabelOf(age: nat): Label {
    if age < HOUR_MS then Label('m', age / MINUTE_MS)
    else if age < DAY_MS then Label('h', age / HOUR_MS)
    else Label('d', age / DAY_MS)
  }

  function Text(l: Label): string {
    if l == Label('m', 0) then "just now" else Decimal(l.n) + [l.unit] + " ago"
  }

  lemma RelativeText(thenMs: int, nowMs: int)
    ensures FormatRelative(thenMs, nowMs) == Text(LabelOf(Max(0, nowMs - thenMs)))
  {
  }

  function UnitMs(unit: char): int {
    if unit == 'm' then MINUTE_MS else if unit == 'h' then HOUR_MS else DAY_MS
  }

  /** The label says how many whole units have passed, in the largest unit of which one has; future times have age 0. */
  lemma RelativeLabelSays(thenMs: int, nowMs: int) returns (l: Label)
    ensures var age := Max(0, nowMs - thenMs);
      && FormatRelative(thenMs, nowMs) == Text(l)
      && l.n * UnitMs(l.unit) <= age < (l.n + 1) * UnitMs(l.unit)
      && l.unit == (if age >= DAY_MS then 'd' else if age >= HOUR_MS then 'h' else 'm')
  {
    var age := Max(0, nowMs - thenMs);
    RelativeText(thenMs, nowMs);
    l := LabelOf(age);
    assert UnitMs(l.unit) == UnitOf(age) && l.n == age / UnitOf(age);
  }

  lemma JustNowDiffers(l: Label)
    requires l != Label('m', 0)
    ensures Text(l) != "just now"
  {
    DecimalDigits(l.n);
    assert Text(l)[0] == Decimal(l.n)[0];
  }

  /** Different labels have different texts. */
  lemma TextInjective(x: Label, y: Label)
    requires Text(x) == Text(y)
    ensures x == y
  {
    if x != Label('m', 0) && y != Label('m', 0) {
      var s, t := Text(x), Text(y);
      assert s[|s| - 5] == x.unit && t[|t| - 5] == y.unit;
      assert s[..|s| - 5] == Decimal(x.n) && t[..|t| - 5] == Decimal(y.n);
      DecimalInjective(x.n, y.n);
    } else if x != Label('m', 0) {
      JustNowDiffers(x);
    } else if y != Label('m', 0) {
      JustNowDiffers(y);
    }
  }

  lemma QuotientIs(a: int, unit: int, q: int)
    requires unit in {1000, MINUTE_MS, HOUR_MS, DAY_MS} && q * unit <= a < q * unit + unit
    ensures a / unit == q
  {
    if unit == 1000 {
    } else if unit == MINUTE_MS {
    } else if unit == HOUR_MS {
    } else {
    }
  }

  /** A count stays until the next multiple of its unit. */
  lemma CountStays(age: int, unit: int, later: int)
    requires unit in {1000, MINUTE_MS, HOUR_MS, DAY_MS} && 0 <= age <= later < (age / unit + 1) * unit
    ensures later / unit == age / unit
  {
    assert age == age / unit * unit + age % unit;
    QuotientIs(later, unit, age / unit);
  }

  function UnitOf(age: nat): int {
    if age < HOUR_MS then MINUTE_MS else if age < DAY_MS then HOUR_MS else DAY_MS
  }

  function Boundary(age: nat): int {
    (age / UnitOf(age) + 1) * UnitOf(age)
  }

  /** Until the boundary the label of an age stays; at the boundary it is another one, also between units. */
  lemma LabelChangesAtBoundary(age: nat, later: nat)
    requires age <= later
    ensures age < Boundary(age)
    ensures later < Boundary(age) ==> LabelOf(later) == LabelOf(age)
    ensures later == Boundary(age) ==> LabelOf(later) != LabelOf(age)
  {
    var unit := UnitOf(age);
    assert age == age / unit * unit + age % unit;
    if later < Boundary(age) {
      CountStays(age, unit, later);
      UnitBoundary(age);
    } else if later == Boundary(age) {
      QuotientIs(later, unit, age / unit + 1);
    }
  }

  /** A boundary does not lie beyond the end of its unit's range. */
  lemma UnitBoundary(age: nat)
    ensures age < HOUR_MS ==> Boundary(age) <= HOUR_MS
    ensures HOUR_MS <= age < DAY_MS ==> Boundary(age) <= DAY_MS
  {
  }

  /**
   The relative label stays for exactly the delay: it is the same at every moment before now + delay and another
   one then, for past and future timestamps alike.
   */
  lemma RelativeLabelHolds(thenMs: int, nowMs: int, at: int)
    requires nowMs <= at
    ensures var delay := NextRelativeUpdateDelay(thenMs, nowMs);
      && delay >= 1
      && (at < nowMs + delay ==> FormatRelative(thenMs, at) == FormatRelative(thenMs, nowMs))
      && (at == nowMs + delay ==> FormatRelative(thenMs, at) != FormatRelative(thenMs, nowMs))
  {
    var age, later := Max(0, nowMs - thenMs), Max(0, at - thenMs);
    LabelChangesAtBoundary(age, later);
    RelativeText(thenMs, nowMs);
    RelativeText(thenMs, at);
    assert NextRelativeUpdateDelay(thenMs, nowMs) == thenMs + Boundary(age) - nowMs;
    if at == thenMs + Boundary(age) && FormatRelative(thenMs, at) == FormatRelative(thenMs, nowMs) {
      TextInjective(LabelOf(age), LabelOf(later));
    }
  }

  // ----- elapsed labels -----

  function TotalSeconds(startMs: int, endMs: int): nat {
    Max(0, (endMs - startMs) / 1000)
  }

  function FormatElapsed(startMs: int, endMs: int): string {
    ElapsedText(TotalSeconds(startMs, endMs))
  }

  function ElapsedText(totalSeconds: nat): string {
    var seconds := totalSeconds % 60;
    var totalMinutes := totalSeconds / 60;
    var minutes := totalMinutes % 60;
    var hours := totalMinutes / 60;
    ClockText(seconds, minutes, hours)
  }

  function ClockText(seconds: nat, minutes: nat, hours: nat): string {
    if hours > 0 then Decimal(hours) + "h " + Decimal(minutes) + "m"
    else if minutes > 0 then Decimal(minutes) + "m " + Decimal(seconds) + "s"
    else Decimal(seconds) + "s"
  }

  function NextElapsedUpdateDelay(startMs: int, nowMs: int): int {
    1000 - Max(0, nowMs - startMs) % 1000
  }

  function UnitSeconds(unit: char): nat {
    if unit == 'h' then 3600 else if unit == 'm' then 60 else 1
  }

  /** Counts with their units, as a label shows them and as they add up. */
  function Show(parts: seq<(nat, char)>): string {
    if parts == [] then ""
    else Decimal(parts[0].0) + [parts[0].1] + if |parts| == 1 then "" else " " + Show(parts[1..])
  }

  function TotalOf(parts: seq<(nat, char)>): nat {
    if parts == [] then 0 else parts[0].0 * UnitSeconds(parts[0].1) + TotalOf(parts[1..])
  }

  lemma ShowTwo(n: nat, u: char, m: nat, v: char)
    ensures Show([(n, u), (m, v)]) == Decimal(n) + [u] + " " + Decimal(m) + [v]
  {
    var first, second := Decimal(n) + [u], Decimal(m) + [v];
    assert [(n, u), (m, v)][1..] == [(m, v)];
    assert Show([(m, v)]) == second;
    assert first + (" " + second) == first + " " + Decimal(m) + [v];
  }

  lemma TotalOfTwo(n: nat, u: char, m: nat, v: char)
    ensures TotalOf([(n, u), (m, v)]) == n * UnitSeconds(u) + m * UnitSeconds(v)
  {
    assert [(n, u), (m, v)][1..] == [(m, v)] && [(m, v)][1..] == [];
    assert TotalOf([(m, v)]) == m * UnitSeconds(v) + TotalOf([(m, v)][1..]);
  }

  /** The counts of a label: hours and minutes, or minutes and seconds, or seconds, each below 60 but the hours. */
  ghost predicate Counts(parts: seq<(nat, char)>) {
    || (exists s: nat :: s < 60 && parts == [(s, 's')])
    || (exists m: nat, s: nat :: 1 <= m < 60 && s < 60 && parts == [(m, 'm'), (s, 's')])
    || (exists h: nat, m: nat :: 1 <= h && m < 60 && parts == [(h, 'h'), (m, 'm')])
  }

  lemma ClockShows(seconds: nat, minutes: nat, hours: nat) returns (parts: seq<(nat, char)>)
    requires seconds < 60 && minutes < 60
    ensures ClockText(seconds, minutes, hours) == Show(parts) && Counts(parts)
    ensures TotalOf(parts) == if hours > 0 then hours * 3600 + minutes * 60 else minutes * 60 + seconds
  {
    if hours > 0 {
      parts := [(hours, 'h'), (minutes, 'm')];
      ShowTwo(hours, 'h', minutes, 'm');
      TotalOfTwo(hours, 'h', minutes, 'm');
      assert Decimal(hours) + "h " + Decimal(minutes) + "m" == Decimal(hours) + ['h'] + " " + Decimal(minutes) + ['m'];
    } else if minutes > 0 {
      parts := [(minutes, 'm'), (seconds, 's')];
      ShowTwo(minutes, 'm', seconds, 's');
      TotalOfTwo(minutes, 'm', seconds, 's');
      assert Decimal(minutes) + "m " + Decimal(seconds) + "s"
             == Decimal(minutes) + ['m'] + " " + Decimal(seconds) + ['s'];
    } else {
      parts := [(seconds, 's')];
    }
  }

  /** The shown counts add up to the whole elapsed seconds, or, from one hour on, to the whole minutes among them. */
  lemma ElapsedLabelSays(startMs: int, endMs: int) returns (parts: seq<(nat, char)>, whole: nat)
    ensures FormatElapsed(startMs, endMs) == Show(parts) && Counts(parts)
    ensures endMs <= startMs ==> whole == 0
    ensures endMs > startMs ==> 1000 * whole <= endMs - startMs < 1000 * (whole + 1)
    ensures TotalOf(parts) == if whole < 3600 then whole else whole - whole % 60
  {
    whole := TotalSeconds(startMs, endMs);
    parts := ClockShows(whole % 60, whole / 60 % 60, whole / 60 / 60);
  }

  /** The elapsed label stays for the whole delay, which ends with the next whole second. */
  lemma ElapsedLabelHolds(startMs: int, nowMs: int, at: int)
    requires nowMs <= at < nowMs + NextElapsedUpdateDelay(startMs, nowMs)
    ensures 1 <= NextElapsedUpdateDelay(startMs, nowMs) <= 1000
    ensures nowMs >= startMs ==> (nowMs + NextElapsedUpdateDelay(startMs, nowMs) - startMs) % 1000 == 0
    ensures FormatElapsed(startMs, at) == FormatElapsed(startMs, nowMs)
  {
    var elapsed, later := nowMs - startMs, at - startMs;
    if elapsed >= 0 {
      CountStays(elapsed, 1000, later);
    }
  }

  /** Within the first hour the label changes when the delay is over. */
  lemma ElapsedLabelChanges(startMs: int, nowMs: int)
    requires startMs <= nowMs < startMs + 3_600_000
    ensures FormatElapsed(startMs, nowMs + NextElapsedUpdateDelay(startMs, nowMs)) != FormatElapsed(startMs, nowMs)
  {
    var next := nowMs + NextElapsedUpdateDelay(startMs, nowMs);
    var x, y := TotalSeconds(startMs, nowMs), TotalSeconds(startMs, next);
    assert x < 3600 && y == x + 1;
    if ElapsedText(x) == ElapsedText(y) {
      ElapsedTellsSeconds(x, y);
    }
  }

  /** The part of a label before its first unit letter. */
  lemma FirstLetter(n: nat, m: nat, u: char, v: char, tail: string, other: string)
    requires !('0' <= u <= '9') && !('0' <= v <= '9')
    requires Decimal(n) + [u] + tail == Decimal(m) + [v] + other
    ensures n == m && u == v && tail == other
  {
    var s, i, j := Decimal(n) + [u] + tail, |Decimal(n)|, |Decimal(m)|;
    DecimalDigits(n);
    DecimalDigits(m);
    assert s[i] == u && s[j] == v;
    assert forall k :: 0 <= k < i ==> s[k] == Decimal(n)[k];
    assert forall k :: 0 <= k < j ==> s[k] == Decimal(m)[k];
    assert i == j;
    assert s[..i] == Decimal(n) && s[..j] == Decimal(m);
    DecimalInjective(n, m);
    assert s[i + 1..] == tail && s[j + 1..] == other;
  }

  /** Below one hour the label tells the number of seconds. */
  lemma ElapsedTellsSeconds(x: nat, y: nat)
    requires x < 3600 && ElapsedText(x) == ElapsedText(y)
    ensures x == y
  {
    ClockTextTells(x % 60, x / 60 % 60, y % 60, y / 60 % 60, y / 60 / 60);
  }

  /** A label as its first number, its first letter and the rest. */
  function Parts(seconds: nat, minutes: nat, hours: nat): (nat, char, string) {
    if hours > 0 then (hours, 'h', " " + Decimal(minutes) + "m")
    else if minutes > 0 then (minutes, 'm', " " + Decimal(seconds) + "s")
    else (seconds, 's', "")
  }

  lemma TextFromParts(seconds: nat, minutes: nat, hours: nat)
    ensures var p := Parts(seconds, minutes, hours); ClockText(seconds, minutes, hours) == Decimal(p.0) + [p.1] + p.2
  {
  }

  /** As long as there are no hours, the text tells minutes and seconds, and that there are no hours. */
  lemma ClockTextTells(s: nat, m: nat, s': nat, m': nat, h': nat)
    requires ClockText(s, m, 0) == ClockText(s', m', h')
    ensures h' == 0 && m == m' && s == s'
  {
    var (n, u, tail) := Parts(s, m, 0);
    var (n', u', tail') := Parts(s', m', h');
    TextFromParts(s, m, 0);
    TextFromParts(s', m', h');
    FirstLetter(n, n', u, u', tail, tail');
    if u == 'm' {
      assert tail[1..] == Decimal(s) + "s" && tail'[1..] == Decimal(s') + "s";
      FirstLetter(s, s', 's', 's', "", "");
    }
  }
}
