/** The fixed-duration parser of src/resample.c. */
module Duration {
  import opened Common

  const UINT64_MAX: nat := 0xFFFF_FFFF_FFFF_FFFF
  const CANONICAL_SIZE: nat := 32

  datatype Interval = Interval(nanoseconds: nat, canonical: string)

  datatype Unit = Unit(name: string, factor: nat)

  const UNITS: seq<Unit> := [
    Unit("ns", 1), Unit("us", 1000), Unit("ms", 1_000_000), Unit("s", 1_000_000_000),
    Unit("m", 60_000_000_000), Unit("h", 3600_000_000_000), Unit("d", 86400_000_000_000)]

  // ----- decimal text -----

  predicate IsDigit(c: char) { '0' <= c <= '9' }

  function DigitValue(c: char): (d: nat)
    requires IsDigit(c)
    ensures d < 10
  {
    c as int - '0' as int
  }

  predicate AllDigits(s: string) {
    forall i | 0 <= i < |s| :: IsDigit(s[i])
  }

  /** The number a digit string denotes. */
  function Number(s: string): nat
    requires AllDigits(s)
  {
    if s == [] then 0 else Number(s[..|s| - 1]) * 10 + DigitValue(s[|s| - 1])
  }

  /** The shortest digit string of a number, as `PRIu64` prints it. */
  function Decimal(n: nat): (s: string)
    ensures |s| > 0 && AllDigits(s)
  {
    if n < 10 then [(n + '0' as int) as char] else Decimal(n / 10) + [(n % 10 + '0' as int) as char]
  }

  lemma {:induction false} NumberOfDecimal(n: nat)
    ensures Number(Decimal(n)) == n
  {
    if n >= 10 {
      NumberOfDecimal(n / 10);
      assert Decimal(n)[..|Decimal(n)| - 1] == Decimal(n / 10);
    } else {
      assert Decimal(n)[..0] == [];
    }
  }

  function Power10(k: nat): nat { if k == 0 then 1 else 10 * Power10(k - 1) }

  lemma {:induction false} DecimalLength(n: nat, k: nat)
    requires k > 0 && n < Power10(k)
    ensures |Decimal(n)| <= k
  {
    if n >= 10 {
      DecimalLength(n / 10, k - 1);
    }
  }

  lemma {:induction false} LongerIsGreater(s: string, n: nat)
    requires AllDigits(s) && n <= |s|
    ensures Number(s[..n]) <= Number(s)
  {
    if n == |s| {
      assert s[..n] == s;
    } else {
      LongerIsGreater(s[..|s| - 1], n);
      assert s[..|s| - 1][..n] == s[..n];
    }
  }

  // ----- what a duration text means -----

  /** The first `n` characters are a count and the rest is unit `u`. */
  predicate Splits(text: string, n: nat, u: nat) {
    0 < n <= |text| && AllDigits(text[..n]) && u < |UNITS| && text[n..] == UNITS[u].name
  }

  predicate InRange(count: nat, u: nat)
    requires u < |UNITS|
  {
    0 < count && count * UNITS[u].factor <= INT64_MAX
  }

  /** A positive decimal count and a known unit, whose value in nanoseconds fits an int64. */
  ghost predicate Accepts(text: string) {
    exists n: nat, u: nat :: Splits(text, n, u) && InRange(Number(text[..n]), u)
  }

  function Reading(text: string, n: nat, u: nat): Interval
    requires Splits(text, n, u)
  {
    var count := Number(text[..n]);
    Interval(count * UNITS[u].factor, Decimal(count) + UNITS[u].name)
  }

  ghost predicate Means(text: string, r: Interval) {
    exists n: nat, u: nat :: Splits(text, n, u) && InRange(Number(text[..n]), u) && r == Reading(text, n, u)
  }

  lemma UnitsAreNotDigits(u: nat)
    requires u < |UNITS|
    ensures 0 < |UNITS[u].name| <= 2 && !IsDigit(UNITS[u].name[0]) && UNITS[u].factor > 0
  {
  }

  lemma UnitNamesDiffer(u: nat, w: nat)
    requires u < |UNITS| && w < |UNITS| && UNITS[u].name == UNITS[w].name
    ensures u == w
  {
  }

  lemma DigitsAt(text: string, n: nat)
    requires n <= |text| && AllDigits(text[..n])
    ensures forall i | 0 <= i < n :: IsDigit(text[i])
  {
    forall i | 0 <= i < n ensures IsDigit(text[i]) {
      assert text[..n][i] == text[i];
    }
  }

  lemma UnitStarts(text: string, n: nat, u: nat)
    requires Splits(text, n, u)
    ensures n < |text| && !IsDigit(text[n]) && forall i | 0 <= i < n :: IsDigit(text[i])
  {
    UnitsAreNotDigits(u);
    assert text[n..][0] == text[n];
    DigitsAt(text, n);
  }

  /** A text has at most one reading. */
  lemma SplitUnique(text: string, n: nat, u: nat, n': nat, u': nat)
    requires Splits(text, n, u) && Splits(text, n', u')
    ensures n == n' && u == u'
  {
    UnitStarts(text, n, u);
    UnitStarts(text, n', u');
    UnitNamesDiffer(u, u');
  }

  lemma MeansOne(text: string, r: Interval, r': Interval)
    requires Means(text, r) && Means(text, r')
    ensures r == r'
  {
    var n: nat, u: nat :| Splits(text, n, u) && InRange(Number(text[..n]), u) && r == Reading(text, n, u);
    var n': nat, u': nat :| Splits(text, n', u') && InRange(Number(text[..n']), u') && r' == Reading(text, n', u');
    SplitUnique(text, n, u, n', u');
  }

  /** Reading the canonical text gives the same duration and the same canonical text. */
  lemma CanonicalReparses(text: string, r: Interval)
    requires Means(text, r)
    ensures Means(r.canonical, r)
  {
    var n: nat, u: nat :| Splits(text, n, u) && InRange(Number(text[..n]), u) && r == Reading(text, n, u);
    var count := Number(text[..n]);
    var k := |Decimal(count)|;
    NumberOfDecimal(count);
    assert r.canonical[..k] == Decimal(count) && r.canonical[k..] == UNITS[u].name;
    assert Splits(r.canonical, k, u);
  }

  // ----- units against each other -----

  /** A count of some unit lasts so many nanoseconds. */
  ghost predicate Lasts(count: nat, unit: string, nanoseconds: nat) {
    Means(Decimal(count) + unit, Interval(nanoseconds, Decimal(count) + unit))
  }

  lemma LastsExactly(count: nat, u: nat, nanoseconds: nat)
    requires u < |UNITS|
    ensures Lasts(count, UNITS[u].name, nanoseconds)
            <==> 0 < count && nanoseconds == count * UNITS[u].factor && nanoseconds <= INT64_MAX
  {
    var text, k := Decimal(count) + UNITS[u].name, |Decimal(count)|;
    NumberOfDecimal(count);
    assert text[..k] == Decimal(count) && text[k..] == UNITS[u].name;
    assert Splits(text, k, u);
    if Lasts(count, UNITS[u].name, nanoseconds) {
      var n: nat, w: nat :| Splits(text, n, w) && InRange(Number(text[..n]), w)
                            && Interval(nanoseconds, text) == Reading(text, n, w);
      SplitUnique(text, n, w, k, u);
    } else if InRange(count, u) {
      assert Means(text, Reading(text, k, u));
    }
  }

  /**
   Nanoseconds count themselves; a microsecond is 1000 of them, a millisecond 1000 microseconds, a second
   1000 milliseconds, a minute 60 seconds, an hour 60 minutes and a day 24 hours, wherever that fits.
   */
  lemma UnitsRelate(count: nat, n: nat)
    ensures Lasts(count, "ns", n) <==> 0 < count == n <= INT64_MAX
    ensures Lasts(count, "us", n) <==> Lasts(1000 * count, "ns", n)
    ensures Lasts(count, "ms", n) <==> Lasts(1000 * count, "us", n)
    ensures Lasts(count, "s", n) <==> Lasts(1000 * count, "ms", n)
    ensures Lasts(count, "m", n) <==> Lasts(60 * count, "s", n)
    ensures Lasts(count, "h", n) <==> Lasts(60 * count, "m", n)
    ensures Lasts(count, "d", n) <==> Lasts(24 * count, "h", n)
  {
    LastsExactly(count, 0, n); LastsExactly(1000 * count, 0, n);
    LastsExactly(count, 1, n); LastsExactly(1000 * count, 1, n);
    LastsExactly(count, 2, n); LastsExactly(1000 * count, 2, n);
    LastsExactly(count, 3, n); LastsExactly(60 * count, 3, n);
    LastsExactly(count, 4, n); LastsExactly(60 * count, 4, n);
    LastsExactly(count, 5, n); LastsExactly(24 * count, 5, n);
    LastsExactly(count, 6, n);
  }

  /** Counts are decimal: a digit appended is worth one, and what stands before it ten times as much. */
  lemma DecimalPlaces(n: nat, d: nat)
    requires 0 < n && d < 10
    ensures Decimal(10 * n + d) == Decimal(n) + Decimal(d)
  {
    assert (10 * n + d) / 10 == n && (10 * n + d) % 10 == d;
  }

  lemma CanonicalFits(text: string, r: Interval)
    requires Means(text, r)
    ensures |r.canonical| < CANONICAL_SIZE
  {
    var n: nat, u: nat :| Splits(text, n, u) && InRange(Number(text[..n]), u) && r == Reading(text, n, u);
    CountFits(Number(text[..n]), u);
    UnitsAreNotDigits(u);
  }

  lemma CountFits(count: nat, u: nat)
    requires u < |UNITS| && InRange(count, u)
    ensures count <= INT64_MAX && |Decimal(count)| <= 19
  {
    UnitsAreNotDigits(u);
    assert count * UNITS[u].factor == count + count * (UNITS[u].factor - 1);
    PowerOf19();
    DecimalLength(count, 19);
  }

  lemma PowerOf19()
    ensures Power10(19) == 10_000_000_000_000_000_000
  {
    assert Power10(10) == 10_000_000_000;
    assert Power10(19) == 10 * Power10(18) && Power10(18) == 10 * Power10(17);
    assert Power10(16) == 1000 * Power10(13) && Power10(13) == 1000 * Power10(10);
  }

  /** A guard of the form `count > limit / factor` is exact. */
  lemma FactorGuard(count: nat, limit: nat, factor: nat)
    requires factor > 0
    ensures count > limit / factor <==> count * factor > limit
  {
    var q := limit / factor;
    assert limit == q * factor + limit % factor;
    if count > q {
      MulMonotone(q + 1, count, factor);
      assert (q + 1) * factor == q * factor + factor;
    } else {
      MulMonotone(count, q, factor);
    }
  }

  // ----- the parser -----

  /** `parse_unit` */
  method ParseUnit(text: string) returns (r: Option<nat>)
    ensures r.Some? ==> r.value < |UNITS| && UNITS[r.value].name == text
    ensures r.None? ==> forall u | 0 <= u < |UNITS| :: UNITS[u].name != text
  {
    for i := 0 to |UNITS|
      invariant forall u | 0 <= u < i :: UNITS[u].name != text
    {
      if UNITS[i].name == text {
        return Some(i);
      }
    }
    r := None;
  }

  /** The digit loop: the leading digits and their value, or nothing when a `uint64_t` cannot hold it. */
  method ParseCount(text: string) returns (r: Option<nat>, offset: nat)
    ensures offset <= |text| && AllDigits(text[..offset])
    ensures r.Some? ==> offset < |text| ==> !IsDigit(text[offset])
    ensures r.Some? ==> r.value == Number(text[..offset]) <= 0xFFFF_FFFF_FFFF_FFFF
    ensures r.None? ==> Number(text[..offset]) > 0xFFFF_FFFF_FFFF_FFFF
  {
    var count := 0;
    offset := 0;
    while offset < |text| && IsDigit(text[offset])
      invariant offset <= |text| && AllDigits(text[..offset]) && count == Number(text[..offset]) <= UINT64_MAX
    {
      var digit := DigitValue(text[offset]);
      assert text[..offset + 1][..offset] == text[..offset];
      if count > (UINT64_MAX - digit) / 10 {
        return None, offset + 1;
      }
      count := count * 10 + digit;
      offset := offset + 1;
    }
    r := Some(count);
  }

  /** `cxpr_parse_fixed_duration` */
  method ParseFixedDuration(text: string) returns (r: Option<Interval>)
    ensures r.Some? <==> Accepts(text)
    ensures r.Some? ==> Means(text, r.value)
  {
    if text == [] {
      return None;
    }
    var count, offset := ParseCount(text);
    if count.None? {
      NoReadingWithin(text, offset);
      return None;
    }
    OnlyReading(text, offset);
    if offset == 0 || count.value == 0 {
      return None;
    }
    var unit := ParseUnit(text[offset..]);
    if unit.None? {
      return None;
    }
    var factor, name := UNITS[unit.value].factor, UNITS[unit.value].name;
    UnitsAreNotDigits(unit.value);
    FactorGuard(count.value, INT64_MAX, factor);
    assert Splits(text, offset, unit.value);
    if count.value > INT64_MAX / factor {
      forall n: nat, u: nat | Splits(text, n, u) ensures !InRange(Number(text[..n]), u) {
        SplitUnique(text, n, u, offset, unit.value);
      }
      return None;
    }
    var interval := Interval(count.value * factor, Decimal(count.value) + name);
    assert Means(text, interval);
    CanonicalFits(text, interval);
    if |interval.canonical| >= CANONICAL_SIZE {
      return None;
    }
    r := Some(interval);
  }

  /** Any reading of a text takes all its leading digits. */
  lemma OnlyReading(text: string, offset: nat)
    requires offset <= |text| && AllDigits(text[..offset]) && (offset < |text| ==> !IsDigit(text[offset]))
    ensures forall n: nat, u: nat | Splits(text, n, u) :: n == offset
  {
    DigitsAt(text, offset);
    forall n: nat, u: nat | Splits(text, n, u) ensures n == offset {
      UnitStarts(text, n, u);
    }
  }

  /** Once the leading digits exceed a `uint64_t`, no reading can fit. */
  lemma NoReadingWithin(text: string, offset: nat)
    requires offset <= |text| && AllDigits(text[..offset]) && Number(text[..offset]) > UINT64_MAX
    ensures !Accepts(text)
  {
    DigitsAt(text, offset);
    forall n: nat, u: nat | Splits(text, n, u) ensures !InRange(Number(text[..n]), u) {
      UnitStarts(text, n, u);
      LongerIsGreater(text[..n], offset);
      assert text[..n][..offset] == text[..offset];
      if InRange(Number(text[..n]), u) {
        CountFits(Number(text[..n]), u);
      }
    }
  }
}
