/**
 * The arithmetic of the paired-trial comparator script: the two product
 * benchmarks it times, its decimal rounding rule, and the three-way verdict it
 * draws from a two-error interval around the difference of the means.
 */
module Statistics {

  // ------------------------------------------------------------ products

  /** Reference definition: the product of the elements (1 for none). */
  function Product(data: seq<int>): int {
    if data == [] then 1 else Product(data[..|data| - 1]) * data[|data| - 1]
  }

  /** The fold `inject(acc) { |prod, i| prod * i }`, taken from the left. */
  function Inject(data: seq<int>, acc: int): int {
    if data == [] then acc else Inject(data[1..], acc * data[0])
  }

  lemma {:induction false} ProductCons(x: int, s: seq<int>)
    ensures Product([x] + s) == x * Product(s)
  {
    if s != [] {
      var t := s[..|s| - 1];
      assert ([x] + s)[..|s|] == [x] + t;
      ProductCons(x, t);
      assert Product([x] + s) == (x * Product(t)) * s[|s| - 1];
      assert (x * Product(t)) * s[|s| - 1] == x * (Product(t) * s[|s| - 1]);
    }
  }

  /** Folding from the left with seed acc scales the product by acc. */
  lemma {:induction false} InjectIsScaledProduct(data: seq<int>, acc: int)
    ensures Inject(data, acc) == acc * Product(data)
  {
    if data != [] {
      InjectIsScaledProduct(data[1..], acc * data[0]);
      ProductCons(data[0], data[1..]);
      assert [data[0]] + data[1..] == data;
      assert (acc * data[0]) * Product(data[1..]) == acc * (data[0] * Product(data[1..]));
    }
  }

  /** `not_optimal`: `data.inject(1) { |prod, i| prod * i }`. */
  function NotOptimal(data: seq<int>): (r: int)
    ensures r == Product(data)
    ensures data == [] ==> r == 1
  {
    InjectIsScaledProduct(data, 1);
    Inject(data, 1)
  }

  /** `optimal`: `prod = 1`, then `prod *= i` for each element in turn. It
      computes the same value as `not_optimal`. */
  method Optimal(data: seq<int>) returns (prod: int)
    ensures prod == Product(data)
    ensures prod == NotOptimal(data)
  {
    prod := 1;
    var i := 0;
    while i < |data|
      invariant 0 <= i <= |data|
      invariant prod == Product(data[..i])
    {
      assert data[..i + 1][..i] == data[..i];
      prod := prod * data[i];
      i := i + 1;
    }
    assert data[..|data|] == data;
  }

  /** The benchmark's data, `Array.new(elements) { 10 }`, multiplies out to
      exactly 10 to the number of elements: Ruby integers do not overflow. */
  lemma {:induction false} ProductOfTens(elements: nat)
    ensures Product(seq(elements, _ => 10)) == Pow10(elements)
    ensures NotOptimal(seq(elements, _ => 10)) == Pow10(elements)
  {
    if elements > 0 {
      ProductOfTens(elements - 1);
      assert seq(elements, _ => 10)[..elements - 1] == seq(elements - 1, _ => 10);
    }
  }

  // ------------------------------------------------------------ rounding

  function Pow10(k: nat): (p: nat)
    ensures p >= 1
  {
    if k == 0 then 1 else 10 * Pow10(k - 1)
  }

  /** The last decimal digit of x has the parity of x. */
  lemma LastDigitParity(x: int)
    ensures (x % 10) % 2 == x % 2
  {
    var q, d := x / 10, x % 10;
    var h, b := d / 2, d % 2;
    assert x == 2 * (5 * q + h) + b;
    RemainderIsUnique(x, 5 * q + h, b);
  }

  lemma RemainderIsUnique(x: int, m: int, b: int)
    requires x == 2 * m + b && 0 <= b < 2
    ensures x % 2 == b
  {
  }

  /** The kept digits of `round`: `roundables / 100`, moved up by one when the
      two dropped digits `last` are above 50, or exactly 50 after an odd kept
      digit. Ruby's `/` and `%` floor, which for the positive divisors used
      here is Dafny's Euclidean division. The result is the integer nearest to
      roundables / 100, with an exact half going to the even neighbour. */
  function KeptFraction(roundables: int): (f: int)
    ensures f == roundables / 100 || f == roundables / 100 + 1
    ensures -50 <= 100 * f - roundables <= 50
    ensures roundables % 100 != 50 ==> -50 < 100 * f - roundables < 50
    ensures roundables % 100 == 50 ==> f % 2 == 0
  {
    var fractions := roundables / 100;
    var last := roundables % 100;
    var lastFraction := fractions % 10;
    var f := if last > 50 || (last == 50 && lastFraction % 2 == 1) then fractions + 1 else fractions;
    LastDigitParity(fractions);
    NearestHundred(roundables, fractions, last, f);
    f
  }

  /** With roundables = 100 * fractions + last, moving fractions up exactly
      when last is above 50, or 50 after an odd fractions, lands on the
      nearest multiple of 100, the even one on a tie. */
  lemma NearestHundred(roundables: int, fractions: int, last: int, f: int)
    requires roundables == 100 * fractions + last && 0 <= last < 100
    requires f == if last > 50 || (last == 50 && fractions % 2 == 1) then fractions + 1 else fractions
    ensures f == fractions || f == fractions + 1
    ensures -50 <= 100 * f - roundables <= 50
    ensures last != 50 ==> -50 < 100 * f - roundables < 50
    ensures last == 50 ==> f % 2 == 0
  {
  }

  /** The decision table of `round`: below 50 truncates, above 50 moves up,
      an exact 50 moves up exactly when the last kept digit is odd. */
  lemma RoundDecisionTable(roundables: int)
    ensures roundables % 100 < 50 ==> KeptFraction(roundables) == roundables / 100
    ensures roundables % 100 > 50 ==> KeptFraction(roundables) == roundables / 100 + 1
    ensures roundables % 100 == 50 ==>
      (KeptFraction(roundables) == roundables / 100 + 1 <==> (roundables / 100) % 10 % 2 == 1)
  {
  }

  /** The nearest-with-ties-to-even conditions pin the kept digits down: no
      other value meets them. */
  lemma NearestEvenIsUnique(roundables: int, g: int)
    requires -50 <= 100 * g - roundables <= 50
    requires roundables % 100 != 50 ==> -50 < 100 * g - roundables < 50
    requires roundables % 100 == 50 ==> g % 2 == 0
    ensures g == KeptFraction(roundables)
  {
    var f := KeptFraction(roundables);
    if roundables % 100 == 50 {
      assert 100 * g == roundables - 50 || 100 * g == roundables + 50;
      assert 100 * f == roundables - 50 || 100 * f == roundables + 50;
    }
  }

  /** `round(num, digits)` from its two integers, `unit = num.to_i` and
      `roundables`, the fraction `num - unit` as a count of units of
      10^-(digits+2): the integer part plus the kept digits scaled back by
      10^digits. */
  function Round(unit: int, roundables: int, digits: nat): (r: real)
    ensures (r - unit as real) * (Pow10(digits) as real) == KeptFraction(roundables) as real
    ensures 0 <= roundables < 100 * Pow10(digits) ==> unit as real <= r <= unit as real + 1.0
  {
    ScaledDigits(unit as real, KeptFraction(roundables), Pow10(digits));
    unit as real + (KeptFraction(roundables) as real) / (Pow10(digits) as real)
  }

  /** Adding k / p to u: scaled back by p the addition is k, and it stays
      within one of u when k lies between 0 and p. */
  lemma ScaledDigits(u: real, k: int, p: int)
    requires p > 0
    ensures ((u + (k as real) / (p as real)) - u) * (p as real) == k as real
    ensures 0 <= k <= p ==> u <= u + (k as real) / (p as real) <= u + 1.0
  {
    var q := (k as real) / (p as real);
    assert q * (p as real) == k as real;
    if 0 <= k <= p {
      assert q <= 1.0 by {
        if q > 1.0 {
          assert q * (p as real) > 1.0 * (p as real);
        }
      }
    }
  }

  lemma Pow10Step(k: nat)
    ensures Pow10(k + 2) == 100 * Pow10(k)
  {
  }

  /** How far the fraction `round` keeps lies from `roundables`, in units of
      10^-(digits+2). */
  function RoundError(unit: int, roundables: int, digits: nat): real {
    (Round(unit, roundables, digits) - unit as real) * (Pow10(digits + 2) as real) - roundables as real
  }

  lemma ScaledBack(rounded: real, unit: real, kept: real, p: real, scale: real)
    requires p > 0.0 && scale == 100.0 * p
    requires rounded == unit + kept / p
    ensures (rounded - unit) * scale == 100.0 * kept
  {
    assert (kept / p) * (100.0 * p) == 100.0 * kept;
  }

  /** `round` lands within half a unit of its last kept digit: measured in
      units of 10^-(digits+2), its fraction differs from `roundables` by at
      most 50, by exactly 50 only on a tie, and a tie goes to an even last
      digit. */
  lemma RoundIsClose(unit: int, roundables: int, digits: nat)
    ensures -50.0 <= RoundError(unit, roundables, digits) <= 50.0
    ensures roundables % 100 != 50 ==> -50.0 < RoundError(unit, roundables, digits) < 50.0
  {
    var p := Pow10(digits) as real;
    var scale := Pow10(digits + 2) as real;
    assert scale == 100.0 * p by { Pow10Step(digits); }
    var kept := KeptFraction(roundables);
    ScaledBack(Round(unit, roundables, digits), unit as real, kept as real, p, scale);
    ErrorBounds(RoundError(unit, roundables, digits), kept, roundables);
  }

  lemma ErrorBounds(error: real, kept: int, roundables: int)
    requires error == 100.0 * (kept as real) - roundables as real
    requires -50 <= 100 * kept - roundables <= 50
    requires roundables % 100 != 50 ==> -50 < 100 * kept - roundables < 50
    ensures -50.0 <= error <= 50.0
    ensures roundables % 100 != 50 ==> -50.0 < error < 50.0
  {
    assert error == (100 * kept - roundables) as real;
  }

  // ------------------------------------------------------------- verdict

  datatype Verdict = Optimized | Regression | Unchanged

  /** `(mo - 2 * err)..(mo + 2 * err)`. */
  datatype Interval = Interval(lo: real, hi: real)

  /** The interval is centred on the difference of the means and is four
      errors wide. */
  function ConfidenceInterval(mo: real, err: real): (iv: Interval)
    requires err >= 0.0
    ensures iv.lo <= mo <= iv.hi
    ensures iv.hi - iv.lo == 4.0 * err
    ensures (iv.lo + iv.hi) / 2.0 == mo
  {
    Interval(mo - 2.0 * err, mo + 2.0 * err)
  }

  /** The if/else on the interval: exactly one verdict, OPTIMIZED when the
      interval lies above zero, REGRESSION when it does not and lies below,
      UNCHANGED when it reaches zero. */
  function Decide(iv: Interval): (v: Verdict)
    ensures v == Optimized <==> iv.lo > 0.0
    ensures v == Regression <==> iv.lo <= 0.0 && iv.hi < 0.0
    ensures v == Unchanged <==> iv.lo <= 0.0 && iv.hi >= 0.0
  {
    if iv.lo > 0.0 then Optimized
    else if iv.hi < 0.0 then Regression
    else Unchanged
  }

  /** The verdict for the mean `mx` before and `my` after, with standard error
      `err` of their difference (a square root, so never negative). */
  function Compare(mx: real, my: real, err: real): (v: Verdict)
    requires err >= 0.0
    ensures v == Optimized <==> mx - my > 2.0 * err
    ensures v == Regression <==> my - mx > 2.0 * err
    ensures v == Optimized ==> mx > my
    ensures v == Regression ==> mx < my
    ensures mx == my ==> v == Unchanged
  {
    Decide(ConfidenceInterval(mx - my, err))
  }
}
