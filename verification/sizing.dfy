/** The sizing limits of multishare instances and shares. The byte counts of
    one gigabyte and one terabyte are defined elsewhere in the Go package;
    here they are parameters, of which only positivity and the fit of every
    derived constant in an `int64` are assumed (a Go constant that does not
    fit its declared type is a compile error). */
module Sizing {

  const MaxInt64: int := 0x7fff_ffff_ffff_ffff
  const MinInt64: int := -0x8000_0000_0000_0000

  predicate IsInt64(x: int) {
    MinInt64 <= x <= MaxInt64
  }

  /** Euclidean division of a non-negative by a positive integer brackets
      the dividend between two consecutive multiples of the divisor. */
  lemma DivBrackets(a: int, b: int)
    requires 0 <= a && 0 < b
    ensures (a / b) * b <= a < (a / b) * b + b
  {
    assert a == b * (a / b) + a % b;
  }

  /** If x*g < y*g for a positive g, then x < y. */
  lemma MulCancelLess(x: int, y: int, g: int)
    requires 0 < g && x * g < y * g
    ensures x < y
  {
  }

  function Abs(x: int): nat {
    if x < 0 then -x else x
  }

  /** Go's `/` on integers: the quotient truncated toward zero. The Go
      language definition characterises it through the remainder
      r = a - q * b, which is smaller than the divisor in magnitude and
      never has the opposite sign of the dividend. */
  function GoDiv(a: int, b: int): (q: int)
    requires b != 0
    ensures Abs(a - q * b) < Abs(b)
    ensures a >= 0 ==> a - q * b >= 0
    ensures a <= 0 ==> a - q * b <= 0
  {
    var m := Abs(a) / Abs(b);
    DivBrackets(Abs(a), Abs(b));
    var q := if (a >= 0) == (b > 0) then m else -m;
    ProductOfSigns(q, b, m, Abs(b));
    q
  }

  /** q * b is m * d up to sign when q and b are m and d up to sign. */
  lemma ProductOfSigns(q: int, b: int, m: int, d: int)
    requires q == m || q == -m
    requires b == d || b == -d
    ensures q * b == m * d || q * b == -(m * d)
    ensures (q == m) == (b == d) ==> q * b == m * d
    ensures (q == m) != (b == d) ==> q * b == -(m * d)
  {
  }

  /** The byte counts of the two units. */
  datatype Units = Units(gb: int, tb: int)

  predicate ValidUnits(u: Units) {
    && 0 < u.gb
    && 0 < u.tb
    && 10 * u.tb <= MaxInt64
    && 100 * u.gb <= MaxInt64
  }

  /** The package's sizing constants, as one immutable value. */
  datatype Limits = Limits(
    minMultishareInstanceSizeBytes: int,
    maxMultishareInstanceSizeBytes: int,
    maxShareSizeBytes: int,
    minShareSizeBytes: int,
    defaultStepSizeGb: int,
    maxSharesPerInstance: int,
    configurablePackMinShareSizeBytes: int)

  /** The constants the package defines for the given units. */
  function LimitsFor(u: Units): (l: Limits)
    requires ValidUnits(u)
    ensures l.minMultishareInstanceSizeBytes == u.tb
    ensures l.configurablePackMinShareSizeBytes == 10 * u.gb
    ensures l.maxShareSizeBytes == l.minMultishareInstanceSizeBytes
    ensures l.maxMultishareInstanceSizeBytes == 10 * l.minMultishareInstanceSizeBytes
    ensures l.minShareSizeBytes == 10 * l.configurablePackMinShareSizeBytes
    ensures l.maxSharesPerInstance == 10
    ensures 0 <= l.defaultStepSizeGb
    ensures l.defaultStepSizeGb * u.gb <= l.minMultishareInstanceSizeBytes < (l.defaultStepSizeGb + 1) * u.gb
    ensures 0 < l.minMultishareInstanceSizeBytes && 0 < l.configurablePackMinShareSizeBytes
    ensures IsInt64(l.maxMultishareInstanceSizeBytes) && IsInt64(l.minShareSizeBytes)
  {
    var minInstance := 1 * u.tb;
    Limits(
      minMultishareInstanceSizeBytes := minInstance,
      maxMultishareInstanceSizeBytes := 10 * u.tb,
      maxShareSizeBytes := 1 * u.tb,
      minShareSizeBytes := 100 * u.gb,
      defaultStepSizeGb := GoDiv(minInstance, u.gb),
      maxSharesPerInstance := 10,
      configurablePackMinShareSizeBytes := 10 * u.gb)
  }

  /** When a terabyte is a whole number k of gigabytes, the default step is
      exactly k gigabytes, so one step spans the smallest instance. */
  lemma StepSpansMinInstance(u: Units, k: int)
    requires ValidUnits(u)
    requires u.tb == k * u.gb
    ensures LimitsFor(u).defaultStepSizeGb == k
    ensures LimitsFor(u).defaultStepSizeGb * u.gb == LimitsFor(u).minMultishareInstanceSizeBytes
  {
    var q := LimitsFor(u).defaultStepSizeGb;
    assert q * u.gb <= k * u.gb < (q + 1) * u.gb;
    MulCancelLess(k, q + 1, u.gb);
    if q * u.gb < k * u.gb {
      MulCancelLess(q, k, u.gb);
      MulCancelLess(k, q + 1, u.gb);
    }
  }

  /** Every byte-valued constant fits in an `int64`. */
  lemma LimitsFitInt64(u: Units)
    requires ValidUnits(u)
    ensures var l := LimitsFor(u);
      && IsInt64(l.minMultishareInstanceSizeBytes)
      && IsInt64(l.maxMultishareInstanceSizeBytes)
      && IsInt64(l.maxShareSizeBytes)
      && IsInt64(l.minShareSizeBytes)
      && IsInt64(l.defaultStepSizeGb)
      && IsInt64(l.configurablePackMinShareSizeBytes)
  {
  }
}
