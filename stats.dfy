/// Arithmetic used by the averaging flush: Python's `sum`, the mean and
/// `round` (round half to even), all on exact numbers.
module Stats {

  function Abs(x: int): nat
  {
    if x < 0 then -x else x
  }

  /** Python's `sum` over a list of float values, added left to right, in exact arithmetic. */
  function Sum(vs: seq<real>): real
  {
    if vs == [] then 0.0 else Sum(vs[..|vs| - 1]) + vs[|vs| - 1]
  }

  /** Python's `sum` over a list of integers, added left to right. */
  function SumInts(ts: seq<int>): int
  {
    if ts == [] then 0 else SumInts(ts[..|ts| - 1]) + ts[|ts| - 1]
  }

  /** `sum(vs) / len(vs)`; the caller guarantees the list is not empty. */
  function Mean(vs: seq<real>): real
    requires |vs| > 0
  {
    Sum(vs) / (|vs| as real)
  }

  /** `m` is the arithmetic mean of `vs`: times the count it gives back the sum. */
  ghost predicate IsMean(m: real, vs: seq<real>)
  {
    m * (|vs| as real) == Sum(vs)
  }

  lemma MeanIsMean(vs: seq<real>)
    requires |vs| > 0
    ensures IsMean(Mean(vs), vs)
  {
  }

  /** Bounding every element bounds the sum. */
  lemma {:induction false} SumBounds(vs: seq<real>, lo: real, hi: real)
    requires forall k :: 0 <= k < |vs| ==> lo <= vs[k] <= hi
    ensures (|vs| as real) * lo <= Sum(vs) <= (|vs| as real) * hi
  {
    if vs != [] {
      SumBounds(vs[..|vs| - 1], lo, hi);
    }
  }

  /** The mean lies between any lower and upper bound of the values. */
  lemma MeanWithin(vs: seq<real>, lo: real, hi: real)
    requires |vs| > 0
    requires forall k :: 0 <= k < |vs| ==> lo <= vs[k] <= hi
    ensures lo <= Mean(vs) <= hi
  {
    SumBounds(vs, lo, hi);
    MeanIsMean(vs);
  }

  /** A list of equal values (a single reading in particular) has that value as its mean. */
  lemma MeanOfConstant(vs: seq<real>, c: real)
    requires |vs| > 0
    requires forall k :: 0 <= k < |vs| ==> vs[k] == c
    ensures Mean(vs) == c
  {
    MeanWithin(vs, c, c);
  }

  /**
   * `t` is the exact quotient num / den rounded to the nearest integer, ties
   * going to the even neighbour: what Python's `round` does.
   */
  ghost predicate IsRoundedQuotient(t: int, num: int, den: int)
  {
    2 * Abs(num - t * den) <= den &&
    (2 * Abs(num - t * den) == den ==> t % 2 == 0)
  }

  /** `round(num / den)`, computed from the floor quotient and the remainder. */
  function RoundHalfEven(num: int, den: int): (r: int)
    requires den > 0
    ensures IsRoundedQuotient(r, num, den)
  {
    var q := num / den;
    var rem := num % den;
    assert num - q * den == rem;
    assert num - (q + 1) * den == rem - den;
    if 2 * rem < den then q
    else if 2 * rem > den then q + 1
    else if q % 2 == 0 then q
    else q + 1
  }

  lemma ProductAtLeast(k: int, den: int)
    requires k >= 1 && den > 0
    ensures k * den >= den
    ensures k * den == den ==> k == 1
  {
    assert k * den == (k - 1) * den + den;
    if k > 1 {
      assert (k - 1) * den == (k - 2) * den + den;
    }
  }

  /** Rounding is well defined: RoundHalfEven's result is the only rounded quotient. */
  lemma RoundHalfEvenUnique(num: int, den: int, r: int)
    requires den > 0 && IsRoundedQuotient(r, num, den)
    ensures r == RoundHalfEven(num, den)
  {
    var s := RoundHalfEven(num, den);
    if r != s {
      var (hi, lo) := if r > s then (r, s) else (s, r);
      var a, b, p := num - lo * den, num - hi * den, (hi - lo) * den;
      assert a - b == p;
      ProductAtLeast(hi - lo, den);
      assert false;
    }
  }
}
