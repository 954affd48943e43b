/**
 * Real-number helpers shared by the forest components: clamping, and the
 * interpolation behind `randBetween`.
 */
module Numeric {

  function Min(a: real, b: real): real { if a <= b then a else b }
  function Max(a: real, b: real): real { if a >= b then a else b }

  /** `Math.max(lo, Math.min(hi, v))`. */
  function Clamp(v: real, lo: real, hi: real): (r: real)
    ensures lo <= hi ==> lo <= r <= hi
    ensures lo <= v <= hi ==> r == v
    ensures v < lo ==> r == lo
    ensures lo <= hi < v ==> r == hi
  {
    Max(lo, Min(hi, v))
  }

  /** `Math.max(0, Math.min(1, v))`: the special case of Clamp used for depths and easing. */
  function Clamp01(v: real): (r: real)
    ensures 0.0 <= r <= 1.0
    ensures 0.0 <= v <= 1.0 ==> r == v
    ensures v < 0.0 ==> r == 0.0
    ensures v > 1.0 ==> r == 1.0
  {
    Clamp(v, 0.0, 1.0)
  }

  /** Clamping is monotone in the clamped value. */
  lemma ClampMonotone(a: real, b: real, lo: real, hi: real)
    requires a <= b && lo <= hi
    ensures Clamp(a, lo, hi) <= Clamp(b, lo, hi)
  {
  }

  /** The product `w * u`; ScaleRange bounds it for a unit fraction `u`. */
  function Scale(w: real, u: real): real {
    w * u
  }

  /** Scaling by a unit fraction stays between 0 and the width, the width excluded. */
  lemma ScaleRange(w: real, u: real)
    requires 0.0 <= u < 1.0
    ensures w > 0.0 ==> 0.0 <= Scale(w, u) < w
    ensures w == 0.0 ==> Scale(w, u) == 0.0
    ensures w < 0.0 ==> w < Scale(w, u) <= 0.0
  {
    if w > 0.0 {
      assert w * (1.0 - u) > 0.0;
    } else if w < 0.0 {
      assert w * (1.0 - u) < 0.0;
    }
  }

  /** `lo + (hi - lo) * u` for a unit fraction `u`. */
  function Lerp(lo: real, hi: real, u: real): (r: real)
    requires 0.0 <= u < 1.0
    ensures lo < hi ==> lo <= r < hi
    ensures lo == hi ==> r == lo
    ensures hi < lo ==> hi < r <= lo
  {
    ScaleRange(hi - lo, u);
    lo + Scale(hi - lo, u)
  }

  /** Normalising an interpolated value recovers the fraction it was interpolated by. */
  lemma LerpInverse(lo: real, hi: real, u: real)
    requires 0.0 <= u < 1.0
    requires lo < hi
    ensures (Lerp(lo, hi, u) - lo) / (hi - lo) == u
  {
    var w := hi - lo;
    assert Lerp(lo, hi, u) - lo == w * u;
  }

  /** Scaling a normalised value back by the same positive width recovers it. */
  lemma ScaleUndoesDivision(w: real, v: real)
    requires w > 0.0
    ensures Scale(w, v / w) == v
  {
  }

  /** Scaling by a fraction in the closed unit interval stays within [0, w] for a non-negative width. */
  lemma ScaleRangeClosed(w: real, u: real)
    requires 0.0 <= u <= 1.0
    requires w >= 0.0
    ensures 0.0 <= Scale(w, u) <= w
  {
    assert w * (1.0 - u) >= 0.0;
  }
}
