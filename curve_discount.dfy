/**
 * minirisk::CurveDiscount: a discount curve built from the yield knots of
 * one currency.  `df` brackets the offset of a date from today between two
 * knots and interpolates the exponent linearly between them.
 */
module CurveDiscounts {
  import opened Wrappers
  import opened Doubles

  /** One entry of m_rate: a tenor in days from today and the cumulative rate t * r / 365 at it. */
  datatype Knot = Knot(tenor: nat, rate: Double)

  /** The keys of a std::map<unsigned, double>: strictly increasing tenors. */
  predicate Increasing(knots: seq<Knot>)
  {
    forall i, j :: 0 <= i < j < |knots| ==> knots[i].tenor < knots[j].tenor
  }

  datatype CurveDiscount = CurveDiscount(today: nat, name: string, rate: seq<Knot>)

  /** The value std::exp(exponent); the exponential itself is not modelled. */
  datatype DiscountFactor = ExpOf(exponent: Double)

  datatype CurveError =
    | NameTooShort(name: string)
    | PastDate(t: nat)
    | BeyondCurve(t: nat)

  function Min(a: nat, b: nat): nat
  {
    if a <= b then a else b
  }

  /**
   * The currency of a curve: curve_name.substr(prefix length, 3), which
   * throws std::out_of_range when the name is shorter than the prefix and
   * returns fewer than three characters when the name ends early.
   */
  function CurveCurrency(name: string, prefix: string): (r: Result<string, CurveError>)
    ensures r.Failure? <==> |name| < |prefix|
    ensures r.Failure? ==> r.error == NameTooShort(name)
    ensures r.Success? ==> |r.value| == Min(3, |name| - |prefix|)
    ensures r.Success? ==> name[|prefix|..|prefix| + |r.value|] == r.value
  {
    if |name| < |prefix| then Failure(NameTooShort(name))
    else Success(name[|prefix|..|prefix| + Min(3, |name| - |prefix|)])
  }

  /** The name of the discount curve of ccy gives back ccy. */
  lemma CurveCurrencyOfName(prefix: string, ccy: string, tail: string)
    requires |ccy| == 3
    ensures CurveCurrency(prefix + ccy + tail, prefix) == Success(ccy)
  {
    var name := prefix + ccy + tail;
    assert name[|prefix|..|prefix| + 3] == ccy;
  }

  /** std::map::lower_bound: the index of the first knot whose tenor is at least off. */
  function LowerBound(knots: seq<Knot>, off: nat): (k: nat)
    requires Increasing(knots)
    ensures k <= |knots|
    ensures forall i :: 0 <= i < k ==> knots[i].tenor < off
    ensures forall i :: k <= i < |knots| ==> off <= knots[i].tenor
  {
    if knots == [] || off <= knots[0].tenor then 0
    else 1 + LowerBound(knots[1..], off)
  }

  /**
   * The exponent between two knots lo and hi: -rt1 - (rt2 - rt1) / (t2 - t1) * (off - t1),
   * in double arithmetic (t2 - t1 and off - t1 are integers converted to double).
   */
  function Interpolate(lo: Knot, hi: Knot, off: nat): Double
    requires lo.tenor < hi.tenor
  {
    var slope := Div(Sub(hi.rate, lo.rate), (hi.tenor - lo.tenor) as real);
    Sub(Neg(lo.rate), Scale(slope, (off - lo.tenor) as real))
  }

  /**
   * df(t): fails for a date before today and for a date after the last knot;
   * otherwise interpolates in the bracket knots[k - 1].tenor < t - today <= knots[k].tenor.
   * A date before today fails before the knots are looked at. From today on,
   * the source dereferences end() of an empty map and steps before begin()
   * (undefined behaviour) when the offset is at or before the first knot, so
   * for those dates both are preconditions.
   */
  function Df(curve: CurveDiscount, t: nat): (r: Result<DiscountFactor, CurveError>)
    requires Increasing(curve.rate)
    requires curve.today <= t ==> |curve.rate| > 0
    requires curve.today <= t && t - curve.today <= curve.rate[|curve.rate| - 1].tenor ==>
               curve.rate[0].tenor < t - curve.today
    ensures t < curve.today ==> r == Failure(PastDate(t))
    ensures curve.today <= t ==> (r.Failure? <==> t - curve.today > curve.rate[|curve.rate| - 1].tenor)
    ensures curve.today <= t && r.Failure? ==> r == Failure(BeyondCurve(t))
    ensures r.Success? ==>
              forall k :: 1 <= k < |curve.rate| && curve.rate[k - 1].tenor < t - curve.today <= curve.rate[k].tenor ==>
                r.value == ExpOf(Interpolate(curve.rate[k - 1], curve.rate[k], t - curve.today))
  {
    if t < curve.today then Failure(PastDate(t))
    else
      var off := t - curve.today;
      var last := curve.rate[|curve.rate| - 1];
      if off > last.tenor then Failure(BeyondCurve(t))
      else
        var k := LowerBound(curve.rate, off);
        Success(ExpOf(Interpolate(curve.rate[k - 1], curve.rate[k], off)))
  }

  /**
   * At a knot after the first, the exponent is exactly minus that knot's
   * cumulative rate (when the knot before it is not NaN).
   */
  lemma DfAtKnot(curve: CurveDiscount, k: nat)
    requires |curve.rate| > 0 && Increasing(curve.rate)
    requires 1 <= k < |curve.rate| && curve.rate[k - 1].rate.Num?
    ensures Df(curve, curve.today + curve.rate[k].tenor) == Success(ExpOf(Neg(curve.rate[k].rate)))
  {
    var t := curve.today + curve.rate[k].tenor;
    assert curve.rate[0].tenor <= curve.rate[k - 1].tenor;
    assert Df(curve, t) == Success(ExpOf(Interpolate(curve.rate[k - 1], curve.rate[k], curve.rate[k].tenor)));
    InterpolateAtUpperKnot(curve.rate[k - 1], curve.rate[k]);
  }

  /** The interpolation reaches the upper knot's exponent at the upper knot. */
  lemma InterpolateAtUpperKnot(lo: Knot, hi: Knot)
    requires lo.tenor < hi.tenor && lo.rate.Num?
    ensures Interpolate(lo, hi, hi.tenor) == Neg(hi.rate)
  {
    if lo.rate.Num? && hi.rate.Num? {
      var d := (hi.tenor - lo.tenor) as real;
      var diff := hi.rate.val - lo.rate.val;
      assert diff / d * d == diff;
    }
  }

  /**
   * Inside a bracket the exponent is the distance-weighted average of the
   * two knots' exponents, so it is linear in the offset.
   */
  lemma InterpolateIsWeightedAverage(lo: Knot, hi: Knot, off: nat)
    requires lo.tenor < hi.tenor && lo.tenor <= off <= hi.tenor
    requires lo.rate.Num? && hi.rate.Num?
    ensures Interpolate(lo, hi, off) ==
              Num(-(((hi.tenor - off) as real * lo.rate.val + (off - lo.tenor) as real * hi.rate.val)
                    / (hi.tenor - lo.tenor) as real))
  {
    var d := (hi.tenor - lo.tenor) as real;
    var x := (off - lo.tenor) as real;
    var r1, r2 := lo.rate.val, hi.rate.val;
    assert (hi.tenor - off) as real == d - x;
    calc {
      -r1 - (r2 - r1) / d * x;
      { assert r1 == r1 * d / d; }
      -(r1 * d / d) - (r2 - r1) * x / d;
      -((r1 * d + (r2 - r1) * x) / d);
      { assert r1 * d + (r2 - r1) * x == (d - x) * r1 + x * r2; }
      -(((d - x) * r1 + x * r2) / d);
    }
  }

  /** Any NaN knot in the bracket makes the discount factor NaN. */
  lemma NaNKnotPropagates(curve: CurveDiscount, t: nat, k: nat)
    requires |curve.rate| > 0 && Increasing(curve.rate)
    requires curve.today <= t
    requires 1 <= k < |curve.rate| && curve.rate[k - 1].tenor < t - curve.today <= curve.rate[k].tenor
    requires curve.rate[k - 1].rate.NaN? || curve.rate[k].rate.NaN?
    ensures Df(curve, t) == Success(ExpOf(NaN))
  {
    assert curve.rate[0].tenor <= curve.rate[k - 1].tenor;
  }
}
