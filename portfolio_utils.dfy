/**
 * The portfolio functions of PortfolioUtils.cpp: pricing every trade,
 * summing the prices, and the parallel PV01 by bump and reprice on a
 * working copy of the market.
 */
module PortfolioUtils {
  import opened Wrappers
  import opened Text
  import opened Doubles
  import opened Markets
  import opened Streamer

  /** A trade's pricer: its price as a function of the market's risk factors. */
  type Pricer = map<string, Double> -> Double

  /** compute_prices(pricers, mkt): one price per pricer, in order. */
  method ComputePrices(pricers: seq<Pricer>, mkt: Market) returns (prices: seq<Double>)
    ensures |prices| == |pricers|
    ensures forall i :: 0 <= i < |pricers| ==> prices[i] == pricers[i](mkt.riskFactors)
  {
    prices := [];
    var i := 0;
    while i < |pricers|
      invariant 0 <= i <= |pricers| && |prices| == i
      invariant forall j :: 0 <= j < i ==> prices[j] == pricers[j](mkt.riskFactors)
    {
      prices := prices + [pricers[i](mkt.riskFactors)];
      i := i + 1;
    }
  }

  // ---------------------------------------------------------------------
  // portfolio_total
  // ---------------------------------------------------------------------

  /** std::accumulate: a left fold of + from acc. */
  function Accumulate(acc: Double, values: seq<Double>): Double
    decreases |values|
  {
    if values == [] then acc else Accumulate(Add(acc, values[0]), values[1..])
  }

  /** portfolio_total(values): std::accumulate from 0.0. */
  function PortfolioTotal(values: seq<Double>): Double
  {
    Accumulate(Num(0.0), values)
  }

  /** The mathematical sum of a sequence, NaN when any term is NaN. */
  function Sum(values: seq<Double>): (r: Double)
    ensures r.NaN? <==> exists i :: 0 <= i < |values| && values[i].NaN?
  {
    if values == [] then Num(0.0)
    else
      assert forall i :: 0 < i < |values| ==> values[i] == values[1..][i - 1];
      Add(values[0], Sum(values[1..]))
  }

  lemma AddAssociative(a: Double, b: Double, c: Double)
    ensures Add(Add(a, b), c) == Add(a, Add(b, c))
  {
  }

  /** Folding from acc adds acc to the sum of the values. */
  lemma {:induction false} AccumulateIsSum(acc: Double, values: seq<Double>)
    ensures Accumulate(acc, values) == Add(acc, Sum(values))
    decreases |values|
  {
    if values != [] {
      AccumulateIsSum(Add(acc, values[0]), values[1..]);
      AddAssociative(acc, values[0], Sum(values[1..]));
    }
  }

  /**
   * The total is the sum of the values (0 for none), and NaN exactly when
   * some value is NaN.
   */
  lemma PortfolioTotalIsSum(values: seq<Double>)
    ensures PortfolioTotal(values) == Sum(values)
    ensures PortfolioTotal(values).NaN? <==> exists i :: 0 <= i < |values| && values[i].NaN?
    ensures PortfolioTotal([]) == Num(0.0)
  {
    AccumulateIsSum(Num(0.0), values);
  }

  lemma {:induction false} SumConcat(a: seq<Double>, b: seq<Double>)
    ensures Sum(a + b) == Add(Sum(a), Sum(b))
    decreases |a|
  {
    if a != [] {
      assert (a + b)[1..] == a[1..] + b;
      SumConcat(a[1..], b);
      AddAssociative(a[0], Sum(a[1..]), Sum(b));
    } else {
      assert a + b == b;
    }
  }

  /** The total of two portfolios side by side is the sum of their totals. */
  lemma PortfolioTotalAdditive(a: seq<Double>, b: seq<Double>)
    ensures PortfolioTotal(a + b) == Add(PortfolioTotal(a), PortfolioTotal(b))
  {
    PortfolioTotalIsSum(a);
    PortfolioTotalIsSum(b);
    PortfolioTotalIsSum(a + b);
    SumConcat(a, b);
  }

  // ---------------------------------------------------------------------
  // compute_pv01_parallel
  // ---------------------------------------------------------------------

  /** bump_size = 0.01 / 100, one basis point. */
  const BumpSize: real := 0.0001

  /** What a set_risk_factors call of the protocol writes for a rate: minus a bump, plus a bump, or the original. */
  datatype BumpMode = Down | Up | Restore

  function Shift(v: Double, mode: BumpMode): Double
  {
    match mode
    case Down => Sub(v, Num(BumpSize))
    case Up => Add(v, Num(BumpSize))
    case Restore => v
  }

  function Bucket(prefix: string, ccy: string): RatePattern
  {
    RatePattern(prefix, Ccy(ccy))
  }

  /** The risk factors with every rate of one currency shifted together. */
  function Bumped(rf: map<string, Double>, prefix: string, ccy: string, mode: BumpMode): (r: map<string, Double>)
    ensures r.Keys == rf.Keys
    ensures forall n :: n in rf && !Matches(n, Bucket(prefix, ccy)) ==> r[n] == rf[n]
  {
    map n | n in rf :: if Matches(n, Bucket(prefix, ccy)) then Shift(rf[n], mode) else rf[n]
  }

  /** The currency of a rate name: its last three characters. */
  function Suffix3(name: string): string
    requires |name| >= 3
  {
    name[|name| - 3..]
  }

  /** The currencies of the rate factors that match prefix + "\\d+[DWMY].[A-Z]{3}". */
  function CurrencySet(rf: map<string, Double>, prefix: string): set<string>
  {
    set n | n in rf && Matches(n, RatePattern(prefix, AnyCcy)) && |n| >= 3 :: Suffix3(n)
  }

  function ParallelName(prefix: string, ccy: string): string
  {
    "parallel " + prefix + ccy
  }

  /** The central difference (up - down) / (2 * bump). */
  function CentralDifference(up: Double, down: Double): Double
  {
    Div(Sub(up, down), 2.0 * BumpSize)
  }

  /** The parallel PV01 of each trade for one currency, priced on the original risk factors bumped down and up. */
  function Pv01Vector(pricers: seq<Pricer>, rf: map<string, Double>, prefix: string, ccy: string): (v: seq<Double>)
    ensures |v| == |pricers|
  {
    seq(|pricers|, i requires 0 <= i < |pricers| =>
      CentralDifference(pricers[i](Bumped(rf, prefix, ccy, Up)), pricers[i](Bumped(rf, prefix, ccy, Down))))
  }

  /** The restore step gives back the original risk factors. */
  lemma RestoreIsOriginal(rf: map<string, Double>, prefix: string, ccy: string)
    ensures Bumped(rf, prefix, ccy, Restore) == rf
  {
  }

  /** No name occurs twice among the pairs. */
  predicate DistinctNames(pairs: RiskFactors)
  {
    forall a, b :: 0 <= a < b < |pairs| ==> pairs[a].0 != pairs[b].0
  }

  /** The pairs get_risk_factors returns, in strictly ascending name order, name no factor twice. */
  lemma SortedNamesAreDistinct(pairs: RiskFactors)
    requires StrictlySorted(NamesOf(pairs))
    ensures DistinctNames(pairs)
  {
    forall a, b | 0 <= a < b < |pairs|
      ensures pairs[a].0 != pairs[b].0
    {
      assert LexLess(NamesOf(pairs)[a], NamesOf(pairs)[b]);
      LexLessIrreflexive(pairs[a].0);
    }
  }

  /** Among pairs with distinct names, the last value for a name is its only value. */
  lemma {:induction false} LastValueOfDistinct(pairs: RiskFactors, i: nat)
    requires DistinctNames(pairs) && i < |pairs|
    ensures pairs[i].0 in NamesOf(pairs) && LastValue(pairs, pairs[i].0) == pairs[i].1
    decreases |pairs|
  {
    NamesOfCons(pairs);
    assert NamesOf(pairs)[i] == pairs[i].0;
    if i == 0 {
      assert pairs[0].0 !in NamesOf(pairs[1..]) by {
        forall j | 0 <= j < |pairs| - 1
          ensures NamesOf(pairs[1..])[j] != pairs[0].0
        {
          assert NamesOf(pairs[1..])[j] == pairs[j + 1].0;
        }
      }
    } else {
      assert DistinctNames(pairs[1..]) by {
        forall a, b | 0 <= a < b < |pairs| - 1
          ensures pairs[1..][a].0 != pairs[1..][b].0
        {
          assert pairs[1..][a] == pairs[a + 1] && pairs[1..][b] == pairs[b + 1];
        }
      }
      assert NamesOf(pairs[1..])[i - 1] == pairs[i].0;
      LastValueOfDistinct(pairs[1..], i - 1);
    }
  }

  /**
   * One set_risk_factors call of the protocol: when the pairs list exactly
   * the currency's names of the original factors rf, each once, with the
   * shifted original value, the call succeeds and yields the bumped factors,
   * whatever bump the working copy held before (only the currency's names
   * may differ from rf).
   */
  lemma AssignBucket(cache: map<string, Double>, rf: map<string, Double>, prefix: string, ccy: string,
                     pairs: RiskFactors, mode: BumpMode)
    requires cache.Keys == rf.Keys
    requires forall n :: n in rf && !Matches(n, Bucket(prefix, ccy)) ==> cache[n] == rf[n]
    requires StrictlySorted(NamesOf(pairs))
    requires forall n :: n in NamesOf(pairs) <==> n in rf && Matches(n, Bucket(prefix, ccy))
    requires forall i :: 0 <= i < |pairs| ==> pairs[i].0 in rf && pairs[i].1 == Shift(rf[pairs[i].0], mode)
    ensures AssignAll(cache, pairs) == Assigned(Pass, Bumped(rf, prefix, ccy, mode))
  {
    var a := AssignAll(cache, pairs);
    var b := Bumped(rf, prefix, ccy, mode);
    SortedNamesAreDistinct(pairs);
    forall n | n in rf
      ensures a.cache[n] == b[n]
    {
      if n in NamesOf(pairs) {
        var i :| 0 <= i < |pairs| && NamesOf(pairs)[i] == n;
        LastValueOfDistinct(pairs, i);
      }
    }
    assert a.cache == b;
  }

  /** A bumped list built from the currency's factors by shifting each value. */
  predicate BumpsOf(bumped: RiskFactors, base: RiskFactors, mode: BumpMode)
  {
    |bumped| == |base| &&
    forall i :: 0 <= i < |base| ==> bumped[i] == (base[i].0, Shift(base[i].1, mode))
  }

  lemma BumpsKeepNames(bumped: RiskFactors, base: RiskFactors, mode: BumpMode)
    requires BumpsOf(bumped, base, mode)
    ensures NamesOf(bumped) == NamesOf(base)
  {
  }

  /** The ccy_set loop: the last three characters of each name of at least three. */
  method CollectCurrencies(base: RiskFactors) returns (ccySet: set<string>)
    ensures forall x :: x in ccySet <==> exists j :: 0 <= j < |base| && |base[j].0| >= 3 && Suffix3(base[j].0) == x
  {
    ccySet := {};
    var i := 0;
    while i < |base|
      invariant 0 <= i <= |base|
      invariant forall x :: x in ccySet <==> exists j :: 0 <= j < i && |base[j].0| >= 3 && Suffix3(base[j].0) == x
    {
      if |base[i].0| >= 3 {
        ccySet := ccySet + {Suffix3(base[i].0)};
      }
      i := i + 1;
    }
  }

  /** The first loop over ccy_base: push_back each factor with its value minus one bump. */
  method BumpDown(ccyBase: RiskFactors) returns (bumped: RiskFactors)
    ensures BumpsOf(bumped, ccyBase, Down)
  {
    bumped := [];
    var j := 0;
    while j < |ccyBase|
      invariant 0 <= j <= |ccyBase| && BumpsOf(bumped, ccyBase[..j], Down)
    {
      bumped := bumped + [(ccyBase[j].0, Sub(ccyBase[j].1, Num(BumpSize)))];
      j := j + 1;
    }
    assert ccyBase[..j] == ccyBase;
  }

  /**
   * The later loops over ccy_base: overwrite the value of each entry of
   * bumped in place, from the original value (plus one bump, or unchanged).
   */
  method Rebump(bumped: RiskFactors, ccyBase: RiskFactors, mode: BumpMode) returns (r: RiskFactors)
    requires |bumped| == |ccyBase| && NamesOf(bumped) == NamesOf(ccyBase)
    ensures BumpsOf(r, ccyBase, mode)
  {
    r := bumped;
    var j := 0;
    while j < |ccyBase|
      invariant 0 <= j <= |ccyBase| && |r| == |ccyBase|
      invariant forall m :: 0 <= m < j ==> r[m] == (ccyBase[m].0, Shift(ccyBase[m].1, mode))
      invariant forall m :: j <= m < |ccyBase| ==> r[m].0 == ccyBase[m].0
    {
      assert NamesOf(bumped)[j] == NamesOf(ccyBase)[j];
      r := r[j := (r[j].0, Shift(ccyBase[j].1, mode))];
      j := j + 1;
    }
  }

  /**
   * tmpmkt.set_risk_factors(bumped) with the currency's factors shifted:
   * the working copy then holds the original factors with that bump.
   */
  method ApplyBump(tmpmkt: Market, rf: map<string, Double>, prefix: string, ccy: string,
                   ccyBase: RiskFactors, bumped: RiskFactors, mode: BumpMode)
    requires tmpmkt.riskFactors.Keys == rf.Keys
    requires forall n :: n in rf && !Matches(n, Bucket(prefix, ccy)) ==> tmpmkt.riskFactors[n] == rf[n]
    requires StrictlySorted(NamesOf(ccyBase))
    requires forall n :: n in NamesOf(ccyBase) <==> n in rf && Matches(n, Bucket(prefix, ccy))
    requires forall i :: 0 <= i < |ccyBase| ==> ccyBase[i].0 in rf && ccyBase[i].1 == rf[ccyBase[i].0]
    requires BumpsOf(bumped, ccyBase, mode)
    modifies tmpmkt
    ensures tmpmkt.riskFactors == Bumped(rf, prefix, ccy, mode) && tmpmkt.curves == map[]
  {
    BumpsKeepNames(bumped, ccyBase, mode);
    AssignBucket(tmpmkt.riskFactors, rf, prefix, ccy, bumped, mode);
    var outcome := tmpmkt.SetRiskFactors(bumped);
  }

  /** The std::transform of pv_up and pv_dn into the PV01 vector. */
  method CentralDifferences(pvUp: seq<Double>, pvDn: seq<Double>) returns (v: seq<Double>)
    requires |pvUp| == |pvDn|
    ensures |v| == |pvUp|
    ensures forall m :: 0 <= m < |v| ==> v[m] == CentralDifference(pvUp[m], pvDn[m])
  {
    v := [];
    var j := 0;
    while j < |pvUp|
      invariant 0 <= j <= |pvUp| && |v| == j
      invariant forall m :: 0 <= m < j ==> v[m] == CentralDifference(pvUp[m], pvDn[m])
    {
      v := v + [CentralDifference(pvUp[j], pvDn[j])];
      j := j + 1;
    }
  }

  /**
   * The body of the currency loop: bump the working copy down, price, bump
   * it up, price, restore it, and take the central differences.
   */
  method BumpAndReprice(pricers: seq<Pricer>, mkt: Market, tmpmkt: Market, ratePrefix: string, ccy: string)
    returns (v: seq<Double>)
    requires tmpmkt != mkt && tmpmkt.riskFactors == mkt.riskFactors
    modifies tmpmkt
    ensures tmpmkt.riskFactors == mkt.riskFactors && tmpmkt.curves == map[]
    ensures v == Pv01Vector(pricers, mkt.riskFactors, ratePrefix, ccy)
  {
    var rf := mkt.riskFactors;
    var ccyBase := mkt.GetRiskFactors(Bucket(ratePrefix, ccy));

    var bumped := BumpDown(ccyBase);
    BumpsKeepNames(bumped, ccyBase, Down);
    ApplyBump(tmpmkt, rf, ratePrefix, ccy, ccyBase, bumped, Down);
    var pvDn := ComputePrices(pricers, tmpmkt);

    bumped := Rebump(bumped, ccyBase, Up);
    BumpsKeepNames(bumped, ccyBase, Up);
    ApplyBump(tmpmkt, rf, ratePrefix, ccy, ccyBase, bumped, Up);
    var pvUp := ComputePrices(pricers, tmpmkt);

    bumped := Rebump(bumped, ccyBase, Restore);
    ApplyBump(tmpmkt, rf, ratePrefix, ccy, ccyBase, bumped, Restore);
    RestoreIsOriginal(rf, ratePrefix, ccy);

    v := CentralDifferences(pvUp, pvDn);
  }

  /**
   * compute_pv01_parallel(pricers, mkt): for each currency of the rate
   * factors, in ascending order, one entry named "parallel " + prefix + ccy
   * holding each trade's central difference between the market with all
   * that currency's rates bumped up and bumped down.  Every bump goes to a
   * copy of the market and is undone before the next currency; the input
   * market is only read.
   */
  method ComputePv01Parallel(pricers: seq<Pricer>, mkt: Market, ratePrefix: string)
    returns (pv01: seq<(string, seq<Double>)>, ghost ccys: seq<string>)
    requires mkt.Valid()
    ensures StrictlySorted(ccys)
    ensures forall c :: c in ccys <==> c in CurrencySet(mkt.riskFactors, ratePrefix)
    ensures |pv01| == |ccys|
    ensures forall k :: 0 <= k < |pv01| ==>
              pv01[k] == (ParallelName(ratePrefix, ccys[k]), Pv01Vector(pricers, mkt.riskFactors, ratePrefix, ccys[k]))
  {
    var rf := mkt.riskFactors;
    var base := mkt.GetRiskFactors(RatePattern(ratePrefix, AnyCcy));
    var tmpmkt := new Market.Copy(mkt);

    var ccySet := CollectCurrencies(base);
    forall x
      ensures x in ccySet <==> x in CurrencySet(rf, ratePrefix)
    {
      if x in CurrencySet(rf, ratePrefix) {
        var n :| n in rf && Matches(n, RatePattern(ratePrefix, AnyCcy)) && |n| >= 3 && Suffix3(n) == x;
        var j :| 0 <= j < |base| && NamesOf(base)[j] == n;
      }
    }

    var ccyList := SortedElements(ccySet);
    ccys := ccyList;
    pv01 := [];
    var k := 0;
    while k < |ccyList|
      invariant 0 <= k <= |ccyList| && |pv01| == k
      invariant fresh(tmpmkt) && tmpmkt.riskFactors == rf
      invariant forall j :: 0 <= j < k ==>
                  pv01[j] == (ParallelName(ratePrefix, ccyList[j]), Pv01Vector(pricers, rf, ratePrefix, ccyList[j]))
    {
      pv01 := pv01 + [(ParallelName(ratePrefix, ccyList[k]), [])];
      var v := BumpAndReprice(pricers, mkt, tmpmkt, ratePrefix, ccyList[k]);
      pv01 := pv01[k := (pv01[k].0, v)];
      k := k + 1;
    }
  }

  // ---------------------------------------------------------------------
  // load_trade
  // ---------------------------------------------------------------------

  /** The trade types load_trade knows. */
  datatype TradeKind = Payment

  /**
   * load_trade: read the trade identifier from the current line and dispatch
   * on it; an identifier other than the payment trade's throws.  The value
   * of TradePayment::m_id is a parameter.
   */
  method LoadTrade(input: InStream, paymentId: nat) returns (r: Result<TradeKind, StreamError>)
    modifies input
    ensures var t := GetToken(Cursor(old(input.lineRest), old(input.lineGood)));
            Cursor(input.lineRest, input.lineGood) == t.1
            && (r.Success? <==> ParseUnsigned(t.0) == paymentId)
            && (r.Success? ==> r.value == Payment)
            && (r.Failure? ==> r.error == UnknownTradeType(ParseUnsigned(t.0)))
  {
    var id := input.ReadUnsigned();
    if id == paymentId {
      return Success(Payment);
    }
    return Failure(UnknownTradeType(id));
  }

  /**
   * The identifier a trade's save wrote first, in decimal, is the one
   * load_trade reads back, so a saved payment is dispatched as a payment.
   */
  lemma SavedIdDispatches(paymentId: nat, more: string)
    requires paymentId <= MaxUnsigned
    ensures var t := GetToken(Cursor(Decimal(paymentId) + [Separator] + more, true));
            ParseUnsigned(t.0) == paymentId && t.1 == Cursor(more, true)
  {
    var s := Decimal(paymentId);
    DigitsHaveNoSpace(s);
    assert Separator !in s;
    TokenRoundTrip(s, more);
    UnsignedRoundTrip(paymentId);
  }
}
