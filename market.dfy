/**
 * minirisk::Market: a cache of risk factors filled lazily from the market
 * data server, and a cache of curves filled lazily from the risk factors.
 * Setting risk factors empties the curve cache first.
 */
module Markets {
  import opened Wrappers
  import opened Text
  import opened Doubles
  import opened CurveDiscounts

  datatype MarketError =
    | FeedUnavailable(name: string)
    | UnknownQuote(name: string)
    | InvalidTenorNumber(key: string)
    | TenorOutOfRange(key: string)
    | InvalidTenorUnit(key: string)
    | UnknownRiskFactor(name: string)
    | TypeMismatch(name: string)
    | BadCurveName(error: CurveError)

  // ---------------------------------------------------------------------
  // The two name patterns the core matches against
  // ---------------------------------------------------------------------

  /** The currency part of a rate pattern: `[A-Z]{3}` or a literal code. */
  datatype CcyPattern = AnyCcy | Ccy(code: string)

  /** The regular expression prefix + "\\d+[DWMY]." + currency, matched against a whole name. */
  datatype RatePattern = RatePattern(prefix: string, ccy: CcyPattern)

  predicate IsUpper(c: char) { 'A' <= c <= 'Z' }

  predicate IsTenorUnit(c: char) { c == 'D' || c == 'W' || c == 'M' || c == 'Y' }

  /** The characters `.` does not match in the ECMAScript grammar used by std::regex (among ASCII). */
  predicate IsLineTerminator(c: char) { c == '\n' || c == '\r' }

  function CcyLength(ccy: CcyPattern): nat
  {
    match ccy
    case AnyCcy => 3
    case Ccy(code) => |code|
  }

  predicate CcyMatches(s: string, ccy: CcyPattern)
  {
    match ccy
    case AnyCcy => |s| == 3 && forall i :: 0 <= i < 3 ==> IsUpper(s[i])
    case Ccy(code) => s == code
  }

  /** std::regex_match(name, prefix + "\\d+[DWMY]." + ccy). */
  predicate Matches(name: string, p: RatePattern)
  {
    var k := CcyLength(p.ccy);
    |name| >= |p.prefix| + 3 + k
    && name[..|p.prefix|] == p.prefix
    && AllDigits(name[|p.prefix|..|name| - k - 2])
    && IsTenorUnit(name[|name| - k - 2])
    && !IsLineTerminator(name[|name| - k - 1])
    && CcyMatches(name[|name| - k..], p.ccy)
  }

  /** A rate name: prefix, a tenor n followed by its unit letter, one separator character, the currency. */
  function RateName(prefix: string, n: nat, unit: char, sep: char, ccy: string): string
  {
    prefix + Decimal(n) + [unit] + [sep] + ccy
  }

  lemma RateNameMatches(prefix: string, n: nat, unit: char, sep: char, ccy: string)
    requires IsTenorUnit(unit) && !IsLineTerminator(sep)
    ensures Matches(RateName(prefix, n, unit, sep, ccy), RatePattern(prefix, Ccy(ccy)))
  {
    var name := RateName(prefix, n, unit, sep, ccy);
    var k := |ccy|;
    assert name[..|prefix|] == prefix;
    assert name[|prefix|..|name| - k - 2] == Decimal(n);
    assert name[|name| - k..] == ccy;
  }

  /**
   * A currency bucket: the names matching the pattern for one upper-case
   * code are exactly the names matching `[A-Z]{3}` whose last three
   * characters are that code.
   */
  lemma BucketIsSuffix(name: string, prefix: string, code: string)
    requires |code| == 3 && forall i :: 0 <= i < 3 ==> IsUpper(code[i])
    ensures Matches(name, RatePattern(prefix, Ccy(code))) <==>
              Matches(name, RatePattern(prefix, AnyCcy)) && name[|name| - 3..] == code
  {
  }

  // ---------------------------------------------------------------------
  // The market data server (an external collaborator)
  // ---------------------------------------------------------------------

  /** The server as the core consumes it: its names in match order, and its quotes. */
  datatype Server = Server(names: seq<string>, quotes: map<string, Double>)
  {
    /** get(name): fails for a name the server does not quote. */
    function Get(name: string): Result<Double, MarketError>
    {
      if name in quotes then Success(quotes[name]) else Failure(UnknownQuote(name))
    }

    /** match(pattern): the server's names that match, in the server's order. */
    function Match(p: RatePattern): seq<string>
    {
      Filter(names, p)
    }
  }

  function Filter(names: seq<string>, p: RatePattern): (r: seq<string>)
    ensures forall n :: n in r <==> n in names && Matches(n, p)
    ensures |r| <= |names|
  {
    if names == [] then []
    else (if Matches(names[0], p) then [names[0]] else []) + Filter(names[1..], p)
  }

  // ---------------------------------------------------------------------
  // from_mds
  // ---------------------------------------------------------------------

  datatype Fetched = Fetched(value: Result<Double, MarketError>, cache: map<string, Double>)

  /**
   * from_mds(name): a cached name returns its cached value; a new name is
   * first cached as NaN, then fetched from the server, which fails when
   * there is no server (and leaves the NaN cached).
   */
  function Fetch(cache: map<string, Double>, mds: Option<Server>, name: string): (f: Fetched)
    ensures name in f.cache
    ensures forall n :: n != name ==> (n in f.cache <==> n in cache)
    ensures forall n :: n in cache ==> n in f.cache && f.cache[n] == cache[n]
    ensures f.value.Success? ==> f.value.value == f.cache[name]
    ensures f.value.Failure? ==> f.cache[name] == NaN
    ensures name in cache ==> f.value == Success(cache[name])
    ensures name !in cache ==> (f.value.Success? <==> mds.Some? && name in mds.value.quotes)
    ensures name !in cache && mds.None? ==> f.value == Failure(FeedUnavailable(name))
  {
    if name in cache then Fetched(Success(cache[name]), cache)
    else
      var placeholder := cache[name := NaN];
      if mds.None? then Fetched(Failure(FeedUnavailable(name)), placeholder)
      else
        match mds.value.Get(name)
        case Success(v) => Fetched(Success(v), cache[name := v])
        case Failure(e) => Fetched(Failure(e), placeholder)
  }

  /**
   * A second from_mds of the same name never fails and changes nothing: it
   * returns what the first one cached, which is NaN when the first one failed.
   */
  lemma FetchTwice(cache: map<string, Double>, mds: Option<Server>, name: string)
    ensures var f := Fetch(cache, mds, name);
            Fetch(f.cache, mds, name) == Fetched(Success(f.cache[name]), f.cache)
            && (f.value.Failure? ==> Fetch(f.cache, mds, name).value == Success(NaN))
  {
  }

  // ---------------------------------------------------------------------
  // to_days
  // ---------------------------------------------------------------------

  const IntMax: nat := 0x7fff_ffff
  const TwoTo32: nat := 0x1_0000_0000

  /** Days per unit letter: D 1, W 7, M 30, Y 365. */
  function Period(c: char): nat
    requires IsTenorUnit(c)
  {
    if c == 'D' then 1 else if c == 'W' then 7 else if c == 'M' then 30 else 365
  }

  /**
   * to_days(key, ccy): the tenor code lies between the prefix and the
   * separator before the currency; std::stoi parses its digits (failing when
   * there are none or when they exceed INT_MAX), then the unit letter scales
   * them, in unsigned (32-bit) arithmetic.  The precondition asks for a key
   * long enough to hold the prefix, a tenor code, a separator and the
   * currency.  For a shorter key the substr length wraps in size_t: below
   * the prefix's length substr throws out_of_range; at the prefix's length,
   * and at one character short of this bound, back() reads an empty
   * string; in between, the whole rest of the key is parsed.
   */
  function ToDays(key: string, ccy: string, prefix: string): (r: Result<nat, MarketError>)
    requires |key| >= |prefix| + |ccy| + 2
    ensures r.Success? ==> r.value < TwoTo32
    ensures !IsTenorUnit(key[|key| - |ccy| - 2]) ==> r.Failure?
    ensures r.Success? ==> LeadingDigits(key[|prefix|..|key| - |ccy| - 2]) != []
  {
    var middle := key[|prefix|..|key| - |ccy| - 1];
    var unit := middle[|middle| - 1];
    var digits := LeadingDigits(middle[..|middle| - 1]);
    if digits == [] then Failure(InvalidTenorNumber(key))
    else if DigitsValue(digits) > IntMax then Failure(TenorOutOfRange(key))
    else if !IsTenorUnit(unit) then Failure(InvalidTenorUnit(key))
    else Success(DigitsValue(digits) * Period(unit) % TwoTo32)
  }

  /**
   * The tenor code of a key prefix + digits + unit + sep + ccy: the digits
   * (leading zeros allowed, as `\d+` matches them), then the unit letter.
   */
  lemma TenorCodeOf(prefix: string, digits: string, unit: char, sep: char, ccy: string)
    requires AllDigits(digits)
    ensures var key := prefix + digits + [unit] + [sep] + ccy;
            var middle := key[|prefix|..|key| - |ccy| - 1];
            |middle| > 0 && middle[|middle| - 1] == unit
            && LeadingDigits(middle[..|middle| - 1]) == digits
  {
    var key := prefix + digits + [unit] + [sep] + ccy;
    var middle := key[|prefix|..|key| - |ccy| - 1];
    assert middle == digits + [unit];
    assert middle[..|middle| - 1] == digits + [];
    LeadingDigitsOfDigits(digits, []);
  }

  /**
   * A key with a digit string of value at most INT_MAX and a unit D/W/M/Y
   * gives the digits' value (std::stoi reads leading zeros) times the
   * unit's days, modulo 2^32.
   */
  lemma ToDaysOfTenorCode(prefix: string, digits: string, unit: char, sep: char, ccy: string)
    requires digits != [] && AllDigits(digits) && IsTenorUnit(unit) && DigitsValue(digits) <= IntMax
    ensures ToDays(prefix + digits + [unit] + [sep] + ccy, ccy, prefix)
            == Success(DigitsValue(digits) * Period(unit) % TwoTo32)
  {
    TenorCodeOf(prefix, digits, unit, sep, ccy);
  }

  /** A digit string above INT_MAX makes std::stoi throw out_of_range, whatever the unit. */
  lemma ToDaysRejectsHugeDigits(prefix: string, digits: string, unit: char, sep: char, ccy: string)
    requires digits != [] && AllDigits(digits) && DigitsValue(digits) > IntMax
    ensures var key := prefix + digits + [unit] + [sep] + ccy;
            ToDays(key, ccy, prefix) == Failure(TenorOutOfRange(key))
  {
    TenorCodeOf(prefix, digits, unit, sep, ccy);
  }

  /** The tenor n with unit u of a rate name gives n times the unit's days. */
  lemma ToDaysOfRateName(prefix: string, n: nat, unit: char, sep: char, ccy: string)
    requires IsTenorUnit(unit) && n <= IntMax
    ensures ToDays(RateName(prefix, n, unit, sep, ccy), ccy, prefix) == Success(n * Period(unit) % TwoTo32)
  {
    DecimalRoundTrip(n);
    ToDaysOfTenorCode(prefix, Decimal(n), unit, sep, ccy);
  }

  /** A tenor above INT_MAX makes std::stoi throw out_of_range. */
  lemma ToDaysRejectsHugeTenor(prefix: string, n: nat, unit: char, sep: char, ccy: string)
    requires n > IntMax
    ensures ToDays(RateName(prefix, n, unit, sep, ccy), ccy, prefix) == Failure(TenorOutOfRange(RateName(prefix, n, unit, sep, ccy)))
  {
    DecimalRoundTrip(n);
    ToDaysRejectsHugeDigits(prefix, Decimal(n), unit, sep, ccy);
  }

  // ---------------------------------------------------------------------
  // get_yield
  // ---------------------------------------------------------------------

  /** The keys of the knot map. */
  function Tenors(knots: seq<Knot>): set<nat>
  {
    if knots == [] then {} else {knots[0].tenor} + Tenors(knots[1..])
  }

  /** Every knot lies strictly after tenor b. */
  predicate Above(knots: seq<Knot>, b: nat)
  {
    forall i :: 0 <= i < |knots| ==> b < knots[i].tenor
  }

  /** std::map::emplace: inserts (t, v) in order unless t is already a key, in which case nothing changes. */
  function Emplace(knots: seq<Knot>, t: nat, v: Double): seq<Knot>
  {
    if knots == [] then [Knot(t, v)]
    else if t < knots[0].tenor then [Knot(t, v)] + knots
    else if t == knots[0].tenor then knots
    else [knots[0]] + Emplace(knots[1..], t, v)
  }

  /** A bound below every key and below t stays below every key after emplace. */
  lemma {:induction false} EmplaceAbove(knots: seq<Knot>, t: nat, v: Double, b: nat)
    requires Above(knots, b) && b < t
    ensures Above(Emplace(knots, t, v), b)
  {
    if knots != [] && t > knots[0].tenor {
      EmplaceAbove(knots[1..], t, v, b);
    }
  }

  /** emplace keeps the keys strictly increasing. */
  lemma {:induction false} EmplaceKeepsOrder(knots: seq<Knot>, t: nat, v: Double)
    requires Increasing(knots)
    ensures Increasing(Emplace(knots, t, v))
  {
    if knots != [] && t > knots[0].tenor {
      var tail := Emplace(knots[1..], t, v);
      EmplaceKeepsOrder(knots[1..], t, v);
      EmplaceAbove(knots[1..], t, v, knots[0].tenor);
      assert Above(tail, knots[0].tenor);
      assert Emplace(knots, t, v) == [knots[0]] + tail;
    }
  }

  /**
   * emplace adds t to the keys and the knot (t, v) to the map unless t is
   * already a key, in which case the map is unchanged; no knot is lost.
   */
  lemma {:induction false} EmplaceContents(knots: seq<Knot>, t: nat, v: Double)
    requires Increasing(knots)
    ensures Tenors(Emplace(knots, t, v)) == Tenors(knots) + {t}
    ensures t in Tenors(knots) ==> Emplace(knots, t, v) == knots
    ensures t !in Tenors(knots) ==> Knot(t, v) in Emplace(knots, t, v)
    ensures forall k :: k in knots ==> k in Emplace(knots, t, v)
    ensures forall k :: k in Emplace(knots, t, v) ==> k in knots || k == Knot(t, v)
  {
    if knots != [] {
      assert knots == [knots[0]] + knots[1..];
      if t < knots[0].tenor {
        assert Emplace(knots, t, v)[1..] == knots;
        assert Above(knots, t) by {
          forall i | 0 <= i < |knots| ensures t < knots[i].tenor {
            assert i == 0 || knots[0].tenor < knots[i].tenor;
          }
        }
        TenorsAbove(knots, t);
      } else if t > knots[0].tenor {
        EmplaceContents(knots[1..], t, v);
        assert Emplace(knots, t, v)[1..] == Emplace(knots[1..], t, v);
      }
    }
  }

  /** No key of an increasing map lies below its first key. */
  lemma {:induction false} TenorsAbove(knots: seq<Knot>, b: nat)
    requires Above(knots, b)
    ensures b !in Tenors(knots)
  {
    if knots != [] {
      TenorsAbove(knots[1..], b);
    }
  }

  /** With emplace the first value for a tenor wins: a second emplace of it changes nothing. */
  lemma EmplaceFirstWins(knots: seq<Knot>, t: nat, v1: Double, v2: Double)
    requires Increasing(knots)
    ensures Emplace(Emplace(knots, t, v1), t, v2) == Emplace(knots, t, v1)
  {
    EmplaceContents(knots, t, v1);
    EmplaceKeepsOrder(knots, t, v1);
    EmplaceContents(Emplace(knots, t, v1), t, v2);
  }

  /** The knot get_yield stores for a rate r at tenor t: t * r / 365. */
  function KnotValue(t: nat, rate: Double): Double
  {
    Div(Scale(rate, t as real), 365.0)
  }

  datatype YieldBuild = YieldBuild(result: Result<seq<Knot>, MarketError>, cache: map<string, Double>)

  predicate LongEnough(keys: seq<string>, ccy: string, prefix: string)
  {
    forall key :: key in keys ==> |key| >= |prefix| + |ccy| + 2
  }

  /**
   * A key the loop of get_yield can take: to_days parses it and from_mds
   * finds it, in the cache or on the server.
   */
  predicate KeyUsable(key: string, ccy: string, prefix: string, cache: map<string, Double>, mds: Option<Server>)
    requires |key| >= |prefix| + |ccy| + 2
  {
    ToDays(key, ccy, prefix).Success? && (key in cache || (mds.Some? && key in mds.value.quotes))
  }

  /** The error the loop of get_yield stops with at a key it cannot take. */
  function KeyError(key: string, ccy: string, prefix: string, mds: Option<Server>): MarketError
    requires |key| >= |prefix| + |ccy| + 2
  {
    match ToDays(key, ccy, prefix)
    case Failure(e) => e
    case Success(_) => if mds.None? then FeedUnavailable(key) else UnknownQuote(key)
  }

  /**
   * One turn of the loop of get_yield: to_days of the key, then from_mds of
   * it, then emplace of the knot (t, t * rate / 365); a failure of either
   * ends the loop.
   */
  function YieldStep(key: string, ccy: string, prefix: string, knots: seq<Knot>,
                     cache: map<string, Double>, mds: Option<Server>): (b: YieldBuild)
    requires Increasing(knots) && |key| >= |prefix| + |ccy| + 2
    ensures b.result.Success? <==> KeyUsable(key, ccy, prefix, cache, mds)
    ensures b.result.Failure? ==> b.result.error == KeyError(key, ccy, prefix, mds)
    ensures b.result.Success? ==> Increasing(b.result.value) && key in b.cache
    ensures b.result.Success? ==> Fetch(cache, mds, key) == Fetched(Success(b.cache[key]), b.cache)
    ensures b.result.Success? ==>
              var t := ToDays(key, ccy, prefix).value;
              && Tenors(b.result.value) == Tenors(knots) + {t}
              && (t in Tenors(knots) ==> b.result.value == knots)
              && (t !in Tenors(knots) ==> Knot(t, KnotValue(t, b.cache[key])) in b.result.value)
              && (forall k :: k in b.result.value ==> k in knots || k == Knot(t, KnotValue(t, b.cache[key])))
    ensures b.result.Success? ==> forall k :: k in knots ==> k in b.result.value
    ensures forall n :: n in cache ==> n in b.cache && b.cache[n] == cache[n]
    ensures forall n :: n != key ==> (n in b.cache <==> n in cache)
  {
    match ToDays(key, ccy, prefix)
    case Failure(e) => YieldBuild(Failure(e), cache)
    case Success(t) =>
      var f := Fetch(cache, mds, key);
      match f.value
      case Failure(e) => YieldBuild(Failure(e), f.cache)
      case Success(v) =>
        EmplaceKeepsOrder(knots, t, KnotValue(t, v));
        EmplaceContents(knots, t, KnotValue(t, v));
        YieldBuild(Success(Emplace(knots, t, KnotValue(t, v))), f.cache)
  }

  /**
   * The loop of get_yield over the matched keys; the first failure ends it,
   * with the risk factors fetched so far left cached.
   */
  function BuildYield(keys: seq<string>, ccy: string, prefix: string, knots: seq<Knot>,
                      cache: map<string, Double>, mds: Option<Server>): (b: YieldBuild)
    requires Increasing(knots) && LongEnough(keys, ccy, prefix)
    ensures b.result.Success? ==> Increasing(b.result.value)
    ensures b.result.Success? ==> forall k :: k in knots ==> k in b.result.value
    ensures forall n :: n in cache ==> n in b.cache && b.cache[n] == cache[n]
    ensures b.result.Success? ==> forall key :: key in keys ==> key in b.cache
    decreases |keys|
  {
    if keys == [] then YieldBuild(Success(knots), cache)
    else
      var step := YieldStep(keys[0], ccy, prefix, knots, cache, mds);
      if step.result.Failure? then step
      else
        var b := BuildYield(keys[1..], ccy, prefix, step.result.value, step.cache, mds);
        assert forall key :: key in keys ==> key == keys[0] || key in keys[1..];
        b
  }

  /** Every key's tenor becomes a knot of the yield curve, and no other tenor does. */
  lemma {:induction false} YieldTenors(keys: seq<string>, ccy: string, prefix: string, knots: seq<Knot>,
                                       cache: map<string, Double>, mds: Option<Server>)
    requires Increasing(knots) && LongEnough(keys, ccy, prefix)
    requires BuildYield(keys, ccy, prefix, knots, cache, mds).result.Success?
    ensures Tenors(BuildYield(keys, ccy, prefix, knots, cache, mds).result.value) == Tenors(knots) + KeyTenors(keys, ccy, prefix)
    decreases |keys|
  {
    if keys != [] {
      var t := ToDays(keys[0], ccy, prefix).value;
      var step := YieldStep(keys[0], ccy, prefix, knots, cache, mds);
      EmplaceContents(knots, t, KnotValue(t, Fetch(cache, mds, keys[0]).value.value));
      YieldTenors(keys[1..], ccy, prefix, step.result.value, step.cache, mds);
    }
  }

  /** Key i is the first of the keys whose tenor to_days gives as t. */
  predicate FirstKeyFor(keys: seq<string>, ccy: string, prefix: string, t: nat, i: nat)
    requires LongEnough(keys, ccy, prefix)
  {
    i < |keys| && ToDays(keys[i], ccy, prefix) == Success(t)
    && forall j :: 0 <= j < i ==> ToDays(keys[j], ccy, prefix) != Success(t)
  }

  /**
   * One turn of the loop of get_yield, then the rest: the loop with its
   * first key taken apart.
   */
  lemma BuildYieldFirst(keys: seq<string>, ccy: string, prefix: string, knots: seq<Knot>,
                        cache: map<string, Double>, mds: Option<Server>)
    requires Increasing(knots) && LongEnough(keys, ccy, prefix) && keys != []
    ensures LongEnough(keys[1..], ccy, prefix)
    ensures var step := YieldStep(keys[0], ccy, prefix, knots, cache, mds);
            BuildYield(keys, ccy, prefix, knots, cache, mds)
            == if step.result.Failure? then step
               else BuildYield(keys[1..], ccy, prefix, step.result.value, step.cache, mds)
  {
    assert forall key :: key in keys[1..] ==> key in keys;
  }

  /**
   * A turn that succeeds caches its key and nothing else, so the keys the
   * rest of the loop can take are the same before and after it.
   */
  lemma UsableAfterStep(keys: seq<string>, ccy: string, prefix: string, key: string,
                        cache: map<string, Double>, after: map<string, Double>, mds: Option<Server>)
    requires LongEnough(keys, ccy, prefix) && |key| >= |prefix| + |ccy| + 2
    requires KeyUsable(key, ccy, prefix, cache, mds) && key in after
    requires forall n :: n != key ==> (n in after <==> n in cache)
    ensures forall i :: 0 <= i < |keys| ==>
              (KeyUsable(keys[i], ccy, prefix, after, mds) <==> KeyUsable(keys[i], ccy, prefix, cache, mds))
  {
    forall i | 0 <= i < |keys|
      ensures KeyUsable(keys[i], ccy, prefix, after, mds) <==> KeyUsable(keys[i], ccy, prefix, cache, mds)
    {
      assert keys[i] in keys;
    }
  }

  /**
   * Behind a key the loop can take, which it caches and nothing else, the
   * rest of the keys can all be taken afterwards iff all the keys can be
   * taken before.
   */
  lemma AllUsableShift(keys: seq<string>, ccy: string, prefix: string, cache: map<string, Double>,
                       after: map<string, Double>, mds: Option<Server>)
    requires LongEnough(keys, ccy, prefix) && keys != [] && LongEnough(keys[1..], ccy, prefix)
    requires KeyUsable(keys[0], ccy, prefix, cache, mds) && keys[0] in after
    requires forall n :: n != keys[0] ==> (n in after <==> n in cache)
    ensures (forall i :: 0 <= i < |keys[1..]| ==> KeyUsable(keys[1..][i], ccy, prefix, after, mds))
            <==> (forall i :: 0 <= i < |keys| ==> KeyUsable(keys[i], ccy, prefix, cache, mds))
  {
    UsableAfterStep(keys[1..], ccy, prefix, keys[0], cache, after, mds);
    assert forall i :: 1 <= i < |keys| ==> keys[i] == keys[1..][i - 1];
  }

  /** The loop of get_yield succeeds exactly when every key is one it can take. */
  lemma {:induction false} YieldSucceeds(keys: seq<string>, ccy: string, prefix: string, knots: seq<Knot>,
                                         cache: map<string, Double>, mds: Option<Server>)
    requires Increasing(knots) && LongEnough(keys, ccy, prefix)
    ensures BuildYield(keys, ccy, prefix, knots, cache, mds).result.Success?
            <==> forall i :: 0 <= i < |keys| ==> KeyUsable(keys[i], ccy, prefix, cache, mds)
    decreases |keys|
  {
    if keys != [] {
      BuildYieldFirst(keys, ccy, prefix, knots, cache, mds);
      var step := YieldStep(keys[0], ccy, prefix, knots, cache, mds);
      if step.result.Success? {
        YieldSucceeds(keys[1..], ccy, prefix, step.result.value, step.cache, mds);
        AllUsableShift(keys, ccy, prefix, cache, step.cache, mds);
      }
    }
  }

  /** Key i is the first of the keys that the loop of get_yield cannot take. */
  predicate FirstUnusable(keys: seq<string>, ccy: string, prefix: string,
                          cache: map<string, Double>, mds: Option<Server>, i: nat)
    requires LongEnough(keys, ccy, prefix)
  {
    i < |keys| && !KeyUsable(keys[i], ccy, prefix, cache, mds)
    && forall j :: 0 <= j < i ==> KeyUsable(keys[j], ccy, prefix, cache, mds)
  }

  /**
   * Behind a key the loop can take, which it caches and nothing else, the
   * first key the loop cannot take moves one place on.
   */
  lemma FirstUnusableShift(keys: seq<string>, ccy: string, prefix: string, cache: map<string, Double>,
                           after: map<string, Double>, mds: Option<Server>, i: nat)
    requires LongEnough(keys, ccy, prefix) && keys != [] && LongEnough(keys[1..], ccy, prefix)
    requires KeyUsable(keys[0], ccy, prefix, cache, mds) && keys[0] in after
    requires forall n :: n != keys[0] ==> (n in after <==> n in cache)
    requires FirstUnusable(keys[1..], ccy, prefix, after, mds, i)
    ensures FirstUnusable(keys, ccy, prefix, cache, mds, i + 1) && keys[i + 1] == keys[1..][i]
  {
    UsableAfterStep(keys[1..], ccy, prefix, keys[0], cache, after, mds);
    assert forall j :: 1 <= j < |keys| ==> keys[j] == keys[1..][j - 1];
  }

  /**
   * When the loop of get_yield fails, it stops with the error of the first
   * key it cannot take.
   */
  lemma {:induction false} YieldFailsAt(keys: seq<string>, ccy: string, prefix: string, knots: seq<Knot>,
                                        cache: map<string, Double>, mds: Option<Server>)
    requires Increasing(knots) && LongEnough(keys, ccy, prefix)
    requires BuildYield(keys, ccy, prefix, knots, cache, mds).result.Failure?
    ensures exists i: nat :: FirstUnusable(keys, ccy, prefix, cache, mds, i)
                             && BuildYield(keys, ccy, prefix, knots, cache, mds).result.error == KeyError(keys[i], ccy, prefix, mds)
    decreases |keys|
  {
    BuildYieldFirst(keys, ccy, prefix, knots, cache, mds);
    var step := YieldStep(keys[0], ccy, prefix, knots, cache, mds);
    if step.result.Success? {
      var rest := keys[1..];
      var e := BuildYield(rest, ccy, prefix, step.result.value, step.cache, mds).result.error;
      YieldFailsAt(rest, ccy, prefix, step.result.value, step.cache, mds);
      var i: nat :| FirstUnusable(rest, ccy, prefix, step.cache, mds, i) && e == KeyError(rest[i], ccy, prefix, mds);
      FirstUnusableShift(keys, ccy, prefix, cache, step.cache, mds, i);
    } else {
      assert FirstUnusable(keys, ccy, prefix, cache, mds, 0);
    }
  }

  /** Behind a key of another tenor, the first key of tenor t moves one place on. */
  lemma FirstKeyShift(keys: seq<string>, ccy: string, prefix: string, t: nat, i: nat)
    requires LongEnough(keys, ccy, prefix) && keys != [] && LongEnough(keys[1..], ccy, prefix)
    requires ToDays(keys[0], ccy, prefix) != Success(t)
    ensures FirstKeyFor(keys[1..], ccy, prefix, t, i) <==> FirstKeyFor(keys, ccy, prefix, t, i + 1)
    ensures i < |keys[1..]| ==> keys[i + 1] == keys[1..][i]
  {
    assert forall j :: 1 <= j < |keys| ==> keys[j] == keys[1..][j - 1];
  }

  /**
   * Each key that is the first to give its tenor t, when t is not yet a
   * knot, leaves the knot (t, t * rate / 365) in the yield curve, where rate
   * is what from_mds returned for that key.
   */
  lemma {:induction false} YieldKnotOfKey(keys: seq<string>, ccy: string, prefix: string, knots: seq<Knot>,
                                          cache: map<string, Double>, mds: Option<Server>, t: nat, i: nat)
    requires Increasing(knots) && LongEnough(keys, ccy, prefix)
    requires BuildYield(keys, ccy, prefix, knots, cache, mds).result.Success?
    requires FirstKeyFor(keys, ccy, prefix, t, i) && t !in Tenors(knots)
    ensures var b := BuildYield(keys, ccy, prefix, knots, cache, mds);
            keys[i] in b.cache && Knot(t, KnotValue(t, b.cache[keys[i]])) in b.result.value
    decreases |keys|
  {
    BuildYieldFirst(keys, ccy, prefix, knots, cache, mds);
    var step := YieldStep(keys[0], ccy, prefix, knots, cache, mds);
    if i > 0 {
      FirstKeyShift(keys, ccy, prefix, t, i - 1);
      YieldKnotOfKey(keys[1..], ccy, prefix, step.result.value, step.cache, mds, t, i - 1);
    }
  }

  /**
   * Every knot get_yield adds comes from the first key that gives its tenor
   * (the tenor was not a knot before), and its value is t * rate / 365 for
   * the rate from_mds returned for that key.
   */
  lemma {:induction false} YieldKnotsFromKeys(keys: seq<string>, ccy: string, prefix: string, knots: seq<Knot>,
                                              cache: map<string, Double>, mds: Option<Server>)
    requires Increasing(knots) && LongEnough(keys, ccy, prefix)
    requires BuildYield(keys, ccy, prefix, knots, cache, mds).result.Success?
    ensures var b := BuildYield(keys, ccy, prefix, knots, cache, mds);
            forall kn :: kn in b.result.value ==>
              kn in knots
              || (kn.tenor !in Tenors(knots)
                  && exists i: nat :: FirstKeyFor(keys, ccy, prefix, kn.tenor, i) && keys[i] in b.cache
                                      && kn.rate == KnotValue(kn.tenor, b.cache[keys[i]]))
    decreases |keys|
  {
    if keys != [] {
      BuildYieldFirst(keys, ccy, prefix, knots, cache, mds);
      var step := YieldStep(keys[0], ccy, prefix, knots, cache, mds);
      var rest := keys[1..];
      YieldKnotsFromKeys(rest, ccy, prefix, step.result.value, step.cache, mds);
      var b := BuildYield(rest, ccy, prefix, step.result.value, step.cache, mds);
      forall kn | kn in b.result.value && kn !in knots
        ensures kn.tenor !in Tenors(knots)
        ensures exists i: nat :: FirstKeyFor(keys, ccy, prefix, kn.tenor, i) && keys[i] in b.cache
                                 && kn.rate == KnotValue(kn.tenor, b.cache[keys[i]])
      {
        KnotAdded(keys, ccy, prefix, knots, cache, mds, b.cache, kn);
      }
    }
  }

  /** YieldKnotsFromKeys for one knot, given the claim for the rest of the keys. */
  lemma KnotAdded(keys: seq<string>, ccy: string, prefix: string, knots: seq<Knot>,
                  cache: map<string, Double>, mds: Option<Server>, final: map<string, Double>, kn: Knot)
    requires Increasing(knots) && LongEnough(keys, ccy, prefix) && keys != [] && LongEnough(keys[1..], ccy, prefix)
    requires YieldStep(keys[0], ccy, prefix, knots, cache, mds).result.Success?
    requires var step := YieldStep(keys[0], ccy, prefix, knots, cache, mds);
             && keys[0] in final && final[keys[0]] == step.cache[keys[0]]
             && (kn in step.result.value
                 || (kn.tenor !in Tenors(step.result.value)
                     && exists i: nat :: FirstKeyFor(keys[1..], ccy, prefix, kn.tenor, i) && keys[1..][i] in final
                                         && kn.rate == KnotValue(kn.tenor, final[keys[1..][i]])))
    requires kn !in knots
    ensures kn.tenor !in Tenors(knots)
    ensures exists i: nat :: FirstKeyFor(keys, ccy, prefix, kn.tenor, i) && keys[i] in final
                             && kn.rate == KnotValue(kn.tenor, final[keys[i]])
  {
    var step := YieldStep(keys[0], ccy, prefix, knots, cache, mds);
    var t0 := ToDays(keys[0], ccy, prefix).value;
    if kn in step.result.value {
      assert kn == Knot(t0, KnotValue(t0, step.cache[keys[0]]));
      assert FirstKeyFor(keys, ccy, prefix, kn.tenor, 0);
    } else {
      var i: nat :| FirstKeyFor(keys[1..], ccy, prefix, kn.tenor, i) && keys[1..][i] in final
                    && kn.rate == KnotValue(kn.tenor, final[keys[1..][i]]);
      FirstKeyShift(keys, ccy, prefix, kn.tenor, i);
    }
  }

  /** The tenors to_days gives the keys (the ones it can parse). */
  function KeyTenors(keys: seq<string>, ccy: string, prefix: string): set<nat>
    requires LongEnough(keys, ccy, prefix)
    decreases |keys|
  {
    if keys == [] then {}
    else
      (match ToDays(keys[0], ccy, prefix)
       case Success(t) => {t}
       case Failure(_) => {})
      + KeyTenors(keys[1..], ccy, prefix)
  }

  // ---------------------------------------------------------------------
  // set_risk_factors
  // ---------------------------------------------------------------------

  type RiskFactors = seq<(string, Double)>

  function NamesOf(pairs: RiskFactors): (names: seq<string>)
    ensures |names| == |pairs|
    ensures forall i :: 0 <= i < |pairs| ==> names[i] == pairs[i].0
  {
    seq(|pairs|, i requires 0 <= i < |pairs| => pairs[i].0)
  }

  lemma NamesOfCons(pairs: RiskFactors)
    requires pairs != []
    ensures NamesOf(pairs) == [pairs[0].0] + NamesOf(pairs[1..])
  {
  }

  lemma NamesOfSnoc(pairs: RiskFactors, last: (string, Double))
    ensures NamesOf(pairs + [last]) == NamesOf(pairs) + [last.0]
  {
  }

  /** A key of an ascending sequence follows every name taken from before it. */
  lemma SortedSnoc(names: seq<string>, keys: seq<string>, i: nat)
    requires StrictlySorted(keys) && i < |keys| && StrictlySorted(names)
    requires forall n :: n in names ==> n in keys[..i]
    ensures StrictlySorted(names + [keys[i]])
  {
    forall j | 0 <= j < |names| ensures LexLess(names[j], keys[i]) {
      assert names[j] in keys[..i];
      var m :| 0 <= m < i && keys[m] == names[j];
    }
  }

  /** The value the last pair naming n gives it. */
  function LastValue(pairs: RiskFactors, n: string): Double
    requires n in NamesOf(pairs)
  {
    NamesOfCons(pairs);
    if n in NamesOf(pairs[1..]) then LastValue(pairs[1..], n) else pairs[0].1
  }

  datatype Assigned = Assigned(outcome: Outcome<MarketError>, cache: map<string, Double>)

  /**
   * The loop of set_risk_factors: each pair overwrites a cached risk factor,
   * and the first name that is not cached fails, with the earlier pairs
   * already applied.
   */
  function AssignAll(cache: map<string, Double>, pairs: RiskFactors): (a: Assigned)
    ensures a.cache.Keys == cache.Keys
    ensures a.outcome.Pass? <==> forall i :: 0 <= i < |pairs| ==> pairs[i].0 in cache
    ensures forall n :: n in cache && n !in NamesOf(pairs) ==> a.cache[n] == cache[n]
    ensures a.outcome.Pass? ==> forall n :: n in NamesOf(pairs) ==> a.cache[n] == LastValue(pairs, n)
    decreases |pairs|
  {
    if pairs == [] then Assigned(Pass, cache)
    else
      NamesOfCons(pairs);
      if pairs[0].0 !in cache then Assigned(Fail(UnknownRiskFactor(pairs[0].0)), cache)
      else AssignAll(cache[pairs[0].0 := pairs[0].1], pairs[1..])
  }

  /** set_risk_factors is not atomic: a failure at pair j leaves pairs 0..j-1 applied. */
  lemma {:induction false} AssignFailureKeepsPrefix(cache: map<string, Double>, pairs: RiskFactors, j: nat)
    requires j < |pairs| && pairs[j].0 !in cache
    requires forall i :: 0 <= i < j ==> pairs[i].0 in cache
    ensures AssignAll(cache, pairs) == Assigned(Fail(UnknownRiskFactor(pairs[j].0)), AssignAll(cache, pairs[..j]).cache)
    decreases j
  {
    if j > 0 {
      AssignFailureKeepsPrefix(cache[pairs[0].0 := pairs[0].1], pairs[1..], j - 1);
      assert pairs[1..][..j - 1] == pairs[..j][1..];
    }
  }

  // ---------------------------------------------------------------------
  // The curve cache
  // ---------------------------------------------------------------------

  /** The kinds of curve the cache may hold; only discount curves are built by this core. */
  datatype Curve = DiscountCurve(discount: CurveDiscount) | OtherCurve(kind: string)

  datatype CurveBuild = CurveBuild(result: Result<CurveDiscount, MarketError>, cache: map<string, Double>)

  /** The matched keys of one currency are long enough for to_days. */
  lemma MatchedKeysLongEnough(server: Server, ccy: string, prefix: string)
    ensures LongEnough(server.Match(RatePattern(prefix, Ccy(ccy))), ccy, prefix)
  {
  }

  /**
   * new CurveDiscount(mkt, today, name): the currency after the discount
   * prefix, then get_yield of that currency.
   */
  function BuildCurve(cache: map<string, Double>, mds: Option<Server>, today: nat,
                      name: string, discountPrefix: string, ratePrefix: string): (b: CurveBuild)
    requires |discountPrefix| <= |name| ==> mds.Some?
    ensures b.result.Success? ==> b.result.value.today == today && b.result.value.name == name
    ensures b.result.Success? ==> Increasing(b.result.value.rate)
    ensures forall n :: n in cache ==> n in b.cache && b.cache[n] == cache[n]
  {
    match CurveCurrency(name, discountPrefix)
    case Failure(e) => CurveBuild(Failure(BadCurveName(e)), cache)
    case Success(ccy) =>
      var keys := mds.value.Match(RatePattern(ratePrefix, Ccy(ccy)));
      MatchedKeysLongEnough(mds.value, ccy, ratePrefix);
      var y := BuildYield(keys, ccy, ratePrefix, [], cache, mds);
      match y.result
      case Failure(e) => CurveBuild(Failure(e), y.cache)
      case Success(knots) => CurveBuild(Success(CurveDiscount(today, name, knots)), y.cache)
  }

  class Market {
    /** m_today: the valuation date, as a serial. */
    const today: nat
    /** m_mds: the market data server, None once disconnected. */
    const mds: Option<Server>
    /** m_risk_factors */
    var riskFactors: map<string, Double>
    /** m_curves: a null entry is None. */
    var curves: map<string, Option<Curve>>

    /** Every cached discount curve was built for this market under its own name. */
    ghost predicate Valid()
      reads this
    {
      forall n :: n in curves && curves[n].Some? && curves[n].value.DiscountCurve? ==>
        var c := curves[n].value.discount;
        c.today == today && c.name == n && Increasing(c.rate)
    }

    constructor (today: nat, mds: Option<Server>)
      ensures Valid()
      ensures this.today == today && this.mds == mds
      ensures riskFactors == map[] && curves == map[]
    {
      this.today := today;
      this.mds := mds;
      riskFactors := map[];
      curves := map[];
    }

    /** Market(const Market&): the same server and date, caches copied by value. */
    constructor Copy(other: Market)
      requires other.Valid()
      ensures Valid()
      ensures today == other.today && mds == other.mds
      ensures riskFactors == other.riskFactors && curves == other.curves
    {
      today := other.today;
      mds := other.mds;
      riskFactors := other.riskFactors;
      curves := other.curves;
    }

    /** from_mds(objtype, name) */
    method FromMds(name: string) returns (r: Result<Double, MarketError>)
      modifies this`riskFactors
      ensures Fetched(r, riskFactors) == Fetch(old(riskFactors), mds, name)
    {
      if name in riskFactors {
        return Success(riskFactors[name]);
      }
      riskFactors := riskFactors[name := NaN];
      if mds.None? {
        return Failure(FeedUnavailable(name));
      }
      var v :- mds.value.Get(name);
      riskFactors := riskFactors[name := v];
      return Success(v);
    }

    /**
     * get_yield(ccy): the tenor -> t * rate / 365 knots of one currency.
     * The source calls m_mds->match without checking for a server, so a
     * server is required.
     */
    method GetYield(ccy: string, ratePrefix: string) returns (r: Result<seq<Knot>, MarketError>)
      requires mds.Some?
      modifies this`riskFactors
      ensures YieldBuild(r, riskFactors) ==
                BuildYield(mds.value.Match(RatePattern(ratePrefix, Ccy(ccy))), ccy, ratePrefix, [], old(riskFactors), mds)
    {
      var keys := mds.value.Match(RatePattern(ratePrefix, Ccy(ccy)));
      MatchedKeysLongEnough(mds.value, ccy, ratePrefix);
      ghost var target := BuildYield(keys, ccy, ratePrefix, [], riskFactors, mds);
      var knots: seq<Knot> := [];
      var i := 0;
      while i < |keys|
        invariant 0 <= i <= |keys| && Increasing(knots)
        invariant target == BuildYield(keys[i..], ccy, ratePrefix, knots, riskFactors, mds)
      {
        assert keys[i..][1..] == keys[i + 1..];
        ghost var step := YieldStep(keys[i], ccy, ratePrefix, knots, riskFactors, mds);
        knots :- AddKnot(keys[i], ccy, ratePrefix, knots);
        assert step == YieldBuild(Success(knots), riskFactors);
        i := i + 1;
      }
      return Success(knots);
    }

    /** The body of the loop of get_yield: the knot of one key. */
    method AddKnot(key: string, ccy: string, ratePrefix: string, knots: seq<Knot>)
      returns (r: Result<seq<Knot>, MarketError>)
      requires Increasing(knots) && |key| >= |ratePrefix| + |ccy| + 2
      modifies this`riskFactors
      ensures YieldBuild(r, riskFactors) == YieldStep(key, ccy, ratePrefix, knots, old(riskFactors), mds)
    {
      var t :- ToDays(key, ccy, ratePrefix);
      var v :- FromMds(key);
      EmplaceKeepsOrder(knots, t, KnotValue(t, v));
      return Success(Emplace(knots, t, KnotValue(t, v)));
    }

    /** set_risk_factors(pairs): clear() the curves, then overwrite each named risk factor. */
    method SetRiskFactors(pairs: RiskFactors) returns (outcome: Outcome<MarketError>)
      modifies this
      ensures Valid() && curves == map[]
      ensures Assigned(outcome, riskFactors) == AssignAll(old(riskFactors), pairs)
    {
      curves := map[];
      var i := 0;
      while i < |pairs|
        invariant 0 <= i <= |pairs| && curves == map[]
        invariant AssignAll(old(riskFactors), pairs) == AssignAll(riskFactors, pairs[i..])
      {
        assert pairs[i..][1..] == pairs[i + 1..];
        var (name, value) := pairs[i];
        if name !in riskFactors {
          return Fail(UnknownRiskFactor(name));
        }
        riskFactors := riskFactors[name := value];
        i := i + 1;
      }
      return Pass;
    }

    /**
     * get_risk_factors(expr): the cached risk factors whose names match, in
     * ascending name order (the iteration order of the std::map).
     */
    method GetRiskFactors(p: RatePattern) returns (result: RiskFactors)
      ensures StrictlySorted(NamesOf(result))
      ensures forall n :: n in NamesOf(result) <==> n in riskFactors && Matches(n, p)
      ensures forall i :: 0 <= i < |result| ==> result[i].0 in riskFactors && result[i].1 == riskFactors[result[i].0]
    {
      var keys := SortedElements(riskFactors.Keys);
      result := [];
      var i := 0;
      while i < |keys|
        invariant 0 <= i <= |keys|
        invariant forall j :: 0 <= j < |result| ==> result[j].0 in keys[..i]
        invariant StrictlySorted(NamesOf(result))
        invariant forall n :: n in NamesOf(result) <==> n in keys[..i] && Matches(n, p)
        invariant forall j :: 0 <= j < |result| ==> result[j].0 in riskFactors && result[j].1 == riskFactors[result[j].0]
      {
        assert keys[..i + 1] == keys[..i] + [keys[i]];
        if Matches(keys[i], p) {
          SortedSnoc(NamesOf(result), keys, i);
          NamesOfSnoc(result, (keys[i], riskFactors[keys[i]]));
          result := result + [(keys[i], riskFactors[keys[i]])];
        }
        i := i + 1;
      }
      assert keys[..i] == keys;
    }

    /**
     * get_discount_curve(name), i.e. get_curve<ICurveDiscount, CurveDiscount>:
     * m_curves[name] inserts a null entry for a new name; a null entry is
     * (re)built; a cached curve of another kind fails the cast.  Building
     * calls get_yield, which needs a server.
     */
    method GetDiscountCurve(name: string, discountPrefix: string, ratePrefix: string)
      returns (r: Result<CurveDiscount, MarketError>)
      requires Valid()
      requires (name !in curves || curves[name].None?) && |discountPrefix| <= |name| ==> mds.Some?
      modifies this
      ensures Valid() && name in curves
      ensures r.Success? ==> curves[name] == Some(DiscountCurve(r.value))
      ensures r.Success? ==> r.value.today == today && r.value.name == name && Increasing(r.value.rate)
      ensures old(name in curves && curves[name].Some?) ==>
                curves == old(curves) && riskFactors == old(riskFactors) &&
                r == match old(curves[name].value)
                     case DiscountCurve(c) => Success(c)
                     case OtherCurve(_) => Failure(TypeMismatch(name))
      ensures old(name !in curves || curves[name].None?) ==>
                var b := BuildCurve(old(riskFactors), mds, today, name, discountPrefix, ratePrefix);
                r == b.result && riskFactors == b.cache &&
                curves == old(curves)[name := if r.Success? then Some(DiscountCurve(r.value)) else None]
    {
      if name !in curves || curves[name].None? {
        r := BuildDiscountCurve(name, discountPrefix, ratePrefix);
        return;
      }
      match curves[name].value
      case DiscountCurve(c) => return Success(c);
      case OtherCurve(_) => return Failure(TypeMismatch(name));
    }

    /**
     * The construction branch of get_curve: the entry for name is null while
     * new CurveDiscount(...) runs, and holds the curve once it is built.
     */
    method BuildDiscountCurve(name: string, discountPrefix: string, ratePrefix: string)
      returns (r: Result<CurveDiscount, MarketError>)
      requires Valid()
      requires |discountPrefix| <= |name| ==> mds.Some?
      modifies this
      ensures Valid()
      ensures var b := BuildCurve(old(riskFactors), mds, today, name, discountPrefix, ratePrefix);
              r == b.result && riskFactors == b.cache
      ensures curves == old(curves)[name := if r.Success? then Some(DiscountCurve(r.value)) else None]
    {
      curves := curves[name := None];
      var ccy := CurveCurrency(name, discountPrefix);
      if ccy.Failure? {
        return Failure(BadCurveName(ccy.error));
      }
      var knots := GetYield(ccy.value, ratePrefix);
      if knots.Failure? {
        return Failure(knots.error);
      }
      var curve := CurveDiscount(today, name, knots.value);
      curves := curves[name := Some(DiscountCurve(curve))];
      return Success(curve);
    }
  }
}
