/**
 The conversion rate engine: value objects, the checks a priced route must pass, and the
 integer conversion itself. All amounts are unbounded integers here; `AmountsFitBigint`
 shows that the request limits keep every amount of one conversion inside a 64-bit column.
 */
module RateEngine {
  import opened Wrappers

  type Time = int

  const BPS_DENOMINATOR := 10_000
  const MAX_POINTS := 1_000_000_000_000
  const MAX_RATE_TERM := 1_000_000

  datatype ErrorCode =
    | ProgramInactive
    | SameProgram
    | RouteNotSupported
    | BelowMinimum
    | AboveMaximum
    | InvalidIncrement
    | ZeroDestinationPoints
    | AccountNotFound
    | InsufficientBalance

  datatype RateRule = RateRule(
    rateId: nat,
    version: nat,
    numerator: int,
    denominator: int,
    minSourcePoints: int,
    sourceIncrement: int,
    maxSourcePoints: Option<int>,
    effectiveTo: Option<Time>)

  datatype BonusRule = BonusRule(bonusId: nat, bonusBps: int, startsAt: Time, endsAt: Time) {
    predicate AppliesAt(at: Time) {
      startsAt <= at < endsAt
    }
  }

  datatype ProgramRef = ProgramRef(id: nat, active: bool)

  datatype RouteConfig = RouteConfig(
    source: ProgramRef,
    destination: ProgramRef,
    rate: Option<RateRule>,
    bonus: Option<BonusRule>,
    validUntil: Option<Time>)

  datatype Conversion = Conversion(
    sourcePoints: int,
    basePoints: int,
    bonusPoints: int,
    destinationPoints: int,
    bonusId: Option<nat>)

  /** What the CHECK constraints on conversion_rates and transfer_bonuses guarantee of a row. */
  predicate ValidRate(rate: RateRule) {
    && rate.numerator > 0
    && rate.denominator > 0
    && rate.minSourcePoints >= 1
    && rate.sourceIncrement >= 1
  }

  predicate ValidBonus(bonus: BonusRule) {
    && 0 < bonus.bonusBps <= BPS_DENOMINATOR
    && bonus.startsAt < bonus.endsAt
  }

  predicate ValidRoute(route: RouteConfig) {
    && (route.rate.Some? ==> ValidRate(route.rate.value))
    && (route.bonus.Some? ==> ValidBonus(route.bonus.value))
  }

  function EnsureRouteUsable(route: RouteConfig): Result<RateRule, ErrorCode> {
    if !route.source.active || !route.destination.active then Err(ProgramInactive)
    else if route.rate.None? then Err(RouteNotSupported)
    else Ok(route.rate.value)
  }

  /** `q` is the largest integer with `q * d <= x`. */
  predicate IsFloor(q: int, x: int, d: int) {
    q * d <= x < (q + 1) * d
  }

  /** The basis points a bonus adds at an instant. */
  function AppliedBps(bonus: Option<BonusRule>, at: Time): int {
    if bonus.Some? && bonus.value.AppliesAt(at) then bonus.value.bonusBps else 0
  }

  /** The priced amount of a transfer, or why the rate refuses it. */
  function CalculateConversion(rate: RateRule, points: int, bonus: Option<BonusRule>, at: Time)
    : (r: Result<Conversion, ErrorCode>)
    requires ValidRate(rate)
    requires bonus.Some? ==> ValidBonus(bonus.value)
    ensures r == Err(BelowMinimum) <==> points < rate.minSourcePoints
    ensures r == Err(AboveMaximum) <==>
            points >= rate.minSourcePoints && rate.maxSourcePoints.Some? && points > rate.maxSourcePoints.value
    ensures r == Err(InvalidIncrement) <==>
            && points >= rate.minSourcePoints
            && (rate.maxSourcePoints.Some? ==> points <= rate.maxSourcePoints.value)
            && points % rate.sourceIncrement != 0
    ensures r.Ok? ==> r.value.sourcePoints == points > 0
    ensures r.Ok? ==> r.value.destinationPoints == r.value.basePoints + r.value.bonusPoints > 0
    ensures r.Ok? ==> IsFloor(r.value.basePoints, points * rate.numerator, rate.denominator)
    ensures r.Ok? ==> IsFloor(r.value.bonusPoints, r.value.basePoints * AppliedBps(bonus, at), BPS_DENOMINATOR)
    ensures r.Ok? ==> r.value.bonusId == if AppliedBps(bonus, at) > 0 then Some(bonus.value.bonusId) else None
  {
    if points < rate.minSourcePoints then Err(BelowMinimum)
    else if rate.maxSourcePoints.Some? && points > rate.maxSourcePoints.value then Err(AboveMaximum)
    else if points % rate.sourceIncrement != 0 then Err(InvalidIncrement)
    else
      var applied := if bonus.Some? && bonus.value.AppliesAt(at) then bonus else None;
      var base := points * rate.numerator / rate.denominator;
      BaseNonNegative(points, rate.numerator, rate.denominator);
      FloorBounds(points * rate.numerator, rate.denominator);
      FloorBounds(base * AppliedBps(bonus, at), BPS_DENOMINATOR);
      var extra := if applied.Some? then base * applied.value.bonusBps / BPS_DENOMINATOR else 0;
      assert extra >= 0 by {
        if applied.Some? { BaseNonNegative(base, applied.value.bonusBps, BPS_DENOMINATOR); }
      }
      if base + extra == 0 then Err(ZeroDestinationPoints)
      else Ok(Conversion(points, base, extra, base + extra,
                         if applied.Some? then Some(applied.value.bonusId) else None))
  }

  lemma {:induction false} BaseNonNegative(x: int, n: int, d: int)
    requires x >= 0 && n >= 0 && d > 0
    ensures x * n / d >= 0
  {
    FloorBounds(x * n, d);
    assert x * n >= 0;
  }

  // ---------------------------------------------------------------- arithmetic of one route

  /** A priced route reduced to its numbers: `bps` is zero when no bonus applies. */
  datatype Terms = Terms(numerator: nat, denominator: nat, bps: nat) {
    predicate Valid() {
      denominator > 0
    }
  }

  function TermsAt(rate: RateRule, bonus: Option<BonusRule>, at: Time): (t: Terms)
    requires ValidRate(rate)
    requires bonus.Some? ==> ValidBonus(bonus.value)
    ensures t.Valid()
  {
    Terms(rate.numerator, rate.denominator,
          if bonus.Some? && bonus.value.AppliesAt(at) then bonus.value.bonusBps else 0)
  }

  function Base(t: Terms, points: nat): nat
    requires t.Valid()
  {
    BaseNonNegative(points, t.numerator, t.denominator);
    points * t.numerator / t.denominator
  }

  function Earned(t: Terms, points: nat): nat
    requires t.Valid()
  {
    BaseNonNegative(Base(t, points), t.bps, BPS_DENOMINATOR);
    Base(t, points) + Base(t, points) * t.bps / BPS_DENOMINATOR
  }

  /** The amount is one the rate allows. */
  predicate Allows(rate: RateRule, points: int)
    requires ValidRate(rate)
  {
    && rate.minSourcePoints <= points
    && (rate.maxSourcePoints.Some? ==> points <= rate.maxSourcePoints.value)
    && points % rate.sourceIncrement == 0
  }

  /**
   A conversion is accepted exactly when the rate allows the amount and its terms earn
   something, and then it pays exactly what they earn.
   */
  lemma {:induction false} ConversionPaysEarned(rate: RateRule, points: int, bonus: Option<BonusRule>, at: Time)
    requires ValidRate(rate)
    requires bonus.Some? ==> ValidBonus(bonus.value)
    ensures var r := CalculateConversion(rate, points, bonus, at);
            && (r.Ok? <==> Allows(rate, points) && points > 0 && Earned(TermsAt(rate, bonus, at), points) > 0)
            && (r.Ok? ==>
                  && r.value.basePoints == Base(TermsAt(rate, bonus, at), points)
                  && r.value.destinationPoints == Earned(TermsAt(rate, bonus, at), points)
                  && (r.value.bonusId.Some? <==> bonus.Some? && bonus.value.AppliesAt(at)))
            && (r == Err(ZeroDestinationPoints) <==> Allows(rate, points) && points * rate.numerator < rate.denominator)
  {
    if Allows(rate, points) {
      FloorBounds(points * rate.numerator, rate.denominator);
      var base := Base(TermsAt(rate, bonus, at), points);
      if points * rate.numerator >= rate.denominator {
        FloorIsGreatest(points * rate.numerator, rate.denominator, 1);
      } else if base > 0 {
        MulMono(1, base, rate.denominator);
        assert false;
      }
    }
  }

  lemma {:induction false} FloorBounds(x: int, d: int)
    requires d > 0
    ensures x / d * d <= x < x / d * d + d
  {
  }

  /** `x / d` is the largest integer whose multiple of `d` does not exceed `x`. */
  lemma {:induction false} FloorIsGreatest(x: int, d: int, q: int)
    requires d > 0 && q * d <= x
    ensures q <= x / d
  {
    FloorBounds(x, d);
    assert q * d < (x / d + 1) * d;
    MulCancel(q, x / d + 1, d);
  }

  lemma {:induction false} MulCancel(x: int, y: int, k: int)
    requires k > 0 && x * k < y * k
    ensures x < y
  {
    if x >= y {
      MulMono(y, x, k);
    }
  }

  /**
   The amount paid never exceeds the exact value points * n/d * (10000 + bps)/10000, and is
   short of it by less than 1 + (10000 + bps)/10000 points (both sides multiplied out).
   */
  lemma {:induction false} RoundingFavoursPlatform(t: Terms, points: nat)
    requires t.Valid()
    ensures Earned(t, points) * t.denominator * BPS_DENOMINATOR
         <= points * t.numerator * (BPS_DENOMINATOR + t.bps)
    ensures points * t.numerator * (BPS_DENOMINATOR + t.bps)
          < (Earned(t, points) + 1) * t.denominator * BPS_DENOMINATOR
            + t.denominator * (BPS_DENOMINATOR + t.bps)
  {
    var base, exact, e := Base(t, points), points * t.numerator, Earned(t, points);
    FloorBounds(exact, t.denominator);
    FloorBounds(base * t.bps, BPS_DENOMINATOR);
    TwoFloors(exact, t.denominator, base, BPS_DENOMINATOR + t.bps, BPS_DENOMINATOR, e);
  }

  /** Rounding down twice: first exact / d to base, then base * k / b to e. */
  lemma {:induction false} TwoFloors(exact: nat, d: nat, base: nat, k: nat, b: nat, e: nat)
    requires d > 0 && k > 0 && b > 0
    requires base * d <= exact < base * d + d
    requires e * b <= base * k < e * b + b
    ensures e * d * b <= exact * k < (e + 1) * d * b + d * k
  {
    calc {
      e * d * b;
    ==  { MulSwap(e, d, b); }
      e * b * d;
    <=  { MulMono(e * b, base * k, d); }
      base * k * d;
    ==  { MulSwap(base, k, d); }
      base * d * k;
    <=  { MulMono(base * d, exact, k); }
      exact * k;
    }
    calc {
      exact * k;
    <   { MulStrict(exact, base * d + d, k); }
      (base * d + d) * k;
    ==
      base * d * k + d * k;
    ==  { MulSwap(base, d, k); }
      base * k * d + d * k;
    <=  { MulMono(base * k, e * b + b, d); }
      (e * b + b) * d + d * k;
    ==
      (e + 1) * b * d + d * k;
    ==  { MulSwap(e + 1, b, d); }
      (e + 1) * d * b + d * k;
    }
  }

  lemma {:induction false} MulSwap(x: int, y: int, z: int)
    ensures x * y * z == x * z * y
  {
    assert x * y * z == x * (y * z) == x * (z * y);
  }

  lemma {:induction false} MulMono(x: int, y: int, k: int)
    requires x <= y && k >= 0
    ensures x * k <= y * k
  {
  }

  lemma {:induction false} MulStrict(x: int, y: int, k: int)
    requires x < y && k > 0
    ensures x * k < y * k
  {
  }

  lemma {:induction false} FloorSuperadditive(x: int, y: int, d: int)
    requires d > 0
    ensures x / d + y / d <= (x + y) / d
  {
    FloorBounds(x, d);
    FloorBounds(y, d);
    assert (x / d + y / d) * d == x / d * d + y / d * d;
    FloorIsGreatest(x + y, d, x / d + y / d);
  }

  lemma {:induction false} FloorMono(x: int, y: int, d: int)
    requires d > 0 && x <= y
    ensures x / d <= y / d
  {
    FloorBounds(x, d);
    FloorIsGreatest(y, d, x / d);
  }

  lemma {:induction false} TwoPartsNeverEarnMore(t: Terms, x: nat, y: nat)
    requires t.Valid()
    ensures Earned(t, x) + Earned(t, y) <= Earned(t, x + y)
  {
    var baseX, baseY, b := Base(t, x), Base(t, y), Base(t, x + y);
    assert (x + y) * t.numerator == x * t.numerator + y * t.numerator;
    FloorSuperadditive(x * t.numerator, y * t.numerator, t.denominator);
    FloorSuperadditive(baseX * t.bps, baseY * t.bps, BPS_DENOMINATOR);
    assert (baseX + baseY) * t.bps == baseX * t.bps + baseY * t.bps;
    MulMono(baseX + baseY, b, t.bps);
    FloorMono((baseX + baseY) * t.bps, b * t.bps, BPS_DENOMINATOR);
  }

  function Sum(parts: seq<nat>): nat {
    if parts == [] then 0 else parts[0] + Sum(parts[1..])
  }

  function EarnedInParts(t: Terms, parts: seq<nat>): nat
    requires t.Valid()
  {
    if parts == [] then 0 else Earned(t, parts[0]) + EarnedInParts(t, parts[1..])
  }

  /** Splitting an amount into any list of parts never earns more than transferring it whole. */
  lemma {:induction false} SplittingNeverEarnsMore(t: Terms, parts: seq<nat>)
    requires t.Valid()
    ensures EarnedInParts(t, parts) <= Earned(t, Sum(parts))
  {
    if parts != [] {
      SplittingNeverEarnsMore(t, parts[1..]);
      TwoPartsNeverEarnMore(t, parts[0], Sum(parts[1..]));
    }
  }

  // ---------------------------------------------------------------- chains of routes

  function Chain(routes: seq<Terms>, points: nat): nat
    requires forall t <- routes :: t.Valid()
  {
    if routes == [] then points else Chain(routes[1..], Earned(routes[0], points))
  }

  /** Numerator and denominator of the exact rate of a chain, bonuses included. */
  function ChainNumerator(routes: seq<Terms>): nat {
    if routes == [] then 1
    else routes[0].numerator * (BPS_DENOMINATOR + routes[0].bps) * ChainNumerator(routes[1..])
  }

  function ChainDenominator(routes: seq<Terms>): (d: nat)
    requires forall t <- routes :: t.Valid()
    ensures d > 0
  {
    if routes == [] then 1
    else
      var rest := ChainDenominator(routes[1..]);
      assert routes[0].Valid();
      MulStrict(0, routes[0].denominator * BPS_DENOMINATOR, rest);
      routes[0].denominator * BPS_DENOMINATOR * rest
  }

  /** A chain of transfers never beats its exact rate. */
  lemma {:induction false} ChainNeverBeatsItsRate(routes: seq<Terms>, points: nat)
    requires forall t <- routes :: t.Valid()
    ensures Chain(routes, points) * ChainDenominator(routes) <= points * ChainNumerator(routes)
  {
    if routes != [] {
      var t, rest := routes[0], routes[1..];
      var e, out := Earned(t, points), Chain(routes, points);
      var N, D := t.numerator * (BPS_DENOMINATOR + t.bps), t.denominator * BPS_DENOMINATOR;
      var n, d := ChainNumerator(rest), ChainDenominator(rest);
      ChainNeverBeatsItsRate(rest, e);
      RoundingFavoursPlatform(t, points);
      MulAssoc(e, t.denominator, BPS_DENOMINATOR);
      MulAssoc(points, t.numerator, BPS_DENOMINATOR + t.bps);
      ComposeRates(out, d, e, n, D, points, N);
    }
  }

  lemma {:induction false} ComposeRates(out: nat, d: nat, e: nat, n: nat, d0: nat, points: nat, n0: nat)
    requires out * d <= e * n && e * d0 <= points * n0
    ensures out * (d0 * d) <= points * (n0 * n)
  {
    calc {
      out * (d0 * d);
    ==  { MulAssoc(out, d0, d); MulSwap(out, d0, d); }
      out * d * d0;
    <=  { MulMono(out * d, e * n, d0); }
      e * n * d0;
    ==  { MulSwap(e, n, d0); }
      e * d0 * n;
    <=  { MulMono(e * d0, points * n0, n); }
      points * n0 * n;
    ==  { MulAssoc(points, n0, n); }
      points * (n0 * n);
    }
  }

  lemma {:induction false} MulAssoc(x: int, y: int, z: int)
    ensures x * y * z == x * (y * z)
  {
  }

  /** A cycle of routes whose rate product is at most one never returns more than it took. */
  lemma {:induction false} CycleNeverGains(routes: seq<Terms>, points: nat)
    requires forall t <- routes :: t.Valid()
    requires ChainNumerator(routes) <= ChainDenominator(routes)
    ensures Chain(routes, points) <= points
  {
    var n, d, out := ChainNumerator(routes), ChainDenominator(routes), Chain(routes, points);
    ChainNeverBeatsItsRate(routes, points);
    assert points * n <= points * d by {
      MulMono(n, d, points);
      assert n * points == points * n && d * points == points * d;
    }
    if out > points {
      MulStrict(points, out, d);
      assert false;
    }
  }

  /** Inside the request limits no amount of a conversion leaves a BIGINT, nor does `points * numerator`. */
  lemma {:induction false} AmountsFitBigint(t: Terms, points: nat)
    requires t.Valid()
    requires points <= MAX_POINTS && t.numerator <= MAX_RATE_TERM && t.bps <= BPS_DENOMINATOR
    ensures points * t.numerator <= 1_000_000_000_000_000_000
    ensures Base(t, points) <= 1_000_000_000_000_000_000
    ensures Earned(t, points) <= 2_000_000_000_000_000_000 < 0x8000_0000_0000_0000
  {
    var base := Base(t, points);
    MulMono(points, MAX_POINTS, t.numerator);
    MulMono(t.numerator, MAX_RATE_TERM, MAX_POINTS);
    FloorBounds(points * t.numerator, t.denominator);
    if base > points * t.numerator {
      MulMono(1, t.denominator, base);
    }
    MulMono(t.bps, BPS_DENOMINATOR, base);
    FloorBounds(base * t.bps, BPS_DENOMINATOR);
  }

  /**
   The product under the bonus's division is not stored, and only a caller who multiplies in 64
   bits need care: it fits if and only if the exact base amount is below this multiple.
   */
  lemma {:induction false} BonusProductFitsIff(t: Terms, points: nat)
    requires t.Valid() && t.bps > 0
    ensures Base(t, points) * t.bps < 0x8000_0000_0000_0000
       <==> points * t.numerator < (0x7fff_ffff_ffff_ffff / t.bps + 1) * t.denominator
  {
    var limit := 0x7fff_ffff_ffff_ffff;
    var base, most, exact := Base(t, points), limit / t.bps, points * t.numerator;
    FloorBounds(limit, t.bps);
    FloorBounds(exact, t.denominator);
    if base <= most {
      MulMono(base, most, t.bps);
      MulMono(base + 1, most + 1, t.denominator);
    } else {
      MulMono(most + 1, base, t.bps);
      MulMono(most + 1, base, t.denominator);
    }
  }

  /** Inside the request limits that product can pass 2^63. */
  lemma {:induction false} BonusProductCanExceedBigint()
    ensures var t, points := Terms(MAX_RATE_TERM, 1, BPS_DENOMINATOR), MAX_POINTS;
            t.Valid() && Base(t, points) * t.bps == 10_000_000_000_000_000_000_000 > 0x8000_0000_0000_0000
  {
  }
}
