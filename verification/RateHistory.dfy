/**
 The rate versions and bonuses of one route, what `get_route` reads from them, and the cache
 in front of it. Times are integers in the cache's own unit.
 */
module RateHistory {
  import opened Wrappers
  import opened RateEngine

  datatype RateRow = RateRow(rule: RateRule, effectiveFrom: Time, active: bool) {
    predicate AppliesAt(at: Time) {
      active && effectiveFrom <= at && (rule.effectiveTo.None? || rule.effectiveTo.value > at)
    }
  }

  datatype AdminError = InvalidRate | InvalidBonus | NoCurrentRate | BonusOverlap | WindowViolation

  // ---------------------------------------------------------------- creating versions

  predicate RateAcceptable(rate: RateRule) {
    && ValidRate(rate)
    && (rate.maxSourcePoints.Some? ==> rate.maxSourcePoints.value >= rate.minSourcePoints)
    && rate.minSourcePoints % rate.sourceIncrement == 0
  }

  /** A rate is acceptable exactly if, being well formed, its own minimum can be transferred. */
  lemma {:induction false} AcceptableIffMinimumIsAllowed(rate: RateRule)
    ensures RateAcceptable(rate) <==> ValidRate(rate) && Allows(rate, rate.minSourcePoints)
  {
  }

  /** The open version: the row with no end. */
  predicate IsCurrent(row: RateRow) {
    row.active && row.rule.effectiveTo.None?
  }

  function LatestVersion(rates: seq<RateRow>): nat {
    if rates == [] then 0
    else
      var rest := LatestVersion(rates[..|rates| - 1]);
      var v := rates[|rates| - 1].rule.version;
      if v > rest then v else rest
  }

  function Closed(rates: seq<RateRow>, at: Time): seq<RateRow> {
    seq(|rates|, i requires 0 <= i < |rates| =>
      if IsCurrent(rates[i]) then rates[i].(rule := rates[i].rule.(effectiveTo := Some(at))) else rates[i])
  }

  /** Close the open version and add the next one, from the same instant. */
  function WithVersion(rates: seq<RateRow>, terms: RateRule, at: Time): Result<seq<RateRow>, AdminError> {
    if !RateAcceptable(terms) then Err(InvalidRate)
    else if exists i :: 0 <= i < |rates| && IsCurrent(rates[i]) && at <= rates[i].effectiveFrom
    then Err(WindowViolation)
    else
      var rule := terms.(version := LatestVersion(rates) + 1, effectiveTo := None);
      Ok(Closed(rates, at) + [RateRow(rule, at, true)])
  }

  /** Versions 1..n in order, with contiguous windows, the last one open. */
  predicate Contiguous(rates: seq<RateRow>) {
    forall i :: 0 <= i < |rates| ==> WindowOk(rates, i)
  }

  predicate WindowOk(rates: seq<RateRow>, i: nat)
    requires i < |rates|
  {
    && rates[i].active
    && rates[i].rule.version == i + 1
    && (if i == |rates| - 1 then rates[i].rule.effectiveTo.None?
        else && rates[i].effectiveFrom < rates[i + 1].effectiveFrom
             && rates[i].rule.effectiveTo == Some(rates[i + 1].effectiveFrom))
  }

  lemma {:induction false} LatestOfContiguous(rates: seq<RateRow>, n: nat)
    requires n <= |rates| && Contiguous(rates)
    ensures LatestVersion(rates[..n]) == n
  {
    if n > 0 {
      assert rates[..n][..n - 1] == rates[..n - 1];
      assert WindowOk(rates, n - 1);
      LatestOfContiguous(rates, n - 1);
    }
  }

  /** In a contiguous history the only current version is the last. */
  lemma {:induction false} OnlyLastIsCurrent(rates: seq<RateRow>, i: nat)
    requires Contiguous(rates) && i < |rates|
    ensures IsCurrent(rates[i]) <==> i == |rates| - 1
  {
    assert WindowOk(rates, i);
  }

  lemma {:induction false} AppendKeepsContiguous(rates: seq<RateRow>, rule: RateRule, at: Time)
    requires Contiguous(rates) && (rates != [] ==> rates[|rates| - 1].effectiveFrom < at)
    requires rule.version == |rates| + 1 && rule.effectiveTo.None?
    ensures Contiguous(Closed(rates, at) + [RateRow(rule, at, true)])
  {
    var after := Closed(rates, at) + [RateRow(rule, at, true)];
    forall i | 0 <= i < |after|
      ensures WindowOk(after, i)
    {
      if i < |rates| {
        assert WindowOk(rates, i);
        OnlyLastIsCurrent(rates, i);
        if i + 1 < |rates| { assert after[i + 1].effectiveFrom == rates[i + 1].effectiveFrom; }
      }
    }
  }

  lemma {:induction false} VersionKeepsContiguous(rates: seq<RateRow>, terms: RateRule, at: Time)
    requires Contiguous(rates)
    ensures WithVersion(rates, terms, at).Ok? <==>
            RateAcceptable(terms) && (rates != [] ==> rates[|rates| - 1].effectiveFrom < at)
    ensures WithVersion(rates, terms, at).Ok? ==> Contiguous(WithVersion(rates, terms, at).value)
  {
    hide Contiguous;
    LatestOfContiguous(rates, |rates|);
    assert rates[..|rates|] == rates;
    forall i | 0 <= i < |rates|
      ensures IsCurrent(rates[i]) <==> i == |rates| - 1
    {
      OnlyLastIsCurrent(rates, i);
    }
    if rates != [] {
      assert IsCurrent(rates[|rates| - 1]);
    }
    if WithVersion(rates, terms, at).Ok? {
      AppendKeepsContiguous(rates, terms.(version := |rates| + 1, effectiveTo := None), at);
    }
  }

  /** One accepted rate change. */
  datatype Change = Change(terms: RateRule, at: Time)

  /** The versions after a list of rate changes; refused ones leave no trace. */
  function AfterChanges(rates: seq<RateRow>, changes: seq<Change>): seq<RateRow>
    decreases |changes|
  {
    if changes == [] then rates
    else
      var next := match WithVersion(rates, changes[0].terms, changes[0].at)
                  case Ok(r) => r
                  case Err(_) => rates;
      AfterChanges(next, changes[1..])
  }

  // ---------------------------------------------------------------- reading a route

  /** The applicable version: the latest start among the rows in force (ORDER BY ... DESC LIMIT 1). */
  function RateAt(rates: seq<RateRow>, at: Time): (r: Option<RateRow>)
    ensures r.Some? ==> r.value in rates && r.value.AppliesAt(at)
    ensures r.None? ==> forall row <- rates :: !row.AppliesAt(at)
    ensures r.Some? ==> forall row <- rates :: row.AppliesAt(at) ==> row.effectiveFrom <= r.value.effectiveFrom
  {
    if rates == [] then None
    else
      var front, last := rates[..|rates| - 1], rates[|rates| - 1];
      assert rates == front + [last];
      var rest := RateAt(front, at);
      if last.AppliesAt(at) && (rest.None? || rest.value.effectiveFrom < last.effectiveFrom) then Some(last) else rest
  }

  function BonusAt(bonuses: seq<BonusRule>, at: Time): (r: Option<BonusRule>)
    ensures r.Some? ==> r.value in bonuses && r.value.AppliesAt(at)
    ensures r.None? ==> forall b <- bonuses :: !b.AppliesAt(at)
  {
    if bonuses == [] then None
    else
      assert bonuses == [bonuses[0]] + bonuses[1..];
      if bonuses[0].AppliesAt(at) then Some(bonuses[0]) else BonusAt(bonuses[1..], at)
  }

  function NextBonusStart(bonuses: seq<BonusRule>, at: Time): (r: Option<Time>)
    ensures r.None? ==> forall b <- bonuses :: b.startsAt <= at
    ensures r.Some? ==> forall b <- bonuses :: b.startsAt > at ==> r.value <= b.startsAt
    ensures r.Some? ==> r.value > at && exists b <- bonuses :: b.startsAt == r.value
  {
    if bonuses == [] then None
    else
      assert bonuses == [bonuses[0]] + bonuses[1..];
      var rest, start := NextBonusStart(bonuses[1..], at), bonuses[0].startsAt;
      if start > at && (rest.None? || start < rest.value) then Some(start) else rest
  }

  function Earlier(x: Option<Time>, y: Option<Time>): Option<Time> {
    if x.None? then y else if y.None? then x else if x.value <= y.value then x else y
  }

  function GetRoute(source: ProgramRef, destination: ProgramRef, rates: seq<RateRow>, bonuses: seq<BonusRule>, at: Time)
    : RouteConfig
  {
    var row := RateAt(rates, at);
    var rate := if row.Some? then Some(row.value.rule) else None;
    var bonus := BonusAt(bonuses, at);
    var rateEnd := if rate.Some? then rate.value.effectiveTo else None;
    var bonusEnd := if bonus.Some? then Some(bonus.value.endsAt) else None;
    RouteConfig(source, destination, rate, bonus, Earlier(rateEnd, Earlier(bonusEnd, NextBonusStart(bonuses, at))))
  }

  lemma {:induction false} StartsAscend(rates: seq<RateRow>, i: nat, j: nat)
    requires Contiguous(rates) && i < j < |rates|
    ensures rates[i].effectiveFrom < rates[j].effectiveFrom
    ensures rates[i].rule.effectiveTo.Some? && rates[i].rule.effectiveTo.value <= rates[j].effectiveFrom
    decreases j - i
  {
    assert WindowOk(rates, i);
    if i + 1 < j {
      StartsAscend(rates, i + 1, j);
    }
  }

  /** From the first start on, exactly one version applies at each instant; before it, none. */
  lemma {:induction false} ExactlyOneVersionApplies(rates: seq<RateRow>, at: Time)
    requires Contiguous(rates)
    ensures RateAt(rates, at).Some? <==> rates != [] && rates[0].effectiveFrom <= at
    ensures forall i, j :: 0 <= i < j < |rates| ==> !(rates[i].AppliesAt(at) && rates[j].AppliesAt(at))
  {
    forall i, j | 0 <= i < j < |rates|
      ensures !(rates[i].AppliesAt(at) && rates[j].AppliesAt(at))
    {
      StartsAscend(rates, i, j);
    }
    if rates != [] && rates[0].effectiveFrom <= at {
      var i := Covering(rates, |rates|, at);
      assert rates[i] in rates;
    } else if rates != [] {
      forall row | row in rates
        ensures !row.AppliesAt(at)
      {
        var i :| 0 <= i < |rates| && rates[i] == row;
        if i > 0 { StartsAscend(rates, 0, i); }
      }
    }
  }

  /** The last of the first `n` versions that has started. */
  lemma {:induction false} Covering(rates: seq<RateRow>, n: nat, at: Time) returns (i: nat)
    requires Contiguous(rates) && 1 <= n <= |rates| && rates[0].effectiveFrom <= at
    requires n < |rates| ==> at < rates[n].effectiveFrom
    ensures i < |rates| && rates[i].AppliesAt(at)
  {
    assert WindowOk(rates, n - 1);
    if rates[n - 1].effectiveFrom <= at {
      i := n - 1;
    } else {
      i := Covering(rates, n - 1, at);
    }
  }

  /** The terms of a version, without the end that a later version may give it. */
  function Terms(row: RateRow): RateRule {
    row.rule.(effectiveTo := None)
  }

  predicate SameTermsAt(x: seq<RateRow>, y: seq<RateRow>, at: Time) {
    match (RateAt(x, at), RateAt(y, at))
    case (Some(a), Some(b)) => Terms(a) == Terms(b) && a.effectiveFrom == b.effectiveFrom
    case (None, None) => true
    case _ => false
  }

  lemma {:induction false} UniqueRate(rates: seq<RateRow>, at: Time, i: nat)
    requires Contiguous(rates) && i < |rates| && rates[i].AppliesAt(at)
    ensures RateAt(rates, at) == Some(rates[i])
  {
    assert rates[i] in rates;
    var j :| 0 <= j < |rates| && rates[j] == RateAt(rates, at).value;
    ExactlyOneVersionApplies(rates, at);
  }

  /** A new version never changes the terms in force at an earlier instant. */
  lemma {:induction false} PastTermsNeverChange(rates: seq<RateRow>, terms: RateRule, changedAt: Time, at: Time)
    requires Contiguous(rates) && WithVersion(rates, terms, changedAt).Ok? && at < changedAt
    ensures SameTermsAt(rates, WithVersion(rates, terms, changedAt).value, at)
  {
    var after := WithVersion(rates, terms, changedAt).value;
    VersionKeepsContiguous(rates, terms, changedAt);
    ExactlyOneVersionApplies(rates, at);
    ExactlyOneVersionApplies(after, at);
    if RateAt(rates, at).Some? {
      var i :| 0 <= i < |rates| && rates[i] == RateAt(rates, at).value;
      assert WindowOk(rates, i) && WindowOk(after, i);
      assert after[i].AppliesAt(at);
      UniqueRate(after, at, i);
    }
  }

  /** The version in force carries exactly these terms, number and start. */
  predicate InForce(rates: seq<RateRow>, t: Time, terms: RateRule, version: nat, start: Time) {
    match RateAt(rates, t)
    case None => false
    case Some(row) =>
      && row.rule.numerator == terms.numerator && row.rule.denominator == terms.denominator
      && row.rule.minSourcePoints == terms.minSourcePoints && row.rule.sourceIncrement == terms.sourceIncrement
      && row.rule.maxSourcePoints == terms.maxSourcePoints
      && row.rule.version == version && row.effectiveFrom == start
  }

  /**
   An accepted change puts exactly the requested terms in force from its instant on, as the next
   version, until a later change.
   */
  lemma {:induction false} NewVersionTakesForce(rates: seq<RateRow>, terms: RateRule, at: Time, t: Time)
    requires Contiguous(rates) && WithVersion(rates, terms, at).Ok? && t >= at
    ensures InForce(WithVersion(rates, terms, at).value, t, terms, |rates| + 1, at)
  {
    var after := WithVersion(rates, terms, at).value;
    VersionKeepsContiguous(rates, terms, at);
    LatestOfContiguous(rates, |rates|);
    assert rates[..|rates|] == rates;
    UniqueRate(after, t, |rates|);
  }

  lemma {:induction false} InForceFromThen(rates: seq<RateRow>, terms: RateRule, at: Time, after: seq<RateRow>, n: nat)
    requires Contiguous(rates) && WithVersion(rates, terms, at) == Ok(after) && n == |rates| + 1
    ensures forall t :: t >= at ==> InForce(after, t, terms, n, at)
  {
    forall t | t >= at
      ensures InForce(after, t, terms, n, at)
    {
      NewVersionTakesForce(rates, terms, at, t);
    }
  }

  /** So after any list of changes the last accepted one is in force from then on. */
  lemma {:induction false} LastChangeIsInForce(rates: seq<RateRow>, changes: seq<Change>, last: Change, t: Time)
    requires Contiguous(rates) && t >= last.at
    requires WithVersion(AfterChanges(rates, changes), last.terms, last.at).Ok?
    ensures Contiguous(AfterChanges(rates, changes))
    ensures InForce(WithVersion(AfterChanges(rates, changes), last.terms, last.at).value, t, last.terms,
                    |AfterChanges(rates, changes)| + 1, last.at)
  {
    ChangesKeepContiguous(rates, changes);
    NewVersionTakesForce(AfterChanges(rates, changes), last.terms, last.at, t);
  }

  lemma {:induction false} ChangesKeepContiguous(rates: seq<RateRow>, changes: seq<Change>)
    requires Contiguous(rates)
    ensures Contiguous(AfterChanges(rates, changes))
    decreases |changes|
  {
    hide Contiguous, WithVersion;
    if changes != [] {
      var ch := changes[0];
      VersionKeepsContiguous(rates, ch.terms, ch.at);
      var next := match WithVersion(rates, ch.terms, ch.at)
                  case Ok(r) => r
                  case Err(_) => rates;
      ChangesKeepContiguous(next, changes[1..]);
    }
  }

  /** Over any sequence of rate changes: contiguous versions, and terms of the past stay put. */
  lemma {:induction false} HistoryIsStable(rates: seq<RateRow>, changes: seq<Change>, at: Time)
    requires Contiguous(rates) && forall i :: 0 <= i < |changes| ==> at < changes[i].at
    ensures Contiguous(AfterChanges(rates, changes))
    ensures SameTermsAt(rates, AfterChanges(rates, changes), at)
    decreases |changes|
  {
    hide Contiguous, WithVersion;
    if changes != [] {
      var ch := changes[0];
      VersionKeepsContiguous(rates, ch.terms, ch.at);
      var next := if WithVersion(rates, ch.terms, ch.at).Ok? then WithVersion(rates, ch.terms, ch.at).value else rates;
      if WithVersion(rates, ch.terms, ch.at).Ok? {
        PastTermsNeverChange(rates, ch.terms, ch.at, at);
      }
      HistoryIsStable(next, changes[1..], at);
    }
  }

  // ---------------------------------------------------------------- the cache

  predicate NoOverlap(bonuses: seq<BonusRule>) {
    && (forall b <- bonuses :: ValidBonus(b))
    && forall i, j :: 0 <= i < j < |bonuses| ==>
                        bonuses[i].endsAt <= bonuses[j].startsAt || bonuses[j].endsAt <= bonuses[i].startsAt
  }

  /** How long an entry loaded at `at` lives; nothing is stored when this is not positive. */
  function Lifetime(route: RouteConfig, ttl: nat, at: Time): int {
    if route.validUntil.Some? && route.validUntil.value - at < ttl then route.validUntil.value - at else ttl
  }

  /** The lifetime is the longest that neither the setting nor the route's validity forbids. */
  lemma {:induction false} LifetimeIsLongest(route: RouteConfig, ttl: nat, at: Time, life: int)
    ensures life <= Lifetime(route, ttl, at) <==>
            life <= ttl && (route.validUntil.Some? ==> at + life <= route.validUntil.value)
  {
  }

  /** The entry would give a quote the same rate and bonus as a fresh load. */
  predicate SamePrice(x: RouteConfig, y: RouteConfig) {
    x.rate == y.rate && x.bonus == y.bonus
  }

  lemma {:induction false} BonusHoldsUntil(bonuses: seq<BonusRule>, at: Time, t: Time)
    requires NoOverlap(bonuses) && at <= t
    requires BonusAt(bonuses, at).Some? ==> t < BonusAt(bonuses, at).value.endsAt
    requires NextBonusStart(bonuses, at).Some? ==> t < NextBonusStart(bonuses, at).value
    ensures BonusAt(bonuses, t) == BonusAt(bonuses, at)
  {
    var now, then' := BonusAt(bonuses, at), BonusAt(bonuses, t);
    if then'.Some? {
      assert then'.value in bonuses && then'.value.startsAt <= at;
      assert then'.value.AppliesAt(at);
    }
    if now.Some? {
      assert now.value.AppliesAt(t);
      var i :| 0 <= i < |bonuses| && bonuses[i] == now.value;
      var j :| 0 <= j < |bonuses| && bonuses[j] == then'.value;
    }
  }

  lemma {:induction false} RateHoldsUntil(rates: seq<RateRow>, at: Time, t: Time)
    requires Contiguous(rates) && at <= t
    requires RateAt(rates, at).Some? && RateAt(rates, at).value.rule.effectiveTo.Some? ==>
               t < RateAt(rates, at).value.rule.effectiveTo.value
    requires rates != [] && at < rates[0].effectiveFrom ==> t < rates[0].effectiveFrom
    ensures RateAt(rates, t) == RateAt(rates, at)
  {
    ExactlyOneVersionApplies(rates, at);
    ExactlyOneVersionApplies(rates, t);
    if RateAt(rates, at).Some? {
      var i :| 0 <= i < |rates| && rates[i] == RateAt(rates, at).value;
      UniqueRate(rates, t, i);
    }
  }

  /** The first version of the route starts after `from`, by `until`. */
  predicate FirstStartsWithin(rates: seq<RateRow>, from: Time, until: Time) {
    rates != [] && from < rates[0].effectiveFrom <= until
  }

  /**
   A route loaded at `at` prices like a fresh load at any `t` before its `valid_until` if and
   only if the first version of the route did not start in between: `valid_until` knows when a
   rate ends, not when the first one starts.
   */
  lemma {:induction false} HitAgreesIff(source: ProgramRef, destination: ProgramRef, rates: seq<RateRow>,
      bonuses: seq<BonusRule>, at: Time, t: Time)
    requires Contiguous(rates) && NoOverlap(bonuses) && at <= t
    requires var end := GetRoute(source, destination, rates, bonuses, at).validUntil; end.Some? ==> t < end.value
    ensures SamePrice(GetRoute(source, destination, rates, bonuses, at),
                      GetRoute(source, destination, rates, bonuses, t))
       <==> !FirstStartsWithin(rates, at, t)
  {
    if FirstStartsWithin(rates, at, t) {
      ExactlyOneVersionApplies(rates, at);
      ExactlyOneVersionApplies(rates, t);
    } else {
      RateHoldsUntil(rates, at, t);
      BonusHoldsUntil(bonuses, at, t);
    }
  }

  /** Some version starts after `x`, by `y`. */
  predicate SomeStartsWithin(rates: seq<RateRow>, x: Time, y: Time) {
    exists i :: 0 <= i < |rates| && x < rates[i].effectiveFrom <= y
  }

  /** The same bonuses apply at both instants. */
  predicate SameBonuses(bonuses: seq<BonusRule>, x: Time, y: Time) {
    forall b <- bonuses :: b.AppliesAt(x) <==> b.AppliesAt(y)
  }

  /** No version starts between the two instants, whichever is earlier, and the same bonus applies. */
  predicate NothingBetween(rates: seq<RateRow>, bonuses: seq<BonusRule>, x: Time, y: Time) {
    !SomeStartsWithin(rates, x, y) && !SomeStartsWithin(rates, y, x) && SameBonuses(bonuses, x, y)
  }

  lemma {:induction false} SameRateIff(rates: seq<RateRow>, x: Time, y: Time)
    requires Contiguous(rates) && x <= y
    ensures SomeStartsWithin(rates, x, y) ==>
              && RateAt(rates, y).Some?
              && (RateAt(rates, x).Some? ==> RateAt(rates, x).value.rule != RateAt(rates, y).value.rule)
    ensures !SomeStartsWithin(rates, x, y) ==> RateAt(rates, x) == RateAt(rates, y)
  {
    ExactlyOneVersionApplies(rates, x);
    ExactlyOneVersionApplies(rates, y);
    if k :| 0 <= k < |rates| && x < rates[k].effectiveFrom <= y {
      if k > 0 { StartsAscend(rates, 0, k); }
      var j :| 0 <= j < |rates| && rates[j] == RateAt(rates, y).value;
      if j < k { StartsAscend(rates, j, k); }
      if k < j { StartsAscend(rates, k, j); }
      assert WindowOk(rates, j);
      if RateAt(rates, x).Some? {
        var i :| 0 <= i < |rates| && rates[i] == RateAt(rates, x).value;
        assert WindowOk(rates, i) && i != j;
      }
    } else if RateAt(rates, x).Some? {
      var i :| 0 <= i < |rates| && rates[i] == RateAt(rates, x).value;
      assert WindowOk(rates, i);
      UniqueRate(rates, y, i);
    }
  }

  lemma {:induction false} SameBonusIff(bonuses: seq<BonusRule>, x: Time, y: Time)
    requires NoOverlap(bonuses)
    ensures BonusAt(bonuses, x) == BonusAt(bonuses, y) <==> SameBonuses(bonuses, x, y)
  {
    var p, q := BonusAt(bonuses, x), BonusAt(bonuses, y);
    forall b, d | b in bonuses && d in bonuses
                  && ((b.AppliesAt(x) && d.AppliesAt(x)) || (b.AppliesAt(y) && d.AppliesAt(y)))
      ensures b == d
    {
      var i :| 0 <= i < |bonuses| && bonuses[i] == b;
      var j :| 0 <= j < |bonuses| && bonuses[j] == d;
    }
  }

  /**
   Two instants in any order price alike if and only if no version starts between them and the
   same bonus applies at both.
   */
  lemma {:induction false} PricesAgreeIff(source: ProgramRef, destination: ProgramRef, rates: seq<RateRow>,
      bonuses: seq<BonusRule>, x: Time, y: Time)
    requires Contiguous(rates) && NoOverlap(bonuses)
    ensures SamePrice(GetRoute(source, destination, rates, bonuses, x),
                      GetRoute(source, destination, rates, bonuses, y))
       <==> NothingBetween(rates, bonuses, x, y)
  {
    SameBonusIff(bonuses, x, y);
    if x <= y {
      SameRateIff(rates, x, y);
    } else {
      SameRateIff(rates, y, x);
    }
  }

  /**
   `valid_until` is later than the load and tight: at that very instant the price changes.
   */
  lemma {:induction false} ValidUntilIsTight(source: ProgramRef, destination: ProgramRef, rates: seq<RateRow>,
      bonuses: seq<BonusRule>, at: Time)
    requires Contiguous(rates) && NoOverlap(bonuses)
    requires GetRoute(source, destination, rates, bonuses, at).validUntil.Some?
    ensures var loaded := GetRoute(source, destination, rates, bonuses, at);
            && loaded.validUntil.value > at
            && !SamePrice(loaded, GetRoute(source, destination, rates, bonuses, loaded.validUntil.value))
  {
    var loaded := GetRoute(source, destination, rates, bonuses, at);
    var end := loaded.validUntil.value;
    PricesAgreeIff(source, destination, rates, bonuses, at, end);
    if loaded.rate.Some? && loaded.rate.value.effectiveTo == Some(end) {
      var i :| 0 <= i < |rates| && rates[i] == RateAt(rates, at).value;
      assert WindowOk(rates, i);
      assert rates[i + 1].effectiveFrom == end;
    } else if loaded.bonus.Some? && loaded.bonus.value.endsAt == end {
      assert loaded.bonus.value in bonuses && !loaded.bonus.value.AppliesAt(end);
    } else {
      var b :| b in bonuses && b.startsAt == end;
      assert b.AppliesAt(end) && !b.AppliesAt(at);
    }
  }

  /** The greatest version number, and the rows with the open one closed, unless it starts too late. */
  method CloseCurrent(rates: seq<RateRow>, changedAt: Time) returns (latest: nat, closed: Option<seq<RateRow>>)
    ensures closed.Some? <==> forall i :: 0 <= i < |rates| && IsCurrent(rates[i]) ==> rates[i].effectiveFrom < changedAt
    ensures closed.Some? ==> closed.value == Closed(rates, changedAt) && latest == LatestVersion(rates)
  {
    var rows := rates;
    latest := 0;
    for i := 0 to |rates|
      invariant latest == LatestVersion(rates[..i])
      invariant |rows| == |rates|
      invariant forall k :: 0 <= k < i ==> rows[k] == Closed(rates, changedAt)[k]
      invariant forall k :: i <= k < |rates| ==> rows[k] == rates[k]
      invariant forall k :: 0 <= k < i && IsCurrent(rates[k]) ==> rates[k].effectiveFrom < changedAt
    {
      assert rates[..i + 1][..i] == rates[..i];
      if rates[i].rule.version > latest {
        latest := rates[i].rule.version;
      }
      if IsCurrent(rates[i]) {
        if changedAt <= rates[i].effectiveFrom {
          return latest, None;
        }
        rows := rows[i := rates[i].(rule := rates[i].rule.(effectiveTo := Some(changedAt)))];
      }
    }
    assert rates[..|rates|] == rates;
    assert rows == Closed(rates, changedAt);
    closed := Some(rows);
  }

  /** `at` is the instant the quote priced for, `writtenAt` the instant the entry was stored. */
  datatype Entry = Entry(route: RouteConfig, at: Time, writtenAt: Time, expiresAt: Time)

  /** The entry is still inside the validity its route was loaded with. */
  predicate InValidity(e: Entry, t: Time) {
    e.at <= t && (e.route.validUntil.Some? ==> t < e.route.validUntil.value)
  }

  /**
   The tables of one route with the cache entry in front of them. A quote reads its clock first
   (`at`) and reaches the cache and the tables at some later instant (`now`).
   */
  class CachedRoute {
    const source: ProgramRef
    const destination: ProgramRef
    const ttl: nat
    var rates: seq<RateRow>
    var bonuses: seq<BonusRule>
    var entry: Option<Entry>

    constructor (source: ProgramRef, destination: ProgramRef, ttl: nat)
      ensures this.source == source && this.destination == destination && this.ttl == ttl
      ensures rates == [] && bonuses == [] && entry == None && Valid()
    {
      this.source, this.destination, this.ttl := source, destination, ttl;
      rates, bonuses, entry := [], [], None;
    }

    /** Histories are well formed, and an entry is what a load of these tables stored. */
    ghost predicate Valid()
      reads this
    {
      && Contiguous(rates) && NoOverlap(bonuses)
      && (entry.Some? ==>
            && entry.value.route == Fresh(entry.value.at)
            && entry.value.at <= entry.value.writtenAt
            && entry.value.expiresAt == entry.value.writtenAt + Lifetime(entry.value.route, ttl, entry.value.at))
    }

    function Fresh(at: Time): RouteConfig
      reads this
    {
      GetRoute(source, destination, rates, bonuses, at)
    }

    /** The cache holds an unexpired entry. */
    predicate Hit(now: Time, redisUp: bool)
      reads this
    {
      redisUp && entry.Some? && now < entry.value.expiresAt
    }

    /**
     A hit answers with the stored route, which prices like a fresh load exactly when nothing
     lies between its instant and the quote's. While its validity lasts only the start of the
     first version can, and it outlasts that by no more than the entry was late when written.
     A miss answers with a fresh load and stores it for its lifetime.
     */
    method GetCachedRoute(at: Time, now: Time, redisUp: bool) returns (route: RouteConfig)
      requires Valid() && at <= now
      modifies this`entry
      ensures Valid()
      ensures old(Hit(now, redisUp)) ==> entry == old(entry) && route == entry.value.route
      ensures old(Hit(now, redisUp)) ==>
                (SamePrice(route, Fresh(at)) <==> NothingBetween(rates, bonuses, old(entry).value.at, at))
      ensures old(Hit(now, redisUp)) && InValidity(old(entry).value, at) ==>
                (SamePrice(route, Fresh(at)) <==> !FirstStartsWithin(rates, old(entry).value.at, at))
      ensures old(Hit(now, redisUp)) && route.validUntil.Some? ==>
                now < route.validUntil.value + old(entry).value.writtenAt - old(entry).value.at
      ensures !old(Hit(now, redisUp)) ==> route == Fresh(at)
      ensures !old(Hit(now, redisUp)) ==>
                entry == if redisUp && Lifetime(route, ttl, at) > 0
                         then Some(Entry(route, at, now, now + Lifetime(route, ttl, at))) else old(entry)
    {
      if Hit(now, redisUp) {
        PricesAgreeIff(source, destination, rates, bonuses, entry.value.at, at);
        if InValidity(entry.value, at) {
          HitAgreesIff(source, destination, rates, bonuses, entry.value.at, at);
        }
        return entry.value.route;
      }
      route := Fresh(at);
      var life := Lifetime(route, ttl, at);
      if redisUp && life > 0 {
        entry := Some(Entry(route, at, now, now + life));
      }
    }

    method CreateRateVersion(terms: RateRule, changedAt: Time) returns (r: Result<nat, AdminError>)
      requires Valid()
      modifies this`rates, this`entry
      ensures Valid()
      ensures WithVersion(old(rates), terms, changedAt).Ok? ==>
                Ok(rates) == WithVersion(old(rates), terms, changedAt) && entry == None
      ensures WithVersion(old(rates), terms, changedAt).Err? ==> rates == old(rates) && entry == old(entry)
      ensures r.Ok? ==> rates != [] && r.value == rates[|rates| - 1].rule.version == |rates|
      ensures r.Ok? <==> WithVersion(old(rates), terms, changedAt).Ok?
      ensures r.Ok? ==> forall t :: t >= changedAt ==> InForce(rates, t, terms, r.value, changedAt)
    {
      if !RateAcceptable(terms) {
        return Err(InvalidRate);
      }
      var latest, closed := CloseCurrent(rates, changedAt);
      if closed.None? {
        return Err(WindowViolation);
      }
      hide InForce, Contiguous, RateAt;
      VersionKeepsContiguous(rates, terms, changedAt);
      LatestOfContiguous(rates, |rates|);
      assert rates[..|rates|] == rates;
      var created := RateRow(terms.(version := latest + 1, effectiveTo := None), changedAt, true);
      InForceFromThen(rates, terms, changedAt, closed.value + [created], latest + 1);
      rates := closed.value + [created];
      entry := None;
      return Ok(created.rule.version);
    }

    method CreateBonus(bonus: BonusRule, now: Time) returns (r: Result<(), AdminError>)
      requires Valid()
      modifies this`bonuses, this`entry
      ensures Valid()
      ensures r.Ok? ==> bonuses == old(bonuses) + [bonus] && entry == None
      ensures r.Err? ==> bonuses == old(bonuses) && entry == old(entry)
      ensures r.Ok? <==>
                && ValidBonus(bonus) && now < bonus.endsAt
                && (exists i :: 0 <= i < |rates| && IsCurrent(rates[i]))
                && forall b <- old(bonuses) :: b.endsAt <= bonus.startsAt || bonus.endsAt <= b.startsAt
    {
      if !ValidBonus(bonus) || bonus.endsAt <= now {
        return Err(InvalidBonus);
      }
      if !exists i :: 0 <= i < |rates| && IsCurrent(rates[i]) {
        return Err(NoCurrentRate);
      }
      if exists b <- bonuses :: b.startsAt < bonus.endsAt && bonus.startsAt < b.endsAt {
        return Err(BonusOverlap);
      }
      bonuses := bonuses + [bonus];
      entry := None;
      return Ok(());
    }
  }

  /**
   How the cache comes to serve a route without its rate: a quote reads its clock, the first
   version of the route commits and clears the cache, the quote then loads for its own earlier
   instant and stores that nothing is supported, and a later quote hits it.
   */
  method QuoteOvertakenByFirstVersion(source: ProgramRef, destination: ProgramRef, ttl: nat, terms: RateRule,
      at: Time, changedAt: Time, later: Time) returns (cache: CachedRoute, stale: RouteConfig)
    requires RateAcceptable(terms) && at < changedAt <= later < changedAt + ttl
    ensures fresh(cache) && cache.Valid()
    ensures stale.rate == None && cache.Fresh(later).rate.Some? && !SamePrice(stale, cache.Fresh(later))
  {
    cache := new CachedRoute(source, destination, ttl);
    VersionKeepsContiguous([], terms, changedAt);
    var created := cache.CreateRateVersion(terms, changedAt);
    ExactlyOneVersionApplies(cache.rates, at);
    ExactlyOneVersionApplies(cache.rates, later);
    var first := cache.GetCachedRoute(at, changedAt, true);
    stale := cache.GetCachedRoute(later, later, true);
  }

  /** The smallest such input: the first version starts at 10, loaded for 5, priced for 10. */
  lemma {:induction false} LoadBeforeTheFirstVersionIsStale(source: ProgramRef, destination: ProgramRef, rule: RateRule)
    requires rule.version == 1 && rule.effectiveTo.None?
    ensures var rates := [RateRow(rule, 10, true)];
            var loaded := GetRoute(source, destination, rates, [], 5);
            && Contiguous(rates) && loaded.validUntil.None? && 5 + Lifetime(loaded, 300, 5) > 10
            && loaded.rate.None? && GetRoute(source, destination, rates, [], 10).rate == Some(rule)
  {
    var rates := [RateRow(rule, 10, true)];
    assert WindowOk(rates, 0);
    ExactlyOneVersionApplies(rates, 5);
    UniqueRate(rates, 10, 0);
  }
}
