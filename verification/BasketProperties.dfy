/** What every basket fill guarantees, and when the edge fill is the best one. */
module BasketProperties {
  import opened Options
  import opened Ladders
  import opened EdgeClimb
  import opened Baskets

  // ---- the limit ----------------------------------------------------------------------------

  /** The limit is exactly the largest step count that every leg's usable depth can supply. */
  lemma {:induction false} LimitIsTight(legs: seq<Leg>, cap: Option<int>, s: int)
    requires LegsPositive(legs)
    ensures s <= StepLimit(legs, cap) <==>
            forall i :: 0 <= i < |legs| ==> s * legs[i].unit <= Depth(Usable(legs[i].ladder, cap))
  {
    var d, u := Depth(Usable(legs[0].ladder, cap)), legs[0].unit;
    QuotientBound(d, u, s);
    if |legs| > 1 {
      var rest := legs[1..];
      LimitIsTight(rest, cap, s);
      if s <= StepLimit(legs, cap) {
        forall i | 0 <= i < |legs| ensures s * legs[i].unit <= Depth(Usable(legs[i].ladder, cap)) {
          if i > 0 { assert legs[i] == rest[i - 1]; }
        }
      }
    }
  }

  lemma QuotientBound(d: int, u: int, s: int)
    requires u > 0
    ensures s <= d / u <==> s * u <= d
  {
    var q := d / u;
    assert q * u <= d < q * u + u;
    if s <= q {
      assert s * u <= q * u;
    } else {
      assert s * u >= (q + 1) * u;
    }
  }

  lemma LegDepth(legs: seq<Leg>, cap: Option<int>, s: int, i: nat)
    requires LegsPositive(legs) && i < |legs| && s <= StepLimit(legs, cap)
    ensures s * legs[i].unit <= Depth(Usable(legs[i].ladder, cap))
  {
    LimitIsTight(legs, cap, s);
  }

  // ---- every fill is exact ------------------------------------------------------------------

  /** Leg `i` of a fill: exactly `steps * unit` atoms, within the level cap; and, short of the limit,
      the depth beyond it prices the next step. */
  ghost predicate LegExact(leg: Leg, cap: Option<int>, limit: int, steps: int, fill: Fill, beyond: seq<Level>)
  {
    && fill.filledAtoms == steps * leg.unit
    && !fill.depthLimited
    && (cap.Some? ==> |fill.consumed| <= cap.value && |beyond| <= cap.value + 1)
    && (steps < limit ==>
          && Depth(beyond) >= leg.unit
          && WalkOf(beyond, [leg.unit]).Fills?
          && var more := WalkOf(beyond, [leg.unit]).fills[0];
          && more.filledAtoms == leg.unit
          && more.cost == FillAt(leg.ladder, (steps + 1) * leg.unit).cost - fill.cost)
  }

  ghost predicate FillExact(legs: seq<Leg>, cap: Option<int>, f: BasketFill)
    requires LegsPositive(legs)
  {
    && 0 <= f.steps <= StepLimit(legs, cap)
    && |f.legs| == |f.beyond| == |f.before| == |f.after| == |f.impactPpm| == |legs|
    && forall i :: 0 <= i < |legs| ==>
         LegExact(legs[i], cap, StepLimit(legs, cap), f.steps, f.legs[i], f.beyond[i])
  }

  lemma UsablePrefix(ladder: seq<Level>, cap: Option<int>)
    returns (k: nat)
    requires cap.Some? ==> cap.value > 0
    ensures k <= |ladder| && Usable(ladder, cap) == ladder[..k] && (cap.Some? ==> k <= cap.value)
  {
    k := if cap.Some? && cap.value < |ladder| then cap.value else |ladder|;
    assert ladder[..|ladder|] == ladder;
  }

  lemma {:induction false} CoveredWalk(levels: seq<Level>, n: int)
    requires Stocked(levels) && 0 <= n <= Depth(levels)
    ensures Depth(Taken(levels, n)) == n
  {
    if levels != [] && n > 0 {
      DepthPositive(levels[1..]);
      CoveredWalk(levels[1..], Max(0, n - levels[0].quantity));
      assert Taken(levels, n)[1..] == Taken(levels[1..], n - levels[0].quantity);
      assert Taken(levels[1..], n - levels[0].quantity) == Taken(levels[1..], Max(0, n - levels[0].quantity));
    } else {
      DepthPositive(levels);
    }
  }

  lemma LegFillExact(leg: Leg, cap: Option<int>, steps: int)
    requires leg.unit > 0 && (cap.Some? ==> cap.value > 0) && AllOk(Usable(leg.ladder, cap))
    requires 0 <= steps && steps * leg.unit <= Depth(Usable(leg.ladder, cap))
    ensures var f := FillAt(leg.ladder, steps * leg.unit);
            && f.filledAtoms == steps * leg.unit && !f.depthLimited
            && f.cost == Cost(Usable(leg.ladder, cap), steps * leg.unit)
            && (cap.Some? ==> |f.consumed| <= cap.value)
  {
    var n := steps * leg.unit;
    assert n >= 0 by { NotNegativeProduct(steps, leg.unit); }
    var k := UsablePrefix(leg.ladder, cap);
    PrefixTaken(leg.ladder, k, n);
    CoveredWalk(leg.ladder[..k], n);
    TakenLength(leg.ladder[..k], n);
  }

  lemma NotNegativeProduct(a: int, b: int)
    requires 0 <= a && 0 <= b
    ensures 0 <= a * b
  {
  }

  /** The depth behind a fill, cut off once it holds one step, prices that step like the ladder. */
  lemma {:induction false} RestPricesOneStep(levels: seq<Level>, k: nat, skip: int, unit: int, bound: Option<int>)
    requires k <= |levels| && AllOk(levels[..k]) && 0 < unit
    requires Max(0, skip) + unit <= Depth(levels[..k])
    requires bound.Some? ==> k < bound.value
    ensures var r := RestOf(levels, skip, unit, bound);
            && AllOk(r) && Depth(r) >= unit
            && Cost(r, unit) == Cost(Left(levels[..k], skip), unit)
    decreases |levels|
  {
    hide RestOf, Left, Depth, AllOk, Cost;
    FrontSplit(levels, k);
    if k > 0 {
      var q, rest := levels[0].quantity, levels[1..];
      var behind := skip - q;
      if behind >= 0 {
        FillBehind(levels, k, skip, unit, bound);
        RestPricesOneStep(rest, k - 1, behind, unit, bound);
      } else {
        var l := Level(levels[0].price, q - Max(0, skip));
        CutInto(levels, k, skip, unit, bound);
        if l.quantity >= unit {
          OneLevelCost(l, Left(levels[..k], skip), unit);
        } else {
          var next := if bound.Some? then Some(bound.value - 1) else None;
          RestPricesOneStep(rest, k - 1, behind, unit - l.quantity, next);
          SamePriceBehind(l, RestOf(rest, behind, unit - l.quantity, next), rest[..k - 1], unit);
        }
      }
    }
  }

  lemma FrontSplit(levels: seq<Level>, k: nat)
    requires k <= |levels|
    ensures k == 0 ==> Depth(levels[..k]) == 0
    ensures k > 0 ==>
              && (AllOk(levels[..k]) <==> LevelOk(levels[0]) && AllOk(levels[1..][..k - 1]))
              && Depth(levels[..k]) == levels[0].quantity + Depth(levels[1..][..k - 1])
  {
    if k > 0 {
      assert levels[..k][1..] == levels[1..][..k - 1];
    }
  }

  /** A fill that goes beyond the first level. */
  lemma FillBehind(levels: seq<Level>, k: nat, skip: int, unit: int, bound: Option<int>)
    requires 0 < k <= |levels| && 0 < levels[0].quantity <= skip
    ensures RestOf(levels, skip, unit, bound) == RestOf(levels[1..], skip - levels[0].quantity, unit, bound)
    ensures Left(levels[..k], skip) == Left(levels[1..][..k - 1], skip - levels[0].quantity)
  {
    assert levels[..k][1..] == levels[1..][..k - 1];
  }

  /** A fill that ends inside the first level. */
  lemma CutInto(levels: seq<Level>, k: nat, skip: int, unit: int, bound: Option<int>)
    requires 0 < k <= |levels| && skip < levels[0].quantity
    ensures var l := Level(levels[0].price, levels[0].quantity - Max(0, skip));
            var next := if bound.Some? then Some(bound.value - 1) else None;
            var behind := skip - levels[0].quantity;
            && RestOf(levels, skip, unit, bound) ==
               (if l.quantity >= unit || bound == Some(1) then [l]
                else [l] + RestOf(levels[1..], behind, unit - l.quantity, next))
            && Left(levels[..k], skip) == [l] + levels[1..][..k - 1]
            && Left(levels[1..][..k - 1], behind) == levels[1..][..k - 1]
  {
    assert levels[..k][1..] == levels[1..][..k - 1];
  }

  lemma SamePriceBehind(l: Level, one: seq<Level>, other: seq<Level>, n: int)
    requires LevelOk(l) && l.quantity < n && AllOk(one)
    requires Depth(one) >= n - l.quantity && Cost(one, n - l.quantity) == Cost(other, n - l.quantity)
    ensures AllOk([l] + one) && Depth([l] + one) >= n && Cost([l] + one, n) == Cost([l] + other, n)
  {
    HeadCost(l, one, n);
    HeadCost(l, other, n);
  }

  lemma OneLevelCost(l: Level, levels: seq<Level>, n: int)
    requires levels != [] && levels[0] == l && 0 < n <= l.quantity
    ensures Cost([l], n) == Cost(levels, n) && Depth([l]) == l.quantity && (LevelOk(l) ==> AllOk([l]))
  {
    CostHead([l], n);
    CostHead(levels, n);
    assert Taken(levels[1..], 0) == [];
  }

  lemma HeadCost(l: Level, tail: seq<Level>, n: int)
    requires 0 < l.quantity < n
    ensures Cost([l] + tail, n) == l.price * l.quantity + Cost(tail, n - l.quantity)
    ensures Depth([l] + tail) == l.quantity + Depth(tail)
  {
    assert ([l] + tail)[1..] == tail;
    CostHead([l] + tail, n);
  }

  lemma {:induction false} RestIsShort(levels: seq<Level>, skip: int, unit: int, bound: Option<int>)
    requires bound.Some? ==> bound.value > 0
    ensures bound.Some? ==> |RestOf(levels, skip, unit, bound)| <= bound.value
    decreases |levels|
  {
    if levels != [] {
      var behind := skip - levels[0].quantity;
      if behind >= 0 {
        RestIsShort(levels[1..], behind, unit, bound);
      } else if bound != Some(1) {
        RestIsShort(levels[1..], behind, unit - Min(levels[0].quantity, -behind),
                    if bound.Some? then Some(bound.value - 1) else None);
      }
    }
  }

  lemma LegIsExact(leg: Leg, cap: Option<int>, limit: int, steps: int)
    requires leg.unit > 0 && (cap.Some? ==> cap.value > 0) && AllOk(Usable(leg.ladder, cap))
    requires 0 <= steps <= limit && limit * leg.unit <= Depth(Usable(leg.ladder, cap))
    ensures LegExact(leg, cap, limit, steps, FillAt(leg.ladder, steps * leg.unit),
                     RestOf(leg.ladder, steps * leg.unit, leg.unit, Bound(cap)))
  {
    var u, n := leg.unit, steps * leg.unit;
    NotNegativeProduct(steps, u);
    NotNegativeProduct(limit - steps, u);
    assert limit * u == n + (limit - steps) * u;
    LegFillExact(leg, cap, steps);
    RestIsShort(leg.ladder, n, u, Bound(cap));
    if steps < limit {
      NotNegativeProduct(limit - steps - 1, u);
      assert (limit - steps) * u == (limit - steps - 1) * u + u;
      assert (steps + 1) * u == n + u;
      LegFillExact(leg, cap, steps + 1);
      var k := UsablePrefix(leg.ladder, cap);
      RestPricesOneStep(leg.ladder, k, n, u, Bound(cap));
      var beyond := RestOf(leg.ladder, n, u, Bound(cap));
      CostAfter(leg.ladder[..k], n, u);
      CoveredWalk(beyond, u);
      ValidWalks(beyond, u);
      assert WalkOf(beyond, [u]).fills[0] == FillAt(beyond, u);
    }
  }

  lemma ReportIsExact(legs: seq<Leg>, cap: Option<int>, steps: int, stop: Stop, value: Option<int>)
    requires LegsPositive(legs) && UsableOk(legs, cap) && (cap.Some? ==> cap.value > 0)
    requires 0 <= steps <= StepLimit(legs, cap)
    ensures FillExact(legs, cap, FillReport(legs, cap, steps, stop, value))
  {
    var f := FillReport(legs, cap, steps, stop, value);
    forall i | 0 <= i < |legs|
      ensures LegExact(legs[i], cap, StepLimit(legs, cap), f.steps, f.legs[i], f.beyond[i])
    {
      LegDepth(legs, cap, StepLimit(legs, cap), i);
      LegIsExact(legs[i], cap, StepLimit(legs, cap), steps);
    }
  }

  // ---- what a report says about the best levels ---------------------------------------------

  /** The depth behind a fill begins with the first level the fill left, less what it took of it. */
  lemma {:induction false} RestBeginsWithWhatIsLeft(levels: seq<Level>, skip: int, unit: int, bound: Option<int>)
    requires TouchedOk(levels, skip)
    ensures First(RestOf(levels, skip, unit, bound)) == First(Left(levels, skip))
    decreases |levels|
  {
    if levels != [] && levels[0].quantity <= skip {
      RestBeginsWithWhatIsLeft(levels[1..], skip - levels[0].quantity, unit, bound);
    }
  }

  /** The depth listed behind a fill is what the fill left, best first, as far as one more step needs it:
      every level but the last is needed, and it falls short only where the ladder or the bound ends it. */
  lemma {:induction false} RestIsWhatOneStepNeeds(levels: seq<Level>, skip: int, unit: int, bound: Option<int>)
    requires Stocked(levels) && (bound.Some? ==> bound.value > 0)
    ensures var r, left := RestOf(levels, skip, unit, bound), Left(levels, skip);
            && r <= left
            && (forall j :: 0 < j < |r| ==> Depth(r[..j]) < unit)
            && (r == left || Depth(r) >= unit || bound == Some(|r|))
    decreases |levels|
  {
    if levels != [] {
      var behind := skip - levels[0].quantity;
      if behind >= 0 {
        RestIsWhatOneStepNeeds(levels[1..], behind, unit, bound);
      } else {
        var l := Level(levels[0].price, Min(levels[0].quantity, -behind));
        assert Left(levels, skip) == [l] + levels[1..];
        assert Depth([l]) == l.quantity;
        if l.quantity < unit && bound != Some(1) {
          var next := if bound.Some? then Some(bound.value - 1) else None;
          RestIsWhatOneStepNeeds(levels[1..], behind, unit - l.quantity, next);
          NeededBehind(l, RestOf(levels[1..], behind, unit - l.quantity, next), unit);
        }
      }
    }
  }

  lemma NeededBehind(l: Level, rest: seq<Level>, unit: int)
    requires l.quantity < unit && forall j :: 0 < j < |rest| ==> Depth(rest[..j]) < unit - l.quantity
    ensures forall j :: 0 < j < |[l] + rest| ==> Depth(([l] + rest)[..j]) < unit
    ensures Depth([l] + rest) == l.quantity + Depth(rest)
  {
    assert ([l] + rest)[1..] == rest;
    forall j | 0 < j < |[l] + rest| ensures Depth(([l] + rest)[..j]) < unit {
      assert ([l] + rest)[..j] == [l] + rest[..j - 1] && ([l] + rest[..j - 1])[1..] == rest[..j - 1];
      assert j == 1 ==> rest[..j - 1] == [];
    }
  }

  /** Floored parts per million of the best price before: nothing when there is none or it is not positive. */
  ghost predicate MovedBy(before: Option<Level>, after: Option<Level>, ppm: Option<int>) {
    && (ppm.Some? <==> before.Some? && after.Some? && before.value.price > 0)
    && (ppm.Some? ==>
          var move := after.value.price - before.value.price;
          var size := if move < 0 then -move else move;
          0 <= ppm.value && ppm.value * before.value.price <= size * 1_000_000 < (ppm.value + 1) * before.value.price)
  }

  lemma ImpactMoves(before: Option<Level>, after: Option<Level>)
    ensures MovedBy(before, after, Impact(before, after))
  {
    if Impact(before, after).Some? {
      var move := after.value.price - before.value.price;
      FloorsBetween((if move < 0 then -move else move) * 1_000_000, before.value.price);
    }
  }

  lemma FloorsBetween(a: int, b: int)
    requires 0 <= a && 0 < b
    ensures 0 <= a / b && (a / b) * b <= a < (a / b + 1) * b
  {
    assert a == (a / b) * b + a % b;
    assert (a / b + 1) * b == (a / b) * b + b;
  }

  /** Every report that is made: for each leg the best level there was, the best level its fill left of the
      ladder, and how far the price moved between the two. */
  lemma BestLevelsAreReported(legs: seq<Leg>, cap: Option<int>, steps: int, stop: Stop, value: Option<int>)
    requires LegsPositive(legs) && UsableOk(legs, cap) && (cap.Some? ==> cap.value > 0)
    requires 0 <= steps <= StepLimit(legs, cap) && Walkable(legs, steps)
    ensures var f := FillReport(legs, cap, steps, stop, value);
            forall i :: 0 <= i < |legs| ==>
              && f.before[i] == (if legs[i].ladder == [] then None else Some(legs[i].ladder[0]))
              && f.after[i] == First(Left(legs[i].ladder, steps * legs[i].unit))
              && MovedBy(f.before[i], f.after[i], f.impactPpm[i])
  {
    var f := FillReport(legs, cap, steps, stop, value);
    forall i | 0 <= i < |legs|
      ensures f.after[i] == First(Left(legs[i].ladder, steps * legs[i].unit))
      ensures MovedBy(f.before[i], f.after[i], f.impactPpm[i])
    {
      AfterIsLeft(legs, cap, steps, i);
      ImpactMoves(f.before[i], f.after[i]);
    }
  }

  lemma AfterIsLeft(legs: seq<Leg>, cap: Option<int>, steps: int, i: nat)
    requires LegsPositive(legs) && UsableOk(legs, cap) && (cap.Some? ==> cap.value > 0) && i < |legs|
    requires 0 <= steps <= StepLimit(legs, cap) && Walkable(legs, steps)
    ensures var filled := FillAt(legs[i].ladder, steps * legs[i].unit).filledAtoms;
            First(RestOf(legs[i].ladder, filled, legs[i].unit, Bound(cap))) ==
            First(Left(legs[i].ladder, steps * legs[i].unit))
  {
    var leg := legs[i];
    assert AllOk(Usable(leg.ladder, cap));
    hide RestOf, Left, FillAt, StepLimit, Usable, Depth, AllOk, TouchedOk, First;
    LegDepth(legs, cap, StepLimit(legs, cap), i);
    ScaledUp(steps, StepLimit(legs, cap), leg.unit);
    LegFillExact(leg, cap, steps);
    if steps == 0 {
      FirstIsTouched(leg.ladder, cap);
    }
    RestBeginsWithWhatIsLeft(leg.ladder, steps * leg.unit, leg.unit, Bound(cap));
  }

  lemma ScaledUp(a: int, b: int, c: int)
    requires a <= b && 0 < c
    ensures a * c <= b * c
  {
  }

  lemma FirstIsTouched(ladder: seq<Level>, cap: Option<int>)
    requires AllOk(Usable(ladder, cap)) && (cap.Some? ==> cap.value > 0)
    ensures TouchedOk(ladder, 0)
  {
    if ladder != [] {
      assert Usable(ladder, cap)[0] == ladder[0];
    }
  }

  lemma TargetFillIsExact(legs: seq<Leg>, cap: Option<int>, value: Option<Valuation>, target: int)
    requires LegsPositive(legs) && UsableOk(legs, cap) && (cap.Some? ==> cap.value > 0)
    requires 0 < target && 0 <= StepLimit(legs, cap)
    ensures var f := TargetFill(legs, cap, value, target);
            && FillExact(legs, cap, f)
            && f.steps == Min(target, StepLimit(legs, cap))
            && (f.stop == Target <==> f.steps == target)
            && (f.stop != Target ==> Ended(legs, cap, f))
            && f.value == (if value.Some? && f.steps > 0 then value.value(f.steps, f.legs) else None)
  {
    var f := TargetFill(legs, cap, value, target);
    ReportIsExact(legs, cap, f.steps, f.stop, f.value);
    if f.stop != Target {
      EndsAtTheLimit(legs, cap, f);
    }
  }

  /** A fill that ended for want of depth: some leg cannot serve one more step from what the cap leaves it,
      and the cap is the reason exactly when the whole ladders would serve that step. */
  ghost predicate Ended(legs: seq<Leg>, cap: Option<int>, f: BasketFill) {
    var next := f.steps + 1;
    && f.stop in {BookExhausted, LevelCap}
    && (exists i :: 0 <= i < |legs| && next * legs[i].unit > Depth(Usable(legs[i].ladder, cap)))
    && (f.stop == LevelCap <==>
          cap.Some? && forall i :: 0 <= i < |legs| ==> next * legs[i].unit <= Depth(legs[i].ladder))
  }

  lemma EndsAtTheLimit(legs: seq<Leg>, cap: Option<int>, f: BasketFill)
    requires LegsPositive(legs) && f.steps == StepLimit(legs, cap) && f.stop == Exhaustion(legs, cap)
    ensures Ended(legs, cap, f)
  {
    LimitIsTight(legs, cap, f.steps + 1);
    LimitIsTight(legs, None, f.steps + 1);
    assert forall i :: 0 <= i < |legs| ==> Usable(legs[i].ladder, None) == legs[i].ladder;
    hide StepLimit, Depth, Usable;
  }

  /** The edge fill is as exact as any other. */
  lemma EdgeFillIsExact(legs: seq<Leg>, cap: Option<int>, value: Valuation)
    requires LegsPositive(legs) && UsableOk(legs, cap) && (cap.Some? ==> cap.value > 0)
    requires 0 <= StepLimit(legs, cap)
    ensures FillExact(legs, cap, EdgeFill(legs, cap, value))
  {
    var f := EdgeFill(legs, cap, value);
    ClimbStops(Worth(legs, value), Ordered(legs, cap), 0, 0);
    ReportIsExact(legs, cap, f.steps, f.stop, f.value);
  }

  /** What the stop of an edge fill says about the caller's valuation, whatever that is. */
  lemma EdgeStopsMean(legs: seq<Leg>, cap: Option<int>, value: Valuation)
    requires LegsPositive(legs) && 0 <= StepLimit(legs, cap)
    ensures var f, v, limit := EdgeFill(legs, cap, value), Worth(legs, value), StepLimit(legs, cap);
            && 0 <= f.steps <= limit
            && (f.stop == Edge ==>
                  && f.steps < limit && v(f.steps).Some? && v(f.steps + 1).Some?
                  && v(f.steps + 1).value <= v(f.steps).value)
            && (f.stop in {BookExhausted, LevelCap} <==> f.steps == limit && v(f.steps).Some?)
            && (f.stop == ValueUnknown <==> v(f.steps).None?)
  {
    ClimbStops(Worth(legs, value), Ordered(legs, cap), 0, 0);
    hide LegsAt, LegCandidates, FillAt;
  }

  /** Where an edge fill ended for want of depth, the cap is named exactly when it was the cap; and what is
      reported as its value is what the caller said. */
  lemma EdgeReportsItsEnd(legs: seq<Leg>, cap: Option<int>, value: Valuation)
    requires LegsPositive(legs) && 0 <= StepLimit(legs, cap)
    ensures var f := EdgeFill(legs, cap, value);
            && (f.stop in {BookExhausted, LevelCap} ==> Ended(legs, cap, f))
            && f.value == (if f.steps > 0 then value(f.steps, f.legs) else None)
  {
    EdgeStopsMean(legs, cap, value);
    hide StepLimit, Ordered, Climb, Climbing, RestOf, Impact, Ended, FillAt, Exhaustion;
    var f := EdgeFill(legs, cap, value);
    if f.stop in {BookExhausted, LevelCap} {
      EndsAtTheLimit(legs, cap, f);
    }
  }

  // ---- when the edge fill is the best one ---------------------------------------------------

  /** Sold legs bring their proceeds in, bought legs cost. */
  function Net(sells: seq<bool>, fills: seq<Fill>): int
    requires |sells| == |fills|
  {
    if fills == [] then 0
    else (if sells[0] then fills[0].cost else -fills[0].cost) + Net(sells[1..], fills[1..])
  }

  /** A fixed payoff per step, less what was paid, plus what was received. */
  ghost predicate PaysFixed(value: Valuation, payoff: int, sells: seq<bool>) {
    forall steps, fills: seq<Fill> :: 0 < steps && |fills| == |sells| ==>
      value(steps, fills) == Some(payoff * steps + Net(sells, fills))
  }

  predicate BestFirst(legs: seq<Leg>, cap: Option<int>, sells: seq<bool>) {
    && |sells| == |legs|
    && forall i :: 0 <= i < |legs| ==>
         var usable := Usable(legs[i].ladder, cap);
         if sells[i] then Falling(usable) else Rising(usable)
  }

  /** The same net value, straight from the usable ladders. */
  function NetAt(legs: seq<Leg>, cap: Option<int>, sells: seq<bool>, s: int): int
    requires |sells| == |legs|
  {
    if legs == [] then 0
    else
      var c := Cost(Usable(legs[0].ladder, cap), s * legs[0].unit);
      (if sells[0] then c else -c) + NetAt(legs[1..], cap, sells[1..], s)
  }

  predicate Supplies(legs: seq<Leg>, cap: Option<int>, s: int) {
    forall i :: 0 <= i < |legs| ==>
      && legs[i].unit > 0 && AllOk(Usable(legs[i].ladder, cap))
      && s * legs[i].unit <= Depth(Usable(legs[i].ladder, cap))
  }

  lemma {:induction false} NetFromUsable(legs: seq<Leg>, cap: Option<int>, sells: seq<bool>, s: int)
    requires |sells| == |legs| && Supplies(legs, cap, s) && 0 <= s && (cap.Some? ==> cap.value > 0)
    ensures Net(sells, LegsAt(legs, s)) == NetAt(legs, cap, sells, s)
  {
    if legs != [] {
      assert LegsAt(legs, s)[1..] == LegsAt(legs[1..], s);
      NetFromUsable(legs[1..], cap, sells[1..], s);
      LegFillExact(legs[0], cap, s);
    }
  }

  function Bend(legs: seq<Leg>, cap: Option<int>, sells: seq<bool>, s: int): int
    requires |sells| == |legs|
  {
    NetAt(legs, cap, sells, s + 2) - 2 * NetAt(legs, cap, sells, s + 1) + NetAt(legs, cap, sells, s)
  }

  /** The net value never bends upwards, and it is straight at `s + 1` unless that is a candidate. */
  lemma {:induction false} NetBendsDown(legs: seq<Leg>, cap: Option<int>, sells: seq<bool>, s: int)
    requires BestFirst(legs, cap, sells) && Supplies(legs, cap, s + 2) && 0 <= s
    ensures Bend(legs, cap, sells, s) <= 0
    ensures s + 1 !in LegCandidates(legs, cap) ==> Bend(legs, cap, sells, s) == 0
  {
    if legs != [] {
      var usable, u := Usable(legs[0].ladder, cap), legs[0].unit;
      assert forall i :: 0 <= i < |legs| - 1 ==> legs[1..][i] == legs[i + 1] && sells[1..][i] == sells[i + 1];
      NetBendsDown(legs[1..], cap, sells[1..], s);
      LegBends(usable, u, s);
    }
  }

  /** One leg's cost bends with the order of its prices, and is affine around `s + 1` unless a level
      ends next to it. */
  lemma LegBends(levels: seq<Level>, u: int, s: int)
    requires AllOk(levels) && u > 0 && 0 <= s && (s + 2) * u <= Depth(levels)
    ensures var bend := Cost(levels, (s + 2) * u) - 2 * Cost(levels, (s + 1) * u) + Cost(levels, s * u);
            && (Rising(levels) ==> bend >= 0)
            && (Falling(levels) ==> bend <= 0)
            && (s + 1 !in LevelCandidates(levels, 0, u) ==> bend == 0)
  {
    var a := s * u;
    assert (s + 1) * u == a + u && (s + 2) * u == a + 2 * u;
    NotNegativeProduct(s, u);
    CostIsConvex(levels, a, a + u, u);
    if s + 1 !in LevelCandidates(levels, 0, u) {
      FlatAround(levels, u, s);
    }
  }

  /** Between neighbouring candidates `a` and `b` a leg's cost is affine in the steps. */
  lemma {:induction false} LegCostIsAffine(levels: seq<Level>, u: int, a: int, b: int, s: int)
    requires AllOk(levels) && u > 0 && 0 <= a < s <= b && b * u <= Depth(levels)
    requires forall c :: a < c < b ==> c !in LevelCandidates(levels, 0, u)
    ensures Cost(levels, s * u) - Cost(levels, (s - 1) * u) == Increment(levels, a * u, u)
    ensures Cost(levels, s * u) == Cost(levels, a * u) + (s - a) * Increment(levels, a * u, u)
    decreases s
  {
    hide Cost, Depth, LevelCandidates;
    assert (a + 1) * u == a * u + u;
    if s > a + 1 {
      LegCostIsAffine(levels, u, a, b, s - 1);
      NotNegativeProduct(b - s, u);
      assert b * u == s * u + (b - s) * u;
      assert (s - 2) * u + u == (s - 1) * u && (s - 1) * u + u == s * u;
      FlatAround(levels, u, s - 2);
      assert (s - a) * Increment(levels, a * u, u)
          == (s - 1 - a) * Increment(levels, a * u, u) + Increment(levels, a * u, u);
    }
  }

  lemma FlatAround(levels: seq<Level>, u: int, s: int)
    requires Stocked(levels) && u > 0 && 0 <= s && (s + 2) * u <= Depth(levels)
    requires s + 1 !in LevelCandidates(levels, 0, u)
    ensures Increment(levels, s * u, u) == Increment(levels, s * u + u, u)
  {
    var a := s * u;
    assert (s + 2) * u == a + 2 * u;
    NotNegativeProduct(s, u);
    forall j | 0 <= j <= |levels| ensures !(a < Depth(levels[..j]) < a + 2 * u) {
      if j > 0 {
        BoundaryIsCandidate(levels, 0, u, j);
        if a < Depth(levels[..j]) < a + 2 * u {
          NearMultiple(Depth(levels[..j]), u, s);
        }
      }
    }
    forall k | a <= k < a + u ensures PriceAt(levels, k) == PriceAt(levels, k + (a + u - a)) {
      FlatPrices(levels, a, a + 2 * u, k, k + u);
    }
    IncrementOrder(levels, a, a + u, u);
    forall k | a + u <= k < a + u + u ensures PriceAt(levels, k) == PriceAt(levels, k + (a - (a + u))) {
      FlatPrices(levels, a, a + 2 * u, k - u, k);
    }
    IncrementOrder(levels, a + u, a, u);
  }

  lemma {:induction false} FlatPrices(levels: seq<Level>, lo: int, hi: int, j: int, k: int)
    requires Stocked(levels) && 0 <= lo <= j <= k < hi <= Depth(levels)
    requires forall i :: 0 <= i <= |levels| ==> !(lo < Depth(levels[..i]) < hi)
    ensures PriceAt(levels, j) == PriceAt(levels, k)
    decreases k
  {
    if j < k {
      FlatPrices(levels, lo, hi, j, k - 1);
      SamePriceInside(levels, k - 1);
    }
  }

  lemma {:induction false} BoundaryIsCandidate(levels: seq<Level>, before: int, u: int, j: nat)
    requires u > 0 && 0 < j <= |levels|
    ensures var point := before + Depth(levels[..j]);
            {point / u, CeilDiv(point, u)} <= LevelCandidates(levels, before, u)
  {
    assert levels[..j][0] == levels[0] && levels[..j][1..] == levels[1..][..j - 1];
    if j > 1 {
      BoundaryIsCandidate(levels[1..], before + levels[0].quantity, u, j - 1);
    } else {
      assert Depth(levels[..j][1..]) == 0;
    }
  }

  /** A boundary strictly inside two steps has the middle step count on one of its sides. */
  lemma NearMultiple(point: int, u: int, s: int)
    requires u > 0 && s * u < point < s * u + 2 * u
    ensures point / u == s + 1 || CeilDiv(point, u) == s + 1
  {
    if point >= s * u + u {
      DivIs(point, u, s + 1);
    } else {
      assert (-(s + 1)) * u == -(s * u) - u;
      DivIs(-point, u, -(s + 1));
    }
  }

  lemma DivIs(n: int, u: int, q: int)
    requires u > 0 && q * u <= n < q * u + u
    ensures n / u == q
  {
    QuotientBound(n, u, q);
    QuotientBound(n, u, q + 1);
  }

  /** Bought ladders that rise, sold ladders that fall and a fixed payoff per step: the edge fill is
      the smallest step count that maximizes the value over all of `0..limit`. */
  lemma EdgeIsSmallestMaximizer(
      legs: seq<Leg>, cap: Option<int>, value: Valuation, payoff: int, sells: seq<bool>)
    requires LegsPositive(legs) && UsableOk(legs, cap) && (cap.Some? ==> cap.value > 0)
    requires 0 <= StepLimit(legs, cap)
    requires BestFirst(legs, cap, sells) && PaysFixed(value, payoff, sells)
    ensures var v, limit := Worth(legs, value), StepLimit(legs, cap);
            Known(v, limit) && SmallestMaximizer(v, limit, EdgeFill(legs, cap, value).steps)
  {
    var v, limit, ordered := Worth(legs, value), StepLimit(legs, cap), Ordered(legs, cap);
    forall s | 0 <= s <= limit ensures v(s).Some? {
      WorthIsNet(legs, cap, value, payoff, sells, s);
    }
    forall s | 0 <= s < limit - 1
      ensures Gain(v, limit, s + 1) <= Gain(v, limit, s)
      ensures s + 1 !in ordered ==> Gain(v, limit, s + 1) == Gain(v, limit, s)
    {
      WorthBendsDown(legs, cap, value, payoff, sells, s);
    }
    hide StepLimit, LegCandidates, LegsAt, Worth;
    ClimbFindsSmallestMaximizer(v, ordered);
  }

  lemma WorthIsNet(
      legs: seq<Leg>, cap: Option<int>, value: Valuation, payoff: int, sells: seq<bool>, s: int)
    requires LegsPositive(legs) && UsableOk(legs, cap) && (cap.Some? ==> cap.value > 0)
    requires BestFirst(legs, cap, sells) && PaysFixed(value, payoff, sells)
    requires 0 <= s <= StepLimit(legs, cap)
    ensures Supplies(legs, cap, s)
    ensures Worth(legs, value)(s) == Some(payoff * s + NetAt(legs, cap, sells, s))
  {
    LimitIsTight(legs, cap, s);
    NetFromUsable(legs, cap, sells, s);
    if s == 0 {
      NothingBought(legs, cap, sells);
    }
  }

  lemma WorthBendsDown(
      legs: seq<Leg>, cap: Option<int>, value: Valuation, payoff: int, sells: seq<bool>, s: int)
    requires LegsPositive(legs) && UsableOk(legs, cap) && (cap.Some? ==> cap.value > 0)
    requires BestFirst(legs, cap, sells) && PaysFixed(value, payoff, sells)
    requires 0 <= s <= StepLimit(legs, cap) - 2
    ensures var v := Worth(legs, value);
            && v(s).Some? && v(s + 1).Some? && v(s + 2).Some?
            && var bend := v(s + 2).value - 2 * v(s + 1).value + v(s).value;
            && bend <= 0
            && (s + 1 !in Ordered(legs, cap) ==> bend == 0)
  {
    WorthIsNet(legs, cap, value, payoff, sells, s);
    WorthIsNet(legs, cap, value, payoff, sells, s + 1);
    WorthIsNet(legs, cap, value, payoff, sells, s + 2);
    NetBendsDown(legs, cap, sells, s);
    assert payoff * (s + 1) == payoff * s + payoff && payoff * (s + 2) == payoff * s + 2 * payoff;
  }

  lemma {:induction false} NothingBought(legs: seq<Leg>, cap: Option<int>, sells: seq<bool>)
    requires |sells| == |legs|
    ensures NetAt(legs, cap, sells, 0) == 0
  {
    if legs != [] {
      NothingBought(legs[1..], cap, sells[1..]);
    }
  }

  // ---- when a step count within the limit is refused ----------------------------------------

  /** The level behind the cap, if the fill ends on the last usable boundary and there is one. */
  predicate BadBehindCap(leg: Leg, cap: Option<int>, steps: int) {
    var usable := Usable(leg.ladder, cap);
    steps * leg.unit == Depth(usable) && |usable| < |leg.ladder| && !LevelOk(leg.ladder[|usable|])
  }

  /** With valid usable levels, a step count up to the limit is refused exactly when some leg's fill ends
      on its last usable boundary and the level that the cap hides behind it is malformed. */
  lemma RefusedExactlyBehindTheCap(legs: seq<Leg>, cap: Option<int>, steps: int)
    requires LegsPositive(legs) && UsableOk(legs, cap) && (cap.Some? ==> cap.value > 0)
    requires 0 < steps <= StepLimit(legs, cap)
    ensures !Walkable(legs, steps) <==> exists i :: 0 <= i < |legs| && BadBehindCap(legs[i], cap, steps)
  {
    LimitIsTight(legs, cap, steps);
    hide StepLimit;
    forall i | 0 <= i < |legs|
      ensures TouchedOk(legs[i].ladder, steps * legs[i].unit) <==> !BadBehindCap(legs[i], cap, steps)
    {
      var usable := Usable(legs[i].ladder, cap);
      NotNegativeProduct(steps, legs[i].unit);
      assert usable == legs[i].ladder[..|usable|];
      TouchedUpTo(legs[i].ladder, |usable|, steps * legs[i].unit);
    }
  }

  lemma {:induction false} TouchedUpTo(levels: seq<Level>, k: nat, n: int)
    requires k <= |levels| && AllOk(levels[..k]) && 0 <= n <= Depth(levels[..k])
    ensures TouchedOk(levels, n) <==> (n == Depth(levels[..k]) && k < |levels| ==> LevelOk(levels[k]))
    decreases k
  {
    if k > 0 {
      var front := levels[..k];
      assert front[0] == levels[0] && front[1..] == levels[1..][..k - 1];
      if levels[0].quantity <= n {
        TouchedUpTo(levels[1..], k - 1, n - levels[0].quantity);
      } else if n == Depth(front) {
        DepthPositive(front[1..]);
      }
    }
  }

  // ---- concave valuations in general --------------------------------------------------------

  /** A concave valuation known at every step count up to the limit: the edge fill is its smallest
      maximizer if and only if it still rises right up to every candidate worth more than the last. */
  lemma ConcaveEdgeIsRightExactly(legs: seq<Leg>, cap: Option<int>, value: Valuation)
    requires LegsPositive(legs) && UsableOk(legs, cap) && 0 <= StepLimit(legs, cap)
    requires var v, limit := Worth(legs, value), StepLimit(legs, cap); Known(v, limit) && Concave(v, limit)
    ensures SmallestMaximizer(Worth(legs, value), StepLimit(legs, cap), EdgeFill(legs, cap, value).steps) <==>
            RisesIntoCandidates(Worth(legs, value), Ordered(legs, cap))
  {
    ConcaveClimbIsRightExactly(Worth(legs, value), Ordered(legs, cap));
  }

  /** A fee that grows with the square of the size, on one level of four atoms: the valuation is concave
      and peaks at two or three steps, but the edge fill takes all four and reports the book exhausted. */
  lemma ConcaveValuationOvershot()
    ensures var legs: seq<Leg> := [Leg([Level(1, 4)], 1)];
            var value: Valuation := (s: int, fills: seq<Fill>) => Some(5 * s - s * s);
            var v := Worth(legs, value);
            && StepLimit(legs, None) == 4 && Known(v, 4) && Concave(v, 4)
            && EdgeFill(legs, None, value).steps == 4 && EdgeFill(legs, None, value).stop == BookExhausted
            && v(4).value < v(2).value
  {
    var legs: seq<Leg> := [Leg([Level(1, 4)], 1)];
    var value: Valuation := (s: int, fills: seq<Fill>) => Some(5 * s - s * s);
    var v := Worth(legs, value);
    hide StepLimit, Ordered, LegsAt, Climb, Concave, Climbing, EdgeFill, Known;
    OneLevel(legs);
    forall s | 0 <= s <= 4 ensures v(s) == Some(5 * s - s * s) {
    }
    PeakInsideTheGap(v);
    EdgeWhenExhausted(legs, None, value, 4);
  }

  lemma EdgeWhenExhausted(legs: seq<Leg>, cap: Option<int>, value: Valuation, n: int)
    requires LegsPositive(legs) && 0 <= StepLimit(legs, cap)
    requires Climb(Worth(legs, value), Ordered(legs, cap), 0, 0) == Climbed(n, Exhausted)
    ensures EdgeFill(legs, cap, value).steps == n && EdgeFill(legs, cap, value).stop == Exhaustion(legs, cap)
  {
    hide StepLimit, Ordered, LegsAt, Climb, Exhaustion, RestOf, Impact;
  }

  lemma PeakInsideTheGap(v: int -> Option<int>)
    requires forall s :: 0 <= s <= 4 ==> v(s) == Some(5 * s - s * s)
    ensures Climbing(v, [4], 0, 0) && Known(v, 4) && Concave(v, 4)
    ensures Climb(v, [4], 0, 0) == Climbed(4, Exhausted) && v(4).value < v(2).value
  {
    assert forall s :: 0 <= s < 4 ==> Gain(v, 4, s) == 4 - 2 * s;
  }

  lemma OneLevel(legs: seq<Leg>)
    requires legs == [Leg([Level(1, 4)], 1)]
    ensures StepLimit(legs, None) == 4 && Ordered(legs, None) == [4]
  {
    var levels := [Level(1, 4)];
    assert levels[1..] == [] && legs[1..] == [];
    assert Depth(levels) == 4 && StepLimit(legs, None) == 4;
    assert LevelCandidates(levels, 0, 1) == {4, CeilDiv(4, 1)} + LevelCandidates([], 4, 1) == {4};
    assert LegCandidates(legs, None) == {4} + LegCandidates([], None) == {4};
    OnlyTheLimit();
  }

  lemma OnlyTheLimit()
    ensures InOrder({4}, 4) == [4]
  {
    assert InOrder({4}, 3) == InOrder({4}, 2) == InOrder({4}, 1) == InOrder({4}, 0) == [];
  }
}
