/** Pricing baskets: every leg's ladder is walked in lockstep, some units of each leg a step. */
module Baskets {
  import opened Options
  import opened Ladders
  import opened EdgeClimb

  datatype Leg = Leg(ladder: seq<Level>, unit: int)

  datatype Stop = Target | Edge | BookExhausted | LevelCap | ValueUnknown

  datatype BasketFill = BasketFill(
    steps: int, legs: seq<Fill>, stop: Stop, value: Option<int>,
    before: seq<Option<Level>>, after: seq<Option<Level>>, impactPpm: seq<Option<int>>,
    beyond: seq<seq<Level>>)

  /** `Refused` stands for the exceptions raised on bad arguments and bad levels. */
  datatype Priced = Results(fills: seq<BasketFill>) | Refused

  /** The caller's valuation of a step count and its fills; `None` when it does not know. */
  type Valuation = (int, seq<Fill>) -> Option<int>

  // ---- the shape of a call ------------------------------------------------------------------

  predicate ArgumentsOk(
      ladders: seq<seq<Level>>, units: seq<int>, targets: seq<int>, value: Option<Valuation>, edge: bool,
      cap: Option<int>)
  {
    && units != [] && |ladders| == |units|
    && (forall i :: 0 <= i < |units| ==> units[i] > 0)
    && (targets == [] || SizesOk(targets))
    && (targets != [] || edge)
    && (edge ==> value.Some?)
    && (cap.Some? ==> cap.value > 0)
  }

  /** What is refused before any level is looked at. */
  ghost predicate Malformed(
      ladders: seq<seq<Level>>, units: seq<int>, targets: seq<int>, value: Option<Valuation>, edge: bool,
      cap: Option<int>)
  {
    || units == [] || |ladders| != |units| || (exists u :: u in units && u <= 0)
    || (exists t :: t in targets && t <= 0) || (exists i, j :: 0 <= i < j < |targets| && targets[j] <= targets[i])
    || (targets == [] && !edge) || (edge && value.None?) || (cap.Some? && cap.value <= 0)
  }

  lemma MalformedIsRefused(
      ladders: seq<seq<Level>>, units: seq<int>, targets: seq<int>, value: Option<Valuation>, edge: bool,
      cap: Option<int>)
    ensures ArgumentsOk(ladders, units, targets, value, edge, cap) <==>
            !Malformed(ladders, units, targets, value, edge, cap)
  {
    AllPositive(units);
    AllPositive(targets);
  }

  lemma AllPositive(s: seq<int>)
    ensures (exists x :: x in s && x <= 0) <==> !forall i :: 0 <= i < |s| ==> s[i] > 0
  {
    if i :| 0 <= i < |s| && s[i] <= 0 {
      assert s[i] in s;
    }
  }

  function Zip(ladders: seq<seq<Level>>, units: seq<int>): (r: seq<Leg>)
    requires |ladders| == |units|
    ensures |r| == |units|
    ensures forall i :: 0 <= i < |r| ==> r[i] == Leg(ladders[i], units[i])
  {
    seq(|units|, i requires 0 <= i < |units| => Leg(ladders[i], units[i]))
  }

  predicate LegsPositive(legs: seq<Leg>) {
    legs != [] && forall i :: 0 <= i < |legs| ==> legs[i].unit > 0
  }

  /** The levels a leg may consume. */
  function Usable(ladder: seq<Level>, cap: Option<int>): (r: seq<Level>) {
    if cap.Some? && 0 <= cap.value < |ladder| then ladder[..cap.value] else ladder
  }

  predicate UsableOk(legs: seq<Leg>, cap: Option<int>) {
    forall i :: 0 <= i < |legs| ==> AllOk(Usable(legs[i].ladder, cap))
  }

  /** The most steps every leg can supply. */
  function StepLimit(legs: seq<Leg>, cap: Option<int>): int
    requires LegsPositive(legs)
  {
    var own := Depth(Usable(legs[0].ladder, cap)) / legs[0].unit;
    if |legs| == 1 then own else Min(own, StepLimit(legs[1..], cap))
  }

  function LegsAt(legs: seq<Leg>, steps: int): seq<Fill> {
    seq(|legs|, i requires 0 <= i < |legs| => FillAt(legs[i].ladder, steps * legs[i].unit))
  }

  /** The value of a step count; zero steps are worth zero. */
  function Worth(legs: seq<Leg>, value: Valuation): int -> Option<int> {
    (s: int) => if s == 0 then Some(0) else value(s, LegsAt(legs, s))
  }

  function Exhaustion(legs: seq<Leg>, cap: Option<int>): Stop
    requires LegsPositive(legs)
  {
    if cap.Some? && StepLimit(legs, None) > StepLimit(legs, cap) then LevelCap else BookExhausted
  }

  // ---- candidates ---------------------------------------------------------------------------

  function CeilDiv(p: int, u: int): int
    requires u > 0
  {
    -((-p) / u)
  }

  /** For every level boundary, the last step count that does not pass it and the first that reaches it. */
  function LevelCandidates(levels: seq<Level>, before: int, unit: int): set<int>
    requires unit > 0
  {
    if levels == [] then {}
    else
      var point := before + levels[0].quantity;
      {point / unit, CeilDiv(point, unit)} + LevelCandidates(levels[1..], point, unit)
  }

  function LegCandidates(legs: seq<Leg>, cap: Option<int>): set<int>
    requires forall i :: 0 <= i < |legs| ==> legs[i].unit > 0
  {
    if legs == [] then {}
    else LevelCandidates(Usable(legs[0].ladder, cap), 0, legs[0].unit) + LegCandidates(legs[1..], cap)
  }

  /** The members of `s` between 1 and `n`, in order. */
  function InOrder(s: set<int>, n: int): (r: seq<int>)
    ensures Candidates(r)
    ensures forall c :: c in r <==> c in s && 0 < c <= n
    ensures 0 < n && n in s ==> r != [] && r[|r| - 1] == n
  {
    if n <= 0 then []
    else if n in s then
      var r := InOrder(s, n - 1);
      assert forall i :: 0 <= i < |r| ==> r[i] in r;
      r + [n]
    else InOrder(s, n - 1)
  }

  function Ordered(legs: seq<Leg>, cap: Option<int>): (r: seq<int>)
    requires LegsPositive(legs)
    ensures Candidates(r) && (0 <= StepLimit(legs, cap) ==> Limit(r) == StepLimit(legs, cap))
  {
    InOrder({StepLimit(legs, cap)} + LegCandidates(legs, cap), StepLimit(legs, cap))
  }

  // ---- what one fill reports ----------------------------------------------------------------

  function First(levels: seq<Level>): Option<Level> {
    if levels == [] then None else Some(levels[0])
  }

  /** How far the best price moved, in floored parts per million. */
  function Impact(before: Option<Level>, after: Option<Level>): Option<int> {
    if before.None? || after.None? || before.value.price <= 0 then None
    else
      var move := after.value.price - before.value.price;
      Some((if move < 0 then -move else move) * 1_000_000 / before.value.price)
  }

  /** The depth behind `skip` atoms, until it holds `unit` atoms, `bound` levels are listed, or the
      ladder ends. */
  function RestOf(levels: seq<Level>, skip: int, unit: int, bound: Option<int>): seq<Level> {
    if levels == [] then []
    else
      var behind := skip - levels[0].quantity;
      if behind >= 0 then RestOf(levels[1..], behind, unit, bound)
      else
        var l := Level(levels[0].price, Min(levels[0].quantity, -behind));
        if l.quantity >= unit || bound == Some(1) then [l]
        else
          [l] + RestOf(levels[1..], behind, unit - l.quantity,
                       if bound.Some? then Some(bound.value - 1) else None)
  }

  function Bound(cap: Option<int>): Option<int> {
    if cap.Some? then Some(cap.value + 1) else None
  }

  function FillReport(legs: seq<Leg>, cap: Option<int>, steps: int, stop: Stop, value: Option<int>): BasketFill
  {
    var fills := LegsAt(legs, steps);
    var before := seq(|legs|, i requires 0 <= i < |legs| => First(legs[i].ladder));
    var beyond := seq(|legs|, i requires 0 <= i < |legs| =>
      RestOf(legs[i].ladder, fills[i].filledAtoms, legs[i].unit, Bound(cap)));
    var after := seq(|legs|, i requires 0 <= i < |legs| => First(beyond[i]));
    var impact := seq(|legs|, i requires 0 <= i < |legs| => Impact(before[i], after[i]));
    BasketFill(steps, fills, stop, value, before, after, impact, beyond)
  }

  function TargetFill(legs: seq<Leg>, cap: Option<int>, value: Option<Valuation>, target: int): BasketFill
    requires LegsPositive(legs)
  {
    var limit := StepLimit(legs, cap);
    var steps, stop := if target <= limit then target else limit,
                       if target <= limit then Target else Exhaustion(legs, cap);
    FillReport(legs, cap, steps, stop,
               if value.None? || steps == 0 then None else Worth(legs, value.value)(steps))
  }

  function EdgeFill(legs: seq<Leg>, cap: Option<int>, value: Valuation): BasketFill
    requires LegsPositive(legs) && 0 <= StepLimit(legs, cap)
  {
    var v, ordered := Worth(legs, value), Ordered(legs, cap);
    var c := Climb(v, ordered, 0, 0);
    var stop := match c.end
      case NoEdgeLeft => Edge
      case Exhausted => Exhaustion(legs, cap)
      case Unknown => ValueUnknown;
    FillReport(legs, cap, c.steps, stop, if c.steps == 0 then None else v(c.steps))
  }

  // ---- what is walked -----------------------------------------------------------------------

  /** Walking every leg at one step count meets valid levels only. A walk that ends on a level boundary
      meets the level behind it, even one the cap puts out of reach. */
  predicate Walkable(legs: seq<Leg>, steps: int) {
    steps == 0 || forall i :: 0 <= i < |legs| ==> TouchedOk(legs[i].ladder, steps * legs[i].unit)
  }

  /** Every step count a call walks: each target or the limit, and what the climb asks about. */
  predicate Walked(legs: seq<Leg>, cap: Option<int>, targets: seq<int>, value: Option<Valuation>, edge: bool)
    requires LegsPositive(legs) && 0 <= StepLimit(legs, cap) && (edge ==> value.Some?)
  {
    && TargetsWalked(legs, cap, targets)
    && (edge ==> EdgeWalked(legs, cap, value.value))
  }

  predicate TargetsWalked(legs: seq<Leg>, cap: Option<int>, targets: seq<int>)
    requires LegsPositive(legs)
  {
    forall k :: 0 <= k < |targets| ==> Walkable(legs, Min(targets[k], StepLimit(legs, cap)))
  }

  predicate EdgeWalked(legs: seq<Leg>, cap: Option<int>, value: Valuation)
    requires LegsPositive(legs) && 0 <= StepLimit(legs, cap)
  {
    AllWalkable(legs, Asked(Worth(legs, value), Ordered(legs, cap), 0, 0))
  }

  predicate AllWalkable(legs: seq<Leg>, steps: seq<int>) {
    forall k :: 0 <= k < |steps| ==> Walkable(legs, steps[k])
  }

  // ---- the operation ------------------------------------------------------------------------

  /** Prices the targets and, when asked, the edge. */
  method WalkBasket(
      ladders: seq<seq<Level>>, units: seq<int>, targets: seq<int>, value: Option<Valuation>, edge: bool,
      cap: Option<int>)
    returns (r: Priced)
    ensures Malformed(ladders, units, targets, value, edge, cap) ==> r.Refused?
    ensures ArgumentsOk(ladders, units, targets, value, edge, cap) && r.Results? ==>
              var legs := Zip(ladders, units);
              && UsableOk(legs, cap) && 0 <= StepLimit(legs, cap)
              && |r.fills| == |targets| + (if edge then 1 else 0)
              && (forall k :: 0 <= k < |targets| ==> r.fills[k] == TargetFill(legs, cap, value, targets[k]))
              && (edge ==> r.fills[|targets|] == EdgeFill(legs, cap, value.value))
    ensures ArgumentsOk(ladders, units, targets, value, edge, cap) ==>
              var legs := Zip(ladders, units);
              (r.Results? <==> UsableOk(legs, cap) && 0 <= StepLimit(legs, cap)
                               && Walked(legs, cap, targets, value, edge))
  {
    MalformedIsRefused(ladders, units, targets, value, edge, cap);
    if !ArgumentsOk(ladders, units, targets, value, edge, cap) {
      return Refused;
    }
    var legs := Zip(ladders, units);
    var ok, limit, candidates := Survey(legs, cap);
    if !ok {
      return Refused;
    }
    LimitNotNegative(legs, cap);
    var full := limit;
    if cap.Some? {
      full := FullLimit(legs);
    }
    var exhausted := if cap.Some? && full > limit then LevelCap else BookExhausted;
    var results;
    ok, results := PriceTargets(legs, cap, targets, value, limit, exhausted);
    if !ok {
      return Refused;
    }
    if edge {
      var report;
      ok, report := PriceEdge(legs, cap, value.value, InOrder(candidates, limit), exhausted);
      if !ok {
        return Refused;
      }
      results := results + [report];
    }
    r := Results(results);
  }

  method PriceTargets(
      legs: seq<Leg>, cap: Option<int>, targets: seq<int>, value: Option<Valuation>, limit: int, exhausted: Stop)
    returns (ok: bool, results: seq<BasketFill>)
    requires LegsPositive(legs) && (targets == [] || SizesOk(targets))
    requires limit == StepLimit(legs, cap) && 0 <= limit && exhausted == Exhaustion(legs, cap)
    ensures ok <==> TargetsWalked(legs, cap, targets)
    ensures ok ==> |results| == |targets|
    ensures ok ==> forall k :: 0 <= k < |targets| ==> results[k] == TargetFill(legs, cap, value, targets[k])
  {
    hide StepLimit, Exhaustion, FillReport, LegsAt, Walkable;
    results := [];
    for k := 0 to |targets|
      invariant |results| == k
      invariant forall i :: 0 <= i < k ==> Walkable(legs, Min(targets[i], limit))
      invariant forall i :: 0 <= i < k ==> results[i] == TargetFill(legs, cap, value, targets[i])
    {
      var steps, stop := limit, exhausted;
      if targets[k] <= limit {
        steps, stop := targets[k], Target;
      }
      var filled, fills := WalkLegs(legs, steps);
      if !filled {
        return false, [];
      }
      var worth := if value.None? || steps == 0 then None else value.value(steps, fills);
      var report := Price(legs, cap, steps, fills, stop, worth);
      results := results + [report];
    }
    ok := true;
  }

  method PriceEdge(legs: seq<Leg>, cap: Option<int>, value: Valuation, ordered: seq<int>, exhausted: Stop)
    returns (ok: bool, report: BasketFill)
    requires LegsPositive(legs) && 0 <= StepLimit(legs, cap) && exhausted == Exhaustion(legs, cap)
    requires ordered == Ordered(legs, cap)
    ensures ok <==> EdgeWalked(legs, cap, value)
    ensures ok ==> report == EdgeFill(legs, cap, value)
  {
    hide StepLimit, Exhaustion, FillReport, LegsAt, Climb, Asked, AllWalkable;
    var climbed, found;
    ok, climbed, found := ClimbEdge(legs, value, ordered);
    if !ok {
      return false, BasketFill(0, [], exhausted, None, [], [], [], []);
    }
    var stop := match climbed.end
      case NoEdgeLeft => Edge
      case Exhausted => exhausted
      case Unknown => ValueUnknown;
    report := Price(legs, cap, climbed.steps, found.0, stop, if climbed.steps == 0 then None else found.1);
  }

  /** Validates the usable levels and collects the limit and the candidates. */
  method Survey(legs: seq<Leg>, cap: Option<int>) returns (ok: bool, limit: int, candidates: set<int>)
    requires LegsPositive(legs)
    ensures ok == UsableOk(legs, cap)
    ensures ok ==> limit == StepLimit(legs, cap) && candidates == {limit} + LegCandidates(legs, cap)
  {
    limit, candidates := 0, {};
    SurveyStarts(legs, cap);
    hide Surveyed, StepLimit, LegCandidates, LevelCandidates, Usable, Depth, AllOk;
    for i := 0 to |legs|
      invariant forall k :: 0 <= k < i ==> AllOk(Usable(legs[k].ladder, cap))
      invariant Surveyed(legs, cap, i, limit, candidates)
    {
      var cumulative, points;
      ok, cumulative, points := SurveyLeg(Usable(legs[i].ladder, cap), legs[i].unit);
      if !ok {
        return false, 0, {};
      }
      SurveyStep(legs, cap, i, limit, candidates);
      var steps := cumulative / legs[i].unit;
      if i == 0 || steps < limit {
        limit := steps;
      }
      candidates := candidates + points;
    }
    SurveyEnds(legs, cap, limit, candidates);
    ok, candidates := true, {limit} + candidates;
  }

  /** The first `i` legs are in `limit` and in `candidates`. */
  predicate Surveyed(legs: seq<Leg>, cap: Option<int>, i: nat, limit: int, candidates: set<int>)
    requires LegsPositive(legs) && i <= |legs|
  {
    && (i == |legs| ==> limit == StepLimit(legs, cap))
    && (0 < i < |legs| ==> StepLimit(legs, cap) == Min(limit, StepLimit(legs[i..], cap)))
    && candidates + LegCandidates(legs[i..], cap) == LegCandidates(legs, cap)
  }

  lemma SurveyStarts(legs: seq<Leg>, cap: Option<int>)
    requires LegsPositive(legs)
    ensures Surveyed(legs, cap, 0, 0, {})
  {
    assert legs[0..] == legs;
  }

  lemma SurveyEnds(legs: seq<Leg>, cap: Option<int>, limit: int, candidates: set<int>)
    requires LegsPositive(legs) && Surveyed(legs, cap, |legs|, limit, candidates)
    ensures limit == StepLimit(legs, cap) && candidates == LegCandidates(legs, cap)
  {
    assert legs[|legs|..] == [];
  }

  lemma SurveyStep(legs: seq<Leg>, cap: Option<int>, i: nat, limit: int, candidates: set<int>)
    requires LegsPositive(legs) && i < |legs| && Surveyed(legs, cap, i, limit, candidates)
    ensures var usable, unit := Usable(legs[i].ladder, cap), legs[i].unit;
            var own := Depth(usable) / unit;
            Surveyed(legs, cap, i + 1, if i == 0 || own < limit then own else limit,
                     candidates + LevelCandidates(usable, 0, unit))
  {
    assert legs[0..] == legs && legs[i..][1..] == legs[i + 1..];
    hide Usable, Depth, LevelCandidates;
  }

  method SurveyLeg(usable: seq<Level>, unit: int) returns (ok: bool, cumulative: int, points: set<int>)
    requires unit > 0
    ensures ok == AllOk(usable)
    ensures ok ==> cumulative == Depth(usable) && points == LevelCandidates(usable, 0, unit)
  {
    cumulative, points := 0, {};
    for j := 0 to |usable|
      invariant AllOk(usable[..j])
      invariant cumulative == Depth(usable[..j])
      invariant points + LevelCandidates(usable[j..], cumulative, unit) == LevelCandidates(usable, 0, unit)
    {
      if !LevelOk(usable[j]) {
        return false, 0, {};
      }
      DepthAppend(usable[..j], usable[j]);
      assert usable[..j + 1] == usable[..j] + [usable[j]];
      assert usable[j..][1..] == usable[j + 1..];
      cumulative := cumulative + usable[j].quantity;
      points := points + {cumulative / unit, CeilDiv(cumulative, unit)};
    }
    assert usable[..|usable|] == usable;
    ok := true;
  }

  /** The limit the uncapped depth would allow. */
  method FullLimit(legs: seq<Leg>) returns (full: int)
    requires LegsPositive(legs)
    ensures full == StepLimit(legs, None)
  {
    full := Depth(legs[0].ladder) / legs[0].unit;
    for i := 1 to |legs|
      invariant StepLimit(legs, None) == (if i == |legs| then full
                                          else Min(full, StepLimit(legs[i..], None)))
    {
      full := Min(full, Depth(legs[i].ladder) / legs[i].unit);
      if i + 1 < |legs| {
        assert legs[i..][1..] == legs[i + 1..];
      }
    }
  }

  /** Every leg's fill at one step count. */
  method WalkLegs(legs: seq<Leg>, steps: int) returns (ok: bool, fills: seq<Fill>)
    requires LegsPositive(legs) && 0 <= steps
    ensures ok <==> Walkable(legs, steps)
    ensures ok ==> fills == LegsAt(legs, steps)
  {
    fills := [];
    for i := 0 to |legs|
      invariant fills == LegsAt(legs, steps)[..i]
      invariant steps > 0 ==> forall k :: 0 <= k < i ==> TouchedOk(legs[k].ladder, steps * legs[k].unit)
    {
      if steps == 0 {
        fills := fills + [Fill(0, 0, false, [], [])];
      } else {
        PositiveProduct(steps, legs[i].unit);
        var walked := Walk(legs[i].ladder, [steps * legs[i].unit]);
        if walked.ValueError? {
          return false, [];
        }
        fills := fills + [walked.fills[0]];
      }
    }
    ok := true;
    assert LegsAt(legs, steps)[..|legs|] == LegsAt(legs, steps);
  }

  lemma PositiveProduct(a: int, b: int)
    requires a > 0 && b > 0
    ensures a * b > 0
  {
  }

  /** Ladders without a malformed level are walked at any step count. */
  lemma ValidLaddersAreWalked(legs: seq<Leg>, steps: int)
    requires forall i :: 0 <= i < |legs| ==> AllOk(legs[i].ladder)
    ensures Walkable(legs, steps)
  {
    forall i | 0 <= i < |legs| ensures TouchedOk(legs[i].ladder, steps * legs[i].unit) {
      ValidWalks(legs[i].ladder, steps * legs[i].unit);
    }
  }

  lemma {:induction false} ValidWalks(levels: seq<Level>, n: int)
    requires AllOk(levels)
    ensures TouchedOk(levels, n)
  {
    if levels != [] {
      ValidWalks(levels[1..], n - levels[0].quantity);
    }
  }

  /** The report on one fill. */
  method Price(legs: seq<Leg>, cap: Option<int>, steps: int, fills: seq<Fill>, stop: Stop, value: Option<int>)
    returns (f: BasketFill)
    requires fills == LegsAt(legs, steps)
    ensures f == FillReport(legs, cap, steps, stop, value)
  {
    var before: seq<Option<Level>>, after: seq<Option<Level>> := [], [];
    var impact: seq<Option<int>>, beyond: seq<seq<Level>> := [], [];
    hide First, Impact, RestOf, Bound;
    for i := 0 to |legs|
      invariant |before| == |after| == |impact| == |beyond| == i
      invariant forall k :: 0 <= k < i ==> before[k] == First(legs[k].ladder)
      invariant forall k :: 0 <= k < i ==>
                  beyond[k] == RestOf(legs[k].ladder, fills[k].filledAtoms, legs[k].unit, Bound(cap))
      invariant forall k :: 0 <= k < i ==> after[k] == First(beyond[k]) && impact[k] == Impact(before[k], after[k])
    {
      var first := First(legs[i].ladder);
      var rest := Beyond(legs[i].ladder, fills[i].filledAtoms, legs[i].unit, Bound(cap));
      before := before + [first];
      after := after + [First(rest)];
      impact := impact + [Impact(first, First(rest))];
      beyond := beyond + [rest];
    }
    f := BasketFill(steps, fills, stop, value, before, after, impact, beyond);
  }

  method Beyond(ladder: seq<Level>, filled: int, unit: int, bound: Option<int>) returns (rest: seq<Level>)
    ensures rest == RestOf(ladder, filled, unit, bound)
  {
    rest := [];
    var cumulative, held := 0, 0;
    ghost var room := bound;
    hide RestOf;
    for j := 0 to |ladder|
      invariant RestOf(ladder, filled, unit, bound) ==
                rest + RestOf(ladder[j..], filled - cumulative, unit - held, room)
      invariant room == if bound.Some? then Some(bound.value - |rest|) else None
    {
      RestTurn(ladder, j, filled - cumulative, unit - held, room);
      cumulative := cumulative + ladder[j].quantity;
      if cumulative > filled {
        var l := Level(ladder[j].price, Min(ladder[j].quantity, cumulative - filled));
        ghost var before := rest;
        rest := rest + [l];
        held := held + l.quantity;
        if held >= unit || bound == Some(|rest|) {
          return;
        }
        room := if bound.Some? then Some(bound.value - |rest|) else None;
        AddedOn(before, l, RestOf(ladder[j + 1..], filled - cumulative, unit - held, room));
      }
    }
    NothingRests(ladder, filled - cumulative, unit - held, room);
  }

  lemma NothingRests(ladder: seq<Level>, skip: int, unit: int, bound: Option<int>)
    ensures RestOf(ladder[|ladder|..], skip, unit, bound) == []
  {
  }

  lemma RestTurn(ladder: seq<Level>, j: nat, skip: int, unit: int, bound: Option<int>)
    requires j < |ladder|
    ensures var behind := skip - ladder[j].quantity;
            var l := Level(ladder[j].price, Min(ladder[j].quantity, -behind));
            var next := if bound.Some? then Some(bound.value - 1) else None;
            RestOf(ladder[j..], skip, unit, bound) ==
            if behind >= 0 then RestOf(ladder[j + 1..], behind, unit, bound)
            else if l.quantity >= unit || bound == Some(1) then [l]
            else [l] + RestOf(ladder[j + 1..], behind, unit - l.quantity, next)
  {
    assert ladder[j..][1..] == ladder[j + 1..];
  }

  lemma AddedOn(rest: seq<Level>, l: Level, tail: seq<Level>)
    ensures rest + ([l] + tail) == (rest + [l]) + tail
  {
  }

  /** The climb over the candidates, valuing every step count once. */
  method ClimbEdge(legs: seq<Leg>, value: Valuation, ordered: seq<int>)
    returns (ok: bool, r: Climbed, found: (seq<Fill>, Option<int>))
    requires LegsPositive(legs) && Candidates(ordered)
    ensures ok <==> AllWalkable(legs, Asked(Worth(legs, value), ordered, 0, 0))
    ensures ok ==> r == Climb(Worth(legs, value), ordered, 0, 0)
    ensures ok ==> found == (LegsAt(legs, r.steps), Worth(legs, value)(r.steps))
  {
    ghost var v := Worth(legs, value);
    assert Walkable(legs, 0) && Climbing(v, ordered, 0, 0) && v(0) == Some(0);
    hide Asked, AllWalkable, Walkable, LegsAt, Climb, Climbing, Limit, Candidates, Worth, Remembered;
    var bestLegs;
    ok, bestLegs := WalkLegs(legs, 0);
    if !ok {
      return false, Climbed(0, Exhausted), ([], None);
    }
    var memo: Memo := map[];
    NothingRemembered(legs, value);
    var best, bestValue, index := 0, 0, 0;
    while index < |ordered|
      invariant 0 <= index <= |ordered| && Climbing(v, ordered, index, best)
      invariant v(best) == Some(bestValue) && bestLegs == LegsAt(legs, best)
      invariant Remembered(legs, value, memo)
      invariant AllWalkable(legs, Asked(v, ordered, 0, 0)) <==> AllWalkable(legs, Asked(v, ordered, index, best))
      invariant Climb(v, ordered, 0, 0) == Climb(v, ordered, index, best)
      decreases Limit(ordered) - best
    {
      var steps := ordered[index];
      ClimbInTurn(v, ordered, index, best);
      OneTurnAsks(legs, v, ordered, index, best);
      var walked, current;
      ok, memo, walked, current := At(legs, value, memo, steps);
      if !ok {
        return false, Climbed(0, Exhausted), ([], None);
      }
      if current.Some? && current.value <= bestValue && best + 1 < steps {
        steps := best + 1;
        ok, memo, walked, current := At(legs, value, memo, steps);
        if !ok {
          return false, Climbed(0, Exhausted), ([], None);
        }
        if current.Some? && current.value > bestValue {
          best, bestValue, bestLegs := steps, current.value, walked;
          continue;
        }
      }
      if current.None? {
        return true, Climbed(steps, Unknown), (walked, None);
      }
      if current.value <= bestValue {
        return true, Climbed(best, NoEdgeLeft), (bestLegs, Some(bestValue));
      }
      best, bestValue, bestLegs := steps, current.value, walked;
      index := index + 1;
    }
    NothingAsked(legs, v, ordered, best);
    return true, Climbed(best, Exhausted), (bestLegs, Some(bestValue));
  }

  /** What the climb has walked and valued so far. */
  type Memo = map<int, (seq<Fill>, Option<int>)>

  predicate Remembered(legs: seq<Leg>, value: Valuation, memo: Memo) {
    forall s :: s in memo ==> memo[s] == (LegsAt(legs, s), Worth(legs, value)(s)) && Walkable(legs, s)
  }

  lemma NothingRemembered(legs: seq<Leg>, value: Valuation)
    ensures Remembered(legs, value, map[])
  {
  }

  lemma NothingAsked(legs: seq<Leg>, v: int -> Option<int>, ordered: seq<int>, best: int)
    requires Climbing(v, ordered, |ordered|, best)
    ensures AllWalkable(legs, Asked(v, ordered, |ordered|, best))
    ensures Climb(v, ordered, |ordered|, best) == Climbed(best, Exhausted)
  {
  }

  /** What one turn of the climb walks, and what it leaves to the turns behind it. */
  lemma OneTurnAsks(legs: seq<Leg>, v: int -> Option<int>, ordered: seq<int>, index: nat, best: int)
    requires Climbing(v, ordered, index, best) && index < |ordered|
    ensures var steps := ordered[index];
            AllWalkable(legs, Asked(v, ordered, index, best)) <==>
              && Walkable(legs, steps)
              && (v(steps).Some? ==>
                    if v(best).value < v(steps).value then AllWalkable(legs, Asked(v, ordered, index + 1, steps))
                    else best + 1 < steps ==>
                      && Walkable(legs, best + 1)
                      && (v(best + 1).Some? && v(best).value < v(best + 1).value ==>
                            AllWalkable(legs, Asked(v, ordered, index, best + 1))))
  {
    hide Asked, Walkable, AllWalkable, Climbing, Limit, Candidates;
    var steps := ordered[index];
    AskedInTurn(v, ordered, index, best);
    OneWalkable(legs, steps);
    OneWalkable(legs, best + 1);
    if v(steps).Some? && v(best).value < v(steps).value {
      AllWalkableSplits(legs, [steps], Asked(v, ordered, index + 1, steps));
    } else if v(steps).Some? && best + 1 < steps {
      AllWalkableSplits(legs, [steps], [best + 1]);
      if v(best + 1).Some? && v(best).value < v(best + 1).value {
        AllWalkableSplits(legs, [steps] + [best + 1], Asked(v, ordered, index, best + 1));
      }
    }
  }

  lemma OneWalkable(legs: seq<Leg>, s: int)
    ensures AllWalkable(legs, [s]) <==> Walkable(legs, s)
  {
    assert [s][0] == s;
  }

  lemma AllWalkableSplits(legs: seq<Leg>, a: seq<int>, b: seq<int>)
    ensures AllWalkable(legs, a + b) <==> AllWalkable(legs, a) && AllWalkable(legs, b)
  {
    hide Walkable;
    if AllWalkable(legs, a + b) {
      forall k | 0 <= k < |a| ensures Walkable(legs, a[k]) {
        assert a[k] == (a + b)[k];
      }
      forall k | 0 <= k < |b| ensures Walkable(legs, b[k]) {
        assert b[k] == (a + b)[|a| + k];
      }
    }
  }

  /** A step count's fills and value, walked and valued only if they are not remembered. */
  method At(legs: seq<Leg>, value: Valuation, memo: Memo, steps: int)
    returns (ok: bool, longer: Memo, fills: seq<Fill>, worth: Option<int>)
    requires LegsPositive(legs) && 0 < steps && Remembered(legs, value, memo)
    ensures ok <==> Walkable(legs, steps)
    ensures steps in memo ==> longer == memo
    ensures ok ==> Remembered(legs, value, longer) && longer.Keys == memo.Keys + {steps}
    ensures ok ==> fills == LegsAt(legs, steps) && worth == Worth(legs, value)(steps)
  {
    ok, longer := true, memo;
    if steps !in memo {
      ok, fills := WalkLegs(legs, steps);
      if !ok {
        return false, memo, [], None;
      }
      longer := memo[steps := (fills, value(steps, fills))];
    }
    fills, worth := longer[steps].0, longer[steps].1;
  }

  lemma {:induction false} LimitNotNegative(legs: seq<Leg>, cap: Option<int>)
    requires LegsPositive(legs) && UsableOk(legs, cap)
    ensures 0 <= StepLimit(legs, cap)
  {
    DepthPositive(Usable(legs[0].ladder, cap));
    NotNegativeQuotient(Depth(Usable(legs[0].ladder, cap)), legs[0].unit);
    if |legs| > 1 {
      hide Usable, Depth, AllOk;
      assert forall i :: 0 <= i < |legs| - 1 ==> legs[1..][i] == legs[i + 1];
      LimitNotNegative(legs[1..], cap);
    }
  }

  lemma NotNegativeQuotient(a: int, b: int)
    requires 0 <= a && 0 < b
    ensures 0 <= a / b
  {
  }
}
