/** The climb towards the most valuable step count. It looks at candidates only, and at one more step
    behind the best whenever a candidate disappoints. */
module EdgeClimb {
  import opened Options

  /** Why the climb stopped. */
  datatype End = NoEdgeLeft | Exhausted | Unknown

  datatype Climbed = Climbed(steps: int, end: End)

  /** Candidate step counts: strictly increasing and positive. */
  predicate Candidates(ordered: seq<int>) {
    && (forall i :: 0 <= i < |ordered| ==> 0 < ordered[i])
    && (forall i, j :: 0 <= i < j < |ordered| ==> ordered[i] < ordered[j])
  }

  function Limit(ordered: seq<int>): int {
    if ordered == [] then 0 else ordered[|ordered| - 1]
  }

  /** `v` is worth zero at zero steps; `None` is a value the caller does not know. */
  predicate Climbing(v: int -> Option<int>, ordered: seq<int>, index: nat, best: int) {
    && Candidates(ordered) && index <= |ordered|
    && 0 <= best && v(best).Some?
    && (forall i :: index <= i < |ordered| ==> best < ordered[i])
    && best <= Limit(ordered)
    && (index == |ordered| ==> best == Limit(ordered))
  }

  /** One turn of the climb. Every turn either stops or moves `best` strictly closer to the limit,
      whatever `v` is. */
  function Climb(v: int -> Option<int>, ordered: seq<int>, index: nat, best: int): (r: Climbed)
    requires Climbing(v, ordered, index, best)
    decreases Limit(ordered) - best
  {
    if index == |ordered| then Climbed(best, Exhausted)
    else
      var steps := ordered[index];
      match v(steps)
      case None => Climbed(steps, Unknown)
      case Some(current) =>
        if v(best).value < current then Climb(v, ordered, index + 1, steps)
        else if best + 1 == steps then Climbed(best, NoEdgeLeft)
        else
          match v(best + 1)
          case None => Climbed(best + 1, Unknown)
          case Some(next) =>
            if v(best).value < next then Climb(v, ordered, index, best + 1)
            else Climbed(best, NoEdgeLeft)
  }

  /** The step counts the climb accepts, from `best` on. */
  function Accepted(v: int -> Option<int>, ordered: seq<int>, index: nat, best: int): (r: seq<int>)
    requires Climbing(v, ordered, index, best)
    decreases Limit(ordered) - best
  {
    if index == |ordered| || v(ordered[index]).None? then [best]
    else
      var steps := ordered[index];
      if v(best).value < v(steps).value then [best] + Accepted(v, ordered, index + 1, steps)
      else if best + 1 < steps && v(best + 1).Some? && v(best).value < v(best + 1).value then
        [best] + Accepted(v, ordered, index, best + 1)
      else [best]
  }

  /** The step counts the climb asks the value of, from here on, in order. */
  function Asked(v: int -> Option<int>, ordered: seq<int>, index: nat, best: int): (r: seq<int>)
    requires Climbing(v, ordered, index, best)
    ensures forall s :: s in r ==> best < s
    decreases Limit(ordered) - best
  {
    if index == |ordered| then []
    else
      var steps := ordered[index];
      if v(steps).None? then [steps]
      else if v(best).value < v(steps).value then [steps] + Asked(v, ordered, index + 1, steps)
      else if best + 1 == steps then [steps]
      else
        [steps, best + 1] +
        if v(best + 1).Some? && v(best).value < v(best + 1).value then Asked(v, ordered, index, best + 1) else []
  }

  /** One turn of the climb: where it stops, or from where it goes on. */
  lemma ClimbInTurn(v: int -> Option<int>, ordered: seq<int>, index: nat, best: int)
    requires Climbing(v, ordered, index, best) && index < |ordered|
    ensures v(best).Some? && 0 <= best < ordered[index] <= Limit(ordered)
    ensures var steps, r := ordered[index], Climb(v, ordered, index, best);
            if v(steps).None? then r == Climbed(steps, Unknown)
            else if v(best).value < v(steps).value then
              Climbing(v, ordered, index + 1, steps) && r == Climb(v, ordered, index + 1, steps)
            else if best + 1 == steps then r == Climbed(best, NoEdgeLeft)
            else if v(best + 1).None? then r == Climbed(best + 1, Unknown)
            else if v(best).value < v(best + 1).value then
              Climbing(v, ordered, index, best + 1) && r == Climb(v, ordered, index, best + 1)
            else r == Climbed(best, NoEdgeLeft)
  {
    assert ordered[index] <= Limit(ordered);
  }

  /** What one turn of the climb asks before it goes on. */
  lemma AskedInTurn(v: int -> Option<int>, ordered: seq<int>, index: nat, best: int)
    requires Climbing(v, ordered, index, best) && index < |ordered|
    ensures var steps, asked := ordered[index], Asked(v, ordered, index, best);
            if v(steps).None? then asked == [steps]
            else if v(best).value < v(steps).value then
              Climbing(v, ordered, index + 1, steps) && asked == [steps] + Asked(v, ordered, index + 1, steps)
            else if best + 1 == steps then asked == [steps]
            else if v(best + 1).Some? && v(best).value < v(best + 1).value then
              Climbing(v, ordered, index, best + 1)
              && asked == [steps] + [best + 1] + Asked(v, ordered, index, best + 1)
            else asked == [steps] + [best + 1]
    ensures v(best).Some? && best < ordered[index]
  {
    hide Climb;
    ClimbInTurn(v, ordered, index, best);
    assert [ordered[index]] + [best + 1] == [ordered[index], best + 1];
    hide Climbing, Limit, Candidates;
  }

  /** What each way of stopping says, for any value function at all. */
  lemma {:induction false} ClimbStops(v: int -> Option<int>, ordered: seq<int>, index: nat, best: int)
    requires Climbing(v, ordered, index, best)
    ensures var r := Climb(v, ordered, index, best);
            && best <= r.steps <= Limit(ordered)
            && (r.end == NoEdgeLeft ==>
                  && r.steps < Limit(ordered) && v(r.steps).Some? && v(r.steps + 1).Some?
                  && v(r.steps + 1).value <= v(r.steps).value)
            && (r.end == Unknown <==> v(r.steps).None?)
            && (r.end == Exhausted <==> r.steps == Limit(ordered) && v(r.steps).Some?)
    decreases Limit(ordered) - best
  {
    if index < |ordered| && v(ordered[index]).Some? {
      var steps := ordered[index];
      assert steps <= Limit(ordered);
      if v(best).value < v(steps).value {
        ClimbStops(v, ordered, index + 1, steps);
      } else if best + 1 < steps && v(best + 1).Some? && v(best).value < v(best + 1).value {
        ClimbStops(v, ordered, index, best + 1);
      }
    }
  }

  /** Step counts and their known values rise strictly. */
  predicate Rises(v: int -> Option<int>, a: seq<int>) {
    && (forall i :: 0 <= i < |a| ==> v(a[i]).Some?)
    && (forall i :: 0 < i < |a| ==> a[i - 1] < a[i] && v(a[i - 1]).value < v(a[i]).value)
  }

  /** Accepted step counts and their values rise strictly, and the last one is the result unless the
      climb ran into an unknown value. */
  lemma {:induction false} AcceptedValuesRise(v: int -> Option<int>, ordered: seq<int>, index: nat, best: int)
    requires Climbing(v, ordered, index, best)
    ensures RisesTo(v, Accepted(v, ordered, index, best), best, Climb(v, ordered, index, best))
    decreases Limit(ordered) - best
  {
    if index < |ordered| && v(ordered[index]).Some? {
      var steps := ordered[index];
      if v(best).value < v(steps).value {
        AcceptedValuesRise(v, ordered, index + 1, steps);
        Prepended(v, best, steps, Accepted(v, ordered, index + 1, steps), Climb(v, ordered, index + 1, steps));
        hide RisesTo;
      } else if best + 1 < steps && v(best + 1).Some? && v(best).value < v(best + 1).value {
        AcceptedValuesRise(v, ordered, index, best + 1);
        Prepended(v, best, best + 1, Accepted(v, ordered, index, best + 1), Climb(v, ordered, index, best + 1));
        hide RisesTo;
      }
    }
  }

  /** The accepted step counts start at `best`, rise strictly with their values, and end at the result
      unless the climb ran into an unknown value. */
  predicate RisesTo(v: int -> Option<int>, a: seq<int>, best: int, r: Climbed) {
    && a != [] && a[0] == best && Rises(v, a)
    && (r.end == Unknown ==> a[|a| - 1] < r.steps)
    && (r.end != Unknown ==> a[|a| - 1] == r.steps)
  }

  lemma Prepended(v: int -> Option<int>, best: int, next: int, a: seq<int>, r: Climbed)
    requires RisesTo(v, a, next, r) && v(best).Some? && best < next && v(best).value < v(next).value
    ensures RisesTo(v, [best] + a, best, r)
  {
    var b := [best] + a;
    forall i | 0 < i < |b| ensures b[i - 1] < b[i] && v(b[i - 1]).value < v(b[i]).value {
      assert b[i] == a[i - 1];
      if i > 1 { assert b[i - 1] == a[i - 2]; }
    }
  }

  /** What a caller can rely on before the climb: an answer known at the limit makes standing there and
      being exhausted the same thing for every value that gives it, and no other answer does. */
  lemma ExhaustedIffAtLimit(ordered: seq<int>, atLimit: Option<int>)
    requires Candidates(ordered) && ordered != []
    ensures atLimit.Some? <==>
            forall v: int -> Option<int> :: Climbing(v, ordered, 0, 0) && v(Limit(ordered)) == atLimit ==>
              (Climb(v, ordered, 0, 0).end == Exhausted <==> Climb(v, ordered, 0, 0).steps == Limit(ordered))
  {
    if atLimit.Some? {
      forall v: int -> Option<int> | Climbing(v, ordered, 0, 0) && v(Limit(ordered)) == atLimit
        ensures Climb(v, ordered, 0, 0).end == Exhausted <==> Climb(v, ordered, 0, 0).steps == Limit(ordered)
      {
        ClimbStops(v, ordered, 0, 0);
      }
    } else {
      var v := (s: int) => if s == Limit(ordered) then None else Some(s);
      RisesToTheLast(v, ordered, 0, 0);
    }
  }

  lemma {:induction false} RisesToTheLast(v: int -> Option<int>, ordered: seq<int>, index: nat, best: int)
    requires Climbing(v, ordered, index, best) && index < |ordered|
    requires forall s :: v(s) == if s == Limit(ordered) then None else Some(s)
    ensures Climb(v, ordered, index, best) == Climbed(Limit(ordered), Unknown)
    decreases |ordered| - index
  {
    if index + 1 < |ordered| {
      RisesToTheLast(v, ordered, index + 1, ordered[index]);
    }
  }

  /** Exactly which values end at the limit without being exhausted: those unknown there that carry the
      climb through all the candidates before it. */
  lemma AtLimitButNotExhausted(v: int -> Option<int>, ordered: seq<int>, index: nat, best: int)
    requires Climbing(v, ordered, index, best) && index < |ordered|
    ensures var before, r := ordered[..|ordered| - 1], Climb(v, ordered, index, best);
            (r.steps == Limit(ordered) && r.end != Exhausted) <==>
            v(Limit(ordered)).None? && Reaches(v, before, index, best)
    decreases Limit(ordered) - best
  {
    ClimbStops(v, ordered, index, best);
    var before, n := ordered[..|ordered| - 1], |ordered| - 1;
    if index < n {
      var steps := ordered[index];
      assert before[index] == steps && steps < Limit(ordered);
      if v(steps).Some? {
        if v(best).value < v(steps).value {
          AtLimitButNotExhausted(v, ordered, index + 1, steps);
        } else if best + 1 < steps && v(best + 1).Some? && v(best).value < v(best + 1).value {
          AtLimitButNotExhausted(v, ordered, index, best + 1);
        }
      }
    } else if v(ordered[n]).Some? && best + 1 < ordered[n] && v(best + 1).Some?
              && v(ordered[n]).value <= v(best).value < v(best + 1).value {
      AtLimitButNotExhausted(v, ordered, index, best + 1);
    }
  }

  /** The climb accepts every one of these candidates in turn. */
  predicate Reaches(v: int -> Option<int>, candidates: seq<int>, index: nat, best: int)
    requires v(best).Some? && index <= |candidates|
    decreases |candidates| - index
  {
    index == |candidates| ||
    (v(candidates[index]).Some? && v(best).value < v(candidates[index]).value
     && Reaches(v, candidates, index + 1, candidates[index]))
  }

  // ---- when the climb finds the maximum -----------------------------------------------------

  predicate Known(v: int -> Option<int>, limit: int) {
    forall s :: 0 <= s <= limit ==> v(s).Some?
  }

  /** The gain of step `s + 1`. */
  function Gain(v: int -> Option<int>, limit: int, s: int): int
    requires Known(v, limit) && 0 <= s < limit
  {
    v(s + 1).value - v(s).value
  }

  predicate Concave(v: int -> Option<int>, limit: int)
    requires Known(v, limit)
  {
    forall s :: 0 <= s < limit - 1 ==> Gain(v, limit, s + 1) <= Gain(v, limit, s)
  }

  /** The value bends nowhere but at candidates. */
  predicate BendsOnlyAtCandidates(v: int -> Option<int>, ordered: seq<int>)
    requires Known(v, Limit(ordered))
  {
    forall s :: 0 <= s < Limit(ordered) - 1 && s + 1 !in ordered ==>
      Gain(v, Limit(ordered), s + 1) == Gain(v, Limit(ordered), s)
  }

  predicate SmallestMaximizer(v: int -> Option<int>, limit: int, best: int)
    requires Known(v, limit)
  {
    && 0 <= best <= limit
    && (forall s :: 0 <= s < best ==> v(s).value < v(best).value)
    && (forall s :: best <= s <= limit ==> v(s).value <= v(best).value)
  }

  /** Between neighbouring candidates the value is a straight line. */
  lemma {:induction false} StraightLine(v: int -> Option<int>, ordered: seq<int>, a: int, b: int, s: int)
    requires Known(v, Limit(ordered)) && BendsOnlyAtCandidates(v, ordered)
    requires 0 <= a < s <= b <= Limit(ordered)
    requires forall c :: a < c < b ==> c !in ordered
    ensures Gain(v, Limit(ordered), s - 1) == Gain(v, Limit(ordered), a)
    ensures v(s).value == v(a).value + (s - a) * Gain(v, Limit(ordered), a)
    decreases s
  {
    if s > a + 1 {
      StraightLine(v, ordered, a, b, s - 1);
      assert s - 1 !in ordered;
      assert Gain(v, Limit(ordered), (s - 2) + 1) == Gain(v, Limit(ordered), s - 2);
      assert (s - a) * Gain(v, Limit(ordered), a)
          == (s - 1 - a) * Gain(v, Limit(ordered), a) + Gain(v, Limit(ordered), a);
    }
  }

  lemma {:induction false} NeverUpAgain(v: int -> Option<int>, limit: int, a: int, s: int)
    requires Known(v, limit) && Concave(v, limit)
    requires 0 <= a < s <= limit && Gain(v, limit, a) <= 0
    ensures Gain(v, limit, s - 1) <= 0 && v(s).value <= v(a).value
    decreases s
  {
    if s > a + 1 {
      NeverUpAgain(v, limit, a, s - 1);
      assert Gain(v, limit, (s - 2) + 1) <= Gain(v, limit, s - 2);
    }
  }

  /** The candidate before `ordered[i]`, or zero steps. */
  function Before(ordered: seq<int>, i: nat): int
    requires i < |ordered|
  {
    if i == 0 then 0 else ordered[i - 1]
  }

  /** Wherever a candidate is worth more than the one before it, the value still rises right up to it. */
  predicate StillRising(v: int -> Option<int>, ordered: seq<int>, i: nat)
    requires Candidates(ordered) && Known(v, Limit(ordered)) && i < |ordered|
  {
    assert 0 <= Before(ordered, i) < ordered[i] <= Limit(ordered);
    v(Before(ordered, i)).value < v(ordered[i]).value ==> v(ordered[i] - 1).value < v(ordered[i]).value
  }

  predicate RisesIntoCandidates(v: int -> Option<int>, ordered: seq<int>)
    requires Candidates(ordered) && Known(v, Limit(ordered))
  {
    RisesFrom(v, ordered, 0)
  }

  predicate RisesFrom(v: int -> Option<int>, ordered: seq<int>, index: nat)
    requires Candidates(ordered) && Known(v, Limit(ordered))
  {
    forall i :: index <= i < |ordered| ==> StillRising(v, ordered, i)
  }

  lemma StillRisingAt(v: int -> Option<int>, ordered: seq<int>, i: nat)
    requires Candidates(ordered) && Known(v, Limit(ordered)) && i < |ordered|
    requires 0 < ordered[i] <= Limit(ordered) && v(ordered[i] - 1).value < v(ordered[i]).value
    ensures StillRising(v, ordered, i)
  {
  }

  lemma FirstAndRest(v: int -> Option<int>, ordered: seq<int>, index: nat)
    requires Candidates(ordered) && Known(v, Limit(ordered)) && index < |ordered|
    ensures RisesFrom(v, ordered, index) <==> StillRising(v, ordered, index) && RisesFrom(v, ordered, index + 1)
  {
  }

  /** The exact condition: for a concave value the climb finds the smallest step count that maximizes it
      over all of `0..limit` if and only if no candidate it may jump to lies behind the maximum. */
  lemma ConcaveClimbIsRightExactly(v: int -> Option<int>, ordered: seq<int>)
    requires Climbing(v, ordered, 0, 0) && Known(v, Limit(ordered)) && Concave(v, Limit(ordered))
    ensures SmallestMaximizer(v, Limit(ordered), Climb(v, ordered, 0, 0).steps) <==> RisesIntoCandidates(v, ordered)
  {
    ClimbIsRightFrom(v, ordered, 0, 0);
  }

  /** The same from the middle of a climb, while the value rises up to `best`. */
  lemma {:induction false} ClimbIsRightFrom(v: int -> Option<int>, ordered: seq<int>, index: nat, best: int)
    requires Climbing(v, ordered, index, best) && Known(v, Limit(ordered)) && Concave(v, Limit(ordered))
    requires best > 0 ==> v(best - 1).value < v(best).value
    requires index > 0 ==> ordered[index - 1] <= best
    requires index < |ordered| ==>
               best == Before(ordered, index) || v(ordered[index]).value <= v(Before(ordered, index)).value
    ensures SmallestMaximizer(v, Limit(ordered), Climb(v, ordered, index, best).steps) <==>
            RisesFrom(v, ordered, index)
    decreases Limit(ordered) - best
  {
    if index == |ordered| {
      RisesUpTo(v, Limit(ordered), best);
    } else {
      var steps := ordered[index];
      ClimbInTurn(v, ordered, index, best);
      hide RisesFrom, SmallestMaximizer, StillRising, Concave, Climb;
      if v(best).value < v(steps).value {
        JumpsFromTheLast(v, ordered, index, best);
        FirstAndRest(v, ordered, index);
        if v(steps - 1).value < v(steps).value {
          ClimbIsRightFrom(v, ordered, index + 1, steps);
          StillRisingAt(v, ordered, index);
        } else {
          JumpOvershoots(v, ordered, index, best);
        }
      } else if best + 1 < steps && v(best).value < v(best + 1).value {
        ClimbIsRightFrom(v, ordered, index, best + 1);
      } else {
        StopIsRight(v, ordered, index, best);
      }
    }
  }

  /** A jump to a candidate behind the maximum: the climb never comes back. */
  lemma JumpOvershoots(v: int -> Option<int>, ordered: seq<int>, index: nat, best: int)
    requires Climbing(v, ordered, index, best) && Known(v, Limit(ordered)) && Concave(v, Limit(ordered))
    requires index < |ordered| && best == Before(ordered, index) && v(best).value < v(ordered[index]).value
    requires v(ordered[index]).value <= v(ordered[index] - 1).value
    ensures !SmallestMaximizer(v, Limit(ordered), Climb(v, ordered, index, best).steps)
    ensures !StillRising(v, ordered, index)
  {
    ClimbInTurn(v, ordered, index, best);
    ClimbStops(v, ordered, index + 1, ordered[index]);
    hide Climb, Climbing;
    OvershotIsWrong(v, Limit(ordered), ordered[index], Climb(v, ordered, index, best).steps);
  }

  /** A climb that crept past the last candidate is worth more than the next one, and does not jump to it. */
  lemma JumpsFromTheLast(v: int -> Option<int>, ordered: seq<int>, index: nat, best: int)
    requires Climbing(v, ordered, index, best) && Known(v, Limit(ordered)) && Concave(v, Limit(ordered))
    requires best > 0 ==> v(best - 1).value < v(best).value
    requires index < |ordered| && Before(ordered, index) <= best && v(best).value < v(ordered[index]).value
    requires best == Before(ordered, index) || v(ordered[index]).value <= v(Before(ordered, index)).value
    ensures best == Before(ordered, index)
  {
    RisesUpTo(v, Limit(ordered), best);
  }

  lemma OvershotIsWrong(v: int -> Option<int>, limit: int, c: int, r: int)
    requires Known(v, limit) && Concave(v, limit) && 0 < c <= r <= limit && v(c).value <= v(c - 1).value
    ensures !SmallestMaximizer(v, limit, r)
  {
    NeverUpAgain(v, limit, c - 1, r);
  }

  /** A climb that stops short of a candidate worth no more has found the maximum, and no later
      candidate is worth more than the one before it. */
  lemma StopIsRight(v: int -> Option<int>, ordered: seq<int>, index: nat, best: int)
    requires Climbing(v, ordered, index, best) && Known(v, Limit(ordered)) && Concave(v, Limit(ordered))
    requires index < |ordered| && v(ordered[index]).value <= v(best).value
    requires best + 1 < ordered[index] ==> v(best + 1).value <= v(best).value
    requires index > 0 ==> ordered[index - 1] <= best
    requires best == Before(ordered, index) || v(ordered[index]).value <= v(Before(ordered, index)).value
    requires best > 0 ==> v(best - 1).value < v(best).value
    ensures SmallestMaximizer(v, Limit(ordered), best)
    ensures RisesFrom(v, ordered, index)
  {
    var limit := Limit(ordered);
    RisesUpTo(v, limit, best);
    assert Gain(v, limit, best) <= 0;
    forall s | best < s <= limit ensures v(s).value <= v(best).value {
      NeverUpAgain(v, limit, best, s);
    }
    forall i | index < i < |ordered| ensures StillRising(v, ordered, i) {
      NeverUpAgain(v, limit, best, Before(ordered, i) + 1);
      NeverUpAgain(v, limit, Before(ordered, i), ordered[i]);
    }
  }

  lemma {:induction false} RisesUpTo(v: int -> Option<int>, limit: int, best: int)
    requires Known(v, limit) && Concave(v, limit) && 0 <= best <= limit
    requires best > 0 ==> v(best - 1).value < v(best).value
    ensures forall s :: 0 <= s < best ==> v(s).value < v(best).value
    decreases best
  {
    if best > 1 {
      assert Gain(v, limit, (best - 2) + 1) <= Gain(v, limit, best - 2);
      RisesUpTo(v, limit, best - 1);
    }
  }

  /** For a concave value that bends only at candidates the climb finds the smallest step count that
      maximizes it over all of `0..limit`, although it looks at candidates only. */
  lemma ClimbFindsSmallestMaximizer(v: int -> Option<int>, ordered: seq<int>)
    requires Climbing(v, ordered, 0, 0)
    requires Known(v, Limit(ordered)) && Concave(v, Limit(ordered)) && BendsOnlyAtCandidates(v, ordered)
    ensures SmallestMaximizer(v, Limit(ordered), Climb(v, ordered, 0, 0).steps)
  {
    forall i | 0 <= i < |ordered| ensures StillRising(v, ordered, i) {
      var a, b := Before(ordered, i), ordered[i];
      StraightLine(v, ordered, a, b, b);
      SlopeSign(b - a, Gain(v, Limit(ordered), a));
    }
    ConcaveClimbIsRightExactly(v, ordered);
  }

  lemma SlopeSign(n: int, d: int)
    requires n > 0
    ensures n * d > 0 <==> d > 0
  {
  }

  /** Concavity alone is not enough: this concave value peaks at 2, inside the only gap, and the climb
      passes it by. */
  lemma ConcavityAloneIsNotEnough()
    ensures var v := (s: int) => Some(5 * s - s * s);
            && Climbing(v, [4], 0, 0) && Known(v, 4) && Concave(v, 4)
            && Climb(v, [4], 0, 0) == Climbed(4, Exhausted)
            && v(4).value < v(2).value
            && !SmallestMaximizer(v, 4, 4)
  {
    var v := (s: int) => Some(5 * s - s * s);
    assert forall s :: 0 <= s < 4 ==> Gain(v, 4, s) == 4 - 2 * s;
    assert v(2).value == 6;
  }
}
