/** The price of one leg at which a fill turns from worth taking to not worth taking. */
module KillPrices {
  import opened Options
  import opened Ladders
  import opened Baskets

  datatype Kill = Price(price: int) | Never | Refused

  /** Indices count from the end when they are negative. */
  predicate Indexed(legs: seq<Fill>, leg: int) {
    -|legs| <= leg < |legs|
  }

  function At(legs: seq<Fill>, leg: int): nat
    requires Indexed(legs, leg)
  {
    if leg < 0 then |legs| + leg else leg
  }

  /** Where a slice from `k` on begins. */
  function From(n: nat, k: int): nat {
    if k < 0 then Max(0, n + k) else Min(k, n)
  }

  function Single(legs: seq<Fill>, leg: int, price: int): Fill
    requires Indexed(legs, leg)
  {
    var q := legs[At(legs, leg)].filledAtoms;
    Fill(q, price * q, false, [Level(price, q)], [Level(price, q)])
  }

  /** The repriced leg is what a walk of its whole quantity makes of a book with that one price. */
  lemma RepricedIsAWalk(legs: seq<Fill>, leg: int, price: int)
    requires Indexed(legs, leg) && legs[At(legs, leg)].filledAtoms > 0 && price >= 0
    ensures var q := legs[if leg < 0 then |legs| + leg else leg].filledAtoms;
            WalkOf([Level(price, q)], [q]) == Fills([Single(legs, leg, price)])
  {
    OneLevelWalk(Level(price, legs[At(legs, leg)].filledAtoms));
  }

  lemma OneLevelWalk(l: Level)
    requires LevelOk(l)
    ensures WalkOf([l], [l.quantity]) == Fills([Fill(l.quantity, l.price * l.quantity, false, [l], [l])])
  {
    var q := l.quantity;
    assert [l][1..] == [];
    assert Taken([l], q) == [l] + Taken([], 0);
    assert Depth([l]) == q + Depth([]) && Value([l]) == l.price * q + Value([]);
    assert FillAt([l], q) == Fill(q, l.price * q, false, [l], [l][..1]);
    assert [l][..1] == [l];
    assert TouchedOk([], 0) && TouchedOk([l], q) && SizesOk([q]) && [q][|[q]| - 1] == q;
    var walked := WalkOf([l], [q]);
    assert walked.Fills? && |walked.fills| == 1 && walked.fills[0] == FillAt([l], [q][0]);
    assert walked.fills == [walked.fills[0]];
  }

  /** The fills before the leg, the leg at one price throughout, and the fills from the next index on. */
  function Repriced(legs: seq<Fill>, leg: int, price: int): seq<Fill>
    requires Indexed(legs, leg)
  {
    legs[..From(|legs|, leg)] + [Single(legs, leg, price)] + legs[From(|legs|, leg + 1)..]
  }

  /** That is the same fills with the one leg repriced, unless the index is -1: the next index is then 0,
      and all fills follow once more. */
  lemma OneLegIsRepricedExactly(legs: seq<Fill>, leg: int, price: int)
    requires Indexed(legs, leg)
    ensures Repriced(legs, leg, price) == legs[At(legs, leg) := Single(legs, leg, price)] <==> leg != -1
    ensures leg == -1 ==> Repriced(legs, leg, price) == legs[..|legs| - 1] + [Single(legs, leg, price)] + legs
  {
    assert |Repriced(legs, leg, price)| == |legs| <==> leg != -1;
    if leg != -1 {
      assert Repriced(legs, leg, price) == legs[At(legs, leg) := Single(legs, leg, price)];
    }
  }

  /** What the fills are worth with the leg at one price. */
  function WorthAt(value: Valuation, steps: int, legs: seq<Fill>, leg: int, price: int): Option<int>
    requires Indexed(legs, leg)
  {
    value(steps, Repriced(legs, leg, price))
  }

  predicate Positive(value: Valuation, steps: int, legs: seq<Fill>, leg: int, price: int)
    requires Indexed(legs, leg)
  {
    var worth := WorthAt(value, steps, legs, leg, price);
    worth.Some? && worth.value > 0
  }

  /** The searched price separates a worthless price from a worthwhile neighbour, whatever the value
      does in between. */
  predicate Kills(value: Valuation, steps: int, legs: seq<Fill>, leg: int, maximum: int, sell: bool, k: int)
    requires Indexed(legs, leg)
  {
    && 0 <= k <= maximum
    && (var worth := WorthAt(value, steps, legs, leg, k); worth.None? || worth.value <= 0)
    && (!sell && 0 < k ==>
          var worth := WorthAt(value, steps, legs, leg, k - 1); worth.Some? && worth.value > 0)
    && (sell && k < maximum ==>
          var worth := WorthAt(value, steps, legs, leg, k + 1); worth.Some? && worth.value > 0)
  }

  method KillPrice(value: Valuation, steps: int, legs: seq<Fill>, leg: int, maximum: int, sell: bool)
    returns (r: Kill)
    ensures r.Refused? <==>
              steps <= 0 || maximum < 0 || !Indexed(legs, leg) || legs[At(legs, leg)].filledAtoms <= 0
    ensures !r.Refused? ==>
              (r.Never? <==> Positive(value, steps, legs, leg, if sell then 0 else maximum))
    ensures r.Price? ==> Kills(value, steps, legs, leg, maximum, sell, r.price)
  {
    if steps <= 0 || maximum < 0 || !Indexed(legs, leg) || legs[At(legs, leg)].filledAtoms <= 0 {
      return Kill.Refused;
    }
    if sell {
      if Positive(value, steps, legs, leg, 0) {
        return Never;
      }
      var low, high := 0, maximum + 1;
      while high - low > 1
        invariant 0 <= low < high <= maximum + 1
        invariant !Positive(value, steps, legs, leg, low)
        invariant high <= maximum ==> Positive(value, steps, legs, leg, high)
      {
        var middle := (low + high) / 2;
        if Positive(value, steps, legs, leg, middle) {
          high := middle;
        } else {
          low := middle;
        }
      }
      return Price(low);
    }
    if Positive(value, steps, legs, leg, maximum) {
      return Never;
    }
    var low, high := -1, maximum;
    while high - low > 1
      invariant -1 <= low < high <= maximum
      invariant 0 <= low ==> Positive(value, steps, legs, leg, low)
      invariant !Positive(value, steps, legs, leg, high)
    {
      var middle := (low + high) / 2;
      if Positive(value, steps, legs, leg, middle) {
        low := middle;
      } else {
        high := middle;
      }
    }
    return Price(high);
  }

  /** Paying more never helps a buyer, and receiving more never hurts a seller. */
  ghost predicate Monotone(value: Valuation, steps: int, legs: seq<Fill>, leg: int, maximum: int, sell: bool)
    requires Indexed(legs, leg)
  {
    forall p, q | 0 <= p <= q <= maximum ::
      if sell then Positive(value, steps, legs, leg, p) ==> Positive(value, steps, legs, leg, q)
      else Positive(value, steps, legs, leg, q) ==> Positive(value, steps, legs, leg, p)
  }

  /** For a monotone value the kill price is the only one: exactly the prices below it (a bought leg)
      or above it (a sold leg) are worthwhile. */
  lemma KillPriceIsTheThreshold(
      value: Valuation, steps: int, legs: seq<Fill>, leg: int, maximum: int, sell: bool, k: int, p: int)
    requires Indexed(legs, leg) && 0 <= p <= maximum
    requires Monotone(value, steps, legs, leg, maximum, sell)
    requires Kills(value, steps, legs, leg, maximum, sell, k)
    ensures Positive(value, steps, legs, leg, p) <==> if sell then k < p else p < k
  {
    assert !Positive(value, steps, legs, leg, k);
    if sell {
      if k < p {
        assert Positive(value, steps, legs, leg, k + 1) && k + 1 <= p;
      }
    } else if p < k {
      assert Positive(value, steps, legs, leg, k - 1) && p <= k - 1;
    }
  }
}
