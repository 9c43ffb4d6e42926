/** Walking one best-first ladder of price levels in exact integers. */
module Ladders {
  import opened Options

  datatype Level = Level(price: int, quantity: int)

  datatype Fill = Fill(
    filledAtoms: int, cost: int, depthLimited: bool, taken: seq<Level>, consumed: seq<Level>)

  /** `ValueError` stands for the exception the walk raises. */
  datatype Walked = Fills(fills: seq<Fill>) | ValueError

  predicate LevelOk(l: Level) {
    l.price >= 0 && l.quantity > 0
  }

  predicate Stocked(levels: seq<Level>) {
    forall i :: 0 <= i < |levels| ==> levels[i].quantity > 0
  }

  predicate AllOk(levels: seq<Level>) {
    forall i :: 0 <= i < |levels| ==> LevelOk(levels[i])
  }

  predicate SizesOk(sizes: seq<int>) {
    && sizes != []
    && (forall i :: 0 <= i < |sizes| ==> sizes[i] > 0)
    && (forall i, j :: 0 <= i < j < |sizes| ==> sizes[i] < sizes[j])
  }

  function Depth(levels: seq<Level>): int {
    if levels == [] then 0 else levels[0].quantity + Depth(levels[1..])
  }

  function Value(levels: seq<Level>): int {
    if levels == [] then 0 else levels[0].price * levels[0].quantity + Value(levels[1..])
  }

  /** The first `n` atoms of a ladder, level by level. */
  function Taken(levels: seq<Level>, n: int): seq<Level> {
    if levels == [] || n <= 0 then []
    else [Level(levels[0].price, Min(n, levels[0].quantity))] + Taken(levels[1..], n - levels[0].quantity)
  }

  function Cost(levels: seq<Level>, n: int): int {
    Value(Taken(levels, n))
  }

  /** Every level a walk of `n` atoms looks at is valid. A walk that ends exactly on a level boundary
      also looks at the level behind it. */
  predicate TouchedOk(levels: seq<Level>, n: int) {
    levels == [] ||
    (LevelOk(levels[0]) &&
     (levels[0].quantity <= n ==> TouchedOk(levels[1..], n - levels[0].quantity)))
  }

  /** The fill of one size. */
  function FillAt(levels: seq<Level>, n: int): Fill
  {
    TakenLength(levels, n);
    var t := Taken(levels, n);
    Fill(Depth(t), Value(t), Depth(t) < n, t, levels[..|t|])
  }

  function WalkOf(levels: seq<Level>, sizes: seq<int>): Walked {
    if !SizesOk(sizes) || !TouchedOk(levels, sizes[|sizes| - 1]) then ValueError
    else Fills(seq(|sizes|, i requires 0 <= i < |sizes| => FillAt(levels, sizes[i])))
  }

  /** Where a traversal stands: the levels before `index` are used up, and `remaining` is what is left
      of the next one. */
  datatype Cursor = Cursor(
    index: nat, remaining: int, filled: int, cost: int, taken: seq<Level>, consumed: seq<Level>)

  /** One traversal prices every size. */
  method Walk(levels: seq<Level>, sizes: seq<int>) returns (r: Walked)
    ensures r == WalkOf(levels, sizes)
  {
    if !SizesOk(sizes) {
      return ValueError;
    }
    var results: seq<Fill> := [];
    var c := Cursor(0, 0, 0, 0, [], []);
    if levels != [] {
      if !LevelOk(levels[0]) {
        return ValueError;
      }
      c := c.(remaining := levels[0].quantity);
    }
    Begin(levels, c);
    hide At, TouchedOk, FillAt, LevelOk, SizesOk;
    for k := 0 to |sizes|
      invariant |results| == k
      invariant forall i :: 0 <= i < k ==> results[i] == FillAt(levels, sizes[i])
      invariant At(levels, c) && c.filled <= (if k == 0 then 0 else sizes[k - 1])
      invariant k > 0 ==> TouchedOk(levels, sizes[k - 1])
    {
      var target := sizes[k];
      SizesGrow(sizes, k);
      var ok;
      ok, c := Reach(levels, c, target);
      if !ok {
        NotTouched(levels, target, sizes[|sizes| - 1]);
        return ValueError;
      }
      results := results + [
        Fill(Min(c.filled, target), c.cost, c.filled < target, c.taken, c.consumed)];
    }
    r := Fills(results);
    Collected(levels, sizes, results);
  }

  /** Takes atoms until `target` are filled or the ladder ends. `ok` is false when the next level is
      invalid. */
  method Reach(levels: seq<Level>, start: Cursor, target: int) returns (ok: bool, c: Cursor)
    requires At(levels, start) && start.filled <= target
    ensures ok == TouchedOk(levels, target)
    ensures ok ==> At(levels, c) && c.filled <= target
    ensures ok ==> FillAt(levels, target) ==
                   Fill(Min(c.filled, target), c.cost, c.filled < target, c.taken, c.consumed)
  {
    c := start;
    hide TouchedOk, FillAt, Taken, Value, Depth;
    while c.filled < target && c.index < |levels|
      invariant At(levels, c) && c.filled <= target
      decreases |levels| - c.index, c.remaining
    {
      var amount := Min(c.remaining, target - c.filled);
      c := Took(levels, c, amount);
      if c.remaining == 0 {
        var index := c.index + 1;
        if index < |levels| {
          if !LevelOk(levels[index]) {
            Blocked(levels, c, target);
            return false, c;
          }
          c := c.(index := index, remaining := levels[index].quantity);
        } else {
          c := c.(index := index);
        }
      }
    }
    Arrived(levels, c, target);
    ok := true;
  }

  /** `amount` more atoms of the level the traversal stands in. */
  method Took(levels: seq<Level>, c: Cursor, amount: int) returns (d: Cursor)
    requires At(levels, c) && c.index < |levels| && 0 < amount <= c.remaining
    ensures d.index == c.index && d.remaining == c.remaining - amount && d.filled == c.filled + amount
    ensures d.remaining > 0 ==> At(levels, d)
    ensures d.remaining == 0 ==> LevelDone(levels, d)
  {
    var l := levels[c.index];
    var taken, consumed := c.taken, c.consumed;
    if c.remaining == l.quantity {
      taken := taken + [Level(l.price, amount)];
      consumed := consumed + [l];
    } else {
      var prior := taken[|taken| - 1];
      taken := taken[|taken| - 1 := Level(prior.price, prior.quantity + amount)];
    }
    d := Cursor(c.index, c.remaining - amount, c.filled + amount, c.cost + l.price * amount, taken, consumed);
    TakeMore(levels, c, amount);
    assert d.taken == levels[..c.index] + [Level(l.price, l.quantity - d.remaining)];
    assert d.consumed == levels[..c.index + 1];
  }

  lemma Begin(levels: seq<Level>, c: Cursor)
    requires levels != [] ==> LevelOk(levels[0])
    requires c == Cursor(0, if levels != [] then levels[0].quantity else 0, 0, 0, [], [])
    ensures At(levels, c)
  {
  }

  lemma SizesGrow(sizes: seq<int>, k: nat)
    requires SizesOk(sizes) && k < |sizes|
    ensures 0 < sizes[k] <= sizes[|sizes| - 1]
    ensures k > 0 ==> sizes[k - 1] < sizes[k]
  {
  }

  lemma NotTouched(levels: seq<Level>, m: int, n: int)
    requires m <= n && !TouchedOk(levels, m)
    ensures !TouchedOk(levels, n)
  {
    if TouchedOk(levels, n) {
      TouchedMonotone(levels, m, n);
    }
  }

  lemma Collected(levels: seq<Level>, sizes: seq<int>, results: seq<Fill>)
    requires SizesOk(sizes) && TouchedOk(levels, sizes[|sizes| - 1])
    requires |results| == |sizes|
    requires forall i :: 0 <= i < |sizes| ==> results[i] == FillAt(levels, sizes[i])
    ensures Fills(results) == WalkOf(levels, sizes)
  {
    assert results == seq(|sizes|, i requires 0 <= i < |sizes| => FillAt(levels, sizes[i]));
  }

  /** What holds at every stop of the traversal. */
  ghost predicate At(levels: seq<Level>, c: Cursor) {
    && c.index <= |levels|
    && AllOk(levels[..c.index])
    && (c.index < |levels| ==> LevelOk(levels[c.index]) && 0 < c.remaining <= levels[c.index].quantity)
    && var used := if c.index < |levels| then levels[c.index].quantity - c.remaining else 0;
    && c.taken == levels[..c.index] + (if used > 0 then [Level(levels[c.index].price, used)] else [])
    && c.consumed == levels[..if used > 0 then c.index + 1 else c.index]
    && c.filled == Depth(c.taken)
    && c.cost == Value(c.taken)
  }

  /** The level the traversal stands in has just been used up. */
  ghost predicate LevelDone(levels: seq<Level>, c: Cursor) {
    && c.index < |levels|
    && AllOk(levels[..c.index + 1])
    && c.taken == c.consumed == levels[..c.index + 1]
    && c.filled == Depth(c.taken)
    && c.cost == Value(c.taken)
  }

  lemma Blocked(levels: seq<Level>, c: Cursor, n: int)
    requires LevelDone(levels, c) && c.filled <= n
    requires c.index + 1 < |levels| && !LevelOk(levels[c.index + 1])
    ensures !TouchedOk(levels, n)
  {
    TouchedSplit(levels, c.index + 1, n);
  }

  lemma Arrived(levels: seq<Level>, c: Cursor, target: int)
    requires At(levels, c) && c.filled <= target
    requires c.filled == target || c.index == |levels|
    ensures TouchedOk(levels, target)
    ensures FillAt(levels, target) ==
            Fill(Min(c.filled, target), c.cost, c.filled < target, c.taken, c.consumed)
  {
    FilledSplit(levels, c);
    TouchedSplit(levels, c.index, target);
    ArrivedTaken(levels, c, target);
  }

  lemma FilledSplit(levels: seq<Level>, c: Cursor)
    requires At(levels, c)
    ensures c.filled == Depth(levels[..c.index]) +
                        (if c.index < |levels| then levels[c.index].quantity - c.remaining else 0)
  {
    if c.index < |levels| && c.remaining < levels[c.index].quantity {
      DepthAppend(levels[..c.index], c.taken[c.index]);
    } else {
      assert c.taken == levels[..c.index];
    }
  }

  lemma ArrivedTaken(levels: seq<Level>, c: Cursor, target: int)
    requires At(levels, c) && c.filled <= target
    requires c.filled == target || c.index == |levels|
    ensures c.taken == Taken(levels, target)
  {
    FilledSplit(levels, c);
    var front, rest := levels[..c.index], levels[c.index..];
    TakenSplit(levels, c.index, target);
    if c.index < |levels| && c.remaining < levels[c.index].quantity {
      assert rest[0] == levels[c.index];
      assert Taken(rest[1..], target - Depth(front) - rest[0].quantity) == [];
    } else {
      assert c.taken == front;
    }
  }

  lemma TakeMore(levels: seq<Level>, c: Cursor, amount: int)
    requires At(levels, c) && c.index < |levels| && 0 < amount <= c.remaining
    ensures var l := levels[c.index];
            var longer := levels[..c.index] + [Level(l.price, l.quantity - c.remaining + amount)];
            && Value(longer) == c.cost + l.price * amount
            && Depth(longer) == c.filled + amount
            && (amount == c.remaining ==> longer == levels[..c.index + 1] && AllOk(longer))
  {
    FilledSplit(levels, c);
    var l, front := levels[c.index], levels[..c.index];
    var used := l.quantity - c.remaining;
    ValueAppend(front, Level(l.price, used + amount));
    DepthAppend(front, Level(l.price, used + amount));
    if used > 0 {
      ValueAppend(front, Level(l.price, used));
    } else {
      assert c.taken == front;
    }
    assert l.price * (used + amount) == l.price * used + l.price * amount;
  }

  lemma {:induction false} TakenLength(levels: seq<Level>, n: int)
    ensures |Taken(levels, n)| <= |levels|
  {
    if levels != [] && n > 0 {
      TakenLength(levels[1..], n - levels[0].quantity);
    }
  }

  lemma {:induction false} DepthAppend(levels: seq<Level>, l: Level)
    ensures Depth(levels + [l]) == Depth(levels) + l.quantity
  {
    if levels != [] {
      assert (levels + [l])[1..] == levels[1..] + [l];
      DepthAppend(levels[1..], l);
    }
  }

  lemma {:induction false} ValueAppend(levels: seq<Level>, l: Level)
    ensures Value(levels + [l]) == Value(levels) + l.price * l.quantity
  {
    if levels != [] {
      assert (levels + [l])[1..] == levels[1..] + [l];
      ValueAppend(levels[1..], l);
    }
  }

  lemma {:induction false} TakenSplit(levels: seq<Level>, index: nat, n: int)
    requires index <= |levels| && Stocked(levels[..index]) && Depth(levels[..index]) <= n
    ensures Taken(levels, n) == levels[..index] + Taken(levels[index..], n - Depth(levels[..index]))
  {
    if index == 0 {
      assert levels[0..] == levels;
    } else {
      var rest, q := levels[1..], levels[0].quantity;
      assert levels[..index][0] == levels[0];
      assert levels[..index][1..] == rest[..index - 1];
      assert levels[index..] == rest[index - 1..];
      assert Stocked(rest[..index - 1]) && Depth(levels[..index]) == q + Depth(rest[..index - 1]);
      DepthPositive(rest[..index - 1]);
      assert Taken(levels, n) == [levels[0]] + Taken(rest, n - q);
      hide Taken, Depth, Stocked;
      TakenSplit(rest, index - 1, n - q);
      PutBack(levels, index, Taken(rest[index - 1..], n - Depth(levels[..index])));
    }
  }

  lemma PutBack(levels: seq<Level>, index: nat, tail: seq<Level>)
    requires 0 < index <= |levels|
    ensures [levels[0]] + (levels[1..][..index - 1] + tail) == levels[..index] + tail
  {
    assert [levels[0]] + levels[1..][..index - 1] == levels[..index];
  }

  lemma {:induction false} TouchedSplit(levels: seq<Level>, index: nat, n: int)
    requires index <= |levels| && AllOk(levels[..index]) && Depth(levels[..index]) <= n
    ensures TouchedOk(levels, n) == TouchedOk(levels[index..], n - Depth(levels[..index]))
  {
    if index > 0 {
      assert levels[..index][1..] == levels[1..][..index - 1];
      assert levels[index..] == levels[1..][index - 1..];
      assert levels[..index][0] == levels[0];
      DepthPositive(levels[1..][..index - 1]);
      TouchedSplit(levels[1..], index - 1, n - levels[0].quantity);
    }
  }

  lemma {:induction false} DepthPositive(levels: seq<Level>)
    requires Stocked(levels)
    ensures Depth(levels) >= |levels|
  {
    if levels != [] {
      DepthPositive(levels[1..]);
    }
  }

  // ---- one traversal against separate walks -------------------------------------------------

  /** Every size of a joint walk gets exactly the fill a walk of that size alone returns. */
  lemma JointWalkIsSeparateWalks(levels: seq<Level>, sizes: seq<int>, i: nat)
    requires WalkOf(levels, sizes).Fills? && i < |sizes|
    ensures WalkOf(levels, [sizes[i]]) == Fills([WalkOf(levels, sizes).fills[i]])
  {
    TouchedMonotone(levels, sizes[i], sizes[|sizes| - 1]);
    var alone := seq(1, k requires 0 <= k < 1 => FillAt(levels, [sizes[i]][k]));
    assert alone == [FillAt(levels, sizes[i])];
  }

  /** A joint walk is refused exactly when the walk of its largest size alone is refused. */
  lemma JointWalkRefusal(levels: seq<Level>, sizes: seq<int>)
    requires SizesOk(sizes)
    ensures WalkOf(levels, sizes).ValueError? <==> WalkOf(levels, [sizes[|sizes| - 1]]).ValueError?
  {
  }

  lemma {:induction false} TouchedMonotone(levels: seq<Level>, m: int, n: int)
    requires m <= n && TouchedOk(levels, n)
    ensures TouchedOk(levels, m)
  {
    if levels != [] && levels[0].quantity <= m {
      TouchedMonotone(levels[1..], m - levels[0].quantity, n - levels[0].quantity);
    }
  }

  /** A walk fills the size asked for, or the whole ladder when that is less, and never takes more
      from a level than it displays. */
  lemma {:induction false} FillsWhatItCan(levels: seq<Level>, n: int)
    requires n >= 0 && TouchedOk(levels, n)
    ensures var f := FillAt(levels, n);
            && f.filledAtoms == (if f.depthLimited then Depth(levels) else n)
            && (f.depthLimited ==> Depth(levels) < n && AllOk(levels))
            && |f.taken| == |f.consumed|
            && forall i :: 0 <= i < |f.taken| ==>
                 && f.taken[i].price == f.consumed[i].price
                 && 0 < f.taken[i].quantity <= f.consumed[i].quantity
                 && (i + 1 < |f.taken| ==> f.taken[i] == f.consumed[i])
  {
    TakenLength(levels, n);
    if levels != [] && n > 0 {
      if levels[0].quantity <= n {
        FillsWhatItCan(levels[1..], n - levels[0].quantity);
        TakenLength(levels[1..], n - levels[0].quantity);
        var t, rest := Taken(levels, n), Taken(levels[1..], n - levels[0].quantity);
        assert t[1..] == rest;
        assert levels[1..][..|rest|] == levels[..|t|][1..];
        if Depth(t) < n {
          forall i | 0 <= i < |levels| ensures LevelOk(levels[i]) {
            if i > 0 { assert levels[i] == levels[1..][i - 1]; }
          }
        }
        forall i | 0 < i < |t|
          ensures t[i] == rest[i - 1] && levels[..|t|][i] == levels[1..][..|rest|][i - 1]
        {
        }
      } else {
        assert Taken(levels, n) == [Level(levels[0].price, n)];
        assert Depth(Taken(levels, n)) == n + Depth(Taken(levels, n)[1..]);
      }
    }
  }

  // ---- the price of one more atom -----------------------------------------------------------

  /** The price of atom number `k`, counting from 0 at the best level. */
  function PriceAt(levels: seq<Level>, k: int): int
    requires Stocked(levels) && 0 <= k < Depth(levels)
  {
    if k < levels[0].quantity then levels[0].price else PriceAt(levels[1..], k - levels[0].quantity)
  }

  predicate Rising(levels: seq<Level>) {
    forall i, j :: 0 <= i < j < |levels| ==> levels[i].price <= levels[j].price
  }

  predicate Falling(levels: seq<Level>) {
    forall i, j :: 0 <= i < j < |levels| ==> levels[i].price >= levels[j].price
  }

  lemma {:induction false} CostStep(levels: seq<Level>, n: int)
    requires Stocked(levels) && 0 <= n < Depth(levels)
    ensures Cost(levels, n + 1) == Cost(levels, n) + PriceAt(levels, n)
  {
    var p, q := levels[0].price, levels[0].quantity;
    if n < q {
      assert Taken(levels, n + 1) == [Level(p, n + 1)];
      if n > 0 { assert Taken(levels, n) == [Level(p, n)]; }
      assert p * (n + 1) == p * n + p;
    } else {
      CostStep(levels[1..], n - q);
      CostUnfold(levels, n);
      CostUnfold(levels, n + 1);
    }
  }

  lemma CostUnfold(levels: seq<Level>, n: int)
    requires levels != [] && 0 < levels[0].quantity <= n
    ensures Cost(levels, n) == levels[0].price * levels[0].quantity + Cost(levels[1..], n - levels[0].quantity)
  {
    assert Taken(levels, n)[1..] == Taken(levels[1..], n - levels[0].quantity);
  }

  lemma {:induction false} PriceAtLeast(levels: seq<Level>, k: int, p: int)
    requires Stocked(levels) && 0 <= k < Depth(levels)
    requires forall i :: 0 <= i < |levels| ==> p <= levels[i].price
    ensures p <= PriceAt(levels, k)
  {
    if k >= levels[0].quantity {
      PriceAtLeast(levels[1..], k - levels[0].quantity, p);
    }
  }

  lemma {:induction false} PricesRise(levels: seq<Level>, j: int, k: int)
    requires Stocked(levels) && Rising(levels) && 0 <= j <= k < Depth(levels)
    ensures PriceAt(levels, j) <= PriceAt(levels, k)
  {
    var q := levels[0].quantity;
    if j >= q {
      PricesRise(levels[1..], j - q, k - q);
    } else if k >= q {
      PriceAtLeast(levels[1..], k - q, levels[0].price);
    }
  }

  /** The same atoms with every price negated: a sold ladder seen as a bought one. */
  function Negated(levels: seq<Level>): (r: seq<Level>)
    ensures |r| == |levels|
    ensures forall i :: 0 <= i < |r| ==> r[i] == Level(-levels[i].price, levels[i].quantity)
  {
    seq(|levels|, i requires 0 <= i < |levels| => Level(-levels[i].price, levels[i].quantity))
  }

  lemma {:induction false} NegatedCost(levels: seq<Level>, n: int)
    ensures Cost(Negated(levels), n) == -Cost(levels, n)
    ensures Depth(Negated(levels)) == Depth(levels)
  {
    if levels != [] {
      NegatedHead(levels);
      NegatedDepth(levels);
      if n > 0 {
        CostFirst(levels, n);
        CostFirst(Negated(levels), n);
        hide Negated, Cost, Depth;
        NegatedCost(levels[1..], n - levels[0].quantity);
        TimesNegated(levels[0].price, Min(n, levels[0].quantity));
      }
    }
  }

  lemma CostFirst(levels: seq<Level>, n: int)
    requires levels != [] && n > 0
    ensures var q := levels[0].quantity;
            Cost(levels, n) == levels[0].price * Min(n, q) + Cost(levels[1..], n - q)
  {
    assert Taken(levels, n)[1..] == Taken(levels[1..], n - levels[0].quantity);
  }

  lemma NegatedHead(levels: seq<Level>)
    requires levels != []
    ensures Negated(levels) != [] && Negated(levels)[0] == Level(-levels[0].price, levels[0].quantity)
    ensures Negated(levels)[1..] == Negated(levels[1..])
  {
  }

  lemma {:induction false} NegatedDepth(levels: seq<Level>)
    ensures Depth(Negated(levels)) == Depth(levels)
  {
    if levels != [] {
      NegatedHead(levels);
      hide Negated;
      NegatedDepth(levels[1..]);
    } else {
      assert Negated(levels) == [];
    }
  }

  lemma TimesNegated(a: int, b: int)
    ensures (-a) * b == -(a * b)
  {
  }

  // ---- the walk is the best choice of atoms -------------------------------------------------

  /** `c[i]` atoms of level `i`, `n` in all. */
  predicate IsChoice(levels: seq<Level>, c: seq<int>, n: int) {
    && |c| == |levels|
    && (forall i :: 0 <= i < |c| ==> 0 <= c[i] <= levels[i].quantity)
    && Sum(c) == n
  }

  function Sum(c: seq<int>): int {
    if c == [] then 0 else c[0] + Sum(c[1..])
  }

  function ChoiceCost(levels: seq<Level>, c: seq<int>): int
    requires |c| == |levels|
  {
    if c == [] then 0 else levels[0].price * c[0] + ChoiceCost(levels[1..], c[1..])
  }

  lemma {:induction false} ChoiceFits(levels: seq<Level>, c: seq<int>, n: int)
    requires Stocked(levels) && IsChoice(levels, c, n)
    ensures 0 <= n <= Depth(levels)
  {
    if c != [] {
      ChoiceFits(levels[1..], c[1..], n - c[0]);
    }
  }

  lemma {:induction false} CostGrows(levels: seq<Level>, n: int, k: int, p: int)
    requires Stocked(levels) && 0 <= n && 0 <= k && n + k <= Depth(levels)
    requires forall i :: 0 <= i < |levels| ==> p <= levels[i].price
    ensures Cost(levels, n + k) >= Cost(levels, n) + p * k
    decreases k
  {
    if k > 0 {
      CostGrows(levels, n, k - 1, p);
      CostStep(levels, n + k - 1);
      PriceAtLeast(levels, n + k - 1, p);
      assert p * k == p * (k - 1) + p;
    }
  }

  lemma CostHead(levels: seq<Level>, n: int)
    requires levels != [] && levels[0].quantity > 0 && n >= 0
    ensures var a := Min(n, levels[0].quantity);
            Cost(levels, n) == levels[0].price * a + Cost(levels[1..], n - a)
  {
    if n > 0 {
      assert Taken(levels, n)[1..] == Taken(levels[1..], n - levels[0].quantity);
    }
  }

  /** On a rising ladder no choice of the same number of atoms costs less than the walk. */
  lemma {:induction false} WalkIsCheapest(levels: seq<Level>, c: seq<int>, n: int)
    requires Stocked(levels) && Rising(levels) && IsChoice(levels, c, n)
    ensures Cost(levels, n) <= ChoiceCost(levels, c)
  {
    if c != [] {
      ChoiceFits(levels, c, n);
      ChoiceFits(levels[1..], c[1..], n - c[0]);
      WalkIsCheapest(levels[1..], c[1..], n - c[0]);
      CheapestHeadFirst(levels, c[0], n);
    }
  }

  lemma CheapestHeadFirst(levels: seq<Level>, k: int, n: int)
    requires levels != [] && Stocked(levels) && Rising(levels)
    requires 0 <= k <= levels[0].quantity && k <= n && n - k <= Depth(levels[1..])
    ensures Cost(levels, n) <= levels[0].price * k + Cost(levels[1..], n - k)
  {
    var p, a := levels[0].price, Min(n, levels[0].quantity);
    CostHead(levels, n);
    CostGrows(levels[1..], n - a, a - k, p);
    assert p * a == p * k + p * (a - k);
  }

  /** On a falling ladder no choice of the same number of atoms earns more than the walk. */
  lemma WalkIsDearest(levels: seq<Level>, c: seq<int>, n: int)
    requires Stocked(levels) && Falling(levels) && IsChoice(levels, c, n)
    ensures Cost(levels, n) >= ChoiceCost(levels, c)
  {
    NegatedCost(levels, n);
    NegatedChoice(levels, c);
    WalkIsCheapest(Negated(levels), c, n);
  }

  lemma {:induction false} NegatedChoice(levels: seq<Level>, c: seq<int>)
    requires |c| == |levels|
    ensures ChoiceCost(Negated(levels), c) == -ChoiceCost(levels, c)
  {
    if c != [] {
      assert Negated(levels)[1..] == Negated(levels[1..]);
      NegatedChoice(levels[1..], c[1..]);
      assert (-levels[0].price) * c[0] == -(levels[0].price * c[0]);
    }
  }

  /** What the walk takes is itself such a choice, so the bounds above are attained. */
  lemma {:induction false} WalkIsAChoice(levels: seq<Level>, n: int) returns (c: seq<int>)
    requires Stocked(levels) && 0 <= n <= Depth(levels)
    ensures IsChoice(levels, c, n) && ChoiceCost(levels, c) == Cost(levels, n)
  {
    if levels == [] {
      c := [];
    } else {
      var a := Min(n, levels[0].quantity);
      DepthPositive(levels[1..]);
      var tail := WalkIsAChoice(levels[1..], n - a);
      c := [a] + tail;
      assert c[1..] == tail;
      CostHead(levels, n);
    }
  }

  /** Cost is convex in the size on a rising ladder and concave on a falling one, for any three
      sizes `a`, `a + u` and `b`, `b + u`. */
  lemma CostIsConvex(levels: seq<Level>, a: int, b: int, u: int)
    requires Stocked(levels) && 0 <= a <= b && 0 <= u && b + u <= Depth(levels)
    ensures Rising(levels) ==> Increment(levels, a, u) <= Increment(levels, b, u)
    ensures Falling(levels) ==> Increment(levels, a, u) >= Increment(levels, b, u)
  {
    if Rising(levels) {
      RisingIncrements(levels, a, b, u);
    }
    if Falling(levels) {
      var up := Negated(levels);
      NegatedCost(levels, a);
      NegatedCost(levels, b);
      NegatedCost(levels, a + u);
      NegatedCost(levels, b + u);
      RisingIncrements(up, a, b, u);
    }
  }

  lemma RisingIncrements(levels: seq<Level>, a: int, b: int, u: int)
    requires Stocked(levels) && Rising(levels) && 0 <= a <= b && 0 <= u && b + u <= Depth(levels)
    ensures Increment(levels, a, u) <= Increment(levels, b, u)
  {
    forall k | a <= k < a + u ensures PriceAt(levels, k) <= PriceAt(levels, k + (b - a)) {
      PricesRise(levels, k, k + (b - a));
    }
    IncrementOrder(levels, a, b, u);
  }

  /** What `u` more atoms cost after `a`. */
  function Increment(levels: seq<Level>, a: int, u: int): int {
    Cost(levels, a + u) - Cost(levels, a)
  }

  lemma {:induction false} IncrementOrder(levels: seq<Level>, a: int, b: int, u: int)
    requires Stocked(levels) && 0 <= a && 0 <= b && 0 <= u
    requires a + u <= Depth(levels) && b + u <= Depth(levels)
    requires forall k :: a <= k < a + u ==> PriceAt(levels, k) <= PriceAt(levels, k + (b - a))
    ensures Increment(levels, a, u) <= Increment(levels, b, u)
    decreases u
  {
    if u > 0 {
      IncrementOrder(levels, a, b, u - 1);
      CostStep(levels, a + u - 1);
      CostStep(levels, b + u - 1);
      assert a + u - 1 + (b - a) == b + u - 1;
    }
  }

  /** Two neighbouring atoms have one price unless a level ends between them. */
  lemma {:induction false} SamePriceInside(levels: seq<Level>, k: int)
    requires Stocked(levels) && 0 <= k && k + 1 < Depth(levels)
    requires forall j :: 0 <= j <= |levels| ==> Depth(levels[..j]) != k + 1
    ensures PriceAt(levels, k) == PriceAt(levels, k + 1)
  {
    var q, rest := levels[0].quantity, levels[1..];
    assert levels[..1] == [levels[0]];
    if k >= q {
      forall j | 0 <= j <= |rest| ensures Depth(rest[..j]) != k - q + 1 {
        assert levels[..j + 1][1..] == rest[..j];
        assert Depth(levels[..j + 1]) != k + 1;
      }
      SamePriceInside(rest, k - q);
    } else {
      assert k + 1 != q by { assert Depth(levels[..1]) == q; }
    }
  }

  // ---- what is left after a fill ------------------------------------------------------------

  /** The levels left once the first `n` atoms are gone. */
  function Left(levels: seq<Level>, n: int): seq<Level> {
    if levels == [] || n <= 0 then levels
    else if levels[0].quantity <= n then Left(levels[1..], n - levels[0].quantity)
    else [Level(levels[0].price, levels[0].quantity - n)] + levels[1..]
  }

  /** Walking on from a fill costs what walking the levels it left costs. */
  lemma {:induction false} CostAfter(levels: seq<Level>, n: int, m: int)
    requires Stocked(levels) && 0 <= n && 0 <= m
    ensures Cost(levels, n + m) == Cost(levels, n) + Cost(Left(levels, n), m)
  {
    if levels != [] && 0 < n && 0 < m {
      var p, q, rest := levels[0].price, levels[0].quantity, levels[1..];
      CostHead(levels, n + m);
      CostHead(levels, n);
      LeftHead(levels, n);
      hide Cost, Left;
      if q <= n {
        CostAfter(rest, n - q, m);
      } else {
        assert ([Level(p, q - n)] + rest)[1..] == rest;
        CostHead([Level(p, q - n)] + rest, m);
        TimesSum(p, n, Min(m, q - n));
      }
    }
  }

  lemma TimesSum(p: int, a: int, b: int)
    ensures p * (a + b) == p * a + p * b
  {
  }

  lemma LeftHead(levels: seq<Level>, n: int)
    requires levels != [] && 0 < n
    ensures var q, rest := levels[0].quantity, levels[1..];
            Left(levels, n) == if q <= n then Left(rest, n - q) else [Level(levels[0].price, q - n)] + rest
  {
  }

  /** A walk that fits into the first `k` levels sees nothing behind them. */
  lemma {:induction false} PrefixTaken(levels: seq<Level>, k: nat, n: int)
    requires k <= |levels| && Stocked(levels[..k]) && n <= Depth(levels[..k])
    ensures Taken(levels, n) == Taken(levels[..k], n)
  {
    if k > 0 && n > 0 {
      assert levels[..k][0] == levels[0] && levels[..k][1..] == levels[1..][..k - 1];
      PrefixTaken(levels[1..], k - 1, n - levels[0].quantity);
    }
  }
}
