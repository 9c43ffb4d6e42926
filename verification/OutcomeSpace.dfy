/** The outcome space of a best-of series: map-winner sequences that stop when a side clinches. */
module OutcomeSpace {
  import opened Options

  datatype Side = H | A
  type Word = seq<Side>

  function Wins(w: Word, side: Side): nat {
    if w == [] then 0 else (if w[0] == side then 1 else 0) + Wins(w[1..], side)
  }

  function Target(bestOf: int): int {
    bestOf / 2 + 1
  }

  /** What the recursive walk appends, home before away. */
  function Finishes(prefix: Word, home: nat, away: nat, target: nat): (r: seq<Word>)
    requires home <= target && away <= target
    decreases 2 * target - home - away
  {
    if home == target || away == target then [prefix]
    else Finishes(prefix + [H], home + 1, away, target) + Finishes(prefix + [A], home, away + 1, target)
  }

  /** Lexicographic order of the letters, A before H. */
  predicate Before(x: Word, y: Word) {
    y != [] && (x == [] || (x[0] == A && y[0] == H) || (x[0] == y[0] && Before(x[1..], y[1..])))
  }

  /** Words that agree up to position `k` and there tell the two sides apart. */
  predicate PartAt(x: Word, y: Word, k: int) {
    0 <= k < |x| && k < |y| && x[..k] == y[..k] && x[k] == A && y[k] == H
  }

  /** The order of the words is that of the letters: a beginning comes before the whole, and where two words
      part, the one that goes on with A comes first. */
  lemma {:induction false} BeforeExactly(x: Word, y: Word)
    ensures Before(x, y) <==> x < y || exists k :: PartAt(x, y, k)
  {
    if x != [] && y != [] && x[0] == y[0] {
      BeforeExactly(x[1..], y[1..]);
      assert x < y <==> x[1..] < y[1..];
      if k :| PartAt(x[1..], y[1..], k) {
        assert x[..k + 1] == [x[0]] + x[1..][..k] && y[..k + 1] == [y[0]] + y[1..][..k];
        assert PartAt(x, y, k + 1);
      }
      if k :| PartAt(x, y, k) {
        assert x[1..][..k - 1] == x[..k][1..] && y[1..][..k - 1] == y[..k][1..];
        assert PartAt(x[1..], y[1..], k - 1);
      }
    } else if x != [] && y != [] {
      assert PartAt(x, y, 0) <==> x[0] == A && y[0] == H;
      assert forall k :: PartAt(x, y, k) ==> k == 0 || x[..k][0] == y[..k][0];
    }
  }

  predicate Ascending(words: seq<Word>) {
    forall i, j :: 0 <= i < j < |words| ==> Before(words[i], words[j])
  }

  /** A side holds the target number of wins, and neither did any earlier. */
  predicate Clinches(w: Word, target: nat) {
    && (Wins(w, H) == target || Wins(w, A) == target)
    && forall k :: 0 <= k < |w| ==> Undecided(w[..k], target)
  }

  predicate Undecided(w: Word, target: nat) {
    Wins(w, H) < target && Wins(w, A) < target
  }

  // ---- the enumeration ----------------------------------------------------------------------

  method Walk(results: seq<Word>, prefix: Word, home: nat, away: nat, target: nat) returns (r: seq<Word>)
    requires home <= target && away <= target
    ensures r == results + Finishes(prefix, home, away, target)
    decreases 2 * target - home - away
  {
    if home == target || away == target {
      return results + [prefix];
    }
    r := Walk(results, prefix + [H], home + 1, away, target);
    r := Walk(r, prefix + [A], home, away + 1, target);
  }

  /** Puts a word where it belongs in an ascending list. */
  method Insert(words: seq<Word>, x: Word) returns (r: seq<Word>)
    requires Ascending(words) && x !in words
    ensures Ascending(r) && multiset(r) == multiset(words) + multiset{x}
  {
    var k := 0;
    while k < |words| && Before(words[k], x)
      invariant k <= |words|
      invariant forall i :: 0 <= i < k ==> Before(words[i], x)
    {
      k := k + 1;
    }
    r := words[..k] + [x] + words[k..];
    forall i | k <= i < |words| ensures Before(x, words[i]) {
      if !Before(words[k], x) {
        BeforeIsTotal(x, words[k]);
        if k < i { BeforeIsTransitive(x, words[k], words[i]); }
      }
    }
    assert words == words[..k] + words[k..];
  }

  /** The sequences of a series, or nothing for an even or non-positive format. */
  method SeriesSequences(bestOf: int) returns (r: Option<seq<Word>>)
    ensures r.None? <==> bestOf < 1 || bestOf % 2 == 0
    ensures r.Some? ==> Ascending(r.value) && multiset(r.value) == multiset(Finishes([], 0, 0, Target(bestOf)))
  {
    if bestOf < 1 || bestOf % 2 == 0 {
      return None;
    }
    var results := Walk([], [], 0, 0, Target(bestOf));
    assert [] + results == results;
    var sorted: seq<Word> := [];
    for i := 0 to |results|
      invariant Ascending(sorted) && multiset(sorted) == multiset(results[..i])
    {
      NoneTwice(Target(bestOf), i);
      NewAmong(results, i, sorted);
      hide Ascending;
      sorted := Insert(sorted, results[i]);
    }
    assert results[..|results|] == results;
    r := Some(sorted);
  }

  lemma NewAmong(results: seq<Word>, i: nat, sorted: seq<Word>)
    requires i < |results| && results[i] !in results[..i] && multiset(sorted) == multiset(results[..i])
    ensures results[i] !in sorted
    ensures multiset(results[..i + 1]) == multiset(sorted) + multiset{results[i]}
  {
    assert results[i] !in multiset(sorted);
    assert results[..i + 1] == results[..i] + [results[i]];
  }

  lemma {:induction false} BeforeIsTotal(x: Word, y: Word)
    ensures x == y || Before(x, y) || Before(y, x)
  {
    if x != [] && y != [] && x[0] == y[0] {
      BeforeIsTotal(x[1..], y[1..]);
      assert x == [x[0]] + x[1..] && y == [y[0]] + y[1..];
    }
  }

  lemma {:induction false} BeforeIsTransitive(x: Word, y: Word, z: Word)
    requires Before(x, y) && Before(y, z)
    ensures Before(x, z)
  {
    if x != [] && x[0] == y[0] == z[0] {
      BeforeIsTransitive(x[1..], y[1..], z[1..]);
    }
  }

  // ---- exhaustive and exact -----------------------------------------------------------------

  lemma {:induction false} WinsAppend(w: Word, s: Side, side: Side)
    ensures Wins(w + [s], side) == Wins(w, side) + if s == side then 1 else 0
  {
    if w == [] {
      assert w + [s] == [s];
    } else {
      assert (w + [s])[1..] == w[1..] + [s];
      WinsAppend(w[1..], s, side);
    }
  }

  lemma {:induction false} WinsSum(w: Word)
    ensures Wins(w, H) + Wins(w, A) == |w|
  {
    if w != [] {
      WinsSum(w[1..]);
    }
  }

  lemma {:induction false} FinishesExtend(prefix: Word, home: nat, away: nat, target: nat, s: Word)
    requires home <= target && away <= target && s in Finishes(prefix, home, away, target)
    ensures prefix <= s
    decreases 2 * target - home - away
  {
    if home < target && away < target {
      if s in Finishes(prefix + [H], home + 1, away, target) {
        FinishesExtend(prefix + [H], home + 1, away, target, s);
      } else {
        FinishesExtend(prefix + [A], home, away + 1, target, s);
      }
    }
  }

  /** Exactly one position holds a prefix of `w`. */
  ghost predicate OnePrefix(words: seq<Word>, w: Word) {
    exists i :: OnlyPrefix(words, w, i)
  }

  ghost predicate OnlyPrefix(words: seq<Word>, w: Word, i: int) {
    0 <= i < |words| && words[i] <= w && forall j :: 0 <= j < |words| && words[j] <= w ==> j == i
  }

  lemma {:induction false} OwnerOf(prefix: Word, home: nat, away: nat, target: nat, w: Word) returns (i: nat)
    requires home <= target && away <= target && Wins(prefix, H) == home && Wins(prefix, A) == away
    requires prefix <= w && 2 * target <= |w| + 1
    ensures OnlyPrefix(Finishes(prefix, home, away, target), w, i)
    decreases 2 * target - home - away
  {
    if home == target || away == target {
      i := 0;
    } else {
      WinsSum(prefix);
      var next := w[|prefix|];
      WinsAppend(prefix, next, H);
      WinsAppend(prefix, next, A);
      assert prefix + [next] <= w;
      var left, right :=
        Finishes(prefix + [H], home + 1, away, target), Finishes(prefix + [A], home, away + 1, target);
      assert Finishes(prefix, home, away, target) == left + right;
      hide Finishes, OnlyPrefix;
      forall j | 0 <= j < |left| && left[j] <= w ensures next == H {
        FinishesExtend(prefix + [H], home + 1, away, target, left[j]);
      }
      forall j | 0 <= j < |right| && right[j] <= w ensures next == A {
        FinishesExtend(prefix + [A], home, away + 1, target, right[j]);
      }
      if next == H {
        i := OwnerOf(prefix + [H], home + 1, away, target, w);
        OnlyOnTheLeft(left, right, w, i);
      } else {
        var k := OwnerOf(prefix + [A], home, away + 1, target, w);
        OnlyOnTheRight(left, right, w, k);
        i := |left| + k;
      }
    }
  }

  lemma OnlyOnTheLeft(left: seq<Word>, right: seq<Word>, w: Word, i: nat)
    requires OnlyPrefix(left, w, i) && forall j :: 0 <= j < |right| ==> !(right[j] <= w)
    ensures OnlyPrefix(left + right, w, i)
  {
  }

  lemma OnlyOnTheRight(left: seq<Word>, right: seq<Word>, w: Word, k: nat)
    requires OnlyPrefix(right, w, k) && forall j :: 0 <= j < |left| ==> !(left[j] <= w)
    ensures OnlyPrefix(left + right, w, |left| + k)
  {
  }

  /** Every word of `bestOf` letters has exactly one member as a prefix. */
  lemma EveryWordFinishesOnce(bestOf: int, w: Word)
    requires bestOf >= 1 && bestOf % 2 == 1 && |w| == bestOf
    ensures OnePrefix(Finishes([], 0, 0, Target(bestOf)), w)
  {
    var i := OwnerOf([], 0, 0, Target(bestOf), w);
  }

  function Padded(w: Word, n: nat): Word
    ensures w <= Padded(w, n) && |Padded(w, n)| >= n
  {
    w + seq(n, i => H)
  }

  /** No member is a prefix of another, so no member is listed twice. */
  lemma PrefixFree(target: nat, i: nat, j: nat)
    requires i < |Finishes([], 0, 0, target)| && j < |Finishes([], 0, 0, target)|
    requires Finishes([], 0, 0, target)[i] <= Finishes([], 0, 0, target)[j]
    ensures i == j
  {
    var words := Finishes([], 0, 0, target);
    var w := Padded(words[j], 2 * target);
    var k := OwnerOf([], 0, 0, target, w);
    assert words[i] <= w && words[j] <= w;
  }

  lemma NoneTwice(target: nat, i: nat)
    requires i < |Finishes([], 0, 0, target)|
    ensures Finishes([], 0, 0, target)[i] !in Finishes([], 0, 0, target)[..i]
  {
    var words := Finishes([], 0, 0, target);
    forall j | 0 <= j < i ensures words[j] != words[i] {
      if words[j] == words[i] { PrefixFree(target, j, i); }
    }
  }

  lemma LongerBy(p: Word, s: Word)
    requires p <= s && p != s
    ensures |p| < |s| && s[..|p|] == p && p + [s[|p|]] <= s
    ensures p + [H] <= s || p + [A] <= s
  {
    assert |p| == |s| ==> p == s;
    match s[|p|] { case H => case A => }
  }

  /** The members are exactly the words at whose end a side clinches. */
  lemma {:induction false} MembersClinch(prefix: Word, home: nat, away: nat, target: nat, s: Word)
    requires home <= target && away <= target && Wins(prefix, H) == home && Wins(prefix, A) == away
    requires forall k :: 0 <= k < |prefix| ==> Undecided(prefix[..k], target)
    ensures s in Finishes(prefix, home, away, target) <==> prefix <= s && Clinches(s, target)
    decreases 2 * target - home - away
  {
    if home == target || away == target {
      if prefix <= s && s != prefix {
        LongerBy(prefix, s);
      }
    } else {
      var h, a := prefix + [H], prefix + [A];
      WinsAppend(prefix, H, H);
      WinsAppend(prefix, H, A);
      WinsAppend(prefix, A, H);
      WinsAppend(prefix, A, A);
      forall k | 0 <= k < |h| ensures Undecided(h[..k], target) && Undecided(a[..k], target) {
        assert h[..k] == a[..k] == prefix[..k];
        if k == |prefix| { assert prefix[..k] == prefix; }
      }
      MembersClinch(h, home + 1, away, target, s);
      MembersClinch(a, home, away + 1, target, s);
      if prefix <= s && Clinches(s, target) {
        LongerBy(prefix, s);
      }
    }
  }

  // ---- how many there are -------------------------------------------------------------------

  function Factorial(n: nat): nat {
    if n == 0 then 1 else n * Factorial(n - 1)
  }

  /** Walks from here to a clinch, when the sides still need `i` and `j` wins. */
  function Paths(i: nat, j: nat): nat {
    if i == 0 || j == 0 then 1 else Paths(i - 1, j) + Paths(i, j - 1)
  }

  lemma {:induction false} PathsAreBinomial(i: nat, j: nat)
    ensures Paths(i, j) * (Factorial(i) * Factorial(j)) == Factorial(i + j)
  {
    if i > 0 && j > 0 {
      PathsAreBinomial(i - 1, j);
      PathsAreBinomial(i, j - 1);
      var p, q, f, g := Paths(i - 1, j), Paths(i, j - 1), Factorial(i - 1), Factorial(j - 1);
      var all := Factorial(i + j - 1);
      assert Factorial(i) == i * f && Factorial(j) == j * g && Factorial(i + j) == (i + j) * all;
      assert Paths(i, j) == p + q;
      hide Paths, Factorial;
      assert p * (f * (j * g)) == all && q * ((i * f) * g) == all;
      SumOfProducts(p, q, f, g, i, j, all);
    }
  }

  lemma SumOfProducts(p: int, q: int, f: int, g: int, i: int, j: int, all: int)
    requires p * (f * (j * g)) == all && q * ((i * f) * g) == all
    ensures (p + q) * ((i * f) * (j * g)) == (i + j) * all
  {
    var m := (i * f) * (j * g);
    assert (p + q) * m == p * m + q * m;
    Regroup(p, i, f, j * g);
    assert m == (i * f) * (g * j) == ((i * f) * g) * j;
    Regroup(q, j, (i * f) * g, 1);
  }

  lemma Regroup(p: int, i: int, f: int, h: int)
    ensures p * ((i * f) * h) == i * (p * (f * h))
  {
    assert (i * f) * h == i * (f * h);
  }

  lemma {:induction false} FinishesCount(prefix: Word, home: nat, away: nat, target: nat)
    requires home <= target && away <= target
    ensures |Finishes(prefix, home, away, target)| == Paths(target - home, target - away)
    decreases 2 * target - home - away
  {
    if home < target && away < target {
      FinishesCount(prefix + [H], home + 1, away, target);
      FinishesCount(prefix + [A], home, away + 1, target);
    }
  }

  /** The number of sequences is the binomial of `bestOf + 1` over half of it. */
  lemma CountIsBinomial(bestOf: int)
    requires bestOf >= 1 && bestOf % 2 == 1
    ensures var n, half := |Finishes([], 0, 0, Target(bestOf))|, (bestOf + 1) / 2;
            n * (Factorial(half) * Factorial(half)) == Factorial(bestOf + 1)
  {
    FinishesCount([], 0, 0, Target(bestOf));
    PathsAreBinomial(Target(bestOf), Target(bestOf));
  }

  // ---- the space and what stays reachable ---------------------------------------------------

  datatype Scope = Regulation | Series

  datatype Outcome = Outcome(
    sequence: Word, homeWins: nat, awayWins: nat, mapsPlayed: nat, winner: Side, margin: nat)

  function OutcomeOf(w: Word): (o: Outcome) {
    var h, a := Wins(w, H), Wins(w, A);
    Outcome(w, h, a, |w|, if h > a then H else A, if h > a then h - a else a - h)
  }

  method BuildSeriesSpace(bestOf: int) returns (r: Option<seq<Outcome>>)
    ensures r.None? <==> bestOf < 1 || bestOf % 2 == 0
    ensures r.Some? ==>
              && (forall k :: 0 <= k < |r.value| ==> r.value[k] == OutcomeOf(r.value[k].sequence))
              && (forall w :: (exists k :: 0 <= k < |r.value| && r.value[k].sequence == w) <==>
                    Clinches(w, Target(bestOf)))
              && forall i, j :: 0 <= i < j < |r.value| ==> Before(r.value[i].sequence, r.value[j].sequence)
  {
    var sequences := SeriesSequences(bestOf);
    if sequences.None? {
      return None;
    }
    var words, outcomes := sequences.value, [];
    for i := 0 to |words|
      invariant |outcomes| == i
      invariant forall k :: 0 <= k < i ==> outcomes[k] == OutcomeOf(words[k])
    {
      outcomes := outcomes + [OutcomeOf(words[i])];
    }
    r := Some(outcomes);
    forall w ensures (exists k :: 0 <= k < |outcomes| && outcomes[k].sequence == w) <==>
                     Clinches(w, Target(bestOf)) {
      MembersClinch([], 0, 0, Target(bestOf), w);
      assert w in words <==> w in multiset(words);
      assert w in Finishes([], 0, 0, Target(bestOf)) <==> w in multiset(Finishes([], 0, 0, Target(bestOf)));
      if w in words {
        var k :| 0 <= k < |words| && words[k] == w;
        assert outcomes[k].sequence == w;
      }
    }
  }

  /** Each side's wins are its letters. */
  lemma {:induction false} WinsAreLetters(w: Word, side: Side)
    ensures Wins(w, side) == multiset(w)[side]
  {
    if w != [] {
      assert w == [w[0]] + w[1..];
      WinsAreLetters(w[1..], side);
    }
  }

  /** Every recorded outcome counts the letters of its sequence, home and away. */
  lemma OutcomesCountLetters(w: Word)
    ensures var o := OutcomeOf(w);
            && o.homeWins == multiset(w)[H] && o.awayWins == multiset(w)[A] && o.mapsPlayed == |w|
            && o.homeWins + o.awayWins == o.mapsPlayed
  {
    WinsAreLetters(w, H);
    WinsAreLetters(w, A);
    WinsSum(w);
  }

  /** The recorded winner is the side that clinched, and the margin and length follow from the loser. */
  lemma OutcomesAreConsistent(w: Word, target: nat)
    requires Clinches(w, target) && target > 0
    ensures var o := OutcomeOf(w);
            && Wins(w, o.winner) == target
            && o.mapsPlayed == 2 * target - o.margin && 1 <= o.margin <= target
            && w[|w| - 1] == o.winner
  {
    var last := |w| - 1;
    assert w != [];
    assert w == w[..last] + [w[last]];
    assert Undecided(w[..last], target);
    hide Wins;
    WinsAppend(w[..last], w[last], H);
    WinsAppend(w[..last], w[last], A);
    WinsSum(w);
  }

  /** The keys that begin with what was played; only a series has prefixes. */
  function ReachableKeys(keys: set<Word>, scope: Scope, prefix: Word): set<Word> {
    if scope != Series || prefix == [] then keys else set s | s in keys && prefix <= s
  }

  ghost predicate IsSeriesSpace(keys: set<Word>, target: nat) {
    forall s :: s in keys <==> Clinches(s, target)
  }

  /** Playing one more map of an undecided series splits what is reachable in two: nothing is lost,
      nothing is shared, and both halves hold something. */
  lemma ReachableSplits(keys: set<Word>, target: nat, p: Word)
    requires IsSeriesSpace(keys, target)
    requires forall k :: 0 <= k <= |p| ==> Undecided(p[..k], target)
    ensures var all, home, away :=
              ReachableKeys(keys, Series, p), ReachableKeys(keys, Series, p + [H]),
              ReachableKeys(keys, Series, p + [A]);
            all == home + away && home !! away && home != {} && away != {}
  {
    assert p[..|p|] == p;
    forall s | s in keys && p <= s ensures p + [H] <= s || p + [A] <= s {
      LongerBy(p, s);
    }
    forall s | s in ReachableKeys(keys, Series, p + [H]) ensures s !in ReachableKeys(keys, Series, p + [A]) {
      assert s[|p|] == H;
    }
    StillReachable(keys, target, p, H);
    StillReachable(keys, target, p, A);
  }

  lemma StillReachable(keys: set<Word>, target: nat, p: Word, side: Side)
    requires IsSeriesSpace(keys, target)
    requires forall k :: 0 <= k <= |p| ==> Undecided(p[..k], target)
    ensures exists s :: s in ReachableKeys(keys, Series, p + [side])
  {
    assert p[..|p|] == p;
    var q := p + [side];
    WinsAppend(p, side, H);
    WinsAppend(p, side, A);
    forall k | 0 <= k < |q| ensures Undecided(q[..k], target) {
      assert q[..k] == p[..k];
    }
    var s := SomeFinish(q, target);
    assert s in ReachableKeys(keys, Series, q);
  }

  lemma {:induction false} SomeFinish(p: Word, target: nat) returns (s: Word)
    requires Wins(p, H) <= target && Wins(p, A) <= target
    requires forall k :: 0 <= k < |p| ==> Undecided(p[..k], target)
    ensures p <= s && Clinches(s, target)
    decreases target - Wins(p, H)
  {
    if Wins(p, H) == target || Wins(p, A) == target {
      s := p;
    } else {
      var q := p + [H];
      WinsAppend(p, H, H);
      WinsAppend(p, H, A);
      forall k | 0 <= k < |q| ensures Undecided(q[..k], target) {
        if k < |p| { assert q[..k] == p[..k]; } else { assert q[..k] == p; }
      }
      s := SomeFinish(q, target);
    }
  }

  /** Once a sequence is finished it is the only key left, and nothing continues it. */
  lemma FinishedLeavesOne(keys: set<Word>, target: nat, p: Word)
    requires IsSeriesSpace(keys, target) && target > 0 && Clinches(p, target)
    ensures ReachableKeys(keys, Series, p) == {p}
    ensures forall side :: ReachableKeys(keys, Series, p + [side]) == {}
  {
    assert p != [];
    forall s | s in keys && p <= s ensures s == p {
      NothingFollows(p, s, target);
    }
    forall side, s | s in keys ensures !(p + [side] <= s) {
      NothingFollows(p, s, target);
    }
  }

  lemma NothingFollows(p: Word, s: Word, target: nat)
    requires Clinches(p, target) && Clinches(s, target)
    ensures p <= s ==> s == p
    ensures forall side :: !(p + [side] <= s)
  {
    if p <= s && s != p {
      LongerBy(p, s);
    }
    forall side ensures !(p + [side] <= s) {
      if p <= s { assert s == p; } else { assert p <= p + [side]; }
    }
  }
}
