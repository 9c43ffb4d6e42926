/** Masks of series markets, from the point where a market's side, line and map index are known, and how
    their relations move as maps are played. */
module SeriesMasks {
  import opened Options
  import opened OutcomeSpace
  import opened Masks

  /** What a series market asks. A handicap names the favoured side and, per token, the side asked about. */
  datatype Question =
    | SeriesMoneyline(side: Side)
    | MapWinner(index: int, side: Side)
    | TotalMaps(under: bool, line: real)
    | MapHandicap(favoured: Side, line: real, asked: Option<Side>)

  function Other(side: Side): Side {
    if side == H then A else H
  }

  /** Indexing as the source's language does it: a negative position counts from the end. */
  function LetterAt(w: Word, position: int): Option<Side> {
    if 0 <= position < |w| then Some(w[position])
    else if position < 0 <= |w| + position then Some(w[|w| + position])
    else None
  }

  function Lead(w: Word, side: Side): int {
    Wins(w, side) - Wins(w, Other(side))
  }

  predicate Yes(q: Question, w: Word) {
    match q
    case SeriesMoneyline(side) => OutcomeOf(w).winner == side
    case MapWinner(index, side) => LetterAt(w, index - 1) == Some(side)
    case TotalMaps(under, line) => if under then |w| as real < line else |w| as real > line
    case MapHandicap(favoured, line, asked) =>
      if asked == Some(Other(favoured)) then !(Lead(w, favoured) as real > line) else Lead(w, favoured) as real > line
  }

  /** The keys a market resolves YES on; nothing when a map index before the first letter is looked up. */
  function SeriesMask(keys: set<Word>, q: Question): Option<set<Word>> {
    if q.MapWinner? && exists w :: w in keys && |w| + q.index - 1 < 0 then None
    else Some(set w | w in keys && Yes(q, w))
  }

  function MaskFor(key: string, venue: string, keys: set<Word>): Mask<Word> {
    Mask(key, venue, "series", "series", Derivable, keys)
  }

  function Legs(keys: seq<set<Word>>): seq<Mask<Word>> {
    seq(|keys|, i requires 0 <= i < |keys| => MaskFor("", "", keys[i]))
  }

  /** Two legs that together hold each outcome once. */
  lemma TwoLegsTile(all: set<Word>, a: set<Word>, b: set<Word>)
    requires a <= all && b <= all
    ensures Tiles(Legs([a, b]), all) <==> a !! b && a + b == all
  {
    var legs := Legs([a, b]);
    assert legs[0].keys == a && legs[1].keys == b;
    forall w | w in all ensures InExactlyOne(legs, w) <==> (w in a) != (w in b) {
      if w in a && w !in b { assert OnlyHolder(legs, w, 0); }
      if w in b && w !in a { assert OnlyHolder(legs, w, 1); }
    }
    if Tiles(legs, all) {
      assert forall w :: w in all ==> InExactlyOne(legs, w);
      assert forall w :: w in a ==> w in all;
    }
  }

  // ---- one kind of market at a time ---------------------------------------------------------

  /** The underdog token is the complement of the favourite's cover, whatever the line. */
  lemma HandicapTokensTile(keys: set<Word>, favoured: Side, line: real)
    ensures var covers := SeriesMask(keys, MapHandicap(favoured, line, Some(favoured)));
            var underdog := SeriesMask(keys, MapHandicap(favoured, line, Some(Other(favoured))));
            covers.Some? && underdog.Some? && Tiles(Legs([covers.value, underdog.value]), keys)
  {
    var a := SeriesMask(keys, MapHandicap(favoured, line, Some(favoured))).value;
    var b := SeriesMask(keys, MapHandicap(favoured, line, Some(Other(favoured)))).value;
    TwoLegsTile(keys, a, b);
  }

  /** Winning by more than the line is winning a series that is over in time: so a line below one map asks
      who wins, a higher line holds less, and the sweep covers every line below the target. */
  lemma HandicapIsAShortSeries(
      keys: set<Word>, target: nat, favoured: Side, line: real, higher: real, asked: Option<Side>)
    requires IsSeriesSpace(keys, target) && target > 0 && 0.0 <= line <= higher
    requires asked.None? || asked == Some(favoured)
    ensures var covers := SeriesMask(keys, MapHandicap(favoured, line, asked));
            var series := SeriesMask(keys, SeriesMoneyline(favoured));
            var inTime := SeriesMask(keys, TotalMaps(true, (2 * target) as real - line));
            && covers.Some? && series.Some? && inTime.Some?
            && covers.value == series.value * inTime.value
            && (line < 1.0 ==> covers == series)
            && SeriesMask(keys, MapHandicap(favoured, higher, asked)).value <= covers.value
            && (seq(target, _ => favoured) in covers.value <==> line < target as real)
  {
    forall w | w in keys
      ensures Yes(MapHandicap(favoured, line, asked), w) <==>
              Yes(SeriesMoneyline(favoured), w) && Yes(TotalMaps(true, (2 * target) as real - line), w)
      ensures Yes(SeriesMoneyline(favoured), w) ==> Lead(w, favoured) >= 1
    {
      WinnerLeads(w, target, favoured);
    }
    if line < 1.0 {
      assert SeriesMask(keys, MapHandicap(favoured, line, asked)).value ==
             SeriesMask(keys, SeriesMoneyline(favoured)).value;
    }
    var sweep: Word := seq(target, _ => favoured);
    SweepWins(target, favoured);
    WinnerLeads(sweep, target, favoured);
    assert sweep in keys;
  }

  lemma WinnerLeads(w: Word, target: nat, side: Side)
    requires Clinches(w, target) && target > 0
    ensures Yes(SeriesMoneyline(side), w) <==> Lead(w, side) >= 0
    ensures Yes(SeriesMoneyline(side), w) ==> Lead(w, side) == 2 * target - |w| && Lead(w, side) >= 1
  {
    OutcomesAreConsistent(w, target);
    WinsSum(w);
    var h: int, a: int := Wins(w, H), Wins(w, A);
    assert OutcomeOf(w).winner == if h > a then H else A;
    assert Lead(w, side) == if side == H then h - a else a - h;
    hide Wins, Clinches;
    match side { case H => case A => }
  }

  lemma {:induction false} SweepWins(target: nat, side: Side)
    requires target > 0
    ensures var sweep: Word := seq(target, _ => side);
            Clinches(sweep, target) && Yes(SeriesMoneyline(side), sweep)
  {
    var sweep: Word := seq(target, _ => side);
    WonOnly(sweep, side);
    forall k | 0 <= k < target ensures Undecided(sweep[..k], target) {
      WonOnly(sweep[..k], side);
    }
  }

  lemma {:induction false} WonOnly(w: Word, side: Side)
    requires forall i :: 0 <= i < |w| ==> w[i] == side
    ensures Wins(w, side) == |w| && Wins(w, Other(side)) == 0
  {
    if w != [] {
      WonOnly(w[1..], side);
    }
  }

  /** More than half a map short of `n` is reaching map `n`, whoever wins it; fewer is not reaching it. */
  lemma TotalsCountPlayedMaps(keys: set<Word>, target: nat, n: nat)
    requires IsSeriesSpace(keys, target) && target > 0 && n >= 1
    ensures var home, away := SeriesMask(keys, MapWinner(n, H)), SeriesMask(keys, MapWinner(n, A));
            var over := SeriesMask(keys, TotalMaps(false, n as real - 0.5));
            var under := SeriesMask(keys, TotalMaps(true, n as real - 0.5));
            && home.Some? && away.Some? && over.Some? && under.Some?
            && over.value == home.value + away.value
            && under.value == keys - (home.value + away.value)
  {
    forall w | w in keys
      ensures Yes(TotalMaps(false, n as real - 0.5), w) <==> Yes(MapWinner(n, H), w) || Yes(MapWinner(n, A), w)
      ensures Yes(TotalMaps(true, n as real - 0.5), w) <==> !Yes(TotalMaps(false, n as real - 0.5), w)
    {
      if n <= |w| {
        match w[n - 1] { case H => case A => }
      }
    }
  }

  predicate OnLine(n: nat, line: real) {
    n as real == line
  }

  /** Over and under tile the series exactly when no series can end on the line. */
  lemma TotalsTileOffTheLine(keys: set<Word>, target: nat, line: real)
    requires IsSeriesSpace(keys, target) && target > 0
    ensures var under := SeriesMask(keys, TotalMaps(true, line)).value;
            var over := SeriesMask(keys, TotalMaps(false, line)).value;
            Tiles(Legs([under, over]), keys) <==> forall n: nat :: target <= n < 2 * target ==> !OnLine(n, line)
  {
    var a := SeriesMask(keys, TotalMaps(true, line)).value;
    var b := SeriesMask(keys, TotalMaps(false, line)).value;
    TwoLegsTile(keys, a, b);
    forall w | w in keys ensures target <= |w| < 2 * target && (OnLine(|w|, line) <==> w !in a + b) {
      OutcomesAreConsistent(w, target);
    }
    forall n: nat | target <= n < 2 * target && OnLine(n, line) ensures a + b != keys {
      var w := LongSeries(n, target, H);
      assert w in keys && w !in a + b;
    }
  }

  /** Both sides of one map tile the series exactly when every series reaches that map. */
  lemma MapSidesTileWhenAlwaysPlayed(keys: set<Word>, target: nat, index: int)
    requires IsSeriesSpace(keys, target) && target > 0 && index >= 1
    ensures var home := SeriesMask(keys, MapWinner(index, H));
            var away := SeriesMask(keys, MapWinner(index, A));
            home.Some? && away.Some? && (Tiles(Legs([home.value, away.value]), keys) <==> index <= target)
  {
    var a, b := SeriesMask(keys, MapWinner(index, H)).value, SeriesMask(keys, MapWinner(index, A)).value;
    TwoLegsTile(keys, a, b);
    forall w | w in keys ensures target <= |w| {
      OutcomesAreConsistent(w, target);
    }
    forall w | w in keys && index <= target ensures w in a + b {
      match w[index - 1] { case H => case A => }
    }
    if index > target {
      var w := LongSeries(target, target, H);
      assert w in keys && w !in a + b;
    }
  }

  /** Map number 0 reads the last letter, so it asks who won the series. */
  lemma MapZeroIsTheSeries(keys: set<Word>, target: nat, side: Side)
    requires IsSeriesSpace(keys, target) && target > 0
    ensures SeriesMask(keys, MapWinner(0, side)) == SeriesMask(keys, SeriesMoneyline(side))
  {
    forall w | w in keys ensures |w| > 0 && (Yes(MapWinner(0, side), w) <==> Yes(SeriesMoneyline(side), w)) {
      OutcomesAreConsistent(w, target);
    }
    assert !exists w :: w in keys && |w| - 1 < 0;
    assert SeriesMask(keys, MapWinner(0, side)).value == SeriesMask(keys, SeriesMoneyline(side)).value;
  }

  /** Every length from the target to the full format is the length of some series won by `side`. */
  lemma LongSeries(n: nat, target: nat, side: Side) returns (w: Word)
    requires 0 < target <= n < 2 * target
    ensures |w| == n && Clinches(w, target) && Wins(w, side) == target
  {
    var lost := LostFirst(n - target, side);
    w := ThenWon(lost, target, side, target);
  }

  lemma {:induction false} LostFirst(n: nat, side: Side) returns (w: Word)
    ensures |w| == n && Wins(w, side) == 0 && Wins(w, Other(side)) == n
    ensures forall k :: 0 <= k <= n ==> Wins(w[..k], side) == 0 && Wins(w[..k], Other(side)) == k
  {
    if n == 0 {
      w := [];
    } else {
      var v := LostFirst(n - 1, side);
      w := v + [Other(side)];
      forall k | 0 <= k <= n ensures Wins(w[..k], side) == 0 && Wins(w[..k], Other(side)) == k {
        if k < n { assert w[..k] == v[..k]; } else { assert w[..k] == w; }
        WinsAppend(v, Other(side), side);
        WinsAppend(v, Other(side), Other(side));
        assert v[..n - 1] == v;
      }
      assert w[..n] == w;
    }
  }

  lemma {:induction false} ThenWon(p: Word, m: nat, side: Side, target: nat) returns (w: Word)
    requires m <= target && Wins(p, side) == target - m && Wins(p, Other(side)) < target
    requires forall k :: 0 <= k < |p| ==> Undecided(p[..k], target)
    ensures |w| == |p| + m && p <= w && Clinches(w, target) && Wins(w, side) == target
    decreases m
  {
    if m == 0 {
      w := p;
    } else {
      var q := p + [side];
      WinsAppend(p, side, side);
      WinsAppend(p, side, Other(side));
      forall k | 0 <= k < |q| ensures Undecided(q[..k], target) {
        if k < |p| { assert q[..k] == p[..k]; } else { assert q[..k] == p; }
      }
      w := ThenWon(q, m - 1, side, target);
    }
  }

  // ---- as maps are played -------------------------------------------------------------------

  /** A longer prefix leaves less: so along a series relations only tighten, and a lost one stays lost. */
  lemma AlongASeries(left: Mask<Word>, right: Mask<Word>, keys: set<Word>, p: Word, q: Word)
    requires p <= q
    ensures ReachableKeys(keys, Series, q) <= ReachableKeys(keys, Series, p)
    ensures var was := Relationship(left, right, Some(ReachableKeys(keys, Series, p)));
            var now := Relationship(left, right, Some(ReachableKeys(keys, Series, q)));
            && (was.None? ==> now.None?)
            && (was.Some? && now.Some? ==> MayBecome(was.value, now.value))
  {
    ShrinkingOnlyTightens(
      left, right, Some(ReachableKeys(keys, Series, p)), Some(ReachableKeys(keys, Series, q)));
  }

  /** At a finished sequence every relation left is an identity. */
  lemma FinishedSeriesLeavesIdentities(left: Mask<Word>, right: Mask<Word>, keys: set<Word>, target: nat, p: Word)
    requires IsSeriesSpace(keys, target) && target > 0 && Clinches(p, target)
    ensures var kind := Relationship(left, right, Some(ReachableKeys(keys, Series, p)));
            kind.Some? ==> kind.value == Identity
  {
    FinishedLeavesOne(keys, target, p);
    OneOutcomeLeavesIdentity(left, right, p);
  }

  /** Winning the last possible map implies winning the series. It becomes the same claim exactly when
      the other side stands one win short: an identity that does not hold before play begins. */
  lemma DecidingMapBecomesTheSeries(keys: set<Word>, target: nat, side: Side, p: Word)
    requires IsSeriesSpace(keys, target) && target > 0
    requires forall k :: 0 <= k <= |p| ==> Undecided(p[..k], target)
    ensures var map_ := SeriesMask(keys, MapWinner(2 * target - 1, side));
            var series := SeriesMask(keys, SeriesMoneyline(side));
            && map_.Some? && series.Some?
            && Relationship(MaskFor("map", "x", map_.value), MaskFor("series", "y", series.value),
                            Some(ReachableKeys(keys, Series, p))) ==
               Some(if Wins(p, Other(side)) == target - 1 then Identity else Implication)
  {
    var full, short := FullAndShort(p, side, target);
    assert p[..|p|] == p;
    forall w | w in keys ensures LastMapTells(w, p, target, side) {
      LastMapDecides(w, p, target, side);
    }
    assert full in keys && short in keys;
    hide Clinches, Undecided, IsSeriesSpace, RelationOf;
    RestrictedMasks(keys, target, side, p, full, short);
  }

  lemma RestrictedMasks(keys: set<Word>, target: nat, side: Side, p: Word, full: Word, short: Word)
    requires forall w :: w in keys ==> LastMapTells(w, p, target, side)
    requires target > 0 && full in keys && short in keys && p <= full && p <= short
    requires Yes(SeriesMoneyline(side), full) && |full| == 2 * target - 1 && Yes(SeriesMoneyline(side), short)
    requires |short| == 2 * target - 1 <==> Wins(p, Other(side)) == target - 1
    ensures var map_ := SeriesMask(keys, MapWinner(2 * target - 1, side));
            var series := SeriesMask(keys, SeriesMoneyline(side));
            var here := ReachableKeys(keys, Series, p);
            && map_.Some? && series.Some?
            && RelationOf(map_.value * here, series.value * here) ==
               Some(if Wins(p, Other(side)) == target - 1 then Identity else Implication)
  {
    var here := ReachableKeys(keys, Series, p);
    hide Yes, Wins;
    var map_ := SeriesMask(keys, MapWinner(2 * target - 1, side)).value;
    var series := SeriesMask(keys, SeriesMoneyline(side)).value;
    Compare(map_ * here, series * here, full, short);
  }

  lemma Compare(a: set<Word>, b: set<Word>, full: Word, short: Word)
    requires full in a && a <= b && short in b && (short in a ==> b <= a)
    ensures RelationOf(a, b) == Some(if short in a then Identity else Implication)
  {
  }

  predicate LastMapTells(w: Word, p: Word, target: nat, side: Side) {
    && |w| > 0
    && (Yes(MapWinner(2 * target - 1, side), w) <==> Yes(SeriesMoneyline(side), w) && |w| == 2 * target - 1)
    && (p <= w && Yes(SeriesMoneyline(side), w) && Wins(p, Other(side)) == target - 1 ==> |w| == 2 * target - 1)
  }

  lemma LastMapDecides(w: Word, p: Word, target: nat, side: Side)
    requires Clinches(w, target) && target > 0
    ensures LastMapTells(w, p, target, side)
  {
    OutcomesAreConsistent(w, target);
    WinsSum(w);
    if p <= w { WinsGrow(p, w, Other(side)); }
  }

  /** The longest and the shortest way for `side` to win from here. */
  lemma FullAndShort(p: Word, side: Side, target: nat) returns (full: Word, short: Word)
    requires target > 0 && forall k :: 0 <= k <= |p| ==> Undecided(p[..k], target)
    ensures p <= full && Clinches(full, target) && Yes(SeriesMoneyline(side), full) && |full| == 2 * target - 1
    ensures p <= short && Clinches(short, target) && Yes(SeriesMoneyline(side), short)
    ensures |short| == 2 * target - 1 <==> Wins(p, Other(side)) == target - 1
  {
    assert p[..|p|] == p;
    WinsSum(p);
    full := FullLength(p, side, target);
    OutcomesAreConsistent(full, target);
    short := ThenWon(p, target - Wins(p, side), side, target);
    OutcomesAreConsistent(short, target);
  }

  lemma {:induction false} WinsGrow(p: Word, w: Word, side: Side)
    requires p <= w
    ensures Wins(p, side) <= Wins(w, side)
  {
    if p != [] {
      WinsGrow(p[1..], w[1..], side);
    }
  }

  /** From an undecided state the series can still go the full length and end with `side` winning. */
  lemma {:induction false} FullLength(p: Word, side: Side, target: nat) returns (w: Word)
    requires target > 0 && forall k :: 0 <= k <= |p| ==> Undecided(p[..k], target)
    ensures p <= w && |w| == 2 * target - 1 && Clinches(w, target) && Wins(w, side) == target
    decreases target - Wins(p, Other(side))
  {
    assert p[..|p|] == p;
    WinsSum(p);
    if Wins(p, Other(side)) == target - 1 {
      w := ThenWon(p, target - Wins(p, side), side, target);
    } else {
      var q := p + [Other(side)];
      WinsAppend(p, Other(side), side);
      WinsAppend(p, Other(side), Other(side));
      forall k | 0 <= k <= |q| ensures Undecided(q[..k], target) {
        if k <= |p| { assert q[..k] == p[..k]; } else { assert q[..k] == q; }
      }
      w := FullLength(q, side, target);
    }
  }
}
