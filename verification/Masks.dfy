/** Market masks as subsets of an outcome space, and what two of them say about each other. */
module Masks {
  import opened Options

  datatype Status = Derivable | NotAFunction | DifferentScope | Unsupported

  datatype Mask<!K> = Mask(
    marketKey: string, venue: string, marketType: string, scope: string, status: Status, keys: set<K>)

  datatype Relation = Identity | Implication | ReverseImplication | MutualExclusion | Overlap

  function Restricted<K>(keys: set<K>, universe: Option<set<K>>): set<K> {
    if universe.Some? then keys * universe.value else keys
  }

  function RelationOf<K>(a: set<K>, b: set<K>): Option<Relation> {
    if a == {} || b == {} then None
    else if a == b then Some(Identity)
    else if a < b then Some(Implication)
    else if b < a then Some(ReverseImplication)
    else if a * b == {} then Some(MutualExclusion)
    else Some(Overlap)
  }

  function Relationship<K>(left: Mask<K>, right: Mask<K>, universe: Option<set<K>>): Option<Relation> {
    if left.status != Derivable || right.status != Derivable || left.scope != right.scope then None
    else RelationOf(Restricted(left.keys, universe), Restricted(right.keys, universe))
  }

  function Flipped(kind: Relation): Relation {
    match kind
    case Implication => ReverseImplication
    case ReverseImplication => Implication
    case _ => kind
  }

  /** Swapping the operands swaps the two directions and nothing else. */
  lemma FlippingTurnsAround<K>(left: Mask<K>, right: Mask<K>, universe: Option<set<K>>)
    ensures Relationship(right, left, universe) ==
            match Relationship(left, right, universe) case None => None case Some(k) => Some(Flipped(k))
  {
    assert forall a: set<K>, b: set<K> :: a * b == b * a;
  }

  /** What each relation says about the outcomes both masks can still have. */
  ghost predicate Says<K(!new)>(kind: Relation, a: set<K>, b: set<K>) {
    match kind
    case Identity => forall k :: k in a <==> k in b
    case Implication => (forall k :: k in a ==> k in b) && exists k :: k in b && k !in a
    case ReverseImplication => (forall k :: k in b ==> k in a) && exists k :: k in a && k !in b
    case MutualExclusion => forall k :: !(k in a && k in b)
    case Overlap => (exists k :: k in a && k in b) && (exists k :: k in a && k !in b) && exists k :: k in b && k !in a
  }

  /** Two non-empty masks stand in exactly the relation whose meaning holds of them. */
  lemma RelationsMean<K(!new)>(a: set<K>, b: set<K>, kind: Relation)
    requires a != {} && b != {}
    ensures RelationOf(a, b) == Some(kind) <==> Says(kind, a, b)
  {
    SubsetOrWitness(a, b);
    SubsetOrWitness(b, a);
    var x :| x in a;
    var y :| y in b;
    assert a * b == {} || exists k :: k in a * b;
    assert forall k :: k in a * b <==> k in a && k in b;
  }

  lemma SubsetOrWitness<K(!new)>(a: set<K>, b: set<K>)
    ensures a <= b || exists k :: k in a && k !in b
    ensures a == b <==> a <= b && b <= a
  {
  }

  // ---- shrinking the universe ---------------------------------------------------------------

  predicate Shrinks<K>(before: Option<set<K>>, after: Option<set<K>>) {
    before.Some? ==> after.Some? && after.value <= before.value
  }

  /** What a relation may become when outcomes are removed and both masks keep one. */
  predicate MayBecome(before: Relation, after: Relation) {
    match before
    case Identity => after == Identity
    case MutualExclusion => after == MutualExclusion
    case Implication => after == Implication || after == Identity
    case ReverseImplication => after == ReverseImplication || after == Identity
    case Overlap => true
  }

  /** Removing outcomes loses a relation exactly when it empties a mask, never brings one back, and
      otherwise only tightens it. */
  lemma ShrinkingOnlyTightens<K>(
      left: Mask<K>, right: Mask<K>, before: Option<set<K>>, after: Option<set<K>>)
    requires Shrinks(before, after)
    ensures var was, now := Relationship(left, right, before), Relationship(left, right, after);
            && (was.None? ==> now.None?)
            && (was.Some? ==> (now.None? <==>
                  Restricted(left.keys, after) == {} || Restricted(right.keys, after) == {}))
            && (was.Some? && now.Some? ==> MayBecome(was.value, now.value))
  {
    var a, b, c, d := Restricted(left.keys, before), Restricted(right.keys, before),
                      Restricted(left.keys, after), Restricted(right.keys, after);
    assert c <= a && d <= b;
    if after.Some? {
      assert c == a * after.value && d == b * after.value;
      if a <= b { assert c <= d; }
      if b <= a { assert d <= c; }
      if a * b == {} {
        assert c * d <= a * b;
      }
    }
  }

  /** Once a single outcome is left, two masks that both hold it are the same. */
  lemma OneOutcomeLeavesIdentity<K>(left: Mask<K>, right: Mask<K>, last: K)
    ensures var kind := Relationship(left, right, Some({last}));
            && (kind.Some? ==> kind.value == Identity)
            && (kind.Some? <==> left.status == right.status == Derivable && left.scope == right.scope
                                && last in left.keys && last in right.keys)
  {
    assert left.keys * {last} == if last in left.keys then {last} else {};
    assert right.keys * {last} == if last in right.keys then {last} else {};
  }

  // ---- all pairs ----------------------------------------------------------------------------

  function Usable<K>(masks: seq<Mask<K>>): seq<Mask<K>> {
    if masks == [] then []
    else (if masks[0].status == Derivable then [masks[0]] else []) + Usable(masks[1..])
  }

  lemma UsableHead<K>(masks: seq<Mask<K>>)
    requires masks != []
    ensures Usable(masks) == (if masks[0].status == Derivable then [masks[0]] else []) + Usable(masks[1..])
  {
  }

  lemma {:induction false} UsableAppend<K>(masks: seq<Mask<K>>, m: Mask<K>)
    ensures Usable(masks + [m]) == Usable(masks) + if m.status == Derivable then [m] else []
  {
    if masks == [] {
      assert masks + [m] == [m] && [m][1..] == [];
    } else {
      UsableAppend(masks[1..], m);
      hide Usable;
      UsableHead(masks);
      UsableHead(masks + [m]);
      assert (masks + [m])[1..] == masks[1..] + [m];
    }
  }

  /** Which masks take part, and how often. */
  lemma {:induction false} UsableAreDerivable<K>(masks: seq<Mask<K>>, m: Mask<K>)
    ensures multiset(Usable(masks))[m] == if m.status == Derivable then multiset(masks)[m] else 0
  {
    if masks != [] {
      UsableAreDerivable(masks[1..], m);
      assert masks == [masks[0]] + masks[1..];
    }
  }

  method Filter<K>(masks: seq<Mask<K>>) returns (usable: seq<Mask<K>>)
    ensures usable == Usable(masks)
  {
    usable := [];
    for i := 0 to |masks|
      invariant usable == Usable(masks[..i])
    {
      UsableAppend(masks[..i], masks[i]);
      assert masks[..i + 1] == masks[..i] + [masks[i]];
      if masks[i].status == Derivable {
        usable := usable + [masks[i]];
      }
    }
    assert masks[..|masks|] == masks;
  }

  datatype Row = Row(left: string, right: string, leftType: string, rightType: string, scope: string, kind: Relation)

  function RowOf<K>(left: Mask<K>, right: Mask<K>, kind: Relation): Row {
    Row(left.marketKey, right.marketKey, left.marketType, right.marketType, left.scope, kind)
  }

  /** One row for each pair that stands in a relation, earlier mask first, in the order of the pairs. */
  ghost predicate RowsOf<K>(
      usable: seq<Mask<K>>, universe: Option<set<K>>, pairs: seq<(nat, nat)>, rows: seq<Row>)
  {
    && |pairs| == |rows|
    && (forall n :: 0 <= n < |pairs| ==>
          var (i, j) := pairs[n];
          && i < j < |usable| && Relationship(usable[i], usable[j], universe).Some?
          && rows[n] == RowOf(usable[i], usable[j], Relationship(usable[i], usable[j], universe).value))
    && (forall n, m :: 0 <= n < m < |pairs| ==> Earlier(pairs[n], pairs[m]))
  }

  /** What a row says of its two markets, in this order: for the direction of an implication the order matters. */
  lemma RowsMean<K(!new)>(
      usable: seq<Mask<K>>, universe: Option<set<K>>, pairs: seq<(nat, nat)>, rows: seq<Row>, n: nat)
    requires RowsOf(usable, universe, pairs, rows) && n < |rows|
    ensures var i, j, row := pairs[n].0, pairs[n].1, rows[n];
            && i < j < |usable|
            && row.left == usable[i].marketKey && row.leftType == usable[i].marketType
            && row.right == usable[j].marketKey && row.rightType == usable[j].marketType
            && row.scope == usable[i].scope == usable[j].scope
            && Says(row.kind, Restricted(usable[i].keys, universe), Restricted(usable[j].keys, universe))
  {
    var (i, j) := pairs[n];
    hide Says, Restricted;
    RelationsMean(Restricted(usable[i].keys, universe), Restricted(usable[j].keys, universe), rows[n].kind);
  }

  predicate Earlier(p: (nat, nat), q: (nat, nat)) {
    p.0 < q.0 || (p.0 == q.0 && p.1 < q.1)
  }

  /** The pairs that stand in a relation, out of those before `(i, j)`. */
  ghost predicate Complete<K>(
      usable: seq<Mask<K>>, universe: Option<set<K>>, pairs: seq<(nat, nat)>, i: nat, j: nat)
  {
    forall a: nat, b: nat :: (a, b) in pairs <==>
      a < b < |usable| && Earlier((a, b), (i, j)) && Relationship(usable[a], usable[b], universe).Some?
  }

  method DeriveRelationships<K>(masks: seq<Mask<K>>, universe: Option<set<K>>)
    returns (rows: seq<Row>, ghost pairs: seq<(nat, nat)>)
    ensures RowsOf(Usable(masks), universe, pairs, rows)
    ensures forall i: nat, j: nat :: (i, j) in pairs <==>
              i < j < |Usable(masks)| && Relationship(Usable(masks)[i], Usable(masks)[j], universe).Some?
  {
    var usable := Filter(masks);
    rows, pairs := [], [];
    for i := 0 to |usable|
      invariant RowsOf(usable, universe, pairs, rows) && Complete(usable, universe, pairs, i, i + 1)
    {
      rows, pairs := PairOff(usable, universe, i, rows, pairs);
      NextLeft(usable, universe, pairs, i);
    }
    Finished(usable, universe, pairs);
  }

  method PairOff<K>(
      usable: seq<Mask<K>>, universe: Option<set<K>>, i: nat, before: seq<Row>, ghost earlier: seq<(nat, nat)>)
    returns (rows: seq<Row>, ghost pairs: seq<(nat, nat)>)
    requires i < |usable| && RowsOf(usable, universe, earlier, before)
    requires Complete(usable, universe, earlier, i, i + 1)
    ensures RowsOf(usable, universe, pairs, rows) && Complete(usable, universe, pairs, i, |usable|)
  {
    hide Relationship, RowsOf, Complete;
    rows, pairs := before, earlier;
    for j := i + 1 to |usable|
      invariant RowsOf(usable, universe, pairs, rows) && Complete(usable, universe, pairs, i, j)
    {
      var kind := Relationship(usable[i], usable[j], universe);
      NextPair(usable, universe, pairs, rows, i, j);
      if kind.Some? {
        rows := rows + [RowOf(usable[i], usable[j], kind.value)];
        pairs := pairs + [(i, j)];
      }
    }
  }

  lemma NextLeft<K>(usable: seq<Mask<K>>, universe: Option<set<K>>, pairs: seq<(nat, nat)>, i: nat)
    requires i < |usable| && Complete(usable, universe, pairs, i, |usable|)
    ensures Complete(usable, universe, pairs, i + 1, i + 2)
  {
    hide Relationship;
    forall a: nat, b: nat | a < b < |usable|
      ensures Earlier((a, b), (i, |usable|)) <==> Earlier((a, b), (i + 1, i + 2))
    {
    }
  }

  lemma Finished<K>(usable: seq<Mask<K>>, universe: Option<set<K>>, pairs: seq<(nat, nat)>)
    requires Complete(usable, universe, pairs, |usable|, |usable| + 1)
    ensures forall i: nat, j: nat :: (i, j) in pairs <==>
              i < j < |usable| && Relationship(usable[i], usable[j], universe).Some?
  {
    hide Relationship;
  }

  lemma NextPair<K>(
      usable: seq<Mask<K>>, universe: Option<set<K>>, pairs: seq<(nat, nat)>, rows: seq<Row>, i: nat, j: nat)
    requires RowsOf(usable, universe, pairs, rows) && Complete(usable, universe, pairs, i, j) && i < j < |usable|
    ensures var kind := Relationship(usable[i], usable[j], universe);
            if kind.None? then Complete(usable, universe, pairs, i, j + 1)
            else
              && Complete(usable, universe, pairs + [(i, j)], i, j + 1)
              && RowsOf(usable, universe, pairs + [(i, j)], rows + [RowOf(usable[i], usable[j], kind.value)])
  {
    hide Relationship;
    var kind := Relationship(usable[i], usable[j], universe);
    if kind.Some? {
      AddRow(usable, universe, pairs, rows, i, j, kind.value);
      hide RowsOf;
      assert forall p :: p in pairs + [(i, j)] <==> p in pairs || p == (i, j);
    } else {
      hide RowsOf;
    }
  }

  lemma AddRow<K>(
      usable: seq<Mask<K>>, universe: Option<set<K>>, pairs: seq<(nat, nat)>, rows: seq<Row>, i: nat, j: nat,
      kind: Relation)
    requires RowsOf(usable, universe, pairs, rows) && Complete(usable, universe, pairs, i, j) && i < j < |usable|
    requires Relationship(usable[i], usable[j], universe) == Some(kind)
    ensures RowsOf(usable, universe, pairs + [(i, j)], rows + [RowOf(usable[i], usable[j], kind)])
  {
    hide Relationship;
    forall n | 0 <= n < |pairs| ensures Earlier(pairs[n], (i, j)) {
      var (a, b) := pairs[n];
      assert (a, b) in pairs;
    }
  }

  // ---- partitions ---------------------------------------------------------------------------

  ghost predicate InExactlyOne<K>(legs: seq<Mask<K>>, k: K) {
    exists i :: OnlyHolder(legs, k, i)
  }

  ghost predicate OnlyHolder<K>(legs: seq<Mask<K>>, k: K, i: int) {
    0 <= i < |legs| && k in legs[i].keys && forall j :: 0 <= j < |legs| && k in legs[j].keys ==> j == i
  }

  ghost predicate Tiles<K(!new)>(legs: seq<Mask<K>>, universe: set<K>) {
    forall k :: k in universe ==> InExactlyOne(legs, k)
  }

  ghost predicate HeldTwice<K>(legs: seq<Mask<K>>, k: K) {
    exists i, j :: 0 <= i < j < |legs| && k in legs[i].keys && k in legs[j].keys
  }

  ghost predicate Held<K>(legs: seq<Mask<K>>, k: K) {
    exists i :: 0 <= i < |legs| && k in legs[i].keys
  }

  datatype Partition<!K> = Partition(legCount: nat, isPartition: bool, overlapping: set<K>, uncovered: set<K>)

  method IsPartition<K(!new)>(masks: seq<Mask<K>>, spaceKeys: set<K>, universe: Option<set<K>>)
    returns (r: Partition<K>)
    ensures var legs, all := Usable(masks), if universe.Some? then universe.value else spaceKeys;
            && r.legCount == |legs|
            && r.isPartition == Tiles(legs, all)
            && (forall k :: k in r.overlapping <==> k in all && HeldTwice(legs, k))
            && (forall k :: k in r.uncovered <==> k in all && !Held(legs, k))
  {
    var all := if universe.Some? then universe.value else spaceKeys;
    var legs := Filter(masks);
    var covered: set<K>, overlaps: set<K> := {}, {};
    for i := 0 to |legs|
      invariant forall k :: k in covered <==> k in all && Held(legs[..i], k)
      invariant forall k :: k in overlaps <==> k in all && HeldTwice(legs[..i], k)
    {
      var keys := legs[i].keys * all;
      overlaps := overlaps + covered * keys;
      covered := covered + keys;
      forall k | k in all
        ensures Held(legs[..i + 1], k) <==> Held(legs[..i], k) || k in legs[i].keys
        ensures HeldTwice(legs[..i + 1], k) <==> HeldTwice(legs[..i], k) || (Held(legs[..i], k) && k in legs[i].keys)
      {
        OneMoreLeg(legs, i, k);
      }
    }
    assert legs[..|legs|] == legs;
    var missing := all - covered;
    r := Partition(|legs|, overlaps == {} && missing == {}, overlaps, missing);
    forall k | k in all ensures InExactlyOne(legs, k) <==> k !in overlaps && k !in missing {
      ExactlyOneMeans(legs, k);
    }
  }

  lemma OneMoreLeg<K>(legs: seq<Mask<K>>, i: nat, k: K)
    requires i < |legs|
    ensures Held(legs[..i + 1], k) <==> Held(legs[..i], k) || k in legs[i].keys
    ensures HeldTwice(legs[..i + 1], k) <==> HeldTwice(legs[..i], k) || (Held(legs[..i], k) && k in legs[i].keys)
  {
    assert legs[..i + 1] == legs[..i] + [legs[i]];
    AddedLeg(legs[..i], legs[i], k);
  }

  lemma AddedLeg<K>(before: seq<Mask<K>>, leg: Mask<K>, k: K)
    ensures Held(before + [leg], k) <==> Held(before, k) || k in leg.keys
    ensures HeldTwice(before + [leg], k) <==> HeldTwice(before, k) || (Held(before, k) && k in leg.keys)
  {
    var after, i := before + [leg], |before|;
    assert after[i] == leg;
    if Held(before, k) {
      var j :| 0 <= j < i && k in before[j].keys;
      assert k in after[j].keys;
    }
    if HeldTwice(before, k) {
      var a, b :| 0 <= a < b < i && k in before[a].keys && k in before[b].keys;
      assert k in after[a].keys && k in after[b].keys;
    }
    if HeldTwice(after, k) {
      var a, b :| 0 <= a < b < i + 1 && k in after[a].keys && k in after[b].keys;
      assert k in before[a].keys;
      if b < i { assert k in before[b].keys; }
    }
  }

  lemma ExactlyOneMeans<K>(legs: seq<Mask<K>>, k: K)
    ensures InExactlyOne(legs, k) <==> Held(legs, k) && !HeldTwice(legs, k)
  {
    if Held(legs, k) && !HeldTwice(legs, k) {
      var i :| 0 <= i < |legs| && k in legs[i].keys;
      forall j | 0 <= j < |legs| && k in legs[j].keys ensures j == i {
        assert j < i || i < j ==> HeldTwice(legs, k);
      }
      assert OnlyHolder(legs, k, i);
    }
  }

  /** A partition stays one in any smaller universe; so a state of a series never breaks one. */
  lemma SmallerUniverseKeepsTiling<K(!new)>(legs: seq<Mask<K>>, universe: set<K>, smaller: set<K>)
    requires smaller <= universe && Tiles(legs, universe)
    ensures Tiles(legs, smaller)
  {
  }

  /** The legs of a partition that still hold something exclude each other pairwise. */
  lemma TilesExclude<K(!new)>(legs: seq<Mask<K>>, universe: set<K>, i: nat, j: nat)
    requires Tiles(legs, universe) && i < j < |legs|
    requires legs[i].status == legs[j].status == Derivable && legs[i].scope == legs[j].scope
    ensures var kind := Relationship(legs[i], legs[j], Some(universe));
            kind.None? || kind.value == MutualExclusion
  {
    var a, b := legs[i].keys * universe, legs[j].keys * universe;
    forall k | k in a ensures k !in b {
      assert InExactlyOne(legs, k);
    }
    assert a * b == {};
    if a != {} {
      var x :| x in a;
      assert x !in b;
    }
    if b != {} {
      var y :| y in b;
      assert y !in a;
    }
  }
}
