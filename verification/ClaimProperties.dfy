/** The compression to claims loses nothing and invents nothing. */
module ClaimProperties {
  import opened Options
  import opened Masks
  import opened Sorting
  import opened Claims

  /** The relation `Relationship` gives for some cross-venue pair of usable masks, overlaps apart. */
  ghost predicate Pairwise<K(!new)>(usable: seq<Mask<K>>, e: Edge) {
    exists l, r :: l in usable && r in usable && PairwiseBy(l, r, e)
  }

  predicate PairwiseBy<K(!new)>(l: Mask<K>, r: Mask<K>, e: Edge) {
    && l.venue != r.venue && l.marketKey == e.low && r.marketKey == e.high && Less(e.low, e.high)
    && e.kind != Overlap && Relationship(l, r, None) == Some(e.kind)
  }

  predicate DistinctKeys<K(!new)>(usable: seq<Mask<K>>) {
    forall i, j :: 0 <= i < j < |usable| ==> usable[i].marketKey != usable[j].marketKey
  }

  /** Usable masks as compiling markets over one space gives them: all of that space's scope. */
  predicate OfOneSpace<K(!new)>(usable: seq<Mask<K>>, space: Space) {
    forall m :: m in usable ==> TakesPart(m, space.total) && m.scope == space.scope
  }

  ghost predicate Compressed<K(!new)>(
      usable: seq<Mask<K>>, space: Space, digest: ClaimDigest<K>, g: Group<K>)
  {
    && AreClaimsOf(g.claims, usable, space, digest)
    && g.relations == AllRelated(SortBy(ById, g.claims), true)
  }

  /** For masks of one space under distinct market keys, the relations rebuilt from claims alone are
      exactly the pairwise ones, direction included. */
  lemma CompressionIsExact<K(!new)>(
      masks: seq<Mask<K>>, space: Space, digest: ClaimDigest<K>, g: Group<K>, e: Edge)
    requires Injective(digest) && Compressed(UsableMasks(masks, space.total), space, digest, g)
    requires DistinctKeys(UsableMasks(masks, space.total))
    requires forall m :: m in masks ==> m.scope == space.scope
    ensures forall rel :: rel in g.relations ==> Resolves(g, rel)
    ensures Implies(g, e) <==> Pairwise(UsableMasks(masks, space.total), e)
  {
    var usable := UsableMasks(masks, space.total);
    assert OfOneSpace(usable, space);
    forall rel | rel in g.relations ensures Resolves(g, rel) {
      var a, b := EndsOf(usable, space, digest, g, rel);
    }
    if Implies(g, e) {
      if c :| c in g.claims && WithinClaim(c, e) {
        WithinIsPairwise(usable, space, digest, g, c, e);
      } else {
        var rel :| rel in g.relations && Joins(g, rel, e);
        AcrossIsPairwise(usable, space, digest, g, rel, e);
      }
    }
    if Pairwise(usable, e) {
      var l, r :| l in usable && r in usable && PairwiseBy(l, r, e);
      NothingIsLost(usable, space, digest, g, l, r, e);
    }
  }

  // ---- nothing is invented ------------------------------------------------------------------

  lemma WithinIsPairwise<K(!new)>(
      usable: seq<Mask<K>>, space: Space, digest: ClaimDigest<K>, g: Group<K>, c: Claim<K>, e: Edge)
    requires Compressed(usable, space, digest, g) && OfOneSpace(usable, space) && DistinctKeys(usable)
    requires c in g.claims && WithinClaim(c, e)
    ensures Pairwise(usable, e)
  {
    hide Compressed, DistinctKeys, PairEdge, Pairwise, OfOneSpace, Relationship, RelationOf;
    MembersOf(usable, space, digest, g, c);
    var i, j :| 0 <= i < j < |c.members| && PairEdge(c.members[i], c.members[j], Identity, e);
    var l, r := c.members[i], c.members[j];
    assert l in c.members && r in c.members;
    InOneSpace(usable, space, l, r);
    SameKeysAreIdentical(l, r);
    EdgeIsPairwise(usable, l, r, Identity, e);
  }

  lemma InOneSpace<K(!new)>(usable: seq<Mask<K>>, space: Space, l: Mask<K>, r: Mask<K>)
    requires OfOneSpace(usable, space) && l in usable && r in usable
    ensures l.keys != {} && r.keys != {} && Relationship(l, r, None) == RelationOf(l.keys, r.keys)
  {
  }

  lemma SameKeysAreIdentical<K(!new)>(l: Mask<K>, r: Mask<K>)
    requires l.keys == r.keys && l.keys != {}
    ensures RelationOf(l.keys, r.keys) == Some(Identity)
  {
  }

  lemma AcrossIsPairwise<K(!new)>(
      usable: seq<Mask<K>>, space: Space, digest: ClaimDigest<K>, g: Group<K>, rel: ClaimRelation, e: Edge)
    requires Injective(digest) && Compressed(usable, space, digest, g)
    requires OfOneSpace(usable, space) && DistinctKeys(usable)
    requires rel in g.relations && Joins(g, rel, e)
    ensures Pairwise(usable, e)
  {
    hide Compressed, DistinctKeys, PairEdge, RelationOf, Injective, Lookup, Pairwise, OfOneSpace, Relationship;
    var a, b := EndsOf(usable, space, digest, g, rel);
    MembersOf(usable, space, digest, g, a);
    MembersOf(usable, space, digest, g, b);
    assert AcrossClaims(a, b, rel.kind, e);
    var l, r :| l in a.members && r in b.members && PairEdge(l, r, rel.kind, e);
    InOneSpace(usable, space, l, r);
    EdgeIsPairwise(usable, l, r, rel.kind, e);
  }

  lemma EdgeIsPairwise<K(!new)>(usable: seq<Mask<K>>, l: Mask<K>, r: Mask<K>, kind: Relation, e: Edge)
    requires DistinctKeys(usable) && l in usable && r in usable
    requires Relationship(l, r, None) == Some(kind) && kind != Overlap && PairEdge(l, r, kind, e)
    ensures Pairwise(usable, e)
  {
    LessIsTotal(l.marketKey, r.marketKey);
    FlippingTurnsAround(l, r, None);
    var i :| 0 <= i < |usable| && usable[i] == l;
    var j :| 0 <= j < |usable| && usable[j] == r;
    assert l.marketKey != r.marketKey;
    assert PairwiseBy(l, r, e) || PairwiseBy(r, l, e);
  }

  // ---- nothing is lost ----------------------------------------------------------------------

  lemma NothingIsLost<K(!new)>(
      usable: seq<Mask<K>>, space: Space, digest: ClaimDigest<K>, g: Group<K>, l: Mask<K>, r: Mask<K>, e: Edge)
    requires Injective(digest) && Compressed(usable, space, digest, g) && OfOneSpace(usable, space)
    requires l in usable && r in usable && PairwiseBy(l, r, e)
    ensures Implies(g, e)
  {
    hide Compressed, OfOneSpace, PairEdge, PairwiseBy, RelationOf, WithinClaim, Less, Lookup, Injective, Implies, Joins;
    EdgeBothWays(l, r, e);
    var a := ClaimOf(usable, space, digest, g, l);
    var b := ClaimOf(usable, space, digest, g, r);
    MembersOf(usable, space, digest, g, a);
    MembersOf(usable, space, digest, g, b);
    if l.keys == r.keys {
      WithinByPositions(a, l, r, e);
      WithinImplies(g, a, e);
    } else {
      var rel := RelationBetween(usable, space, digest, g, a, b, e.kind);
      IdsAscend(usable, space, digest, g);
      LookupFinds(g.claims, a);
      LookupFinds(g.claims, b);
      AcrossImplies(g, a, b, rel, l, r, e);
    }
  }

  lemma ClaimOf<K(!new)>(usable: seq<Mask<K>>, space: Space, digest: ClaimDigest<K>, g: Group<K>, m: Mask<K>)
    returns (c: Claim<K>)
    requires Compressed(usable, space, digest, g) && m in usable
    ensures c in g.claims && c.keys == m.keys
  {
    c :| c in g.claims && c.keys == m.keys;
  }

  lemma IdsAscend<K(!new)>(usable: seq<Mask<K>>, space: Space, digest: ClaimDigest<K>, g: Group<K>)
    requires Compressed(usable, space, digest, g)
    ensures forall i, j :: 0 <= i < j < |g.claims| ==> Less(g.claims[i].claimId, g.claims[j].claimId)
  {
  }

  lemma WithinImplies<K(!new)>(g: Group<K>, c: Claim<K>, e: Edge)
    requires c in g.claims && WithinClaim(c, e)
    ensures Implies(g, e)
  {
  }

  /** A stored relation of the two claims, whichever way round it is stored. */
  lemma AcrossImplies<K(!new)>(
      g: Group<K>, a: Claim<K>, b: Claim<K>, rel: ClaimRelation, l: Mask<K>, r: Mask<K>, e: Edge)
    requires rel in g.relations && l in a.members && r in b.members
    requires Lookup(g.claims, a.claimId) == Some(a) && Lookup(g.claims, b.claimId) == Some(b)
    requires || (rel.left == a.claimId && rel.right == b.claimId && PairEdge(l, r, rel.kind, e))
             || (rel.left == b.claimId && rel.right == a.claimId && PairEdge(r, l, rel.kind, e))
    ensures Implies(g, e)
  {
    hide PairEdge, Lookup;
    assert Joins(g, rel, e);
  }

  lemma EdgeBothWays<K(!new)>(l: Mask<K>, r: Mask<K>, e: Edge)
    requires PairwiseBy(l, r, e)
    ensures PairEdge(l, r, e.kind, e) && PairEdge(r, l, Flipped(e.kind), e)
    ensures e.kind != Overlap && RelationOf(l.keys, r.keys) == Some(e.kind) && l != r
    ensures l.keys == r.keys ==> e.kind == Identity
  {
    LessIsTotal(e.low, e.high);
  }

  lemma WithinByPositions<K(!new)>(c: Claim<K>, l: Mask<K>, r: Mask<K>, e: Edge)
    requires l in c.members && r in c.members && l != r
    requires PairEdge(l, r, Identity, e) && PairEdge(r, l, Identity, e)
    ensures WithinClaim(c, e)
  {
    var i :| 0 <= i < |c.members| && c.members[i] == l;
    var j :| 0 <= j < |c.members| && c.members[j] == r;
    assert i < j || j < i;
  }

  // ---- claims and their relations -----------------------------------------------------------

  lemma MembersOf<K(!new)>(usable: seq<Mask<K>>, space: Space, digest: ClaimDigest<K>, g: Group<K>, c: Claim<K>)
    requires Compressed(usable, space, digest, g) && c in g.claims
    ensures c.scope == space.scope && c.claimId == IdOf(digest, space.shape, c.keys)
    ensures forall m :: m in c.members <==> m in usable && m.keys == c.keys
  {
    SortSorts(VenueAndKey, With(usable, c.keys));
    SameElements(SortBy(VenueAndKey, With(usable, c.keys)), With(usable, c.keys));
  }

  lemma {:induction false} LookupFinds<K(!new)>(claims: seq<Claim<K>>, c: Claim<K>)
    requires c in claims && forall i, j :: 0 <= i < j < |claims| ==> Less(claims[i].claimId, claims[j].claimId)
    ensures Lookup(claims, c.claimId) == Some(c)
  {
    var n := |claims| - 1;
    if claims[n] != c {
      var k :| 0 <= k < n && claims[k] == c;
      LessIsTotal(claims[k].claimId, claims[n].claimId);
      assert claims[..n][k] == c;
      LookupFinds(claims[..n], c);
    }
  }

  lemma {:induction false} AgainstHolds<K(!new)>(
      a: Claim<K>, rest: seq<Claim<K>>, informativeOnly: bool, rel: ClaimRelation)
    ensures rel in Against(a, rest, informativeOnly) <==>
            exists j :: 0 <= j < |rest| && Related(a, rest[j], informativeOnly) == Some(rel)
  {
    if rest != [] {
      var n := |rest| - 1;
      AgainstHolds(a, rest[..n], informativeOnly, rel);
    }
  }

  ghost predicate RelatedAt<K(!new)>(
      claims: seq<Claim<K>>, informativeOnly: bool, rel: ClaimRelation, i: int, j: int)
  {
    0 <= i < j < |claims| && Related(claims[i], claims[j], informativeOnly) == Some(rel)
  }

  /** The list of relations holds what some pair contributes, and nothing else. */
  lemma {:induction false} AllRelatedHolds<K(!new)>(claims: seq<Claim<K>>, informativeOnly: bool, rel: ClaimRelation)
    ensures rel in AllRelated(claims, informativeOnly) <==> exists i, j :: RelatedAt(claims, informativeOnly, rel, i, j)
  {
    if claims != [] {
      var rest := claims[1..];
      AgainstHolds(claims[0], rest, informativeOnly, rel);
      AllRelatedHolds(rest, informativeOnly, rel);
      if j :| 0 <= j < |rest| && Related(claims[0], rest[j], informativeOnly) == Some(rel) {
        assert RelatedAt(claims, informativeOnly, rel, 0, j + 1);
      }
      if i, j :| RelatedAt(rest, informativeOnly, rel, i, j) {
        assert RelatedAt(claims, informativeOnly, rel, i + 1, j + 1);
      }
      if i, j :| RelatedAt(claims, informativeOnly, rel, i, j) {
        if i == 0 {
          assert Related(claims[0], rest[j - 1], informativeOnly) == Some(rel);
        } else {
          assert RelatedAt(rest, informativeOnly, rel, i - 1, j - 1);
        }
      }
    }
  }

  /** What the algebra says of two claims: a relation whose meaning holds of their outcomes; in the order of
      the ids, except that the smaller side of an implication comes first; overlaps only on request. */
  ghost predicate Stored<K(!new)>(a: Claim<K>, b: Claim<K>, informativeOnly: bool, rel: ClaimRelation) {
    && a.scope == b.scope && a.keys != {} && b.keys != {}
    && rel.shape == a.shape && rel.left == a.claimId && rel.right == b.claimId
    && rel.kind != ReverseImplication && Says(rel.kind, a.keys, b.keys)
    && (rel.kind == Overlap ==> !informativeOnly)
    && (rel.kind != Implication ==> Less(a.claimId, b.claimId))
  }

  lemma RelatedSays<K(!new)>(a: Claim<K>, b: Claim<K>, informativeOnly: bool, rel: ClaimRelation)
    requires Less(a.claimId, b.claimId)
    ensures Related(a, b, informativeOnly) == Some(rel) <==>
            Stored(a, b, informativeOnly, rel) || (rel.kind == Implication && Stored(b, a, informativeOnly, rel))
  {
    if a.keys != {} && b.keys != {} {
      RelationsMean(a.keys, b.keys, rel.kind);
      RelationsMean(b.keys, a.keys, rel.kind);
      RelationTurnsBoth(a.keys, b.keys);
    }
    hide Says, Less;
  }

  lemma OnlyImplicationsTurn<K(!new)>(a: Claim<K>, b: Claim<K>, informativeOnly: bool, rel: ClaimRelation)
    requires Stored(a, b, informativeOnly, rel) && !Less(a.claimId, b.claimId)
    ensures rel.kind == Implication
  {
  }

  lemma RelationTurnsBoth<K(!new)>(a: set<K>, b: set<K>)
    requires a != {} && b != {}
    ensures RelationOf(a, b) == Some(ReverseImplication) <==> RelationOf(b, a) == Some(Implication)
  {
    assert a * b == b * a;
  }

  lemma IdsRise<K(!new)>(sorted: seq<Claim<K>>, claims: seq<Claim<K>>)
    requires InOrder(ById, sorted) && multiset(sorted) == multiset(claims)
    requires forall i, j :: 0 <= i < j < |claims| ==> claims[i].claimId != claims[j].claimId
    ensures forall i, j :: 0 <= i < j < |sorted| ==> Less(sorted[i].claimId, sorted[j].claimId)
  {
    SameElements(sorted, claims);
    forall i, j | 0 <= i < j < |sorted| ensures Less(sorted[i].claimId, sorted[j].claimId) {
      assert ById(sorted[i]) == ById(sorted[j]) || PairLess(ById(sorted[i]), ById(sorted[j]));
      AtMostOnce(claims, sorted[i]);
      TwiceCounts(sorted, i, j);
      assert sorted[i] in claims && sorted[j] in claims;
    }
  }

  /** Some two different claims of the list. */
  ghost predicate StoredAmong<K(!new)>(claims: seq<Claim<K>>, informativeOnly: bool, rel: ClaimRelation) {
    exists a, b :: a in claims && b in claims && a != b && Stored(a, b, informativeOnly, rel)
  }

  lemma RelatedIsStored<K(!new)>(sorted: seq<Claim<K>>, informativeOnly: bool, rel: ClaimRelation, i: int, j: int)
    requires RelatedAt(sorted, informativeOnly, rel, i, j) && Less(sorted[i].claimId, sorted[j].claimId)
    ensures StoredAmong(sorted, informativeOnly, rel)
  {
    var a, b := sorted[i], sorted[j];
    RelatedSays(a, b, informativeOnly, rel);
    LessIsTotal(a.claimId, b.claimId);
    hide Related, Stored, Less;
    assert a in sorted && b in sorted;
  }

  lemma StoredIsRelated<K(!new)>(
      sorted: seq<Claim<K>>, informativeOnly: bool, rel: ClaimRelation, i: nat, j: nat)
    requires i < |sorted| && j < |sorted| && i != j && Stored(sorted[i], sorted[j], informativeOnly, rel)
    requires Less(sorted[Min(i, j)].claimId, sorted[Max(i, j)].claimId)
    ensures RelatedAt(sorted, informativeOnly, rel, Min(i, j), Max(i, j))
  {
    var a, b := sorted[i], sorted[j];
    LessIsTotal(a.claimId, b.claimId);
    if j < i {
      OnlyImplicationsTurn(a, b, informativeOnly, rel);
      RelatedSays(b, a, informativeOnly, rel);
    } else {
      RelatedSays(a, b, informativeOnly, rel);
    }
    hide Related, Stored, Less;
  }

  /** The algebra over claims of distinct ids holds exactly the relations of its pairs. */
  lemma AlgebraHoldsExactly<K(!new)>(claims: seq<Claim<K>>, informativeOnly: bool, rel: ClaimRelation)
    requires forall i, j :: 0 <= i < j < |claims| ==> claims[i].claimId != claims[j].claimId
    ensures rel in AllRelated(SortBy(ById, claims), informativeOnly) <==> StoredAmong(claims, informativeOnly, rel)
  {
    var sorted := SortBy(ById, claims);
    hide SortBy, AllRelated, InOrder, Related, Stored, Less;
    SortSorts(ById, claims);
    SameElements(sorted, claims);
    IdsRise(sorted, claims);
    AllRelatedHolds(sorted, informativeOnly, rel);
    if i, j :| RelatedAt(sorted, informativeOnly, rel, i, j) {
      RelatedIsStored(sorted, informativeOnly, rel, i, j);
    }
    if a, b :| a in claims && b in claims && a != b && Stored(a, b, informativeOnly, rel) {
      var i :| 0 <= i < |sorted| && sorted[i] == a;
      var j :| 0 <= j < |sorted| && sorted[j] == b;
      StoredIsRelated(sorted, informativeOnly, rel, i, j);
    }
  }

  /** The two claims a stored relation names, in the order it names them. */
  lemma EndsOf<K(!new)>(
      usable: seq<Mask<K>>, space: Space, digest: ClaimDigest<K>, g: Group<K>, rel: ClaimRelation)
    returns (a: Claim<K>, b: Claim<K>)
    requires Injective(digest) && Compressed(usable, space, digest, g) && rel in g.relations
    ensures a in g.claims && b in g.claims
    ensures Lookup(g.claims, rel.left) == Some(a) && Lookup(g.claims, rel.right) == Some(b)
    ensures RelationOf(a.keys, b.keys) == Some(rel.kind) && rel.kind != Overlap
  {
    var sorted := SortBy(ById, g.claims);
    SortSorts(ById, g.claims);
    SameElements(sorted, g.claims);
    AllRelatedHolds(sorted, true, rel);
    hide SortBy, AllRelated, InOrder, Related, RelationOf, Lookup, Injective;
    var i, j :| RelatedAt(sorted, true, rel, i, j);
    RelatedEnds(sorted[i], sorted[j], rel);
    a, b := sorted[i], sorted[j];
    if rel.left != a.claimId || rel.right != b.claimId || RelationOf(a.keys, b.keys) != Some(rel.kind) {
      a, b := b, a;
    }
    assert a in g.claims && b in g.claims;
    LookupFinds(g.claims, a);
    LookupFinds(g.claims, b);
  }

  lemma RelatedEnds<K(!new)>(a: Claim<K>, b: Claim<K>, rel: ClaimRelation)
    requires Related(a, b, true) == Some(rel)
    ensures rel.kind != Overlap
    ensures || (rel.left == a.claimId && rel.right == b.claimId && RelationOf(a.keys, b.keys) == Some(rel.kind))
            || (rel.left == b.claimId && rel.right == a.claimId && RelationOf(b.keys, a.keys) == Some(rel.kind))
  {
    assert a.keys * b.keys == b.keys * a.keys;
  }

  lemma RelatedGives<K(!new)>(a: Claim<K>, b: Claim<K>, kind: Relation) returns (rel: ClaimRelation)
    requires RelationOf(a.keys, b.keys) == Some(kind) && kind != Overlap && a.scope == b.scope
    ensures Related(a, b, true) == Some(rel)
    ensures || (rel.left == a.claimId && rel.right == b.claimId && rel.kind == kind)
            || (rel.left == b.claimId && rel.right == a.claimId && rel.kind == Flipped(kind))
  {
    rel := Related(a, b, true).value;
  }

  lemma RelationTurnsAround<K(!new)>(a: set<K>, b: set<K>, kind: Relation)
    requires RelationOf(a, b) == Some(kind)
    ensures RelationOf(b, a) == Some(Flipped(kind)) && Flipped(Flipped(kind)) == kind
  {
    assert a * b == b * a;
  }

  /** Two different claims that do not merely overlap have a stored relation, one way round or the other. */
  lemma RelationBetween<K(!new)>(
      usable: seq<Mask<K>>, space: Space, digest: ClaimDigest<K>, g: Group<K>, a: Claim<K>, b: Claim<K>, kind: Relation)
    returns (rel: ClaimRelation)
    requires Injective(digest) && Compressed(usable, space, digest, g)
    requires a in g.claims && b in g.claims && a.keys != b.keys
    requires RelationOf(a.keys, b.keys) == Some(kind) && kind != Overlap
    ensures rel in g.relations
    ensures || (rel.left == a.claimId && rel.right == b.claimId && rel.kind == kind)
            || (rel.left == b.claimId && rel.right == a.claimId && rel.kind == Flipped(kind))
  {
    var sorted := SortBy(ById, g.claims);
    SortSorts(ById, g.claims);
    SameElements(sorted, g.claims);
    MembersOf(usable, space, digest, g, a);
    MembersOf(usable, space, digest, g, b);
    hide SortBy, AllRelated, InOrder, Related, RelationOf, AreClaimsOf, Injective;
    rel := StoredForPair(sorted, a, b, kind);
  }

  lemma StoredForPair<K(!new)>(sorted: seq<Claim<K>>, a: Claim<K>, b: Claim<K>, kind: Relation)
    returns (rel: ClaimRelation)
    requires a in sorted && b in sorted && a != b && a.scope == b.scope
    requires RelationOf(a.keys, b.keys) == Some(kind) && kind != Overlap
    ensures rel in AllRelated(sorted, true)
    ensures || (rel.left == a.claimId && rel.right == b.claimId && rel.kind == kind)
            || (rel.left == b.claimId && rel.right == a.claimId && rel.kind == Flipped(kind))
  {
    RelationTurnsAround(a.keys, b.keys, kind);
    hide AllRelated, Related, RelationOf;
    var i :| 0 <= i < |sorted| && sorted[i] == a;
    var j :| 0 <= j < |sorted| && sorted[j] == b;
    if i < j {
      rel := RelatedGives(a, b, kind);
      assert RelatedAt(sorted, true, rel, i, j);
    } else {
      rel := RelatedGives(b, a, Flipped(kind));
      assert RelatedAt(sorted, true, rel, j, i);
    }
    AllRelatedHolds(sorted, true, rel);
  }
}
