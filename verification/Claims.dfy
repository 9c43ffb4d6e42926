/** Compressing masks to claims: one claim per outcome subset, one relation per pair of claims. */
module Claims {
  import opened Options
  import opened Masks
  import opened Sorting

  /** SHA-256 of the space's shape and the sorted outcome keys, taken to be injective. */
  type ClaimDigest<!K> = (string, set<K>) -> string

  ghost predicate Injective<K(!new)>(digest: ClaimDigest<K>) {
    forall s, a, t, b :: IdOf(digest, s, a) == IdOf(digest, t, b) ==> s == t && a == b
  }

  function IdOf<K>(digest: ClaimDigest<K>, shape: string, keys: set<K>): string {
    digest(shape, keys)
  }

  datatype Space = Space(shape: string, scope: string, total: nat)

  datatype Claim<!K> = Claim(claimId: string, shape: string, scope: string, keys: set<K>, members: seq<Mask<K>>)

  datatype ClaimRelation = ClaimRelation(shape: string, left: string, right: string, kind: Relation)

  // ---- which masks take part ----------------------------------------------------------------

  /** Derivable, and neither impossible nor as large as the whole space. */
  predicate TakesPart<K(!new)>(m: Mask<K>, total: nat) {
    m.status == Derivable && 0 < |m.keys| < total
  }

  function UsableMasks<K(!new)>(masks: seq<Mask<K>>, total: nat): (r: seq<Mask<K>>)
    ensures forall m :: m in r <==> m in masks && m.status == Derivable && m.keys != {} && |m.keys| < total
  {
    if masks == [] then []
    else
      assert masks == [masks[0]] + masks[1..];
      (if TakesPart(masks[0], total) then [masks[0]] else []) + UsableMasks(masks[1..], total)
  }

  // ---- grouping into claims -----------------------------------------------------------------

  function With<K(!new)>(masks: seq<Mask<K>>, keys: set<K>): (r: seq<Mask<K>>)
    ensures forall m :: m in r <==> m in masks && m.keys == keys
  {
    if masks == [] then []
    else
      var n := |masks| - 1;
      assert masks == masks[..n] + [masks[n]];
      With(masks[..n], keys) + if masks[n].keys == keys then [masks[n]] else []
  }

  function VenueAndKey<K(!new)>(m: Mask<K>): (string, string) {
    (m.venue, m.marketKey)
  }

  function IdOnly(id: string): (string, string) {
    (id, "")
  }

  function ClaimFor<K(!new)>(masks: seq<Mask<K>>, keys: set<K>, space: Space, digest: ClaimDigest<K>): Claim<K> {
    Claim(IdOf(digest, space.shape, keys), space.shape, space.scope, keys, SortBy(VenueAndKey, With(masks, keys)))
  }

  /** One claim for each subset some mask names, in the order of the ids, holding every mask that names
      it in the order of venues and market keys. */
  ghost predicate AreClaimsOf<K(!new)>(
      claims: seq<Claim<K>>, masks: seq<Mask<K>>, space: Space, digest: ClaimDigest<K>)
  {
    && (forall i, j :: 0 <= i < j < |claims| ==> Less(claims[i].claimId, claims[j].claimId))
    && (forall c :: c in claims ==> c == ClaimFor(masks, c.keys, space, digest) && c.members != [])
    && (forall m :: m in masks ==> exists c :: c in claims && c.keys == m.keys)
  }

  method DeriveClaims<K(!new)>(masks: seq<Mask<K>>, space: Space, digest: ClaimDigest<K>)
    returns (claims: seq<Claim<K>>)
    requires Injective(digest)
    ensures AreClaimsOf(claims, UsableMasks(masks, space.total), space, digest)
  {
    var usable := UsableMasks(masks, space.total);
    var ids, grouped, keys := GroupMasks(usable, space, digest);
    var sorted := SortBy(IdOnly, ids);
    SortSorts(IdOnly, ids);
    SameElements(sorted, ids);
    NoneTwiceSorted(sorted, ids);
    hide With, InOrder, SortBy, UsableMasks, IdOf;
    claims := [];
    for i := 0 to |sorted|
      invariant |claims| == i
      invariant forall k :: 0 <= k < i ==> Made(claims[k], sorted[k], usable, space, digest, keys)
    {
      var id := sorted[i];
      assert GroupHolds(usable, space, digest, grouped, keys, id);
      SortKeepsSome(VenueAndKey, grouped[id]);
      claims := claims + [Claim(id, space.shape, space.scope, keys[id], SortBy(VenueAndKey, grouped[id]))];
    }
    EachMade(claims, sorted, usable, space, digest, grouped, keys, ids);
  }

  ghost predicate Made<K(!new)>(
      c: Claim<K>, id: string, masks: seq<Mask<K>>, space: Space, digest: ClaimDigest<K>, keys: map<string, set<K>>)
  {
    && id in keys && c.claimId == id && c.keys == keys[id]
    && c == ClaimFor(masks, c.keys, space, digest) && c.members != []
  }

  lemma EachMade<K(!new)>(
      claims: seq<Claim<K>>, sorted: seq<string>, masks: seq<Mask<K>>, space: Space, digest: ClaimDigest<K>,
      grouped: map<string, seq<Mask<K>>>, keys: map<string, set<K>>, ids: seq<string>)
    requires Injective(digest) && Grouped(masks, space, digest, grouped, keys, ids)
    requires |claims| == |sorted| && forall id :: id in sorted <==> id in ids
    requires forall i, j :: 0 <= i < j < |sorted| ==> Less(sorted[i], sorted[j])
    requires forall k :: 0 <= k < |sorted| ==> Made(claims[k], sorted[k], masks, space, digest, keys)
    ensures AreClaimsOf(claims, masks, space, digest)
  {
    hide With, SortBy, IdOf;
    forall c | c in claims ensures c == ClaimFor(masks, c.keys, space, digest) && c.members != [] {
      var k :| 0 <= k < |claims| && claims[k] == c;
      assert Made(claims[k], sorted[k], masks, space, digest, keys);
    }
    forall m | m in masks ensures exists c :: c in claims && c.keys == m.keys {
      var id := IdOf(digest, space.shape, m.keys);
      assert GroupHolds(masks, space, digest, grouped, keys, id);
      var k :| 0 <= k < |sorted| && sorted[k] == id;
      assert Made(claims[k], sorted[k], masks, space, digest, keys);
      assert claims[k].keys == m.keys && claims[k] in claims;
    }
    forall i, j | 0 <= i < j < |claims| ensures Less(claims[i].claimId, claims[j].claimId) {
      assert Made(claims[i], sorted[i], masks, space, digest, keys);
      assert Made(claims[j], sorted[j], masks, space, digest, keys);
    }
  }

  lemma SortKeepsSome<T>(key: T -> (string, string), xs: seq<T>)
    requires xs != []
    ensures SortBy(key, xs) != []
  {
    SortSorts(key, xs);
    SameElements(SortBy(key, xs), xs);
  }

  /** Groups the masks by the id of the claim each names, ids in the order they first appear. */
  method GroupMasks<K(!new)>(usable: seq<Mask<K>>, space: Space, digest: ClaimDigest<K>)
    returns (ids: seq<string>, grouped: map<string, seq<Mask<K>>>, keys: map<string, set<K>>)
    requires Injective(digest)
    ensures Grouped(usable, space, digest, grouped, keys, ids)
  {
    ids, grouped, keys := [], map[], map[];
    assert usable[..0] == [];
    assert Grouped(usable[..0], space, digest, grouped, keys, ids);
    hide With, GroupHolds, IdOf, Grouped, Injective;
    for i := 0 to |usable|
      invariant Grouped(usable[..i], space, digest, grouped, keys, ids)
    {
      var m := usable[i];
      var id := IdOf(digest, space.shape, m.keys);
      var group := (if id in grouped then grouped[id] else []) + [m];
      GroupNext(usable, i, space, digest, grouped, keys, ids, id, group);
      if id !in grouped {
        ids := ids + [id];
      }
      grouped := grouped[id := group];
      keys := keys[id := m.keys];
    }
    assert usable[..|usable|] == usable;
  }

  lemma GroupNext<K(!new)>(
      usable: seq<Mask<K>>, i: nat, space: Space, digest: ClaimDigest<K>,
      grouped: map<string, seq<Mask<K>>>, keys: map<string, set<K>>, ids: seq<string>, id: string,
      group: seq<Mask<K>>)
    requires Injective(digest) && i < |usable| && Grouped(usable[..i], space, digest, grouped, keys, ids)
    requires id == IdOf(digest, space.shape, usable[i].keys)
    requires group == (if id in grouped then grouped[id] else []) + [usable[i]]
    ensures Grouped(usable[..i + 1], space, digest, grouped[id := group], keys[id := usable[i].keys],
                    if id in grouped then ids else ids + [id])
  {
    hide Grouped, Injective, IdOf;
    assert usable[..i + 1] == usable[..i] + [usable[i]];
    GroupOne(usable[..i], usable[i], space, digest, grouped, keys, ids, id, group);
  }

  lemma GroupOne<K(!new)>(
      before: seq<Mask<K>>, m: Mask<K>, space: Space, digest: ClaimDigest<K>,
      grouped: map<string, seq<Mask<K>>>, keys: map<string, set<K>>, ids: seq<string>, id: string,
      group: seq<Mask<K>>)
    requires Injective(digest) && Grouped(before, space, digest, grouped, keys, ids)
    requires id == IdOf(digest, space.shape, m.keys) && group == (if id in grouped then grouped[id] else []) + [m]
    ensures Grouped(before + [m], space, digest, grouped[id := group], keys[id := m.keys],
                    if id in grouped then ids else ids + [id])
  {
    hide With, IdOf, GroupHolds, Injective;
    forall other | other in grouped || other == id
      ensures GroupHolds(before + [m], space, digest, grouped[id := group], keys[id := m.keys], other)
    {
      if other in grouped {
        GroupGrows(before, m, space, digest, grouped, keys, other, group);
      } else {
        assert group == [m];
        GroupStarts(before, m, space, digest, grouped, keys, ids);
      }
    }
  }

  lemma GroupStarts<K(!new)>(
      masks: seq<Mask<K>>, m: Mask<K>, space: Space, digest: ClaimDigest<K>,
      grouped: map<string, seq<Mask<K>>>, keys: map<string, set<K>>, ids: seq<string>)
    requires Grouped(masks, space, digest, grouped, keys, ids)
    requires IdOf(digest, space.shape, m.keys) !in grouped
    ensures var id := IdOf(digest, space.shape, m.keys);
            GroupHolds(masks + [m], space, digest, grouped[id := [m]], keys[id := m.keys], id)
  {
    NoneYet(masks, space, digest, grouped, keys, ids, m.keys);
    WithOneMore(masks, m, m.keys);
    hide With, Grouped;
  }

  lemma GroupGrows<K(!new)>(
      masks: seq<Mask<K>>, m: Mask<K>, space: Space, digest: ClaimDigest<K>,
      grouped: map<string, seq<Mask<K>>>, keys: map<string, set<K>>, other: string, group: seq<Mask<K>>)
    requires Injective(digest) && GroupHolds(masks, space, digest, grouped, keys, other)
    requires var id := IdOf(digest, space.shape, m.keys); id in grouped ==> group == grouped[id] + [m]
    ensures var id := IdOf(digest, space.shape, m.keys);
            GroupHolds(masks + [m], space, digest, grouped[id := group], keys[id := m.keys], other)
  {
    WithOneMore(masks, m, keys[other]);
    hide With;
  }

  lemma WithOneMore<K(!new)>(masks: seq<Mask<K>>, m: Mask<K>, keys: set<K>)
    ensures With(masks + [m], keys) == With(masks, keys) + if m.keys == keys then [m] else []
  {
    assert (masks + [m])[..|masks|] == masks;
  }

  ghost predicate GroupHolds<K(!new)>(
      masks: seq<Mask<K>>, space: Space, digest: ClaimDigest<K>,
      grouped: map<string, seq<Mask<K>>>, keys: map<string, set<K>>, id: string)
  {
    && id in grouped && id in keys && id == IdOf(digest, space.shape, keys[id])
    && grouped[id] == With(masks, keys[id]) && grouped[id] != []
  }

  /** What grouping holds after a prefix of the masks. */
  ghost predicate Grouped<K(!new)>(
      masks: seq<Mask<K>>, space: Space, digest: ClaimDigest<K>,
      grouped: map<string, seq<Mask<K>>>, keys: map<string, set<K>>, ids: seq<string>)
  {
    && (forall id :: id in ids <==> id in grouped)
    && (forall i, j :: 0 <= i < j < |ids| ==> ids[i] != ids[j])
    && (forall id :: id in grouped ==> GroupHolds(masks, space, digest, grouped, keys, id))
    && (forall m :: m in masks ==> IdOf(digest, space.shape, m.keys) in grouped)
  }

  lemma NoneYet<K(!new)>(
      masks: seq<Mask<K>>, space: Space, digest: ClaimDigest<K>,
      grouped: map<string, seq<Mask<K>>>, keys: map<string, set<K>>, ids: seq<string>, own: set<K>)
    requires Grouped(masks, space, digest, grouped, keys, ids) && IdOf(digest, space.shape, own) !in grouped
    ensures With(masks, own) == []
  {
    SomeIfAny(With(masks, own));
  }

  lemma SomeIfAny<T>(s: seq<T>)
    ensures s != [] ==> exists x :: x in s
  {
    if s != [] { assert s[0] in s; }
  }

  lemma NoneTwiceSorted(sorted: seq<string>, ids: seq<string>)
    requires InOrder(IdOnly, sorted) && multiset(sorted) == multiset(ids)
    requires forall i, j :: 0 <= i < j < |ids| ==> ids[i] != ids[j]
    ensures forall i, j :: 0 <= i < j < |sorted| ==> Less(sorted[i], sorted[j])
  {
    forall i, j | 0 <= i < j < |sorted| ensures Less(sorted[i], sorted[j]) {
      assert IdOnly(sorted[i]) == IdOnly(sorted[j]) || PairLess(IdOnly(sorted[i]), IdOnly(sorted[j]));
      AtMostOnce(ids, sorted[i]);
      TwiceCounts(sorted, i, j);
    }
  }

  lemma {:induction false} AtMostOnce<T>(ids: seq<T>, x: T)
    requires forall i, j :: 0 <= i < j < |ids| ==> ids[i] != ids[j]
    ensures multiset(ids)[x] <= 1
  {
    if ids != [] {
      AtMostOnce(ids[1..], x);
      assert ids == [ids[0]] + ids[1..];
      assert ids[0] !in ids[1..];
      assert ids[0] !in multiset(ids[1..]);
    }
  }

  lemma TwiceCounts<T>(s: seq<T>, i: nat, j: nat)
    requires i < j < |s|
    ensures s[i] == s[j] ==> multiset(s)[s[i]] >= 2
  {
    assert s == s[..i] + [s[i]] + s[i + 1..j] + [s[j]] + s[j + 1..];
  }

  // ---- relating claims ----------------------------------------------------------------------

  /** What two claims in this order contribute: overlaps are dropped, a reversed implication is stored
      the other way round. */
  function Related<K(!new)>(a: Claim<K>, b: Claim<K>, informativeOnly: bool): Option<ClaimRelation> {
    var kind := if a.scope != b.scope then None else RelationOf(a.keys, b.keys);
    if kind.None? || (informativeOnly && kind.value == Overlap) then None
    else if kind.value == ReverseImplication then Some(ClaimRelation(b.shape, b.claimId, a.claimId, Implication))
    else Some(ClaimRelation(a.shape, a.claimId, b.claimId, kind.value))
  }

  function Against<K(!new)>(a: Claim<K>, rest: seq<Claim<K>>, informativeOnly: bool): seq<ClaimRelation> {
    if rest == [] then []
    else
      var n := |rest| - 1;
      Against(a, rest[..n], informativeOnly) +
      match Related(a, rest[n], informativeOnly) case None => [] case Some(rel) => [rel]
  }

  function AllRelated<K(!new)>(claims: seq<Claim<K>>, informativeOnly: bool): seq<ClaimRelation> {
    if claims == [] then []
    else Against(claims[0], claims[1..], informativeOnly) + AllRelated(claims[1..], informativeOnly)
  }

  function ById<K(!new)>(c: Claim<K>): (string, string) {
    (c.claimId, "")
  }

  /** The relations of all pairs, or nothing when the claims come from different shapes. */
  method DeriveClaimAlgebra<K(!new)>(claims: seq<Claim<K>>, informativeOnly: bool)
    returns (r: Option<seq<ClaimRelation>>)
    ensures r.Some? <==> forall a, b :: a in claims && b in claims ==> a.shape == b.shape
    ensures r.Some? ==> r.value == AllRelated(SortBy(ById, claims), informativeOnly)
  {
    var shapes := set c | c in claims :: c.shape;
    OneShape(claims, shapes);
    if |shapes| > 1 {
      return None;
    }
    var sorted, out := SortBy(ById, claims), [];
    for i := 0 to |sorted|
      invariant out + AllRelated(sorted[i..], informativeOnly) == AllRelated(sorted, informativeOnly)
    {
      var own := RelateTo(sorted[i], sorted[i + 1..], informativeOnly);
      assert sorted[i..][1..] == sorted[i + 1..];
      Reassociate(out, own, AllRelated(sorted[i + 1..], informativeOnly));
      out := out + own;
    }
    r := Some(out);
  }

  method RelateTo<K(!new)>(a: Claim<K>, rest: seq<Claim<K>>, informativeOnly: bool) returns (out: seq<ClaimRelation>)
    ensures out == Against(a, rest, informativeOnly)
  {
    out := [];
    for j := 0 to |rest|
      invariant out == Against(a, rest[..j], informativeOnly)
    {
      assert rest[..j + 1][..j] == rest[..j];
      var rel := Related(a, rest[j], informativeOnly);
      if rel.Some? {
        out := out + [rel.value];
      }
    }
    assert rest[..|rest|] == rest;
  }

  lemma Reassociate<T>(x: seq<T>, y: seq<T>, z: seq<T>)
    ensures (x + y) + z == x + (y + z)
  {
  }

  lemma OneShape<K(!new)>(claims: seq<Claim<K>>, shapes: set<string>)
    requires shapes == set c | c in claims :: c.shape
    ensures |shapes| <= 1 <==> forall a, b :: a in claims && b in claims ==> a.shape == b.shape
  {
    if a, b :| a in claims && b in claims && a.shape != b.shape {
      assert {a.shape, b.shape} <= shapes;
      SubsetIsSmaller({a.shape, b.shape}, shapes);
    } else if claims != [] {
      var s := claims[0].shape;
      assert claims[0] in claims;
      assert shapes == {s};
    }
  }

  lemma {:induction false} SubsetIsSmaller(a: set<string>, b: set<string>)
    requires a <= b
    ensures |a| <= |b|
    decreases |b|
  {
    if b != {} {
      var x :| x in b;
      SubsetIsSmaller(a - {x}, b - {x});
    }
  }

  // ---- rebuilding market relations ----------------------------------------------------------

  datatype Group<!K> = Group(claims: seq<Claim<K>>, relations: seq<ClaimRelation>)

  datatype Edge = Edge(low: string, high: string, kind: Relation)

  /** The two keys in order, the kind turned round when that swaps them. */
  function EdgeOf(left: string, right: string, kind: Relation): Edge {
    if Less(right, left) then Edge(right, left, Flipped(kind)) else Edge(left, right, kind)
  }

  /** The claim a dictionary built from the list holds under an id. */
  function Lookup<K(!new)>(claims: seq<Claim<K>>, id: string): Option<Claim<K>> {
    if claims == [] then None
    else if claims[|claims| - 1].claimId == id then Some(claims[|claims| - 1])
    else Lookup(claims[..|claims| - 1], id)
  }

  /** Only markets of different venues are related. */
  predicate PairEdge<K(!new)>(l: Mask<K>, r: Mask<K>, kind: Relation, e: Edge) {
    l.venue != r.venue && e == EdgeOf(l.marketKey, r.marketKey, kind)
  }

  ghost predicate WithinClaim<K(!new)>(c: Claim<K>, e: Edge) {
    exists i, j :: 0 <= i < j < |c.members| && PairEdge(c.members[i], c.members[j], Identity, e)
  }

  ghost predicate AcrossClaims<K(!new)>(a: Claim<K>, b: Claim<K>, kind: Relation, e: Edge) {
    exists l, r :: l in a.members && r in b.members && PairEdge(l, r, kind, e)
  }

  predicate Resolves<K(!new)>(g: Group<K>, rel: ClaimRelation) {
    Lookup(g.claims, rel.left).Some? && Lookup(g.claims, rel.right).Some?
  }

  ghost predicate Implies<K(!new)>(g: Group<K>, e: Edge) {
    || (exists c :: c in g.claims && WithinClaim(c, e))
    || (exists rel :: rel in g.relations && Joins(g, rel, e))
  }

  ghost predicate Joins<K(!new)>(g: Group<K>, rel: ClaimRelation, e: Edge) {
    && Resolves(g, rel)
    && AcrossClaims(Lookup(g.claims, rel.left).value, Lookup(g.claims, rel.right).value, rel.kind, e)
  }

  /** The market relations of some groups, or nothing when a relation names a claim its group lacks. */
  method ImpliedMarketRelations<K(!new)>(groups: seq<Group<K>>) returns (r: Option<set<Edge>>)
    ensures r.Some? <==> forall g, rel :: g in groups && rel in g.relations ==> Resolves(g, rel)
    ensures r.Some? ==> forall e :: e in r.value <==> exists g :: g in groups && Implies(g, e)
  {
    var out: set<Edge> := {};
    for n := 0 to |groups|
      invariant forall g, rel :: g in groups[..n] && rel in g.relations ==> Resolves(g, rel)
      invariant forall e :: e in out <==> exists g :: g in groups[..n] && Implies(g, e)
    {
      var g := groups[n];
      assert groups[..n + 1] == groups[..n] + [g];
      var own := ImpliedByOne(g);
      if own.None? {
        assert g in groups;
        return None;
      }
      out := out + own.value;
    }
    assert groups[..|groups|] == groups;
    r := Some(out);
  }

  method ImpliedByOne<K(!new)>(g: Group<K>) returns (r: Option<set<Edge>>)
    ensures r.Some? <==> forall rel :: rel in g.relations ==> Resolves(g, rel)
    ensures r.Some? ==> forall e :: e in r.value <==> Implies(g, e)
  {
    hide WithinClaim, Joins, Lookup;
    var out: set<Edge> := {};
    for n := 0 to |g.claims|
      invariant forall e :: e in out <==> exists c :: c in g.claims[..n] && WithinClaim(c, e)
    {
      assert g.claims[..n + 1] == g.claims[..n] + [g.claims[n]];
      var own := PairsWithin(g.claims[n]);
      out := out + own;
    }
    assert g.claims[..|g.claims|] == g.claims;
    ghost var within := out;
    for n := 0 to |g.relations|
      invariant forall rel :: rel in g.relations[..n] ==> Resolves(g, rel)
      invariant forall e :: e in out <==> e in within || (exists rel :: rel in g.relations[..n] && Joins(g, rel, e))
    {
      var rel := g.relations[n];
      assert g.relations[..n + 1] == g.relations[..n] + [rel];
      if !Resolves(g, rel) {
        assert rel in g.relations;
        return None;
      }
      var own := EdgesOf(g, rel);
      out := out + own;
    }
    assert g.relations[..|g.relations|] == g.relations;
    r := Some(out);
  }

  method EdgesOf<K(!new)>(g: Group<K>, rel: ClaimRelation) returns (out: set<Edge>)
    requires Resolves(g, rel)
    ensures forall e :: e in out <==> Joins(g, rel, e)
  {
    out := PairsAcross(Lookup(g.claims, rel.left).value, Lookup(g.claims, rel.right).value, rel.kind);
  }

  method PairsWithin<K(!new)>(c: Claim<K>) returns (out: set<Edge>)
    ensures forall e :: e in out <==> WithinClaim(c, e)
  {
    out := {};
    for i := 0 to |c.members|
      invariant forall e :: e in out <==>
                  (exists a, b ::
                     0 <= a < i && a < b < |c.members| && PairEdge(c.members[a], c.members[b], Identity, e))
    {
      ghost var before := out;
      for j := i + 1 to |c.members|
        invariant forall e :: e in out <==>
                    e in before || (exists b :: i < b < j && PairEdge(c.members[i], c.members[b], Identity, e))
      {
        if c.members[i].venue != c.members[j].venue {
          out := out + {EdgeOf(c.members[i].marketKey, c.members[j].marketKey, Identity)};
        }
      }
    }
  }

  method PairsAcross<K(!new)>(a: Claim<K>, b: Claim<K>, kind: Relation) returns (out: set<Edge>)
    ensures forall e :: e in out <==> AcrossClaims(a, b, kind, e)
  {
    out := {};
    for i := 0 to |a.members|
      invariant forall e :: e in out <==>
                  (exists x, y :: 0 <= x < i && 0 <= y < |b.members| && PairEdge(a.members[x], b.members[y], kind, e))
    {
      ghost var before := out;
      for j := 0 to |b.members|
        invariant forall e :: e in out <==>
                    e in before || (exists y :: 0 <= y < j && PairEdge(a.members[i], b.members[y], kind, e))
      {
        if a.members[i].venue != b.members[j].venue {
          out := out + {EdgeOf(a.members[i].marketKey, b.members[j].marketKey, kind)};
        }
      }
    }
    forall e ensures e in out <==> AcrossClaims(a, b, kind, e) {
      if AcrossClaims(a, b, kind, e) {
        var l, r :| l in a.members && r in b.members && PairEdge(l, r, kind, e);
        var x :| 0 <= x < |a.members| && a.members[x] == l;
        var y :| 0 <= y < |b.members| && b.members[y] == r;
      }
    }
  }
}
