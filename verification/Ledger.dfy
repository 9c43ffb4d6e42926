/** The attempt ledger of scheduled game-state pulls: append-only rows, retried with backoff per event, or
    per bundle while its event is not known. */
module Ledger {
  import opened Options

  datatype Outcome =
    | Incomplete | FetchFailed | Unavailable
    | Complete | CompleteInconsistent | TimelineFailed | NoKalshiEvents | NoMilestone | MultipleMilestones
    | TickerNotRelated

  predicate Retried(o: Outcome) {
    o in {Incomplete, FetchFailed, Unavailable}
  }

  datatype Row = Row(event: Option<string>, bundle: string, at: int, outcome: Outcome)

  datatype Key = OfEvent(event: string) | OfBundle(bundle: string)

  const MAX_TRIES := 5
  const HOUR := 3600 * 1_000_000_000

  function KeyOf(r: Row): Key {
    if r.event.Some? then OfEvent(r.event.value) else OfBundle(r.bundle)
  }

  function Under(rows: seq<Row>, key: Key): seq<Row> {
    if rows == [] then []
    else
      var n := |rows| - 1;
      Under(rows[..n], key) + if KeyOf(rows[n]) == key then [rows[n]] else []
  }

  function Retries(rows: seq<Row>): nat {
    if rows == [] then 0 else Retries(rows[..|rows| - 1]) + if Retried(rows[|rows| - 1].outcome) then 1 else 0
  }

  function TwoTo(n: nat): nat {
    if n == 0 then 1 else 2 * TwoTo(n - 1)
  }

  function Wait(attempts: nat): int
    requires attempts > 0
  {
    Min(24, TwoTo(attempts - 1)) * HOUR
  }

  /** Whether a key may be tried now: never tried, or last tried without a final outcome, few enough times
      and long enough ago. */
  predicate Due(rows: seq<Row>, key: Key, now: int) {
    var own := Under(rows, key);
    own == [] ||
    var last, attempts := own[|own| - 1], Retries(own);
    Retried(last.outcome) && attempts < MAX_TRIES && (attempts > 0 ==> now >= last.at + Wait(attempts))
  }

  /** A history of one key: retryable outcomes and then at most one final one, at most five in all, each
      at least 1, 2, 4 and 8 hours after the one before. */
  predicate Orderly(own: seq<Row>) {
    && |own| <= MAX_TRIES
    && forall i :: 0 <= i < |own| - 1 ==>
         Retried(own[i].outcome) && own[i + 1].at >= own[i].at + [1, 2, 4, 8][i] * HOUR
  }

  ghost predicate AllOrderly(rows: seq<Row>) {
    forall key :: Orderly(Under(rows, key))
  }

  lemma {:induction false} AllRetried(own: seq<Row>)
    requires forall i :: 0 <= i < |own| ==> Retried(own[i].outcome)
    ensures Retries(own) == |own|
  {
    if own != [] {
      AllRetried(own[..|own| - 1]);
    }
  }

  lemma WaitsDouble(attempts: nat)
    requires 0 < attempts < MAX_TRIES
    ensures Wait(attempts) == [1, 2, 4, 8][attempts - 1] * HOUR
  {
    assert TwoTo(0) == 1 && TwoTo(1) == 2 && TwoTo(2) == 4 && TwoTo(3) == 8;
  }

  lemma UnderAppend(rows: seq<Row>, r: Row, key: Key)
    ensures Under(rows + [r], key) == Under(rows, key) + if KeyOf(r) == key then [r] else []
  {
    assert (rows + [r])[..|rows|] == rows;
  }

  /** A key is due exactly when another row now keeps its history orderly, whatever the outcome. */
  lemma DueMeansInOrder(rows: seq<Row>, r: Row)
    requires AllOrderly(rows)
    ensures Due(rows, KeyOf(r), r.at) <==> Orderly(Under(rows + [r], KeyOf(r)))
  {
    var own := Under(rows, KeyOf(r));
    UnderAppend(rows, r, KeyOf(r));
    var more := own + [r];
    if own != [] {
      var n := |own|;
      assert Orderly(own);
      assert more[n - 1] == own[n - 1] && more[n] == r;
      if Retried(own[n - 1].outcome) {
        AllRetried(own);
        if n < MAX_TRIES {
          WaitsDouble(n);
        }
      }
      forall i | 0 <= i < n - 1
        ensures Retried(more[i].outcome) && more[i + 1].at >= more[i].at + [1, 2, 4, 8][i] * HOUR
      {
        assert more[i] == own[i] && more[i + 1] == own[i + 1];
      }
    }
  }

  /** When a key that was just tried comes up again: after three of the outcomes only, four times at most,
      and not before 1, 2, 4 and 8 hours have passed. */
  lemma RetriedExactly(rows: seq<Row>, r: Row, later: int)
    requires AllOrderly(rows) && Due(rows, KeyOf(r), r.at)
    ensures var n := |Under(rows, KeyOf(r))|;
            Due(rows + [r], KeyOf(r), later) <==>
              && (r.outcome == Incomplete || r.outcome == FetchFailed || r.outcome == Unavailable)
              && n < 4 && later >= r.at + [1, 2, 4, 8][n] * HOUR
  {
    DueMeansInOrder(rows, r);
    UnderAppend(rows, r, KeyOf(r));
    var own, more := Under(rows, KeyOf(r)), Under(rows, KeyOf(r)) + [r];
    var n := |own|;
    hide Under;
    assert more[n] == r && more[..n] == own;
    forall i | 0 <= i < n ensures Retried(own[i].outcome) {
      assert more[i] == own[i];
    }
    AllRetried(own);
    assert Retries(more) == n + if Retried(r.outcome) then 1 else 0;
    if n < 4 {
      WaitsDouble(n + 1);
    }
  }

  /** Rows appended one at a time, each while its key was due. */
  ghost predicate Grown(before: seq<Row>, after: seq<Row>)
    decreases |after|
  {
    before == after ||
    (|after| > |before| && after[|after| - 1].at >= 0
     && Due(after[..|after| - 1], KeyOf(after[|after| - 1]), after[|after| - 1].at)
     && Grown(before, after[..|after| - 1]))
  }

  /** One growth after another is a growth: what holds of grown ledgers holds over any sequence of passes. */
  lemma {:induction false} GrownOnward(a: seq<Row>, b: seq<Row>, c: seq<Row>)
    requires Grown(a, b) && Grown(b, c)
    ensures Grown(a, c)
    decreases |c|
  {
    if b != c {
      GrownOnward(a, b, c[..|c| - 1]);
      GrownIsLonger(a, c[..|c| - 1]);
    }
  }

  lemma {:induction false} GrownIsLonger(a: seq<Row>, b: seq<Row>)
    requires Grown(a, b)
    ensures a <= b
    decreases |b|
  {
    if a != b {
      GrownIsLonger(a, b[..|b| - 1]);
    }
  }

  /** Whatever the order in which bundles and events came up, every key's history stays orderly. */
  lemma {:induction false} GrowingStaysOrderly(before: seq<Row>, after: seq<Row>)
    requires AllOrderly(before) && Grown(before, after)
    ensures AllOrderly(after)
    decreases |after|
  {
    if before != after {
      var rows, r := after[..|after| - 1], after[|after| - 1];
      GrowingStaysOrderly(before, rows);
      DueMeansInOrder(rows, r);
      assert after == rows + [r];
      forall key ensures Orderly(Under(after, key)) {
        UnderAppend(rows, r, key);
        assert Orderly(Under(rows, key));
      }
    }
  }

  /** A final outcome settles its key: however the ledger grows, the key gets no further row and is never
      due again. */
  lemma {:induction false} FinalIsFinal(rows: seq<Row>, after: seq<Row>, key: Key, now: int)
    requires Grown(rows, after)
    requires Under(rows, key) != [] && !Retried(Under(rows, key)[|Under(rows, key)| - 1].outcome)
    ensures Under(after, key) == Under(rows, key) && !Due(after, key, now)
    decreases |after|
  {
    if rows != after {
      var before, r := after[..|after| - 1], after[|after| - 1];
      FinalIsFinal(rows, before, key, r.at);
      assert after == before + [r];
      UnderAppend(before, r, key);
    }
  }

  // ---- the ledger and one pass --------------------------------------------------------------

  /** What the outside world answers about one bundle. A resolution is nothing while the event has not
      settled; `Fails` stands for any error on the way; a pull may fail as well. */
  datatype Resolution = NotYet | Fails | Resolved(event: string)

  datatype Bundle = Bundle(id: string, valid: bool, resolution: Resolution, pulled: Option<Outcome>)

  datatype Pass = Pass(eligible: nat, attempted: nat, failed: nat)

  predicate CountsAsFailed(o: Outcome) {
    Retried(o) || o == TimelineFailed
  }

  function Failures(rows: seq<Row>): nat {
    if rows == [] then 0
    else Failures(rows[..|rows| - 1]) + if CountsAsFailed(rows[|rows| - 1].outcome) then 1 else 0
  }

  /** The rows of a known event. */
  function Identified(rows: seq<Row>): nat {
    if rows == [] then 0 else Identified(rows[..|rows| - 1]) + if rows[|rows| - 1].event.Some? then 1 else 0
  }

  /** A bundle's event, as far as the map or its resolution tells. */
  function EventOf(events: map<string, string>, b: Bundle): Option<string> {
    if b.id in events then Some(events[b.id])
    else if b.resolution.Resolved? then Some(b.resolution.event)
    else None
  }

  /** A bundle gets a row: its key is due, and so is its event's key once the event is known. */
  predicate GetsRow(rows: seq<Row>, events: map<string, string>, b: Bundle, now: int) {
    && Due(rows, if b.id in events then OfEvent(events[b.id]) else OfBundle(b.id), now)
    && !(b.id !in events && b.resolution.NotYet?)
    && (EventOf(events, b).Some? ==> Due(rows, OfEvent(EventOf(events, b).value), now))
  }

  /** What was mapped stays mapped. */
  predicate Extends(before: map<string, string>, after: map<string, string>) {
    forall b :: b in before ==> b in after && after[b] == before[b]
  }

  function Invalid(bundles: seq<Bundle>): nat {
    if bundles == [] then 0
    else Invalid(bundles[..|bundles| - 1]) + if bundles[|bundles| - 1].valid then 0 else 1
  }

  /** The rows that failed: the answers that may still change, and a timeline that could not be derived. */
  function Failing(rows: seq<Row>): set<int> {
    set i | 0 <= i < |rows| && rows[i].outcome in {Incomplete, FetchFailed, Unavailable, TimelineFailed}
  }

  function Known(rows: seq<Row>): set<int> {
    set i | 0 <= i < |rows| && rows[i].event.Some?
  }

  function Malformed(bundles: seq<Bundle>): set<int> {
    set i | 0 <= i < |bundles| && !bundles[i].valid
  }

  /** The counts of a pass count just these. */
  lemma {:induction false} FailuresAreCounted(rows: seq<Row>)
    ensures Failures(rows) == |Failing(rows)|
  {
    if rows == [] {
      assert Failing(rows) == {};
    } else {
      var n := |rows| - 1;
      FailuresAreCounted(rows[..n]);
      assert Failing(rows) == Failing(rows[..n]) + if CountsAsFailed(rows[n].outcome) then {n} else {};
      assert n !in Failing(rows[..n]);
    }
  }

  lemma {:induction false} KnownAreCounted(rows: seq<Row>)
    ensures Identified(rows) == |Known(rows)|
  {
    if rows == [] {
      assert Known(rows) == {};
    } else {
      var n := |rows| - 1;
      KnownAreCounted(rows[..n]);
      assert Known(rows) == Known(rows[..n]) + if rows[n].event.Some? then {n} else {};
      assert n !in Known(rows[..n]);
    }
  }

  lemma {:induction false} BundlesAreCounted(bundles: seq<Bundle>)
    ensures Invalid(bundles) == |Malformed(bundles)|
  {
    if bundles == [] {
      assert Malformed(bundles) == {};
    } else {
      var n := |bundles| - 1;
      BundlesAreCounted(bundles[..n]);
      assert Malformed(bundles) == Malformed(bundles[..n]) + if bundles[n].valid then {} else {n};
      assert n !in Malformed(bundles[..n]);
    }
  }

  /** The counts over the first `k` bundles and the rows they added. */
  predicate Counted(bundles: seq<Bundle>, k: nat, added: seq<Row>, pass: Pass) {
    && k <= |bundles| && pass.attempted == |added| <= k && pass.eligible == Identified(added)
    && pass.failed == Failures(added) + Invalid(bundles[..k])
  }

  function Plus(added: seq<Row>, r: Option<Row>): seq<Row> {
    if r.Some? then added + [r.value] else added
  }

  function PassPlus(pass: Pass, b: Bundle, r: Option<Row>): Pass {
    Pass(pass.eligible + (if r.Some? && r.value.event.Some? then 1 else 0),
         pass.attempted + (if r.Some? then 1 else 0),
         pass.failed + (if !b.valid || (r.Some? && CountsAsFailed(r.value.outcome)) then 1 else 0))
  }

  lemma OneCounted(bundles: seq<Bundle>, k: nat, added: seq<Row>, pass: Pass, r: Option<Row>)
    requires k < |bundles| && Counted(bundles, k, added, pass) && (r.Some? ==> bundles[k].valid)
    ensures Counted(bundles, k + 1, Plus(added, r), PassPlus(pass, bundles[k], r))
  {
    assert bundles[..k + 1][..k] == bundles[..k];
    if r.Some? {
      assert (added + [r.value])[..|added|] == added;
    }
  }

  datatype Contents = Contents(rows: seq<Row>, events: map<string, string>)

  /** The row a bundle's turn adds, if any: what the pull came to if the event is known, and otherwise that
      the event could not be resolved. */
  function RowFor(c: Contents, b: Bundle, now: int): Option<Row> {
    if !b.valid || !GetsRow(c.rows, c.events, b, now) then None
    else
      var event := EventOf(c.events, b);
      Some(Row(event, b.id, now, if event.Some? && b.pulled.Some? then b.pulled.value else Unavailable))
  }

  /** An event is recorded as soon as it resolves, even if another bundle has already settled it. */
  function EventsFor(c: Contents, b: Bundle, now: int): map<string, string> {
    if b.valid && b.id !in c.events && b.resolution.Resolved? && Due(c.rows, OfBundle(b.id), now) then
      c.events[b.id := b.resolution.event]
    else c.events
  }

  function Turned(c: Contents, b: Bundle, now: int): Contents {
    Contents(Plus(c.rows, RowFor(c, b, now)), EventsFor(c, b, now))
  }

  /** The ledger after these bundles' turns. */
  function Passed(c: Contents, bundles: seq<Bundle>, now: int): Contents {
    if bundles == [] then c
    else Turned(Passed(c, bundles[..|bundles| - 1], now), bundles[|bundles| - 1], now)
  }

  /** What a turn comes to: nothing for a malformed bundle or an event that has not settled; a row under the
      bundle where its event cannot be resolved; and otherwise a row of what the pull came to, under the event. */
  lemma TurnsMean(c: Contents, b: Bundle, now: int)
    ensures !b.valid || (b.id !in c.events && b.resolution.NotYet?) ==> Turned(c, b, now) == c
    ensures b.valid && b.id !in c.events && b.resolution.Fails? ==>
              Turned(c, b, now) ==
              if Due(c.rows, OfBundle(b.id), now)
              then Contents(c.rows + [Row(None, b.id, now, Unavailable)], c.events) else c
    ensures b.valid && (b.id in c.events || (b.resolution.Resolved? && Due(c.rows, OfBundle(b.id), now))) ==>
              var event := if b.id in c.events then c.events[b.id] else b.resolution.event;
              var outcome := match b.pulled case Some(o) => o case None => Unavailable;
              Turned(c, b, now) ==
              Contents(if Due(c.rows, OfEvent(event), now) then c.rows + [Row(Some(event), b.id, now, outcome)]
                       else c.rows,
                       c.events[b.id := event])
  {
    hide Due;
    assert b.id in c.events ==> c.events[b.id := c.events[b.id]] == c.events;
  }

  function KeyNow(c: Contents, b: Bundle): Key {
    if b.id in c.events then OfEvent(c.events[b.id]) else OfBundle(b.id)
  }

  /** A row made now leaves its own key not due, and no other key due that was not. */
  lemma TriedIsNotDue(rows: seq<Row>, r: Row, key: Key)
    requires key == KeyOf(r) || !Due(rows, key, r.at)
    ensures !Due(rows + [r], key, r.at)
  {
    UnderAppend(rows, r, key);
    var own := Under(rows, key);
    hide Under, Retries, KeyOf, Wait;
    if key == KeyOf(r) {
      if Retried(r.outcome) {
        JustTried(own + [r], r);
      }
    } else {
      assert own + [] == own;
    }
  }

  lemma JustTried(own: seq<Row>, r: Row)
    requires own != [] && own[|own| - 1] == r && Retried(r.outcome)
    ensures Retries(own) > 0 && r.at < r.at + Wait(Retries(own))
  {
    AtLeastOne(Retries(own) - 1);
  }

  lemma {:induction false} AtLeastOne(n: nat)
    ensures TwoTo(n) >= 1
  {
    if n > 0 {
      AtLeastOne(n - 1);
    }
  }

  /** A bundle's own turn leaves its key not due, unless its event has not settled yet. */
  lemma TurnSettles(c: Contents, b: Bundle, now: int)
    requires b.valid && (b.id in c.events || !b.resolution.NotYet?)
    ensures !Due(Turned(c, b, now).rows, KeyNow(Turned(c, b, now), b), now)
  {
    var t, r := Turned(c, b, now), RowFor(c, b, now);
    hide Due;
    if r.Some? {
      assert KeyOf(r.value) == KeyNow(t, b);
      TriedIsNotDue(c.rows, r.value, KeyNow(t, b));
    }
  }

  /** Another bundle's turn leaves it so. */
  lemma TurnKeepsSettled(c: Contents, b: Bundle, other: Bundle, now: int)
    requires !Due(c.rows, KeyNow(c, b), now)
    ensures KeyNow(Turned(c, other, now), b) == KeyNow(c, b)
    ensures !Due(Turned(c, other, now).rows, KeyNow(c, b), now)
  {
    var r := RowFor(c, other, now);
    hide Due;
    if r.Some? {
      TriedIsNotDue(c.rows, r.value, KeyNow(c, b));
    }
  }

  /** A pass leaves nothing undone: no bundle it saw is due afterwards, except where the event has not
      settled yet. */
  lemma {:induction false} NothingLeftDue(c: Contents, bundles: seq<Bundle>, now: int, i: nat)
    requires i < |bundles| && bundles[i].valid && (bundles[i].id in c.events || !bundles[i].resolution.NotYet?)
    ensures var after, b := Passed(c, bundles, now), bundles[i];
            !Due(after.rows, KeyNow(after, b), now) && !GetsRow(after.rows, after.events, b, now)
  {
    var n := |bundles| - 1;
    var rest := bundles[..n];
    var before, after, b := Passed(c, rest, now), Passed(c, bundles, now), bundles[i];
    assert after == Turned(before, bundles[n], now);
    hide Passed, Due, Turned, KeyNow, GetsRow;
    if i < n {
      assert rest[i] == b;
      NothingLeftDue(c, rest, now, i);
      TurnKeepsSettled(before, b, bundles[n], now);
    } else {
      if b.id in c.events {
        EventsStay(c, rest, now, b.id);
      }
      TurnSettles(before, b, now);
    }
    NotDueGetsNoRow(after, b, now);
  }

  lemma NotDueGetsNoRow(c: Contents, b: Bundle, now: int)
    requires !Due(c.rows, KeyNow(c, b), now)
    ensures !GetsRow(c.rows, c.events, b, now)
  {
    hide Due;
  }

  lemma {:induction false} EventsStay(c: Contents, bundles: seq<Bundle>, now: int, id: string)
    requires id in c.events
    ensures id in Passed(c, bundles, now).events
  {
    if bundles != [] {
      hide Due;
      EventsStay(c, bundles[..|bundles| - 1], now, id);
    }
  }

  lemma OneMorePassed(c: Contents, bundles: seq<Bundle>, k: nat, now: int)
    requires k < |bundles|
    ensures Passed(c, bundles[..k + 1], now) == Turned(Passed(c, bundles[..k], now), bundles[k], now)
  {
    assert bundles[..k + 1][..k] == bundles[..k];
  }

  /** How far a pass has come: the ledger it found, what it added since, and its counts. */
  ghost predicate Progress(
      start: Contents, now: Contents, at: int, bundles: seq<Bundle>, k: nat, added: seq<Row>, pass: Pass)
  {
    && Grown(start.rows, now.rows) && now.rows == start.rows + added && Extends(start.events, now.events)
    && (forall i :: 0 <= i < |added| ==> added[i].at == at)
    && Counted(bundles, k, added, pass)
  }

  lemma NothingYet(start: Contents, at: int, bundles: seq<Bundle>)
    ensures Progress(start, start, at, bundles, 0, [], Pass(0, 0, 0))
  {
  }

  lemma ProgressMeans(
      start: Contents, now: Contents, at: int, bundles: seq<Bundle>, k: nat, added: seq<Row>, pass: Pass)
    requires Progress(start, now, at, bundles, k, added, pass)
    ensures Grown(start.rows, now.rows) && now.rows == start.rows + added && Extends(start.events, now.events)
    ensures k <= |bundles| && pass.attempted == |added| <= k && pass.eligible == Identified(added)
    ensures pass.failed == Failures(added) + Invalid(bundles[..k]) && forall i :: 0 <= i < |added| ==> added[i].at == at
  {
  }

  lemma OneTurn(
      start: Contents, was: Contents, now: Contents, at: int, bundles: seq<Bundle>, k: nat, added: seq<Row>, pass: Pass,
      r: Option<Row>)
    requires k < |bundles| && Progress(start, was, at, bundles, k, added, pass) && (r.Some? ==> bundles[k].valid)
    requires Grown(was.rows, now.rows) && now.rows == Plus(was.rows, r) && Extends(was.events, now.events)
    requires r.Some? ==> r.value.at == at
    ensures Progress(start, now, at, bundles, k + 1, Plus(added, r), PassPlus(pass, bundles[k], r))
  {
    OneCounted(bundles, k, added, pass, r);
    GrownOnward(start.rows, was.rows, now.rows);
    hide Grown, Counted;
    assert r.Some? ==> (start.rows + added) + [r.value] == start.rows + (added + [r.value]);
  }

  class Store {
    var rows: seq<Row>
    var events: map<string, string>

    constructor ()
      ensures rows == [] && events == map[] && Valid()
    {
      rows, events := [], map[];
    }

    /** Every row of a known event agrees with the immutable map from bundles to events. */
    ghost predicate Valid()
      reads this
    {
      && AllOrderly(rows)
      && forall r :: r in rows && r.event.Some? ==> r.bundle in events && events[r.bundle] == r.event.value
    }

    /** A bundle's event is recorded once; a different one later is refused. */
    method RecordEvent(bundle: string, event: string) returns (ok: bool)
      requires Valid()
      modifies this`events
      ensures Valid() && ok == (bundle !in old(events) || old(events)[bundle] == event)
      ensures events == if ok then old(events)[bundle := event] else old(events)
    {
      if bundle in events {
        ok := events[bundle] == event;
        assert ok ==> events[bundle := event] == events;
      } else {
        assert forall r :: r in rows && r.event.Some? ==> r.bundle != bundle;
        events := events[bundle := event];
        ok := true;
      }
    }

    method Append(r: Row)
      requires Valid() && Due(rows, KeyOf(r), r.at) && r.at >= 0
      requires r.event.Some? ==> r.bundle in events && events[r.bundle] == r.event.value
      modifies this`rows
      ensures Valid() && rows == old(rows) + [r] && Grown(old(rows), rows)
    {
      rows := rows + [r];
      assert rows[..|rows| - 1] == old(rows);
      GrowingStaysOrderly(old(rows), rows);
    }

    /** One pass over the retired bundles, stopping at the pass's limit unless it is a backfill. */
    method Execute(bundles: seq<Bundle>, now: int, most: int, backfill: bool)
      returns (pass: Pass, ghost seen: nat, ghost added: seq<Row>)
      requires Valid() && now >= 0 && most >= 1
      modifies this
      ensures Valid() && Grown(old(rows), rows) && rows == old(rows) + added
      ensures Extends(old(events), events)
      ensures forall i :: 0 <= i < |added| ==> added[i].at == now
      ensures pass.attempted == |added| && (!backfill ==> pass.attempted <= most)
      ensures seen <= |bundles| && (seen < |bundles| ==> !backfill && pass.attempted == most)
      ensures pass.attempted <= seen && pass.eligible == |Known(added)|
      ensures pass.failed == |Failing(added)| + |Malformed(bundles[..seen])|
      ensures Contents(rows, events) == Passed(Contents(old(rows), old(events)), bundles[..seen], now)
    {
      ghost var start := Contents(rows, events);
      NothingYet(start, now, bundles);
      hide Valid, Progress, Grown, Extends, Identified, Failures, Invalid, Passed;
      pass, seen, added := Sweep(bundles, now, most, backfill, start);
      ProgressMeans(start, Contents(rows, events), now, bundles, seen, added, pass);
      FailuresAreCounted(added);
      KnownAreCounted(added);
      BundlesAreCounted(bundles[..seen]);
    }

    /** The loop over the bundles. */
    method Sweep(bundles: seq<Bundle>, now: int, most: int, backfill: bool, ghost start: Contents)
      returns (pass: Pass, ghost seen: nat, ghost added: seq<Row>)
      requires Valid() && now >= 0 && most >= 1
      requires start == Contents(rows, events) && Progress(start, start, now, bundles, 0, [], Pass(0, 0, 0))
      modifies this
      ensures Valid() && Progress(start, Contents(rows, events), now, bundles, seen, added, pass)
      ensures !backfill ==> pass.attempted <= most
      ensures seen <= |bundles| && (seen < |bundles| ==> !backfill && pass.attempted == most)
      ensures Contents(rows, events) == Passed(start, bundles[..seen], now)
    {
      hide Valid, Progress, Due, Orderly, Grown, AllOrderly, Under, Extends, GetsRow, Identified, Failures, Invalid;
      hide Plus, PassPlus, RowFor, Turned;
      assert bundles[..0] == [];
      pass, seen, added := Pass(0, 0, 0), 0, [];
      for k := 0 to |bundles|
        invariant Valid() && seen == k && (!backfill ==> pass.attempted < most)
        invariant Progress(start, Contents(rows, events), now, bundles, k, added, pass)
        invariant Contents(rows, events) == Passed(start, bundles[..k], now)
      {
        ghost var was, counted := Contents(rows, events), pass;
        var r;
        r, pass := Turn(bundles[k], now, pass);
        OneMorePassed(start, bundles, k, now);
        OneTurn(start, was, Contents(rows, events), now, bundles, k, added, counted, r);
        seen, added := k + 1, Plus(added, r);
        if r.Some? && !backfill && pass.attempted >= most {
          break;
        }
      }
    }

    /** One bundle's turn: considered, its row appended, and the counts brought up to date. */
    method Turn(b: Bundle, now: int, pass: Pass) returns (r: Option<Row>, next: Pass)
      requires Valid() && now >= 0
      modifies this
      ensures Valid() && Extends(old(events), events) && Grown(old(rows), rows)
      ensures r == RowFor(Contents(old(rows), old(events)), b, now) && (r.Some? ==> b.valid && r.value.at == now)
      ensures Contents(rows, events) == Turned(Contents(old(rows), old(events)), b, now)
      ensures rows == Plus(old(rows), r) && next == PassPlus(pass, b, r)
      ensures next.attempted == pass.attempted + if r.Some? then 1 else 0
    {
      r, next := None, pass;
      hide GetsRow, Due, AllOrderly;
      if !b.valid {
        next := next.(failed := next.failed + 1);
        return;
      }
      var tried;
      r, tried := Consider(b, now);
      if tried {
        next := next.(eligible := next.eligible + 1);
      }
      if r.None? {
        return;
      }
      Append(r.value);
      next := next.(attempted := next.attempted + 1);
      if CountsAsFailed(r.value.outcome) {
        next := next.(failed := next.failed + 1);
      }
    }

    /** What one bundle adds, if anything: its key must be due, and once its event is known the event's
        key as well, because another bundle may have settled it. */
    method Consider(b: Bundle, now: int) returns (r: Option<Row>, tried: bool)
      requires Valid() && now >= 0 && b.valid
      modifies this`events
      ensures Valid() && Extends(old(events), events)
      ensures r == RowFor(Contents(rows, old(events)), b, now)
      ensures events == EventsFor(Contents(rows, old(events)), b, now)
      ensures r.Some? ==>
                && r.value.at == now && Due(rows, KeyOf(r.value), now)
                && (r.value.event.Some? ==> r.value.bundle in events && events[r.value.bundle] == r.value.event.value)
      ensures tried == (r.Some? && r.value.event.Some?)
    {
      tried := false;
      var event := if b.id in events then Some(events[b.id]) else None;
      if !Due(rows, if event.Some? then OfEvent(event.value) else OfBundle(b.id), now) {
        return None, tried;
      }
      if event.None? {
        match b.resolution {
          case NotYet => return None, tried;
          case Fails => return Some(Row(None, b.id, now, Unavailable)), tried;
          case Resolved(e) =>
            var recorded := RecordEvent(b.id, e);
            event := Some(e);
            if !Due(rows, OfEvent(e), now) {
              return None, tried;
            }
        }
      }
      tried := true;
      r := Some(Row(event, b.id, now, if b.pulled.Some? then b.pulled.value else Unavailable));
    }
  }
}
