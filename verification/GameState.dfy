/** Projecting a derived match timeline to segment facts, and the strict loader that reads them back. */
module GameState {
  import opened Options

  datatype Side = Home | Away

  /** A stretch of the match; a time or a winner that is not known is `None`. */
  datatype Segment = Segment(
    index: int, start: Option<int>, end: Option<int>, settled: Option<int>, winner: Option<Side>)

  /** A score may be anything the archive carried; `None` is not a whole number. */
  datatype Match = Match(end: int, winner: Option<Side>, home: Option<int>, away: Option<int>)

  /** A derived map, its winner already looked up. `duration` is in nanoseconds, and `homeWon`, `awayWon`
      are the map's own live statistics. */
  datatype MapRow = MapRow(
    index: int, start: Option<int>, close: Option<int>, settlement: Option<int>, winner: Option<Side>,
    duration: Option<int>, homeWon: Option<int>, awayWon: Option<int>)

  datatype Issue = Issue(code: string, map_: Option<int>)

  datatype Timeline = Timeline(maps: seq<MapRow>, match_: Option<Match>, issues: set<Issue>)

  datatype Problem =
    | DecidingWithoutMatchEnd | InconsistentTimeline | UnresolvedSegment | UnresolvedMatch | ScoreMismatch
    | SegmentTimeOrder | LateMarketClose

  datatype Projection = Projection(segments: seq<Segment>, match_: Option<Match>, problems: set<Problem>)

  // ---- the deciding map ---------------------------------------------------------------------

  /** The only issues are that the last map has no market of its own. */
  predicate Deciding(t: Timeline) {
    t.maps != [] &&
    t.issues == {Issue("map_count_difference", None), Issue("map_event_missing", Some(t.maps[|t.maps| - 1].index))}
  }

  function LiveWinner(row: MapRow): Option<Side> {
    if row.homeWon == Some(1) && row.awayWon == Some(0) then Some(Home)
    else if row.homeWon == Some(0) && row.awayWon == Some(1) then Some(Away)
    else None
  }

  function SegmentOf(row: MapRow): Segment {
    Segment(row.index, row.start, row.close, row.settlement, row.winner)
  }

  /** The deciding map ends with the match, and its winner is the series winner if its own statistics
      agree. */
  function Repaired(row: MapRow, m: Match): Segment {
    Segment(row.index, if row.duration.Some? then Some(m.end - row.duration.value) else None, Some(m.end), None,
            if LiveWinner(row) == m.winner then LiveWinner(row) else None)
  }

  function SegmentsOf(t: Timeline): (r: seq<Segment>)
    ensures |r| == |t.maps| && forall i :: 0 <= i < |r| ==> r[i].index == t.maps[i].index
  {
    seq(|t.maps|, i requires 0 <= i < |t.maps| =>
      if i == |t.maps| - 1 && Deciding(t) && t.match_.Some? then Repaired(t.maps[i], t.match_.value)
      else SegmentOf(t.maps[i]))
  }

  // ---- what each problem means --------------------------------------------------------------

  function Wins(segments: seq<Segment>, side: Side): nat {
    if segments == [] then 0
    else Wins(segments[..|segments| - 1], side) + if segments[|segments| - 1].winner == Some(side) then 1 else 0
  }

  predicate Resolved(s: Segment) {
    s.end.Some? && s.winner.Some?
  }

  predicate ScoreKnown(m: Match) {
    m.winner.Some? && m.home.Some? && m.home.value >= 0 && m.away.Some? && m.away.value >= 0
  }

  predicate OutOfOrder(s: Segment) {
    s.end.Some? && ((s.start.Some? && !(0 <= s.start.value <= s.end.value)) ||
                    (s.settled.Some? && s.settled.value < s.end.value))
  }

  /** When a segment begins, as far as is known. */
  function Begins(s: Segment): int
    requires s.end.Some?
  {
    if s.start.Some? then s.start.value else s.end.value
  }

  /** Segment `j` begins before the last one with a known end before it, segment `i`, is over. */
  predicate Clash(segments: seq<Segment>, i: int, j: int) {
    && 0 <= i < j < |segments| && segments[i].end.Some? && segments[j].end.Some?
    && (forall k :: i < k < j ==> segments[k].end.None?)
    && Begins(segments[j]) < segments[i].end.value
  }

  /** The match is over before the last segment with a known end. */
  predicate EndsEarly(segments: seq<Segment>, m: Match, i: int) {
    && 0 <= i < |segments| && segments[i].end.Some? && m.end < segments[i].end.value
    && forall k :: i < k < |segments| ==> segments[k].end.None?
  }

  ghost predicate Has(t: Timeline, p: Problem) {
    var segments := SegmentsOf(t);
    match p
    case DecidingWithoutMatchEnd => Deciding(t) && t.match_.None?
    case InconsistentTimeline => t.issues != {} && !Deciding(t)
    case UnresolvedSegment => exists i :: 0 <= i < |segments| && !Resolved(segments[i])
    case UnresolvedMatch => t.match_.Some? && !ScoreKnown(t.match_.value)
    case ScoreMismatch =>
      && t.match_.Some? && ScoreKnown(t.match_.value) && segments != []
      && (Some(Wins(segments, Home)) != t.match_.value.home || Some(Wins(segments, Away)) != t.match_.value.away)
    case SegmentTimeOrder => exists i :: 0 <= i < |segments| && OutOfOrder(segments[i])
    case LateMarketClose =>
      || (exists i, j :: Clash(segments, i, j))
      || (t.match_.Some? && exists i :: EndsEarly(segments, t.match_.value, i))
  }

  method Project(t: Timeline) returns (r: Projection)
    ensures r.segments == SegmentsOf(t) && r.match_ == t.match_
    ensures forall p :: p in r.problems <==> Has(t, p)
  {
    var segments: seq<Segment> := [];
    for i := 0 to |t.maps|
      invariant |segments| == i && forall k :: 0 <= k < i ==> segments[k] == SegmentOf(t.maps[k])
    {
      segments := segments + [SegmentOf(t.maps[i])];
    }
    var problems: set<Problem>;
    segments, problems := Repair(t, segments);
    hide Clash, EndsEarly, OutOfOrder, Wins, SegmentsOf, ScoreKnown, Deciding, Has;
    var unresolved := exists i :: 0 <= i < |segments| && !Resolved(segments[i]);
    var matched := MatchProblems(segments, t.match_);
    var timed := TimeProblems(segments, t.match_);
    AllNoted(t, problems, unresolved, matched, timed);
    problems := problems + (if unresolved then {UnresolvedSegment} else {}) + matched + timed;
    r := Projection(segments, t.match_, problems);
  }

  ghost predicate RepairNoted(t: Timeline, problems: set<Problem>) {
    forall p :: p in problems <==>
      || (p == DecidingWithoutMatchEnd && Deciding(t) && t.match_.None?)
      || (p == InconsistentTimeline && t.issues != {} && !Deciding(t))
  }

  ghost predicate MatchNoted(segments: seq<Segment>, m: Option<Match>, problems: set<Problem>) {
    forall p :: p in problems <==>
      || (p == UnresolvedMatch && m.Some? && !ScoreKnown(m.value))
      || (p == ScoreMismatch && m.Some? && ScoreKnown(m.value) && segments != []
          && (Some(Wins(segments, Home)) != m.value.home || Some(Wins(segments, Away)) != m.value.away))
  }

  ghost predicate TimeNoted(segments: seq<Segment>, m: Option<Match>, problems: set<Problem>) {
    && problems <= {SegmentTimeOrder, LateMarketClose}
    && (SegmentTimeOrder in problems <==> exists i :: 0 <= i < |segments| && OutOfOrder(segments[i]))
    && (LateMarketClose in problems <==>
          (exists i, j :: Clash(segments, i, j)) || (m.Some? && exists i :: EndsEarly(segments, m.value, i)))
  }

  lemma AllNoted(t: Timeline, repaired: set<Problem>, unresolved: bool, matched: set<Problem>, timed: set<Problem>)
    requires RepairNoted(t, repaired) && MatchNoted(SegmentsOf(t), t.match_, matched)
    requires TimeNoted(SegmentsOf(t), t.match_, timed)
    requires unresolved == exists i :: 0 <= i < |SegmentsOf(t)| && !Resolved(SegmentsOf(t)[i])
    ensures forall p ::
              p in repaired + (if unresolved then {UnresolvedSegment} else {}) + matched + timed <==> Has(t, p)
  {
    hide Clash, EndsEarly, OutOfOrder, Resolved, Wins, SegmentsOf, ScoreKnown, Deciding;
    forall p
      ensures p in repaired + (if unresolved then {UnresolvedSegment} else {}) + matched + timed <==> Has(t, p)
    {
      match p {
        case DecidingWithoutMatchEnd => case InconsistentTimeline => case UnresolvedSegment => case UnresolvedMatch =>
        case ScoreMismatch => case SegmentTimeOrder => case LateMarketClose =>
      }
    }
  }

  /** Settles the deciding map's end and winner, or notes that the timeline contradicts itself. */
  method Repair(t: Timeline, plain: seq<Segment>) returns (segments: seq<Segment>, problems: set<Problem>)
    requires |plain| == |t.maps| && forall k :: 0 <= k < |plain| ==> plain[k] == SegmentOf(t.maps[k])
    ensures segments == SegmentsOf(t) && RepairNoted(t, problems)
  {
    segments, problems := plain, {};
    if Deciding(t) {
      if t.match_.None? {
        problems := {DecidingWithoutMatchEnd};
      } else {
        var last := |segments| - 1;
        segments := segments[last := Repaired(t.maps[last], t.match_.value)];
      }
    } else if t.issues != {} {
      problems := {InconsistentTimeline};
    }
    hide Repaired, LiveWinner;
    assert segments == SegmentsOf(t);
  }

  method MatchProblems(segments: seq<Segment>, m: Option<Match>) returns (problems: set<Problem>)
    ensures MatchNoted(segments, m, problems)
  {
    problems := {};
    if m.Some? {
      if !ScoreKnown(m.value) {
        problems := {UnresolvedMatch};
      } else if segments != []
                && (Some(Wins(segments, Home)) != m.value.home || Some(Wins(segments, Away)) != m.value.away) {
        problems := {ScoreMismatch};
      }
    }
  }

  /** Carries the last known end through the segments. */
  method TimeProblems(segments: seq<Segment>, m: Option<Match>) returns (problems: set<Problem>)
    ensures TimeNoted(segments, m, problems)
  {
    problems := {};
    var previous: Option<int> := None;
    ghost var from := -1;
    for j := 0 to |segments|
      invariant problems <= {SegmentTimeOrder, LateMarketClose}
      invariant SegmentTimeOrder in problems <==> exists i :: 0 <= i < j && OutOfOrder(segments[i])
      invariant LateMarketClose in problems <==> exists a, b :: Clash(segments, a, b) && b < j
      invariant LastEnd(segments, j, previous, from)
    {
      var s := segments[j];
      if s.end.None? {
        continue;
      }
      if OutOfOrder(s) {
        problems := problems + {SegmentTimeOrder};
      }
      if previous.Some? && Begins(s) < previous.value {
        problems := problems + {LateMarketClose};
        assert Clash(segments, from, j);
      }
      previous, from := s.end, j;
    }
    if m.Some? && previous.Some? && m.value.end < previous.value {
      problems := problems + {LateMarketClose};
      assert EndsEarly(segments, m.value, from);
    }
  }

  predicate LastEnd(segments: seq<Segment>, j: int, previous: Option<int>, from: int)
    requires 0 <= j <= |segments|
  {
    && -1 <= from < j && (previous.None? <==> from == -1)
    && (from >= 0 ==> segments[from].end == previous)
    && forall k :: from < k < j ==> segments[k].end.None?
  }

  // ---- the loader ---------------------------------------------------------------------------

  const U64 := 0x1_0000_0000_0000_0000

  predicate Natural(v: int) {
    0 <= v < U64
  }

  predicate NaturalOrNone(v: Option<int>) {
    v.Some? ==> Natural(v.value)
  }

  /** The order, overlap, winner and score checks of the loader. */
  predicate Loads(segments: seq<Segment>, m: Option<Match>) {
    && (forall i :: 0 <= i < |segments| ==> segments[i].end.Some? && SegmentLoads(segments[i]))
    && (forall i :: 0 < i < |segments| ==>
          && segments[i - 1].index < segments[i].index && segments[i - 1].end.value <= Begins(segments[i]))
    && (m.Some? ==>
          && Natural(m.value.end) && (segments != [] ==> segments[|segments| - 1].end.value <= m.value.end)
          && m.value.home.Some? && Natural(m.value.home.value)
          && m.value.away.Some? && Natural(m.value.away.value))
  }

  /** What the loader asks of one segment by itself. */
  predicate SegmentLoads(s: Segment) {
    && Natural(s.index) && s.index > 0
    && NaturalOrNone(s.start) && NaturalOrNone(s.end) && NaturalOrNone(s.settled) && s.end.Some?
    && (s.start.Some? ==> s.start.value <= s.end.value) && (s.settled.Some? ==> s.end.value <= s.settled.value)
  }

  lemma OneMoreLoads(segments: seq<Segment>, k: nat)
    requires k < |segments| && Loads(segments[..k], None) && SegmentLoads(segments[k])
    requires k > 0 ==>
      segments[k - 1].index < segments[k].index
      && segments[k - 1].end.Some? && segments[k - 1].end.value <= Begins(segments[k])
    ensures Loads(segments[..k + 1], None)
  {
    var some, more := segments[..k], segments[..k + 1];
    hide SegmentLoads;
    assert forall i :: 0 <= i < k ==> more[i] == some[i];
    assert more[k] == segments[k];
  }

  method Validate(segments: seq<Segment>, m: Option<Match>) returns (ok: bool)
    ensures ok <==> Loads(segments, m)
  {
    var previousIndex, previousEnd: Option<int> := 0, None;
    for k := 0 to |segments|
      invariant Loads(segments[..k], None)
      invariant if k == 0 then previousIndex == 0 && previousEnd.None?
                else previousIndex == segments[k - 1].index && previousEnd == segments[k - 1].end
    {
      var s := segments[k];
      if !Natural(s.index) || s.index <= previousIndex {
        return false;
      }
      if !NaturalOrNone(s.start) || !NaturalOrNone(s.end) || !NaturalOrNone(s.settled) {
        return false;
      }
      if s.end.None? || (s.start.Some? && s.start.value > s.end.value)
         || (s.settled.Some? && s.settled.value < s.end.value) {
        return false;
      }
      if previousEnd.Some? && Begins(s) < previousEnd.value {
        return false;
      }
      OneMoreLoads(segments, k);
      previousIndex, previousEnd := s.index, s.end;
    }
    assert segments[..|segments|] == segments;
    if m.None? {
      return true;
    }
    if !Natural(m.value.end) || (previousEnd.Some? && m.value.end < previousEnd.value) {
      return false;
    }
    ok := m.value.home.Some? && Natural(m.value.home.value) && m.value.away.Some? && Natural(m.value.away.value);
  }

  // ---- what is complete loads ---------------------------------------------------------------

  /** What deriving a timeline gives: maps in rising order from one on, instants that fit 64 bits. */
  predicate Derived(t: Timeline) {
    && |t.maps| < U64
    && (forall i :: 0 <= i < |t.maps| ==>
          && 0 < t.maps[i].index && Natural(t.maps[i].index)
          && NaturalOrNone(t.maps[i].close) && NaturalOrNone(t.maps[i].settlement))
    && (forall i :: 0 < i < |t.maps| ==> t.maps[i - 1].index < t.maps[i].index)
    && (t.match_.Some? ==> Natural(t.match_.value.end))
  }

  ghost predicate CompleteTimeline(t: Timeline) {
    forall p :: !Has(t, p)
  }

  /** The match's score is one the loader can hold; a caller can read it off the timeline. */
  predicate ScoreFits(m: Match) {
    && (m.home.Some? ==> m.home.value < U64) && (m.away.Some? ==> m.away.value < U64)
  }

  /** A complete projection loads, unless there is a match without any segments whose score does not fit:
      then nothing had checked the score. */
  lemma CompleteLoadsExactly(t: Timeline)
    requires Derived(t) && CompleteTimeline(t)
    ensures Loads(SegmentsOf(t), t.match_) <==> t.maps != [] || t.match_.None? || ScoreFits(t.match_.value)
  {
    assert !Has(t, UnresolvedMatch);
    CompleteSegmentsLoad(t);
    var segments := SegmentsOf(t);
    if t.match_.Some? {
      if segments != [] {
        WinsBound(segments, Home);
        WinsBound(segments, Away);
        assert !Has(t, ScoreMismatch);
      }
      MatchAfterSegments(t);
    }
  }

  lemma CompleteSegmentsLoad(t: Timeline)
    requires Derived(t) && CompleteTimeline(t)
    ensures Loads(SegmentsOf(t), None)
  {
    var segments := SegmentsOf(t);
    assert !Has(t, UnresolvedSegment) && !Has(t, SegmentTimeOrder) && !Has(t, LateMarketClose);
    forall i | 0 <= i < |segments|
      ensures segments[i].end.Some? && NaturalOrNone(segments[i].end) && NaturalOrNone(segments[i].settled)
      ensures !OutOfOrder(segments[i])
    {
      assert Resolved(segments[i]);
    }
    forall i | 0 < i < |segments| ensures segments[i - 1].end.value <= Begins(segments[i]) {
      assert !Clash(segments, i - 1, i);
    }
  }

  /** The other way round: what the loader accepts has no problem of order or overlap. */
  lemma LoadedIsTimely(t: Timeline)
    requires Loads(SegmentsOf(t), t.match_)
    ensures !Has(t, SegmentTimeOrder) && !Has(t, LateMarketClose)
  {
    var segments := SegmentsOf(t);
    forall i | 0 <= i < |segments| ensures segments[i].end.Some? && !OutOfOrder(segments[i]) {
      assert SegmentLoads(segments[i]);
    }
    forall i, j | 0 <= i < j < |segments| ensures !Clash(segments, i, j) {
      assert segments[i + 1].end.Some? && segments[j - 1].end.value <= Begins(segments[j]);
    }
    if t.match_.Some? {
      forall i | 0 <= i < |segments| ensures !EndsEarly(segments, t.match_.value, i) {
        assert segments[|segments| - 1].end.Some?;
      }
    }
  }

  lemma MatchAfterSegments(t: Timeline)
    requires CompleteTimeline(t) && t.match_.Some?
    ensures t.maps != [] ==>
              var s := SegmentsOf(t)[|t.maps| - 1]; s.end.Some? && s.end.value <= t.match_.value.end
  {
    assert !Has(t, UnresolvedSegment) && !Has(t, LateMarketClose);
    if t.maps != [] {
      var last := |t.maps| - 1;
      assert Resolved(SegmentsOf(t)[last]);
      assert !EndsEarly(SegmentsOf(t), t.match_.value, last);
    }
  }

  lemma {:induction false} WinsBound(segments: seq<Segment>, side: Side)
    ensures 0 <= Wins(segments, side) <= |segments|
  {
    if segments != [] {
      WinsBound(segments[..|segments| - 1], side);
    }
  }

  /** The segments the side won. */
  function Won(segments: seq<Segment>, side: Side): set<int> {
    set i | 0 <= i < |segments| && segments[i].winner == Some(side)
  }

  lemma WonGrows(segments: seq<Segment>, side: Side)
    requires segments != []
    ensures var n := |segments| - 1;
            && n !in Won(segments[..n], side)
            && Won(segments, side) ==
               Won(segments[..n], side) + if segments[n].winner == Some(side) then {n} else {}
  {
  }

  lemma {:induction false} WinsCount(segments: seq<Segment>, side: Side)
    ensures Wins(segments, side) == |Won(segments, side)|
  {
    if segments == [] {
      assert Won(segments, side) == {};
    } else {
      WonGrows(segments, side);
      WinsCount(segments[..|segments| - 1], side);
      hide Won;
    }
  }

  /** A map that closes before it starts, or settles before it closes. */
  predicate Untimely(row: MapRow) {
    row.close.Some? && ((row.start.Some? && !(0 <= row.start.value <= row.close.value)) ||
                        (row.settlement.Some? && row.settlement.value < row.close.value))
  }

  /** The problems of a timeline without a deciding map, read off its maps. */
  lemma ProblemsOfTheMaps(t: Timeline)
    requires !Deciding(t)
    ensures Has(t, UnresolvedSegment) <==>
            exists i :: 0 <= i < |t.maps| && (t.maps[i].close.None? || t.maps[i].winner.None?)
    ensures Has(t, SegmentTimeOrder) <==> exists i :: 0 <= i < |t.maps| && Untimely(t.maps[i])
  {
    var segments := SegmentsOf(t);
    forall i | 0 <= i < |t.maps|
      ensures Resolved(segments[i]) <==> t.maps[i].close.Some? && t.maps[i].winner.Some?
      ensures OutOfOrder(segments[i]) <==> Untimely(t.maps[i])
    {
    }
  }

  /** What a complete projection leaves of the timeline's issues: none, or just that the last map has no
      market of its own, which takes both issues and a match. */
  lemma CompleteIssues(t: Timeline)
    requires CompleteTimeline(t) && t.issues != {}
    ensures t.match_.Some? && t.maps != []
    ensures Issue("map_count_difference", None) in t.issues
    ensures forall i :: i in t.issues ==>
              i.code == "map_count_difference" || i == Issue("map_event_missing", Some(t.maps[|t.maps| - 1].index))
    ensures Issue("map_event_missing", Some(t.maps[|t.maps| - 1].index)) in t.issues
  {
    assert !Has(t, InconsistentTimeline) && !Has(t, DecidingWithoutMatchEnd);
  }

  /** When a complete projection gives a match, its segments' wins are the match's score, except that
      without segments nothing ties the score: it agrees then exactly when it is nil to nil. */
  lemma WinsAgreeExactly(t: Timeline)
    requires CompleteTimeline(t) && t.match_.Some?
    ensures && Some(|Won(SegmentsOf(t), Home)|) == t.match_.value.home
            && Some(|Won(SegmentsOf(t), Away)|) == t.match_.value.away
            <==> t.maps != [] || (t.match_.value.home == Some(0) && t.match_.value.away == Some(0))
    ensures t.match_.value.winner.Some?
  {
    assert !Has(t, UnresolvedMatch) && !Has(t, ScoreMismatch);
    WinsCount(SegmentsOf(t), Home);
    WinsCount(SegmentsOf(t), Away);
    if t.maps == [] {
      assert SegmentsOf(t) == [];
    }
  }

  /** A match without segments is complete whatever its score, and the loader refuses a score too large. */
  lemma UncheckedScores(score: int)
    requires score >= 0
    ensures var t := Timeline([], Some(Match(5, Some(Home), Some(score), Some(1))), {});
            && Derived(t) && CompleteTimeline(t)
            && (Loads(SegmentsOf(t), t.match_) <==> score < U64)
            && Some(Wins(SegmentsOf(t), Away)) != t.match_.value.away
  {
    var t := Timeline([], Some(Match(5, Some(Home), Some(score), Some(1))), {});
    assert SegmentsOf(t) == [];
    forall p ensures !Has(t, p) {
      match p {
        case DecidingWithoutMatchEnd => case InconsistentTimeline => case UnresolvedSegment => case UnresolvedMatch =>
        case ScoreMismatch => case SegmentTimeOrder => case LateMarketClose =>
      }
    }
  }

  /** Every segment of a complete projection has a winner; the repaired deciding map has the match's. */
  lemma DecidingMapWinsTheMatch(t: Timeline)
    requires CompleteTimeline(t) && Deciding(t)
    ensures t.match_.Some?
    ensures var last := SegmentsOf(t)[|t.maps| - 1];
            last.end == Some(t.match_.value.end) && last.winner == t.match_.value.winner && last.winner.Some?
            && var row := t.maps[|t.maps| - 1];
               && (last.winner == Some(Home) ==> row.homeWon == Some(1) && row.awayWon == Some(0))
               && (last.winner == Some(Away) ==> row.homeWon == Some(0) && row.awayWon == Some(1))
               && (last.start.Some? <==> row.duration.Some?) && last.settled.None?
               && (last.start.Some? ==> last.start.value + row.duration.value == last.end.value)
  {
    assert !Has(t, DecidingWithoutMatchEnd) && !Has(t, UnresolvedSegment);
    assert Resolved(SegmentsOf(t)[|t.maps| - 1]);
  }
}
