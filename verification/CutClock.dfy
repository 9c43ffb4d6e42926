/** The replay clock: which cuts it accepts, which scope boundaries it crosses, and the partition of the
    request that preparation demands of the scopes. */
module CutClock {
  import opened Options

  datatype Interval = Interval(start: int, end: int)

  datatype LowerBound = Clip | ExpandToWindowStart | RequireWindowBoundary

  datatype Request = Request(start: int, end: int, lowerBound: LowerBound, scopes: seq<Interval>)

  const MAX_OCCURRENCES := 128

  // ---- the partition that preparation demands -----------------------------------------------

  predicate Partition(occurrences: seq<Interval>, start: int, end: int) {
    && occurrences != [] && occurrences[0].start == start && occurrences[|occurrences| - 1].end == end
    && (forall i :: 0 <= i < |occurrences| ==> occurrences[i].start < occurrences[i].end)
    && (forall i :: 0 < i < |occurrences| ==> occurrences[i - 1].end == occurrences[i].start)
  }

  method ValidatePartition(occurrences: seq<Interval>, start: int, end: int) returns (ok: bool)
    requires forall i :: 0 <= i < |occurrences| ==> 0 <= occurrences[i].start && 0 <= occurrences[i].end
    ensures ok <==> start < end && |occurrences| <= MAX_OCCURRENCES && Partition(occurrences, start, end)
  {
    if start >= end || occurrences == [] || |occurrences| > MAX_OCCURRENCES {
      if start >= end && Partition(occurrences, start, end) {
        StartsRise(occurrences, start, end, 0, |occurrences| - 1);
      }
      return false;
    }
    var cursor := start;
    for i := 0 to |occurrences|
      invariant cursor == if i == 0 then start else occurrences[i - 1].end
      invariant cursor <= end && (i > 0 ==> occurrences[0].start == start)
      invariant forall k :: 0 <= k < i ==> occurrences[k].start < occurrences[k].end
      invariant forall k :: 0 < k < i ==> occurrences[k - 1].end == occurrences[k].start
    {
      if occurrences[i].start != cursor {
        return false;
      }
      cursor := occurrences[i].end;
      if !(occurrences[i].start < cursor <= end) {
        if Partition(occurrences, start, end) {
          EndsRise(occurrences, start, end, i);
        }
        return false;
      }
    }
    ok := cursor == end;
  }

  lemma {:induction false} StartsRise(occurrences: seq<Interval>, start: int, end: int, i: nat, j: nat)
    requires Partition(occurrences, start, end) && i <= j < |occurrences|
    ensures occurrences[i].start <= occurrences[j].start && (i < j ==> occurrences[i].end <= occurrences[j].start)
    decreases j - i
  {
    if i < j {
      StartsRise(occurrences, start, end, i, j - 1);
    }
  }

  lemma EndsRise(occurrences: seq<Interval>, start: int, end: int, i: nat)
    requires Partition(occurrences, start, end) && i < |occurrences|
    ensures start <= occurrences[i].start < occurrences[i].end <= end
  {
    StartsRise(occurrences, start, end, 0, i);
    StartsRise(occurrences, start, end, i, |occurrences| - 1);
  }

  predicate Within(t: int, i: Interval) {
    i.start <= t < i.end
  }

  ghost predicate InExactlyOne(occurrences: seq<Interval>, t: int) {
    exists i :: OnlyOne(occurrences, t, i)
  }

  ghost predicate OnlyOne(occurrences: seq<Interval>, t: int, i: int) {
    && 0 <= i < |occurrences| && Within(t, occurrences[i])
    && forall j :: 0 <= j < |occurrences| && Within(t, occurrences[j]) ==> j == i
  }

  /** A list of intervals in order covers each instant of the request once, and no other instant. */
  ghost predicate CoversOnce(occurrences: seq<Interval>, start: int, end: int) {
    && (forall i :: 0 <= i < |occurrences| ==> occurrences[i].start < occurrences[i].end)
    && (forall i, j :: 0 <= i < j < |occurrences| ==> occurrences[i].start < occurrences[j].start)
    && (forall t :: start <= t < end ==> InExactlyOne(occurrences, t))
    && (forall i, t :: 0 <= i < |occurrences| && Within(t, occurrences[i]) ==> start <= t < end)
  }

  /** The explicit intervals partition the request exactly when they cover each of its instants once. */
  lemma PartitionMeansCoversOnce(occurrences: seq<Interval>, start: int, end: int)
    requires start < end
    ensures Partition(occurrences, start, end) <==> CoversOnce(occurrences, start, end)
  {
    if Partition(occurrences, start, end) {
      PartitionCovers(occurrences, start, end);
    }
    if CoversOnce(occurrences, start, end) {
      CoveringIsPartition(occurrences, start, end);
    }
  }

  lemma PartitionCovers(occurrences: seq<Interval>, start: int, end: int)
    requires start < end && Partition(occurrences, start, end)
    ensures CoversOnce(occurrences, start, end)
  {
    forall i, j | 0 <= i < j < |occurrences| ensures occurrences[i].end <= occurrences[j].start {
      StartsRise(occurrences, start, end, i, j);
    }
    forall i | 0 <= i < |occurrences| ensures start <= occurrences[i].start < occurrences[i].end <= end {
      EndsRise(occurrences, start, end, i);
    }
    forall t | start <= t < end ensures InExactlyOne(occurrences, t) {
      var i := Holder(occurrences, start, end, t, |occurrences|);
      assert OnlyOne(occurrences, t, i);
    }
  }

  lemma {:induction false} Holder(occurrences: seq<Interval>, start: int, end: int, t: int, n: nat) returns (i: nat)
    requires Partition(occurrences, start, end) && 0 < n <= |occurrences| && start <= t < occurrences[n - 1].end
    ensures i < n && Within(t, occurrences[i])
  {
    if occurrences[n - 1].start <= t {
      i := n - 1;
    } else {
      i := Holder(occurrences, start, end, t, n - 1);
    }
  }

  lemma CoveringIsPartition(occurrences: seq<Interval>, start: int, end: int)
    requires start < end && CoversOnce(occurrences, start, end)
    ensures Partition(occurrences, start, end)
  {
    assert InExactlyOne(occurrences, start) && InExactlyOne(occurrences, end - 1);
    var n := |occurrences|;
    assert Within(occurrences[0].start, occurrences[0]);
    forall i | 0 < i < n ensures occurrences[i - 1].end == occurrences[i].start {
      NoGap(occurrences, start, end, i);
    }
    LastReaches(occurrences, start, end);
  }

  lemma NoGap(occurrences: seq<Interval>, start: int, end: int, i: nat)
    requires start < end && CoversOnce(occurrences, start, end) && 0 < i < |occurrences|
    ensures occurrences[i - 1].end == occurrences[i].start
  {
    var a, b := occurrences[i - 1], occurrences[i];
    assert Within(b.start, b) && Within(a.end - 1, a);
    assert InExactlyOne(occurrences, b.start);
    if a.end < b.start {
      assert start <= a.end < end;
      assert InExactlyOne(occurrences, a.end);
      var j :| OnlyOne(occurrences, a.end, j);
      assert j < i - 1;
      assert Within(a.start, a) && InExactlyOne(occurrences, a.start);
      assert Within(a.start, occurrences[j]);
    }
  }

  lemma LastReaches(occurrences: seq<Interval>, start: int, end: int)
    requires start < end && CoversOnce(occurrences, start, end) && occurrences != []
    ensures occurrences[|occurrences| - 1].end == end
  {
    var n := |occurrences|;
    var a := occurrences[n - 1];
    assert Within(a.end - 1, a) && Within(a.start, a);
    if a.end < end {
      assert InExactlyOne(occurrences, a.end);
      var j :| OnlyOne(occurrences, a.end, j);
      assert InExactlyOne(occurrences, a.start);
      assert Within(a.start, occurrences[j]);
    }
  }

  // ---- the clock ----------------------------------------------------------------------------

  datatype Span = Span(start: int, end: int, pin: string)

  /** Where a cut comes from: a window of its own, or a group of changes inside the current window. */
  datatype Origin = WindowCut(window: Span) | GroupCut(pin: string, visible: int)

  datatype Clock = Clock(time: int, scope: nat, window: Option<Span>)

  datatype Crossing = Crossing(leaving: nat, boundary: int, entering: nat)

  datatype Seen = Accepted(raw: int, effective: int) | Refused

  /** When a cut is accepted, and the window the clock holds afterwards either way. */
  function WindowAfter(r: Request, c: Clock, cut: Origin): Option<Span> {
    if cut.WindowCut? && WindowFits(r, c, cut.window) then Some(cut.window) else c.window
  }

  predicate WindowFits(r: Request, c: Clock, w: Span) {
    if c.window.None? then w.start <= r.start < w.end else w.start == c.window.value.end
  }

  predicate GroupFits(r: Request, c: Clock, pin: string, raw: int) {
    && c.window.Some? && pin == c.window.value.pin
    && c.window.value.start <= raw < c.window.value.end
    && (raw >= r.start || r.lowerBound == ExpandToWindowStart)
  }

  function Raw(cut: Origin): int {
    match cut case WindowCut(w) => w.start case GroupCut(_, visible) => visible
  }

  function SeenAs(r: Request, c: Clock, cut: Origin): Seen {
    var effective := Max(Raw(cut), r.start);
    if (if cut.WindowCut? then WindowFits(r, c, cut.window) else GroupFits(r, c, cut.pin, cut.visible))
       && c.time <= effective < r.end
    then Accepted(Raw(cut), effective) else Refused
  }

  /** The boundaries passed by `time`, starting from a scope. */
  function Crossed(scopes: seq<Interval>, scope: nat, time: int): seq<Crossing>
    decreases |scopes| - scope
  {
    if scope + 1 < |scopes| && scopes[scope].end <= time
    then [Crossing(scope, scopes[scope].end, scope + 1)] + Crossed(scopes, scope + 1, time) else []
  }

  class CutClock {
    const request: Request
    var clock: Clock

    constructor (request: Request)
      ensures this.request == request && clock == Clock(request.start, 0, None)
    {
      this.request := request;
      clock := Clock(request.start, 0, None);
    }

    method Observe(cut: Origin) returns (seen: Seen)
      modifies this
      ensures seen == SeenAs(request, old(clock), cut)
      ensures clock.window == WindowAfter(request, old(clock), cut) && clock.scope == old(clock).scope
      ensures clock.time == if seen.Accepted? then seen.effective else old(clock).time
    {
      var raw := Raw(cut);
      if cut.WindowCut? {
        if clock.window.None? {
          if !(raw <= request.start < cut.window.end) {
            return Refused;
          }
        } else if cut.window.start != clock.window.value.end {
          return Refused;
        }
        clock := clock.(window := Some(cut.window));
      } else {
        if clock.window.None? || cut.pin != clock.window.value.pin {
          return Refused;
        }
        if !(clock.window.value.start <= raw < clock.window.value.end) {
          return Refused;
        }
        if raw < request.start && request.lowerBound != ExpandToWindowStart {
          return Refused;
        }
      }
      var effective := Max(raw, request.start);
      if !(clock.time <= effective < request.end) {
        return Refused;
      }
      clock := clock.(time := effective);
      seen := Accepted(raw, effective);
    }

    /** Yields each boundary passed, oldest first, and moves the clock to `time`, wherever it was. */
    method Advance(time: int) returns (crossings: seq<Crossing>)
      modifies this
      ensures crossings == Crossed(request.scopes, old(clock).scope, time)
      ensures clock == Clock(time, old(clock).scope + |crossings|, old(clock).window)
    {
      crossings := [];
      while clock.scope + 1 < |request.scopes| && request.scopes[clock.scope].end <= time
        invariant clock == old(clock).(scope := old(clock).scope + |crossings|)
        invariant crossings + Crossed(request.scopes, clock.scope, time) ==
                  Crossed(request.scopes, old(clock).scope, time)
        decreases |request.scopes| - clock.scope
      {
        var boundary, was := request.scopes[clock.scope].end, clock.scope;
        clock := clock.(scope := clock.scope + 1);
        crossings := crossings + [Crossing(was, boundary, clock.scope)];
      }
      clock := clock.(time := time);
    }

    method Terminal() returns (end: Option<int>)
      ensures end == if clock.window.Some? && clock.window.value.end >= request.end then Some(request.end) else None
    {
      if clock.window.None? || clock.window.value.end < request.end {
        return None;
      }
      end := Some(request.end);
    }
  }

  // ---- the runtime that drives the clock ----------------------------------------------------

  /** The strategy runtime as far as it touches its clock. `staged` is the instant whose evaluation is
      still pending; what an instant evaluates is left open. */
  class Runtime {
    const clock: CutClock
    var staged: Option<int>

    ghost predicate Valid()
      reads this, clock
    {
      && clock.request.start < clock.request.end
      && Partition(clock.request.scopes, clock.request.start, clock.request.end)
      && (staged.None? || staged == Some(clock.clock.time))
    }

    constructor (request: Request)
      requires request.start < request.end && Partition(request.scopes, request.start, request.end)
      ensures Valid() && fresh(clock) && clock.request == request
      ensures clock.clock == Clock(request.start, 0, None) && staged == Some(request.start)
    {
      clock := new CutClock(request);
      staged := Some(request.start);
    }

    /** Only one instant is ever pending. */
    method Stage(time: int)
      requires staged.None? || staged == Some(time)
      modifies this`staged
      ensures staged == Some(time)
    {
      staged := Some(time);
    }

    /** Goes through the boundaries up to `time` one by one, advancing the clock to each of them, and only
        then sets the clock to `time`. Releases and timers due on the way may stage an evaluation. */
    method AdvanceTo(time: int) returns (crossings: seq<Crossing>)
      requires staged.None?
      requires var r := clock.request; Partition(r.scopes, r.start, r.end)
      modifies this`staged, clock
      ensures var before := old(clock.clock);
              && crossings == Crossed(clock.request.scopes, before.scope, time)
              && clock.clock == Clock(time, before.scope + |crossings|, before.window)
      ensures staged.None? || staged == Some(time)
    {
      crossings := [];
      ghost var r, before := clock.request, clock.clock;
      hide Partition, Crossed;
      while clock.clock.scope + 1 < |clock.request.scopes| && clock.request.scopes[clock.clock.scope].end <= time
        invariant clock.clock.scope == before.scope + |crossings| && clock.clock.window == before.window
        invariant crossings + Crossed(r.scopes, clock.clock.scope, time) == Crossed(r.scopes, before.scope, time)
        invariant staged.None? || (staged == Some(time) && Crossed(r.scopes, clock.clock.scope, time) == [])
        decreases |clock.request.scopes| - clock.clock.scope
      {
        OneBoundary(r, clock.clock.scope);
        SomethingMore(r, clock.clock.scope, time);
        ghost var rest := Crossed(r.scopes, clock.clock.scope + 1, time);
        ghost var done := crossings;
        var more := StopAt(time);
        Joined(done, more, rest);
        crossings := crossings + more;
      }
      NothingMore(r, clock.clock.scope, time);
      assert crossings + [] == crossings;
      var affected: bool := *;
      if affected {
        Stage(time);
      }
      clock.clock := clock.clock.(time := time);
    }

    /** One turn of the loop: the clock is advanced to the next boundary, and what is staged there is done
        with before the time moves on. */
    method StopAt(time: int) returns (more: seq<Crossing>)
      requires staged.None?
      requires var scopes, scope := clock.request.scopes, clock.clock.scope;
               scope + 1 < |scopes| && scopes[scope].end <= time
      requires Partition(clock.request.scopes, clock.request.start, clock.request.end)
      modifies this`staged, clock
      ensures var before := old(clock.clock);
              var at := clock.request.scopes[before.scope].end;
              && more == [Crossing(before.scope, at, before.scope + 1)]
              && clock.clock == Clock(at, before.scope + 1, before.window)
              && (staged.None? || (staged == Some(time) && at == time))
    {
      var at := clock.request.scopes[clock.clock.scope].end;
      OneBoundary(clock.request, clock.clock.scope);
      hide Partition, Crossed;
      more := clock.Advance(at);
      var affected: bool := *;
      if affected {
        Stage(at);
      }
      if at < time {
        staged := None;
      }
    }

    /** Finishes an earlier instant that is still pending; a cut of the pending instant itself advances nothing. */
    method CatchUp(time: int) returns (more: seq<Crossing>)
      requires var r := clock.request; Partition(r.scopes, r.start, r.end)
      requires clock.clock.time == time
      requires staged.Some? ==>
                 && staged.value <= time
                 && (staged.value == time ==> Crossed(clock.request.scopes, clock.clock.scope, time) == [])
      modifies this`staged, clock
      ensures var before := old(clock.clock);
              && more == Crossed(clock.request.scopes, before.scope, time)
              && clock.clock == Clock(time, before.scope + |more|, before.window)
      ensures staged.None? || staged == Some(time)
    {
      hide Partition, Crossed;
      more := [];
      if staged.Some? && time > staged.value {
        staged := None;
        more := AdvanceTo(time);
      } else if staged.None? {
        more := AdvanceTo(time);
      }
    }

    /** One cut. A cut of the instant that is still pending does not advance anything. */
    method Cut(ghost cuts: seq<Origin>, ghost times: seq<int>, ghost crossings: seq<Crossing>, cut: Origin)
      returns (seen: Seen, more: seq<Crossing>)
      requires Valid() && OnTrack(clock.request, cuts, times, clock.clock, crossings)
      modifies this`staged, clock
      ensures seen.Accepted? <==>
                Fits(clock.request, Windows(cuts), cut) && InTime(clock.request, cuts, cut)
      ensures seen.Accepted? ==>
                && Valid()
                && OnTrack(clock.request, cuts + [cut], times + [seen.effective], clock.clock, crossings + more)
    {
      ghost var before := clock.clock;
      hide OnTrack, Crossed, Partition, SeenAs, WindowAfter, ScopeHolds, InStep, Windows, Fits, InTime;
      TrackSees(clock.request, cuts, times, before, crossings, cut);
      SameInstant(clock.request, cuts, times, before, crossings, cut);
      more := [];
      seen := clock.Observe(cut);
      if seen == Refused {
        return;
      }
      more := CatchUp(seen.effective);
      var affected: bool := *;
      if affected {
        Stage(seen.effective);
      }
      TrackGrows(clock.request, cuts, times, before, crossings, cut);
    }

    /** A whole run from the start: every cut, and the end advanced to after the last. */
    method Follow(cuts: seq<Origin>) returns (accepted: bool, ghost times: seq<int>, crossings: seq<Crossing>)
      requires Valid() && clock.clock == Clock(clock.request.start, 0, None)
      modifies this`staged, clock
      ensures accepted <==> Acceptable(clock.request, cuts)
      ensures accepted ==>
                && InStep(clock.request, cuts, times) && Tiled(clock.request, Windows(cuts))
                && crossings == Boundaries(clock.request.scopes, |clock.request.scopes| - 1)
    {
      times, crossings := [], [];
      ghost var done: seq<Origin> := [];
      StartsOnTrack(clock.request);
      hide OnTrack, Crossed, Tiled, Partition, InStep, Windows, Boundaries, Fits, InTime, AllFit;
      NothingUnfit(clock.request);
      for k := 0 to |cuts|
        invariant done == cuts[..k] && AllFit(clock.request, done)
        invariant Valid() && OnTrack(clock.request, done, times, clock.clock, crossings)
      {
        OneMoreFits(clock.request, cuts, k);
        var seen, more := Cut(done, times, crossings, cuts[k]);
        if seen == Refused {
          return false, times, crossings;
        }
        done := done + [cuts[k]];
        times, crossings := times + [seen.effective], crossings + more;
      }
      assert done == cuts;
      var more;
      accepted, more := Terminate(cuts, times, crossings);
      crossings := crossings + more;
    }

    /** The end of the run, refused while the windows fall short of it. */
    method Terminate(ghost cuts: seq<Origin>, ghost times: seq<int>, ghost crossings: seq<Crossing>)
      returns (accepted: bool, more: seq<Crossing>)
      requires Valid() && OnTrack(clock.request, cuts, times, clock.clock, crossings)
      modifies this`staged, clock
      ensures accepted <==> Covered(clock.request, Windows(cuts))
      ensures accepted ==>
                && InStep(clock.request, cuts, times) && Tiled(clock.request, Windows(cuts))
                && crossings + more == Boundaries(clock.request.scopes, |clock.request.scopes| - 1)
    {
      TrackCovers(clock.request, cuts, times, clock.clock, crossings);
      hide OnTrack, Crossed, Tiled, Partition, InStep, Windows, Boundaries, Covered;
      var end := clock.Terminal();
      if end.None? {
        return false, [];
      }
      TrackEnds(clock.request, cuts, times, clock.clock, crossings);
      staged := None;
      more := AdvanceTo(end.value);
      accepted := true;
    }
  }

  // ---- the profile that only observes -------------------------------------------------------

  /** The market profile observes every cut and never advances the clock. */
  class MarketProfile {
    const clock: CutClock

    constructor (request: Request)
      ensures fresh(clock) && clock.request == request && clock.clock == Clock(request.start, 0, None)
    {
      clock := new CutClock(request);
    }

    /** A whole run of observations, and the end. */
    method Follow(cuts: seq<Origin>) returns (accepted: bool, times: seq<int>)
      requires clock.clock == Clock(clock.request.start, 0, None)
      modifies clock
      ensures accepted <==> Acceptable(clock.request, cuts)
      ensures accepted ==> InStep(clock.request, cuts, times) && Tiled(clock.request, Windows(cuts))
    {
      times := [];
      ghost var done: seq<Origin> := [];
      hide Watched, InStep, Windows, Tiled, SeenAs, WindowAfter, Fits, InTime, AllFit, Covered;
      WatchStarts(clock.request);
      NothingUnfit(clock.request);
      for k := 0 to |cuts|
        invariant done == cuts[..k] && AllFit(clock.request, done)
        invariant Watched(clock.request, done, times, clock.clock)
      {
        ghost var before := clock.clock;
        OneMoreFits(clock.request, cuts, k);
        WatchedSees(clock.request, done, times, before, cuts[k]);
        var seen := clock.Observe(cuts[k]);
        if seen == Refused {
          return false, times;
        }
        WatchedGrows(clock.request, done, times, before, cuts[k]);
        done, times := done + [cuts[k]], times + [seen.effective];
      }
      assert done == cuts;
      WatchedCovers(clock.request, cuts, times, clock.clock);
      var end := clock.Terminal();
      accepted := end.Some?;
      if accepted {
        WatchedTiles(clock.request, cuts, times, clock.clock);
      }
    }
  }

  /** How far a run of observations has come. */
  ghost predicate Watched(r: Request, cuts: seq<Origin>, times: seq<int>, c: Clock) {
    && InStep(r, cuts, times) && c.time == (if times == [] then r.start else times[|times| - 1])
    && r.start <= c.time && Chained(r, Windows(cuts), c.time, c.window)
  }

  lemma WatchStarts(r: Request)
    ensures Watched(r, [], [], Clock(r.start, 0, None))
  {
  }

  lemma WatchedGrows(r: Request, cuts: seq<Origin>, times: seq<int>, c: Clock, cut: Origin)
    requires Watched(r, cuts, times, c) && SeenAs(r, c, cut).Accepted?
    ensures var time := SeenAs(r, c, cut).effective;
            Watched(r, cuts + [cut], times + [time], Clock(time, c.scope, WindowAfter(r, c, cut)))
  {
    ChainGrows(r, cuts, c, cut);
    StaysInStep(r, cuts, times, cut, SeenAs(r, c, cut).effective);
    hide Chained, Windows, InStep;
  }

  lemma WatchedTiles(r: Request, cuts: seq<Origin>, times: seq<int>, c: Clock)
    requires Watched(r, cuts, times, c) && c.window.Some? && c.window.value.end >= r.end
    ensures InStep(r, cuts, times) && Tiled(r, Windows(cuts))
  {
    ChainTiles(r, Windows(cuts));
  }

  lemma WatchedSees(r: Request, cuts: seq<Origin>, times: seq<int>, c: Clock, cut: Origin)
    requires Watched(r, cuts, times, c)
    ensures SeenAs(r, c, cut).Accepted? <==> Fits(r, Windows(cuts), cut) && InTime(r, cuts, cut)
  {
    FittingIsSeen(r, cuts, times, c, cut);
  }

  lemma WatchedCovers(r: Request, cuts: seq<Origin>, times: seq<int>, c: Clock)
    requires Watched(r, cuts, times, c)
    ensures Covered(r, Windows(cuts)) <==> c.window.Some? && c.window.value.end >= r.end
  {
  }

  // ---- boundaries ---------------------------------------------------------------------------

  lemma Joined(done: seq<Crossing>, more: seq<Crossing>, rest: seq<Crossing>)
    ensures done + (more + rest) == (done + more) + rest
  {
  }

  lemma NothingMore(r: Request, scope: nat, time: int)
    requires scope + 1 >= |r.scopes| || r.scopes[scope].end > time
    ensures Crossed(r.scopes, scope, time) == []
  {
  }

  /** A boundary up to `time` is still to be crossed. */
  lemma SomethingMore(r: Request, scope: nat, time: int)
    requires scope + 1 < |r.scopes| && r.scopes[scope].end <= time
    ensures Crossed(r.scopes, scope, time) != []
  {
  }

  /** In a partition, advancing to the end of a scope crosses that boundary alone. */
  lemma OneBoundary(r: Request, scope: nat)
    requires Partition(r.scopes, r.start, r.end) && scope + 1 < |r.scopes|
    ensures var end := r.scopes[scope].end; Crossed(r.scopes, scope, end) == [Crossing(scope, end, scope + 1)]
    ensures forall time :: r.scopes[scope].end <= time ==>
              Crossed(r.scopes, scope, time) ==
              [Crossing(scope, r.scopes[scope].end, scope + 1)] + Crossed(r.scopes, scope + 1, time)
    ensures Crossed(r.scopes, scope + 1, r.scopes[scope].end) == []
  {
    assert r.scopes[scope + 1].start < r.scopes[scope + 1].end;
  }

  /** A cut is not before the clock's time, and one at that very time has no boundary to cross. */
  lemma SameInstant(
      r: Request, cuts: seq<Origin>, times: seq<int>, c: Clock, crossings: seq<Crossing>, cut: Origin)
    requires OnTrack(r, cuts, times, c, crossings)
    ensures var seen := SeenAs(r, c, cut);
            seen.Accepted? ==>
              c.time <= seen.effective && (seen.effective == c.time ==> Crossed(r.scopes, c.scope, c.time) == [])
  {
  }

  // ---- what an accepted run is --------------------------------------------------------------

  function Windows(cuts: seq<Origin>): seq<Span> {
    if cuts == [] then []
    else
      var n := |cuts| - 1;
      Windows(cuts[..n]) + if cuts[n].WindowCut? then [cuts[n].window] else []
  }

  /** Every cut's time is its own instant or the request's start, inside the request, and never before
      the time of an earlier cut. */
  predicate InStep(r: Request, cuts: seq<Origin>, times: seq<int>) {
    && |times| == |cuts|
    && (forall k :: 0 <= k < |cuts| ==> times[k] == Max(Raw(cuts[k]), r.start) && r.start <= times[k] < r.end)
    && (forall k :: 0 < k < |times| ==> times[k - 1] <= times[k])
  }

  /** A window that covers the request's start or follows the last one; a group of the last window's pin,
      inside that window, and not before the request unless the request reaches back to its window. */
  predicate Fits(r: Request, ws: seq<Span>, cut: Origin) {
    match cut
    case WindowCut(w) => if ws == [] then w.start <= r.start < w.end else w.start == ws[|ws| - 1].end
    case GroupCut(pin, visible) =>
      && ws != [] && ws[|ws| - 1].pin == pin
      && ws[|ws| - 1].start <= visible < ws[|ws| - 1].end
      && (visible >= r.start || r.lowerBound == ExpandToWindowStart)
  }

  /** Before the request's end, and not before the cut before it. */
  predicate InTime(r: Request, cuts: seq<Origin>, cut: Origin) {
    && Max(Raw(cut), r.start) < r.end
    && (cuts != [] ==> Raw(cuts[|cuts| - 1]) <= Max(Raw(cut), r.start))
  }

  ghost predicate AllFit(r: Request, cuts: seq<Origin>) {
    forall k :: 0 <= k < |cuts| ==> Fits(r, Windows(cuts[..k]), cuts[k]) && InTime(r, cuts[..k], cuts[k])
  }

  predicate Covered(r: Request, ws: seq<Span>) {
    ws != [] && ws[|ws| - 1].end >= r.end
  }

  /** Which runs are accepted: every cut fits those before it, and the windows reach the request's end. */
  ghost predicate Acceptable(r: Request, cuts: seq<Origin>) {
    AllFit(r, cuts) && Covered(r, Windows(cuts))
  }

  lemma NothingUnfit(r: Request)
    ensures AllFit(r, [])
  {
  }

  lemma OneMoreFits(r: Request, cuts: seq<Origin>, k: nat)
    requires k < |cuts|
    ensures var fits := Fits(r, Windows(cuts[..k]), cuts[k]) && InTime(r, cuts[..k], cuts[k]);
            && (AllFit(r, cuts[..k] + [cuts[k]]) <==> AllFit(r, cuts[..k]) && fits)
            && (AllFit(r, cuts) ==> fits)
  {
    hide Fits, InTime, Windows;
    var some, more := cuts[..k], cuts[..k] + [cuts[k]];
    assert more[..k] == some;
    assert forall j :: 0 <= j < k ==> more[..j] == some[..j] && more[j] == some[j];
  }

  /** The clock accepts a cut exactly when it fits the run so far. */
  lemma FittingIsSeen(r: Request, cuts: seq<Origin>, times: seq<int>, c: Clock, cut: Origin)
    requires InStep(r, cuts, times) && c.time == (if times == [] then r.start else times[|times| - 1])
    requires Chained(r, Windows(cuts), c.time, c.window)
    ensures SeenAs(r, c, cut).Accepted? <==> Fits(r, Windows(cuts), cut) && InTime(r, cuts, cut)
  {
  }

  /** Windows that follow each other without gap or overlap from before the start on. */
  predicate Chain(r: Request, ws: seq<Span>) {
    && (ws != [] ==> ws[0].start <= r.start < ws[0].end)
    && (forall k :: 0 < k < |ws| ==> ws[k].start == ws[k - 1].end && r.start < ws[k].start)
    && (forall k :: 0 <= k < |ws| - 1 ==> ws[k].start <= ws[k].end)
  }

  predicate Chained(r: Request, ws: seq<Span>, time: int, window: Option<Span>) {
    && Chain(r, ws) && (window.None? <==> ws == [])
    && (ws != [] ==> window == Some(ws[|ws| - 1]) && Max(ws[|ws| - 1].start, r.start) <= time)
  }

  ghost predicate InOneWindow(ws: seq<Span>, t: int) {
    exists k :: 0 <= k < |ws| && ws[k].start <= t < ws[k].end
                && forall j :: 0 <= j < |ws| && ws[j].start <= t < ws[j].end ==> j == k
  }

  /** The windows form one chain, and each instant of the request lies in exactly one of them. */
  ghost predicate Tiled(r: Request, ws: seq<Span>) {
    Chain(r, ws) && forall t :: r.start <= t < r.end ==> InOneWindow(ws, t)
  }

  /** The first `n` boundaries between scopes, in order. */
  function Boundaries(scopes: seq<Interval>, n: nat): seq<Crossing>
    requires n <= |scopes|
  {
    if n == 0 then [] else Boundaries(scopes, n - 1) + [Crossing(n - 1, scopes[n - 1].end, n)]
  }

  /** The scope holds the time; at the request's end the last scope stays. */
  predicate ScopeHolds(r: Request, scope: nat, time: int) {
    scope < |r.scopes| && (Within(time, r.scopes[scope]) || (time == r.end && scope == |r.scopes| - 1))
  }

  /** How far a run has come: its times, its windows, its scope and the boundaries it passed agree. */
  ghost predicate OnTrack(r: Request, cuts: seq<Origin>, times: seq<int>, c: Clock, crossings: seq<Crossing>) {
    && InStep(r, cuts, times) && c.time == (if times == [] then r.start else times[|times| - 1])
    && r.start <= c.time < r.end
    && ScopeHolds(r, c.scope, c.time) && crossings == Boundaries(r.scopes, c.scope)
    && Chained(r, Windows(cuts), c.time, c.window)
  }

  lemma TrackSees(
      r: Request, cuts: seq<Origin>, times: seq<int>, c: Clock, crossings: seq<Crossing>, cut: Origin)
    requires OnTrack(r, cuts, times, c, crossings)
    ensures SeenAs(r, c, cut).Accepted? <==> Fits(r, Windows(cuts), cut) && InTime(r, cuts, cut)
  {
    FittingIsSeen(r, cuts, times, c, cut);
  }

  lemma TrackCovers(r: Request, cuts: seq<Origin>, times: seq<int>, c: Clock, crossings: seq<Crossing>)
    requires OnTrack(r, cuts, times, c, crossings)
    ensures Covered(r, Windows(cuts)) <==> c.window.Some? && c.window.value.end >= r.end
  {
  }

  lemma StartsOnTrack(r: Request)
    requires r.start < r.end && Partition(r.scopes, r.start, r.end)
    ensures OnTrack(r, [], [], Clock(r.start, 0, None), [])
  {
  }

  lemma TrackGrows(r: Request, cuts: seq<Origin>, times: seq<int>, c: Clock, crossings: seq<Crossing>, cut: Origin)
    requires Partition(r.scopes, r.start, r.end) && OnTrack(r, cuts, times, c, crossings)
    requires SeenAs(r, c, cut).Accepted?
    ensures var time := SeenAs(r, c, cut).effective;
            var more := Crossed(r.scopes, c.scope, time);
            var after := Clock(time, c.scope + |more|, WindowAfter(r, c, cut));
            OnTrack(r, cuts + [cut], times + [time], after, crossings + more)
  {
    var time := SeenAs(r, c, cut).effective;
    ChainGrows(r, cuts, c, cut);
    CrossesInto(r, c.scope, time);
    hide Chained, Windows, Crossed, ScopeHolds, Partition;
    StaysInStep(r, cuts, times, cut, time);
  }

  lemma StaysInStep(r: Request, cuts: seq<Origin>, times: seq<int>, cut: Origin, time: int)
    requires InStep(r, cuts, times) && time == Max(Raw(cut), r.start) && r.start <= time < r.end
    requires times == [] || times[|times| - 1] <= time
    ensures InStep(r, cuts + [cut], times + [time])
  {
    var all, longer := cuts + [cut], times + [time];
    forall k | 0 <= k < |all| ensures longer[k] == Max(Raw(all[k]), r.start) && r.start <= longer[k] < r.end {
      if k < |cuts| { assert all[k] == cuts[k] && longer[k] == times[k]; }
    }
    forall k | 0 < k < |longer| ensures longer[k - 1] <= longer[k] {
      if k < |cuts| { assert longer[k - 1] == times[k - 1] && longer[k] == times[k]; }
    }
  }

  lemma TrackEnds(r: Request, cuts: seq<Origin>, times: seq<int>, c: Clock, crossings: seq<Crossing>)
    requires Partition(r.scopes, r.start, r.end) && OnTrack(r, cuts, times, c, crossings)
    requires c.window.Some? && c.window.value.end >= r.end
    ensures InStep(r, cuts, times) && Tiled(r, Windows(cuts))
    ensures crossings + Crossed(r.scopes, c.scope, r.end) == Boundaries(r.scopes, |r.scopes| - 1)
  {
    ChainTiles(r, Windows(cuts));
    CrossesInto(r, c.scope, r.end);
  }

  lemma ChainGrows(r: Request, cuts: seq<Origin>, c: Clock, cut: Origin)
    requires Chained(r, Windows(cuts), c.time, c.window) && c.time >= r.start && SeenAs(r, c, cut).Accepted?
    ensures Chained(r, Windows(cuts + [cut]), SeenAs(r, c, cut).effective, WindowAfter(r, c, cut))
  {
    WindowsGrow(cuts, cut);
    hide Windows;
    if cut.WindowCut? {
      ChainLink(r, Windows(cuts), c, cut.window);
    }
  }

  lemma WindowsGrow(cuts: seq<Origin>, cut: Origin)
    ensures Windows(cuts + [cut]) == Windows(cuts) + if cut.WindowCut? then [cut.window] else []
  {
    assert (cuts + [cut])[..|cuts|] == cuts;
  }

  lemma ChainLink(r: Request, ws: seq<Span>, c: Clock, w: Span)
    requires Chained(r, ws, c.time, c.window) && c.time >= r.start && WindowFits(r, c, w)
    requires c.time <= Max(w.start, r.start) < r.end
    ensures Chained(r, ws + [w], Max(w.start, r.start), Some(w))
  {
    if ws != [] {
      BehindStart(r, ws, c, w);
    }
    var more := ws + [w];
    assert ws == more[..|ws|];
    forall k | 0 < k < |more| ensures more[k].start == more[k - 1].end && r.start < more[k].start {
      if k < |ws| { assert more[k] == ws[k] && more[k - 1] == ws[k - 1]; }
    }
    forall k | 0 <= k < |more| - 1 ensures more[k].start <= more[k].end {
      if k < |ws| - 1 { assert more[k] == ws[k]; }
    }
  }

  /** A window that follows another starts behind the request's start. */
  lemma BehindStart(r: Request, ws: seq<Span>, c: Clock, w: Span)
    requires ws != [] && Chained(r, ws, c.time, c.window) && w.start == ws[|ws| - 1].end
    requires c.time <= Max(w.start, r.start)
    ensures ws[|ws| - 1].start <= ws[|ws| - 1].end && r.start < w.start
  {
    if |ws| > 1 {
      assert r.start < ws[|ws| - 1].start;
    }
  }

  lemma {:induction false} CrossesInto(r: Request, scope: nat, time: int)
    requires Partition(r.scopes, r.start, r.end) && scope < |r.scopes| && r.scopes[scope].start <= time <= r.end
    ensures var n := scope + |Crossed(r.scopes, scope, time)|;
            && n < |r.scopes| && ScopeHolds(r, n, time) && (time == r.end ==> n == |r.scopes| - 1)
            && Boundaries(r.scopes, scope) + Crossed(r.scopes, scope, time) == Boundaries(r.scopes, n)
    decreases |r.scopes| - scope
  {
    if scope + 1 < |r.scopes| && r.scopes[scope].end <= time {
      OneBoundary(r, scope);
      NextStarts(r, scope);
      hide Partition, Crossed, ScopeHolds, Boundaries;
      CrossesInto(r, scope + 1, time);
      OneMore(r.scopes, scope, Crossed(r.scopes, scope + 1, time));
    } else {
      NothingMore(r, scope, time);
      Inside(r, scope, time);
      hide Crossed, Partition, ScopeHolds, Boundaries;
      assert Boundaries(r.scopes, scope) + [] == Boundaries(r.scopes, scope);
    }
  }

  lemma NextStarts(r: Request, scope: nat)
    requires Partition(r.scopes, r.start, r.end) && scope + 1 < |r.scopes|
    ensures r.scopes[scope].end == r.scopes[scope + 1].start
  {
    assert r.scopes[(scope + 1) - 1].end == r.scopes[scope + 1].start;
  }

  lemma OneMore(scopes: seq<Interval>, scope: nat, rest: seq<Crossing>)
    requires scope + 1 < |scopes|
    ensures Boundaries(scopes, scope) + ([Crossing(scope, scopes[scope].end, scope + 1)] + rest) ==
            Boundaries(scopes, scope + 1) + rest
  {
  }

  /** A scope from which nothing is crossed holds the time. */
  lemma Inside(r: Request, scope: nat, time: int)
    requires Partition(r.scopes, r.start, r.end) && scope < |r.scopes| && r.scopes[scope].start <= time <= r.end
    requires scope + 1 == |r.scopes| || time < r.scopes[scope].end
    ensures ScopeHolds(r, scope, time) && (time == r.end ==> scope == |r.scopes| - 1)
  {
    EndsRise(r.scopes, r.start, r.end, scope);
  }

  lemma ChainTiles(r: Request, ws: seq<Span>)
    requires Chain(r, ws) && ws != [] && ws[|ws| - 1].end >= r.end
    ensures Tiled(r, ws)
  {
    forall t | r.start <= t < r.end ensures InOneWindow(ws, t) {
      var k := SpanHolding(r, ws, t, |ws|);
      forall j | 0 <= j < |ws| && ws[j].start <= t < ws[j].end ensures j == k {
        if j < k {
          SpansRise(r, ws, j, k);
        } else if k < j {
          SpansRise(r, ws, k, j);
        }
      }
    }
  }

  lemma {:induction false} SpansRise(r: Request, ws: seq<Span>, j: nat, k: nat)
    requires Chain(r, ws) && j < k < |ws|
    ensures ws[j].end <= ws[k].start
    decreases k
  {
    if j + 1 < k {
      SpansRise(r, ws, j, k - 1);
    }
  }

  lemma {:induction false} SpanHolding(r: Request, ws: seq<Span>, t: int, n: nat) returns (k: nat)
    requires Chain(r, ws) && 0 < n <= |ws| && r.start <= t < ws[n - 1].end
    ensures k < n && ws[k].start <= t < ws[k].end
  {
    if ws[n - 1].start <= t || n == 1 {
      k := n - 1;
    } else {
      k := SpanHolding(r, ws, t, n - 1);
    }
  }

  /** A cut from before the clock's time that is accepted once the clock was advanced to `t`. */
  predicate SlipsIn(r: Request, c: Clock, t: int, cut: Origin) {
    var after := Clock(t, c.scope + |Crossed(r.scopes, c.scope, t)|, c.window);
    SeenAs(r, after, cut).Accepted? && SeenAs(r, after, cut).effective < c.time
  }

  /** Advancing alone guards nothing: with room in the window and in the request before the clock's time,
      an earlier cut can slip in exactly when the clock was advanced to an earlier time. */
  lemma AdvancingTurnsBackExactly(r: Request, c: Clock, t: int)
    requires c.window.Some? && c.window.value.start < c.time <= c.window.value.end && r.start < c.time <= r.end
    ensures (exists cut :: SlipsIn(r, c, t, cut)) <==> t < c.time
  {
    if t < c.time {
      assert SlipsIn(r, c, t, GroupCut(c.window.value.pin, c.time - 1));
    }
  }

  /** One such clock: advanced to the boundary at 4, it accepts a cut at 6 although it had reached 8. */
  lemma AdvancingToABoundaryTurnsBack()
    ensures var r := Request(0, 10, Clip, [Interval(0, 4), Interval(4, 10)]);
            var c := Clock(8, 0, Some(Span(0, 10, "")));
            && Crossed(r.scopes, c.scope, 4) == [Crossing(0, 4, 1)]
            && SeenAs(r, c, GroupCut("", 6)) == Refused
            && SeenAs(r, Clock(4, 1, c.window), GroupCut("", 6)) == Accepted(6, 6)
  {
    var r := Request(0, 10, Clip, [Interval(0, 4), Interval(4, 10)]);
    assert Crossed(r.scopes, 1, 4) == [];
  }
}
