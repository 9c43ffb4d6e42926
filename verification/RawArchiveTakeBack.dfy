/** Taking a receipt back after its sync failed: exactly when that can leave a segment without the proof
    that it was archived. */
module RawArchiveTakeBack {
  import opened Options
  import opened ByteStreams
  import opened Directories
  import opened RawArchive
  import opened RawArchiveOrder

  // ---- one durable write is these stages ----------------------------------------------------

  predicate Own(events: seq<Event>, p: Pid) {
    forall i :: 0 <= i < |events| ==> events[i] in {Step(p), SyncFails(p), Kill(p)}
  }

  /** Whatever a durable write of the receipt can do, the stages from `PublishReceipt` on can do. */
  lemma WritesAreStages(w: World, s: State, p: Pid, ok: bool, tookBack: bool, after: Directory<Name>)
      returns (events: seq<Event>)
    requires p in s.procs && s.procs[p] == PublishReceipt && WriteEnds(s.dir, Marker(w), ok, tookBack, after)
    ensures Own(events, p) && Run(w, s, events) == Some(Idle(s.(dir := after), p))
  {
    if ok {
      events := [Step(p), Step(p)];
      WriteSucceeds(w, s, p);
    } else if tookBack {
      events := WriteTakenBack(w, s, p, after);
    } else if after == s.dir {
      events := [Kill(p)];
      PassesRuns(w, [s, Idle(s, p)], events);
    } else {
      events := [Step(p), Kill(p)];
      WriteLeftVisible(w, s, p);
    }
  }

  /** The state behind `PublishReceipt`. */
  function Added(w: World, s: State, p: Pid): State {
    At(s.(dir := Changed(s.dir, Add(Marker(w)))), p, SyncReceipt)
  }

  lemma WriteSucceeds(w: World, s: State, p: Pid)
    requires p in s.procs && s.procs[p] == PublishReceipt
    ensures Run(w, s, [Step(p), Step(p)]) == Some(Idle(s.(dir := Synced(Changed(s.dir, Add(Marker(w))))), p))
  {
    hide Visible;
    var end := Idle(DoSync(Added(w, s, p)), p);
    assert end.procs == s.procs - {p};
    PassesRuns(w, [s, Added(w, s, p), end], [Step(p), Step(p)]);
  }

  lemma WriteLeftVisible(w: World, s: State, p: Pid)
    requires p in s.procs && s.procs[p] == PublishReceipt
    ensures Run(w, s, [Step(p), Kill(p)]) == Some(Idle(s.(dir := Changed(s.dir, Add(Marker(w)))), p))
  {
    hide Visible;
    var end := Idle(Added(w, s, p), p);
    assert end.procs == s.procs - {p};
    PassesRuns(w, [s, Added(w, s, p), end], [Step(p), Kill(p)]);
  }

  lemma SyncRefused(w: World, s: State, p: Pid)
    requires p in s.procs && s.procs[p] in {SyncReceipt, SyncTakeBack}
    ensures Next(w, s, SyncFails(p)) == Some(if s.procs[p] == SyncReceipt then At(s, p, TakeBack) else Idle(s, p))
  {
  }

  lemma WriteTakenBack(w: World, s: State, p: Pid, after: Directory<Name>) returns (events: seq<Event>)
    requires p in s.procs && s.procs[p] == PublishReceipt && WriteEnds(s.dir, Marker(w), false, true, after)
    ensures Own(events, p) && Run(w, s, events) == Some(Idle(s.(dir := after), p))
  {
    var added := Added(w, s, p);
    var failed := At(added, p, TakeBack);
    var taken := At(Unlink(failed, Marker(w)), p, SyncTakeBack);
    VisibleAfterChange(s.dir, Add(Marker(w)));
    assert Marker(w) in Present(failed);
    hide Visible, Next;
    var end := Idle(s.(dir := after), p);
    assert end.procs == taken.procs - {p} && added.procs[p := TakeBack] == failed.procs;
    StepTaken(w, s, p);
    StepTaken(w, failed, p);
    StepTaken(w, taken, p);
    SyncRefused(w, added, p);
    SyncRefused(w, taken, p);
    var last := if after == Synced(taken.dir) then Step(p) else SyncFails(p);
    events := [Step(p), SyncFails(p), Step(p), last];
    PassesRuns(w, [s, added, failed, taken, end], events);
  }

  /** And the other way round: however the stages run to their end, with kills and failing syncs but nobody
      else in between, it is something a durable write of the receipt does. */
  lemma StagesAreWrites(w: World, s: State, p: Pid, events: seq<Event>)
    requires p in s.procs && s.procs[p] == PublishReceipt && Own(events, p)
    requires Run(w, s, events).Some? && p !in Run(w, s, events).value.procs
    ensures var t := Run(w, s, events).value;
            && t == Idle(s.(dir := t.dir), p)
            && exists ok, tookBack :: WriteEnds(s.dir, Marker(w), ok, tookBack, t.dir)
  {
    WriteGoesOn(w, s, s, p, events);
  }

  /** A write under way since `s`, or over. */
  ghost predicate Writing(w: World, s: State, t: State, p: Pid) {
    var m := Marker(w);
    var added := Changed(s.dir, Add(m));
    && t == (if p in t.procs then At(s.(dir := t.dir), p, t.procs[p]) else Idle(s.(dir := t.dir), p))
    && if p !in t.procs then exists ok, tookBack :: WriteEnds(s.dir, m, ok, tookBack, t.dir)
       else match t.procs[p]
         case PublishReceipt => t.dir == s.dir
         case SyncReceipt => t.dir == added
         case TakeBack => t.dir == added
         case SyncTakeBack => t.dir == Changed(added, Remove(m))
         case _ => false
  }

  lemma WriteStep(w: World, s: State, t: State, p: Pid, e: Event)
    requires Writing(w, s, t, p) && p in s.procs && e in {Step(p), SyncFails(p), Kill(p)} && Next(w, t, e).Some?
    ensures Writing(w, s, Next(w, t, e).value, p)
  {
    var u := Next(w, t, e).value;
    VisibleAfterChange(s.dir, Add(Marker(w)));
    assert s.procs[p := t.procs[p]] - {p} == s.procs - {p};
    if p !in u.procs {
      assert WriteEnds(s.dir, Marker(w), t.procs[p] == SyncReceipt && e.Step?, t.procs[p] == SyncTakeBack, u.dir);
    }
  }

  lemma {:induction false} WriteGoesOn(w: World, s: State, t: State, p: Pid, events: seq<Event>)
    requires p in s.procs && Writing(w, s, t, p) && Own(events, p) && Run(w, t, events).Some?
    ensures Writing(w, s, Run(w, t, events).value, p)
    decreases |events|
  {
    if events != [] {
      WriteStep(w, s, t, p, events[0]);
      WriteGoesOn(w, s, Next(w, t, events[0]).value, p, events[1..]);
    }
  }

  // ---- continuations ------------------------------------------------------------------------

  /** No receipt is taken back any more. */
  predicate Calm(w: World, s: State, events: seq<Event>)
    decreases |events|
  {
    events != [] ==>
      && !(events[0].Step? && events[0].p in s.procs && s.procs[events[0].p] == TakeBack)
      && (Next(w, s, events[0]).Some? ==> Calm(w, Next(w, s, events[0]).value, events[1..]))
  }

  lemma {:induction false} CalmIsHarmless(w: World, s: State, events: seq<Event>)
    requires Calm(w, s, events)
    ensures Harmless(w, s, events)
    decreases |events|
  {
    if events != [] && Next(w, s, events[0]).Some? {
      CalmIsHarmless(w, Next(w, s, events[0]).value, events[1..]);
    }
  }

  /** The source is gone and the proof that it was archived is not there. */
  ghost predicate Unproven(w: World, s: State) {
    Source !in Present(s) && !Evidence(w, s)
  }

  /** These events happen, take nothing back, and end without source and without proof. */
  ghost predicate Loses(w: World, s: State, events: seq<Event>) {
    Run(w, s, events).Some? && Calm(w, s, events) && Unproven(w, Run(w, s, events).value)
  }

  lemma AbsentReceiptProvesNothing(w: World, s: State)
    requires ProductionReceipt !in Present(s)
    ensures !Evidence(w, s)
  {
    ReplayKeeps(s.dir.disk, s.dir.log, ProductionReceipt);
  }

  /** A name removed since the last sync and not added again is not there. */
  lemma {:induction false} RemovedIsAbsent<N>(names: set<N>, log: seq<Change<N>>, n: N)
    requires Add(n) !in log && (n !in names || Remove(n) in log)
    ensures n !in Replay(names, log)
    decreases |log|
  {
    if log != [] {
      var next := match log[0] case Add(m) => names + {m} case Remove(m) => names - {m};
      if Remove(n) in log && log[0] != Remove(n) {
        assert Remove(n) in log[1..];
      }
      RemovedIsAbsent(next, log[1..], n);
    }
  }

  // ---- a reaper that goes on without the receipt --------------------------------------------

  /** The stages of a reaper before the source goes, by how many steps are left. */
  function StepsLeft(stage: Stage): nat {
    match stage
    case VerifyArchive => 6
    case LookSource => 5
    case LookSeal(present) => if present then 4 else 0
    case Match => 3
    case Confirm => 2
    case RemoveSource => 1
    case _ => 0
  }

  /** Nothing a reaper looks at from here on tells it that the receipt is gone. */
  ghost predicate Blind(w: World, s: State, q: Pid) {
    && q in s.procs && StepsLeft(s.procs[q]) > 0
    && {Source, Seal} <= Present(s) && ProductionReceipt !in Present(s)
    && Exact(w, s) && w.claims == LogicalOf(w.segment.bytes)
  }

  lemma BlindStep(w: World, s: State, q: Pid)
    requires Blind(w, s, q)
    ensures var t := Advance(w, s, q, s.procs[q]);
            if s.procs[q] == RemoveSource then Source !in Present(t) && ProductionReceipt !in Present(t)
            else Blind(w, t, q) && StepsLeft(t.procs[q]) == StepsLeft(s.procs[q]) - 1
  {
    if s.procs[q] == RemoveSource {
      VisibleAfterChange(s.dir, Remove(Source));
    }
  }

  lemma {:induction false} BlindReaperLoses(w: World, s: State, q: Pid) returns (events: seq<Event>)
    requires Blind(w, s, q)
    ensures Loses(w, s, events)
    decreases StepsLeft(s.procs[q])
  {
    BlindStep(w, s, q);
    var t := Advance(w, s, q, s.procs[q]);
    var rest: seq<Event> := [];
    if s.procs[q] == RemoveSource {
      AbsentReceiptProvesNothing(w, t);
    } else {
      rest := BlindReaperLoses(w, t, q);
    }
    events := [Step(q)] + rest;
    assert events[0] == Step(q) && events[1..] == rest;
  }

  // ---- the exact condition ------------------------------------------------------------------

  lemma HarmfulTakeBackLoses(w: World, s: State, p: Pid) returns (events: seq<Event>)
    requires Inv(w, s) && SealsStand(w, s) && p in s.procs && s.procs[p] == TakeBack
    requires !HarmlessStep(w, s, Step(p))
    ensures Loses(w, Advance(w, s, p, TakeBack), events)
  {
    var t := Advance(w, s, p, TakeBack);
    VisibleAfterChange(s.dir, Remove(ProductionReceipt));
    SourceIsHonest(w, s);
    assert SealStands(w, s);
    if MayBeGone(s) {
      RemovedIsAbsent(s.dir.disk, s.dir.log, Source);
      AbsentReceiptProvesNothing(w, t);
      events := [];
    } else {
      var q :| q in s.procs && ReaperStage(s.procs[q]);
      assert StageOk(w, s, s.procs[q]);
      ReplayKeeps(s.dir.disk, s.dir.log, Source);
      assert Blind(w, t, q);
      events := BlindReaperLoses(w, t, q);
    }
  }

  /** From every state a run can reach, taking the receipt back leads to a segment that is gone without
      proof, however carefully everybody goes on, exactly when the receipt was visible to reapers and
      something already depended on it: the source may be gone, or a reaper is on its way. */
  lemma TakeBackIsSafeExactlyWhenQuiet(w: World, s: State, before: seq<Event>, p: Pid)
    requires InitialState(w, s) && Run(w, s, before).Some? && Harmless(w, s, before)
    requires var u := Run(w, s, before).value; p in u.procs && u.procs[p] == TakeBack
    ensures var u := Run(w, s, before).value;
            (w.independent && ProductionReceipt in Present(u) && !Quiet(u)) <==>
            exists after :: Loses(w, Advance(w, u, p, TakeBack), after)
  {
    var u := Run(w, s, before).value;
    RunKeepsInv(w, s, before);
    RunKeepsSealsStand(w, s, before);
    if w.independent && ProductionReceipt in Present(u) && !Quiet(u) {
      var after := HarmfulTakeBackLoses(w, u, p);
    } else {
      var t := Advance(w, u, p, TakeBack);
      TakeBackKeepsInv(w, u, p);
      forall after ensures !Loses(w, t, after) {
        CalmKeepsProof(w, t, after);
      }
    }
  }

  // ---- whole runs ---------------------------------------------------------------------------

  lemma {:induction false} PrefixHarmless(w: World, s: State, events: seq<Event>, n: nat)
    requires Run(w, s, events).Some? && n <= |events| && Harmless(w, s, events)
    ensures Run(w, s, events[..n]).Some? && Harmless(w, s, events[..n])
    decreases n
  {
    if n > 0 {
      assert events[..n][0] == events[0] && events[..n][1..] == events[1..][..n - 1];
      PrefixHarmless(w, Next(w, s, events[0]).value, events[1..], n - 1);
    }
  }

  /** Behind the first harmful step of a run some calm continuation loses the proof. */
  lemma {:induction false} FirstHarm(w: World, s: State, events: seq<Event>) returns (n: nat, after: seq<Event>)
    requires Inv(w, s) && StagesHonest(s) && SealsStand(w, s)
    requires Run(w, s, events).Some? && !Harmless(w, s, events)
    ensures n <= |events| && Run(w, s, events[..n]).Some? && Loses(w, Run(w, s, events[..n]).value, after)
    decreases |events|
  {
    var e := events[0];
    var t := Next(w, s, e).value;
    hide Inv, StagesHonest, SealsStand, Loses;
    if !HarmlessStep(w, s, e) {
      n := 1;
      after := HarmfulTakeBackLoses(w, s, e.p);
      assert events[..1][1..] == [] && Run(w, t, []) == Some(t);
    } else {
      EventKeepsInv(w, s, e);
      StagesStayHonest(w, s, e);
      EventKeepsSealsStand(w, s, e);
      var m;
      m, after := FirstHarm(w, t, events[1..]);
      n := m + 1;
      assert events[..n][0] == e && events[..n][1..] == events[1..][..m];
    }
  }

  /** Over any run, whatever is killed, fails or is lost in crashes: from no moment of it do processes that
      take nothing back any more come to a source that is gone without its proof, if and only if the run
      itself took no receipt back while something depended on it. */
  lemma SourceIsAlwaysProvenExactly(w: World, s: State, events: seq<Event>)
    requires InitialState(w, s) && Run(w, s, events).Some?
    ensures Harmless(w, s, events) <==>
            forall n, after :: 0 <= n <= |events| && Run(w, s, events[..n]).Some? ==>
              !Loses(w, Run(w, s, events[..n]).value, after)
  {
    if Harmless(w, s, events) {
      forall n, after | 0 <= n <= |events| && Run(w, s, events[..n]).Some?
        ensures !Loses(w, Run(w, s, events[..n]).value, after)
      {
        PrefixHarmless(w, s, events, n);
        RunKeepsInv(w, s, events[..n]);
        CalmKeepsProof(w, Run(w, s, events[..n]).value, after);
      }
    } else {
      var n, after := FirstHarm(w, s, events);
    }
  }

  lemma CalmKeepsProof(w: World, s: State, after: seq<Event>)
    requires Inv(w, s)
    ensures !Loses(w, s, after)
  {
    if Run(w, s, after).Some? && Calm(w, s, after) {
      CalmIsHarmless(w, s, after);
      RunKeepsInv(w, s, after);
      SourceIsHonest(w, Run(w, s, after).value);
    }
  }
}
