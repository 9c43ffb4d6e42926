/** The order in which source and seal disappear, the runs in which the protocol's promises fail, and
    how a later sweep finishes what a crash left. */
module RawArchiveOrder {
  import opened Options
  import opened ByteStreams
  import opened Directories
  import opened RawArchive

  // ---- the seal never goes before the source ------------------------------------------------

  /** A source without its seal: not a state deletion may leave. */
  predicate Bare(names: set<Name>) {
    Source in names && Seal !in names
  }

  predicate SourceSeenGone(stage: Stage) {
    stage in {SyncSource, RemoveSeal, SyncSeal, LookSeal(false)}
  }

  ghost predicate StagesHonest(s: State) {
    && Add(Source) !in s.dir.log && Add(Seal) !in s.dir.log
    && forall p :: p in s.procs && SourceSeenGone(s.procs[p]) ==> Source !in Present(s)
  }

  /** No prefix of the unsynced changes leaves a bare source. */
  ghost predicate NeverBare(s: State) {
    forall k :: 0 <= k <= |s.dir.log| ==> !Bare(Replay(s.dir.disk, s.dir.log[..k]))
  }

  lemma PresentNotBare(s: State)
    requires NeverBare(s)
    ensures !Bare(Present(s)) && !Bare(s.dir.disk)
  {
    assert s.dir.log[..|s.dir.log|] == s.dir.log;
    assert Replay(s.dir.disk, s.dir.log[..0]) == s.dir.disk;
  }

  lemma ChangeNeverBare(s: State, c: Change<Name>)
    requires NeverBare(s) && !Bare(Visible(Changed(s.dir, c)))
    ensures NeverBare(s.(dir := Changed(s.dir, c)))
  {
    var t := s.(dir := Changed(s.dir, c));
    forall k | 0 <= k <= |t.dir.log| ensures !Bare(Replay(t.dir.disk, t.dir.log[..k])) {
      if k <= |s.dir.log| {
        assert t.dir.log[..k] == s.dir.log[..k];
      } else {
        assert t.dir.log[..k] == t.dir.log;
      }
    }
  }

  lemma StagesStayHonest(w: World, s: State, e: Event)
    requires StagesHonest(s) && Next(w, s, e).Some?
    ensures StagesHonest(Next(w, s, e).value)
  {
    if e.Step? {
      var stage := s.procs[e.p];
      ChangedBy(w, s, e.p);
      assert SourceSeenGone(stage) ==> Source !in Present(s);
    }
  }

  /** A step never adds source or seal, and what it removes stays removed. */
  lemma ChangedBy(w: World, s: State, p: Pid)
    requires p in s.procs
    ensures var t := Advance(w, s, p, s.procs[p]);
            && (Add(Source) !in s.dir.log ==> Add(Source) !in t.dir.log)
            && (Add(Seal) !in s.dir.log ==> Add(Seal) !in t.dir.log)
            && (Source !in Present(s) ==> Source !in Present(t))
            && (s.procs[p] == RemoveSource ==> Source !in Present(t))
  {
    var c := match s.procs[p]
      case PublishReceipt => Add(Marker(w))
      case TakeBack => Remove(Marker(w))
      case RemoveSource => Remove(Source)
      case _ => Remove(Seal);
    VisibleAfterChange(s.dir, c);
  }

  lemma StepNeverBare(w: World, s: State, p: Pid)
    requires StagesHonest(s) && NeverBare(s) && p in s.procs
    ensures NeverBare(Advance(w, s, p, s.procs[p]))
  {
    PresentNotBare(s);
    match s.procs[p]
    case PublishReceipt =>
      VisibleAfterChange(s.dir, Add(Marker(w)));
      ChangeNeverBare(s, Add(Marker(w)));
    case TakeBack =>
      VisibleAfterChange(s.dir, Remove(Marker(w)));
      ChangeNeverBare(s, Remove(Marker(w)));
    case RemoveSource =>
      VisibleAfterChange(s.dir, Remove(Source));
      ChangeNeverBare(s, Remove(Source));
    case RemoveSeal =>
      VisibleAfterChange(s.dir, Remove(Seal));
      ChangeNeverBare(s, Remove(Seal));
    case _ =>
  }

  ghost predicate CrashesInOrder(events: seq<Event>) {
    forall i :: 0 <= i < |events| && events[i].Crash? ==> InOrder(events[i].keep)
  }

  lemma {:induction false} RunNeverBare(w: World, s: State, events: seq<Event>)
    requires StagesHonest(s) && NeverBare(s) && Run(w, s, events).Some? && CrashesInOrder(events)
    ensures StagesHonest(Run(w, s, events).value) && NeverBare(Run(w, s, events).value)
    decreases |events|
  {
    if events != [] {
      var e := events[0];
      StagesStayHonest(w, s, e);
      PresentNotBare(s);
      if e.Step? {
        StepNeverBare(w, s, e.p);
      } else if e.Crash? {
        var n := InOrderKeepsPrefix(s.dir.log, e.keep);
      }
      RunNeverBare(w, Next(w, s, e).value, events[1..]);
    }
  }

  /** While crashes undo the latest changes first, no interleaving, kill or sync failure ever leaves a
      source without its seal. */
  lemma OrderedCrashesNeverBareTheSource(w: World, s: State, events: seq<Event>)
    requires InitialState(w, s) && Run(w, s, events).Some? && CrashesInOrder(events)
    ensures !Bare(Present(Run(w, s, events).value)) && !Bare(Run(w, s, events).value.dir.disk)
  {
    RunNeverBare(w, s, events);
    PresentNotBare(Run(w, s, events).value);
  }

  // ---- crashes that lose any subset of the changes ------------------------------------------

  ghost predicate CanBeBared(s: State) {
    exists keep :: |keep| == |s.dir.log| && Bare(AfterCrash(s.dir, keep).disk)
  }

  /** Removing the seal opens the hole exactly when the removal of the source has not been synced. */
  lemma SealBeforeSyncIsTheHole(w: World, s: State, p: Pid)
    requires StagesHonest(s) && p in s.procs && s.procs[p] == RemoveSeal && Seal in Present(s)
    ensures CanBeBared(Advance(w, s, p, RemoveSeal)) <==> Source in s.dir.disk
  {
    var t := Advance(w, s, p, RemoveSeal);
    var n := |s.dir.log|;
    if Source in s.dir.disk {
      var keep := seq(n + 1, i => i == n);
      KeepLast(s.dir.log, Remove(Seal), keep);
      ReplayAppend(t.dir.disk, [], Remove(Seal));
      assert [] + [Remove(Seal)] == Kept(t.dir.log, keep);
      assert Bare(AfterCrash(t.dir, keep).disk);
    }
    forall keep | |keep| == |t.dir.log| && Bare(AfterCrash(t.dir, keep).disk)
      ensures Source in s.dir.disk
    {
      CrashKeeps(t.dir.disk, t.dir.log, keep, Source);
    }
  }

  lemma {:induction false} KeepLast<N>(log: seq<Change<N>>, c: Change<N>, keep: seq<bool>)
    requires |keep| == |log| + 1 && keep[|log|] && forall i :: 0 <= i < |log| ==> !keep[i]
    ensures Kept(log + [c], keep) == [c]
  {
    if log == [] {
      assert Kept([c][1..], keep[1..]) == [];
    } else {
      assert (log + [c])[1..] == log[1..] + [c];
      KeepLast(log[1..], c, keep[1..]);
    }
  }

  /** Every seal is removed only after the removal of its source was synced. */
  ghost predicate SealsAfterSync(w: World, s: State, events: seq<Event>)
    decreases |events|
  {
    events != [] ==>
      && (var e := events[0];
          e.Step? && e.p in s.procs && s.procs[e.p] == RemoveSeal && Seal in Present(s) ==> Source !in s.dir.disk)
      && (Next(w, s, events[0]).Some? ==> SealsAfterSync(w, Next(w, s, events[0]).value, events[1..]))
  }

  predicate SealOutlives(s: State) {
    Source in s.dir.disk ==> Seal in s.dir.disk && Remove(Seal) !in s.dir.log
  }

  lemma EventKeepsSealOutlives(w: World, s: State, e: Event)
    requires StagesHonest(s) && SealOutlives(s) && Next(w, s, e).Some?
    requires e.Step? && s.procs[e.p] == RemoveSeal && Seal in Present(s) ==> Source !in s.dir.disk
    ensures SealOutlives(Next(w, s, e).value)
  {
    ReplayKeeps(s.dir.disk, s.dir.log, Source);
    ReplayKeeps(s.dir.disk, s.dir.log, Seal);
    if e.Crash? {
      CrashKeeps(s.dir.disk, s.dir.log, e.keep, Source);
      CrashKeeps(s.dir.disk, s.dir.log, e.keep, Seal);
    }
  }

  lemma {:induction false} RunKeepsSealOutlives(w: World, s: State, events: seq<Event>)
    requires StagesHonest(s) && SealOutlives(s) && Run(w, s, events).Some? && SealsAfterSync(w, s, events)
    ensures StagesHonest(Run(w, s, events).value) && SealOutlives(Run(w, s, events).value)
    decreases |events|
  {
    if events != [] {
      StagesStayHonest(w, s, events[0]);
      EventKeepsSealOutlives(w, s, events[0]);
      RunKeepsSealOutlives(w, Next(w, s, events[0]).value, events[1..]);
    }
  }

  /** Then no crash whatever, at any point of any run, can leave a source without its seal. */
  lemma SyncedRemovalsNeverBareTheSource(w: World, s: State, events: seq<Event>)
    requires InitialState(w, s) && Run(w, s, events).Some? && SealsAfterSync(w, s, events)
    ensures !Bare(Present(Run(w, s, events).value)) && !CanBeBared(Run(w, s, events).value)
  {
    RunKeepsSealOutlives(w, s, events);
    var t := Run(w, s, events).value;
    ReplayKeeps(t.dir.disk, t.dir.log, Source);
    ReplayKeeps(t.dir.disk, t.dir.log, Seal);
    forall keep | |keep| == |t.dir.log| ensures !Bare(AfterCrash(t.dir, keep).disk) {
      CrashKeeps(t.dir.disk, t.dir.log, keep, Source);
      CrashKeeps(t.dir.disk, t.dir.log, keep, Seal);
    }
  }

  lemma {:induction false} PrefixSealsAfterSync(w: World, s: State, events: seq<Event>, n: nat)
    requires Run(w, s, events).Some? && n <= |events|
    ensures Run(w, s, events[..n]).Some?
    ensures SealsAfterSync(w, s, events) ==> SealsAfterSync(w, s, events[..n])
    decreases n
  {
    if n > 0 {
      assert events[..n][0] == events[0] && events[..n][1..] == events[1..][..n - 1];
      PrefixSealsAfterSync(w, Next(w, s, events[0]).value, events[1..], n - 1);
    }
  }

  /** The first seal that goes too early opens the hole at once. */
  lemma {:induction false} FirstHole(w: World, s: State, events: seq<Event>) returns (n: nat)
    requires StagesHonest(s) && Run(w, s, events).Some? && !SealsAfterSync(w, s, events)
    ensures n <= |events| && Run(w, s, events[..n]).Some? && CanBeBared(Run(w, s, events[..n]).value)
    decreases |events|
  {
    var e := events[0];
    var t := Next(w, s, e).value;
    if e.Step? && s.procs[e.p] == RemoveSeal && Seal in Present(s) && Source in s.dir.disk {
      n := 1;
      SealBeforeSyncIsTheHole(w, s, e.p);
      assert events[..1][1..] == [] && Run(w, t, []) == Some(t);
    } else {
      StagesStayHonest(w, s, e);
      var m := FirstHole(w, t, events[1..]);
      n := m + 1;
      assert events[..n][0] == e && events[..n][1..] == events[1..][..m];
    }
  }

  /** Over any run of any processes, with kills, failed syncs and crashes that lose any changes: a crash can
      at no moment leave a source without its seal if and only if every seal of the run was removed after
      the removal of its source was on the disk. */
  lemma SourceIsNeverBaredExactly(w: World, s: State, events: seq<Event>)
    requires InitialState(w, s) && Run(w, s, events).Some?
    ensures SealsAfterSync(w, s, events) <==>
            forall n :: 0 <= n <= |events| && Run(w, s, events[..n]).Some? ==>
              !CanBeBared(Run(w, s, events[..n]).value)
  {
    if SealsAfterSync(w, s, events) {
      forall n | 0 <= n <= |events| && Run(w, s, events[..n]).Some?
        ensures !CanBeBared(Run(w, s, events[..n]).value)
      {
        PrefixSealsAfterSync(w, s, events, n);
        SyncedRemovalsNeverBareTheSource(w, s, events[..n]);
      }
    } else {
      var n := FirstHole(w, s, events);
    }
  }

  // ---- while somebody has checked the seal --------------------------------------------------

  /** The stages of a process that has found source and seal together, and the seal true. */
  predicate SealChecked(stage: Stage) {
    stage in {PutData, PutSeal, VerifyObjects, PublishReceipt, SyncReceipt, TakeBack, SyncTakeBack,
              Confirm, RemoveSource}
  }

  /** The seal tells the truth about the segment, and stands as long as the source does. */
  predicate SealStands(w: World, s: State) {
    w.claims == LogicalOf(w.segment.bytes) && (Source in Present(s) ==> Seal in Present(s))
  }

  ghost predicate SealsStand(w: World, s: State) {
    forall p :: p in s.procs && SealChecked(s.procs[p]) ==> SealStands(w, s)
  }

  lemma StepKeepsSealStands(w: World, s: State, p: Pid)
    requires StagesHonest(s) && SealStands(w, s) && p in s.procs
    ensures SealStands(w, Advance(w, s, p, s.procs[p]))
  {
    ChangedBy(w, s, p);
    match s.procs[p]
    case PublishReceipt => VisibleAfterChange(s.dir, Add(Marker(w)));
    case TakeBack => VisibleAfterChange(s.dir, Remove(Marker(w)));
    case RemoveSource => VisibleAfterChange(s.dir, Remove(Source));
    case _ =>
  }

  lemma EventKeepsSealStands(w: World, s: State, e: Event)
    requires StagesHonest(s) && SealStands(w, s) && Next(w, s, e).Some? && !e.Crash?
    ensures SealStands(w, Next(w, s, e).value)
  {
    if e.Step? {
      StepKeepsSealStands(w, s, e.p);
      hide SealStands, Advance;
    }
  }

  /** Only a new archiver and a reaper that compares the files come to trust the seal. */
  lemma WhoChecked(w: World, s: State, e: Event, p: Pid)
    requires Next(w, s, e).Some?
    requires var t := Next(w, s, e).value; p in t.procs && SealChecked(t.procs[p])
    ensures !e.Crash?
    ensures (p in s.procs && SealChecked(s.procs[p])) || SealStands(w, s)
  {
    hide Visible, ObjectsVerify;
  }

  lemma EventKeepsSealsStand(w: World, s: State, e: Event)
    requires StagesHonest(s) && SealsStand(w, s) && Next(w, s, e).Some?
    ensures SealsStand(w, Next(w, s, e).value)
  {
    var t := Next(w, s, e).value;
    forall p | p in t.procs && SealChecked(t.procs[p]) ensures SealStands(w, t) {
      WhoChecked(w, s, e, p);
      hide Next, SealStands, SealChecked;
      EventKeepsSealStands(w, s, e);
    }
  }

  lemma {:induction false} RunKeepsSealsStand(w: World, s: State, events: seq<Event>)
    requires StagesHonest(s) && SealsStand(w, s) && Run(w, s, events).Some?
    ensures StagesHonest(Run(w, s, events).value) && SealsStand(w, Run(w, s, events).value)
    decreases |events|
  {
    if events != [] {
      StagesStayHonest(w, s, events[0]);
      EventKeepsSealsStand(w, s, events[0]);
      RunKeepsSealsStand(w, Next(w, s, events[0]).value, events[1..]);
    }
  }

  // ---- sweeps -------------------------------------------------------------------------------

  function ArchiveSweep(p: Pid): seq<Event> {
    [StartArchive(p), Step(p), Step(p), Step(p), Step(p), Step(p)]
  }

  /** A full reaping, up to and including the removal of the source. */
  function ReapToUnlink(p: Pid): seq<Event> {
    [StartReap(p), Step(p), Step(p), Step(p), Step(p), Step(p), Step(p)]
  }

  function ReapRest(p: Pid): seq<Event> {
    [Step(p), Step(p), Step(p)]
  }

  function PartialToUnlink(p: Pid): seq<Event> {
    [StartReap(p), Step(p), Step(p), Step(p), Step(p)]
  }

  lemma {:induction false} RunSplit(w: World, s: State, a: seq<Event>, b: seq<Event>)
    ensures Run(w, s, a + b) == match Run(w, s, a) case None => None case Some(t) => Run(w, t, b)
    decreases |a|
  {
    if a == [] {
      assert a + b == b;
    } else {
      assert (a + b)[0] == a[0] && (a + b)[1..] == a[1..] + b;
      if Next(w, s, a[0]).Some? {
        RunSplit(w, Next(w, s, a[0]).value, a[1..], b);
      }
    }
  }

  /** `states` is what a run passes through. */
  ghost predicate Passes(w: World, states: seq<State>, events: seq<Event>) {
    && |states| == |events| + 1
    && forall i :: 0 <= i < |events| ==> Next(w, states[i], events[i]) == Some(states[i + 1])
  }

  lemma {:induction false} PassesRuns(w: World, states: seq<State>, events: seq<Event>)
    requires Passes(w, states, events)
    ensures Run(w, states[0], events) == Some(states[|events|])
    decreases |events|
  {
    if events != [] {
      assert Next(w, states[0], events[0]) == Some(states[1]);
      PassesRuns(w, states[1..], events[1..]);
    }
  }

  lemma StepTaken(w: World, s: State, p: Pid)
    requires p in s.procs
    ensures Next(w, s, Step(p)) == Some(Advance(w, s, p, s.procs[p]))
  {
  }

  predicate Archivable(w: World, s: State) {
    && {Source, Seal} <= Present(s) && w.independent && ProductionReceipt !in Present(s)
    && LogicalOf(w.segment.bytes) == w.claims && w.dataKey != w.sealKey
    && (w.dataKey in s.store ==> s.store[w.dataKey] == w.encode(w.segment.bytes))
    && (w.sealKey in s.store ==> s.store[w.sealKey] == w.segment.seal)
  }

  /** The state an archiver leaves at the sync of its receipt. */
  function Published(w: World, s: State, p: Pid): State {
    s.(dir := Changed(s.dir, Add(ProductionReceipt)),
       store := s.store[w.dataKey := w.encode(w.segment.bytes)][w.sealKey := w.segment.seal],
       procs := s.procs[p := SyncReceipt])
  }

  function Stored(w: World, s: State): State {
    s.(store := s.store[w.dataKey := w.encode(w.segment.bytes)][w.sealKey := w.segment.seal])
  }

  lemma PutsRun(w: World, s: State, p: Pid)
    requires Archivable(w, s) && p !in s.procs
    ensures Run(w, s, [StartArchive(p), Step(p), Step(p)]) == Some(At(Stored(w, s), p, VerifyObjects))
  {
    var store1 := s.store[w.dataKey := w.encode(w.segment.bytes)];
    var store2 := store1[w.sealKey := w.segment.seal];
    assert w.dataKey in s.store ==> s.store == store1;
    assert w.sealKey in store1 ==> store1 == store2;
    var s1 := At(s, p, PutData);
    var s2 := At(s1.(store := store1), p, PutSeal);
    var t := At(Stored(w, s), p, VerifyObjects);
    assert s1.procs[p := PutSeal] == s2.procs && s2.procs[p := VerifyObjects] == t.procs;
    hide Visible;
    PassesRuns(w, [s, s1, s2, t], [StartArchive(p), Step(p), Step(p)]);
  }

  lemma ArchiveRuns(w: World, s: State, p: Pid)
    requires Archivable(w, s) && p !in s.procs
    ensures Run(w, s, ArchiveSweep(p)[..5]) == Some(Published(w, s, p))
    ensures Exact(w, Published(w, s, p))
  {
    PutsRun(w, s, p);
    var u := Stored(w, s);
    var s3, s4, t := At(u, p, VerifyObjects), At(u, p, PublishReceipt), Published(w, s, p);
    assert s3.procs[p := PublishReceipt] == s4.procs && s4.procs[p := SyncReceipt] == t.procs;
    hide Visible, Next;
    StepTaken(w, s3, p);
    StepTaken(w, s4, p);
    PassesRuns(w, [s3, s4, t], [Step(p), Step(p)]);
    RunSplit(w, s, [StartArchive(p), Step(p), Step(p)], [Step(p), Step(p)]);
    assert ArchiveSweep(p)[..5] == [StartArchive(p), Step(p), Step(p)] + [Step(p), Step(p)];
  }

  predicate Provable(w: World, s: State) {
    && w.independent && ProductionReceipt in Present(s) && InputOf(ReceiptOf(w)) in s.canonical
    && ObjectsVerify(ReceiptOf(w), s.store)
  }

  /** A reaper up to its look at the seal. */
  lemma LooksRun(w: World, s: State, p: Pid)
    requires Provable(w, s) && p !in s.procs
    ensures Run(w, s, [StartReap(p), Step(p), Step(p)]) == Some(At(s, p, LookSeal(Source in Present(s))))
  {
    var s1, s2, t := At(s, p, VerifyArchive), At(s, p, LookSource), At(s, p, LookSeal(Source in Present(s)));
    assert s1.procs[p := LookSource] == s2.procs && s2.procs[p := t.procs[p]] == t.procs;
    hide Visible;
    PassesRuns(w, [s, s1, s2, t], [StartReap(p), Step(p), Step(p)]);
  }

  lemma ChecksRun(w: World, s: State, p: Pid)
    requires Provable(w, s) && {Source, Seal} <= Present(s) && p !in s.procs && w.claims == ReceiptOf(w).source
    ensures Run(w, s, ReapToUnlink(p)[..5]) == Some(At(s, p, Confirm))
  {
    LooksRun(w, s, p);
    var s3, s4, t := At(s, p, LookSeal(true)), At(s, p, Match), At(s, p, Confirm);
    assert s3.procs[p := Match] == s4.procs && s4.procs[p := Confirm] == t.procs;
    hide Visible, Next;
    StepTaken(w, s3, p);
    StepTaken(w, s4, p);
    PassesRuns(w, [s3, s4, t], [Step(p), Step(p)]);
    RunSplit(w, s, [StartReap(p), Step(p), Step(p)], [Step(p), Step(p)]);
    assert ReapToUnlink(p)[..5] == [StartReap(p), Step(p), Step(p)] + [Step(p), Step(p)];
  }

  lemma ReapRuns(w: World, s: State, p: Pid)
    requires Provable(w, s) && {Source, Seal} <= Present(s) && p !in s.procs && w.claims == ReceiptOf(w).source
    ensures Run(w, s, ReapToUnlink(p)) ==
            Some(At(s.(dir := Directory(Present(s), [Remove(Source)])), p, SyncSource))
  {
    ChecksRun(w, s, p);
    var s5, s6 := At(s, p, Confirm), At(DoSync(s), p, RemoveSource);
    var t := At(s.(dir := Directory(Present(s), [Remove(Source)])), p, SyncSource);
    assert s5.procs[p := RemoveSource] == s6.procs && s6.procs[p := SyncSource] == t.procs;
    assert Present(s6) == Present(s);
    assert [] + [Remove(Source)] == [Remove(Source)];
    hide Visible, Next;
    StepTaken(w, s5, p);
    StepTaken(w, s6, p);
    PassesRuns(w, [s5, s6, t], [Step(p), Step(p)]);
    RunSplit(w, s, ReapToUnlink(p)[..5], [Step(p), Step(p)]);
    assert ReapToUnlink(p) == ReapToUnlink(p)[..5] + [Step(p), Step(p)];
  }

  lemma ReapFinishes(w: World, s: State, p: Pid, names: set<Name>)
    requires p in s.procs && s.procs[p] == SyncSource
    requires s.dir == Directory(names, [Remove(Source)]) && Seal in names
    ensures Run(w, s, ReapRest(p)) ==
            Some(Idle(s.(dir := Directory(names - {Source, Seal}, [])), p))
  {
    OneRemoved(names, Source);
    OneRemoved(names - {Source}, Seal);
    var s1 := At(s.(dir := Directory(names - {Source}, [])), p, RemoveSeal);
    var s2 := At(s.(dir := Directory(names - {Source}, [Remove(Seal)])), p, SyncSeal);
    var t := Idle(s.(dir := Directory(names - {Source, Seal}, [])), p);
    assert s1.procs[p := SyncSeal] == s2.procs && s2.procs - {p} == t.procs;
    assert names - {Source} - {Seal} == names - {Source, Seal};
    assert Seal in Present(s1);
    assert [] + [Remove(Seal)] == [Remove(Seal)];
    hide Visible, Next;
    StepTaken(w, s, p);
    StepTaken(w, s1, p);
    StepTaken(w, s2, p);
    PassesRuns(w, [s, s1, s2, t], ReapRest(p));
  }

  lemma OneRemoved(names: set<Name>, n: Name)
    ensures Visible(Directory(names, [Remove(n)])) == names - {n}
  {
    ReplayAppend(names, [], Remove(n));
    assert [] + [Remove(n)] == [Remove(n)];
  }

  /** A whole reaping leaves everything but source and seal. */
  lemma FullReap(w: World, s: State, p: Pid)
    requires Provable(w, s) && {Source, Seal} <= Present(s) && p !in s.procs && w.claims == ReceiptOf(w).source
    ensures Run(w, s, ReapToUnlink(p) + ReapRest(p)) ==
            Some(s.(dir := Directory(Present(s) - {Source, Seal}, [])))
  {
    ReapRuns(w, s, p);
    var u := At(s.(dir := Directory(Present(s), [Remove(Source)])), p, SyncSource);
    ReapFinishes(w, u, p, Present(s));
    hide Visible, Next, Run;
    RunSplit(w, s, ReapToUnlink(p), ReapRest(p));
    assert u.procs - {p} == s.procs;
  }

  lemma PartialRuns(w: World, s: State, p: Pid)
    requires Provable(w, s) && Source !in Present(s) && Seal in Present(s) && p !in s.procs
    ensures Run(w, s, PartialToUnlink(p)) == Some(At(Unlink(s, Seal), p, SyncSeal))
  {
    LooksRun(w, s, p);
    var s3, s4 := At(s, p, LookSeal(false)), At(s, p, RemoveSeal);
    var t := At(Unlink(s, Seal), p, SyncSeal);
    assert s3.procs[p := RemoveSeal] == s4.procs && s4.procs[p := SyncSeal] == t.procs;
    hide Visible, Next;
    StepTaken(w, s3, p);
    StepTaken(w, s4, p);
    PassesRuns(w, [s3, s4, t], [Step(p), Step(p)]);
    RunSplit(w, s, [StartReap(p), Step(p), Step(p)], [Step(p), Step(p)]);
    assert PartialToUnlink(p) == [StartReap(p), Step(p), Step(p)] + [Step(p), Step(p)];
  }

  lemma FullPartial(w: World, s: State, p: Pid)
    requires Provable(w, s) && Source !in Present(s) && Seal in Present(s) && p !in s.procs
    ensures Run(w, s, PartialToUnlink(p) + [Step(p)]) == Some(s.(dir := Directory(Present(s) - {Seal}, [])))
  {
    PartialRuns(w, s, p);
    var u := At(Unlink(s, Seal), p, SyncSeal);
    VisibleAfterChange(s.dir, Remove(Seal));
    var t := Idle(DoSync(u), p);
    assert t.procs == s.procs;
    PassesRuns(w, [u, t], [Step(p)]);
    RunSplit(w, s, PartialToUnlink(p), [Step(p)]);
  }

  // ---- every crash state can be finished ----------------------------------------------------

  predicate Finished(w: World, s: State) {
    && s.dir.log == [] && Source !in s.dir.disk && Seal !in s.dir.disk && s.procs == map[]
  }

  /** What the environment must grant: an independent store with nothing foreign under the segment's
      keys, a seal that tells the truth, and a canonical window that took the segment in. */
  predicate Favourable(w: World, s: State) {
    && w.independent && LogicalOf(w.segment.bytes) == w.claims && w.dataKey != w.sealKey
    && InputOf(ReceiptOf(w)) in s.canonical
    && (w.dataKey in s.store ==> s.store[w.dataKey] == w.encode(w.segment.bytes))
    && (w.sealKey in s.store ==> s.store[w.sealKey] == w.segment.seal)
  }

  /** From every state a crash can leave, one archiver sweep (if the receipt is missing) and one reaper
      sweep end with source and seal durably gone and the evidence in place. */
  lemma EveryCrashStateCanBeFinished(w: World, s: State) returns (events: seq<Event>)
    requires Inv(w, s) && s.procs == map[] && s.dir.log == [] && !Bare(s.dir.disk)
    requires Favourable(w, s)
    ensures Run(w, s, events).Some?
    ensures Finished(w, Run(w, s, events).value) && Evidence(w, Run(w, s, events).value)
  {
    if Source in s.dir.disk {
      var first: seq<Event>, t := [], s;
      if ProductionReceipt !in s.dir.disk {
        first, t := ArchiveFinishes(w, s);
      }
      FullReap(w, t, 1);
      hide Next;
      RunSplit(w, s, first, ReapToUnlink(1) + ReapRest(1));
      events := first + (ReapToUnlink(1) + ReapRest(1));
    } else if Seal in s.dir.disk {
      FullPartial(w, s, 1);
      events := PartialToUnlink(1) + [Step(1)];
    } else {
      events := [];
    }
  }

  lemma ArchiveFinishes(w: World, s: State) returns (events: seq<Event>, t: State)
    requires s.procs == map[] && s.dir.log == [] && {Source, Seal} <= s.dir.disk
    requires ProductionReceipt !in s.dir.disk && Favourable(w, s)
    ensures Run(w, s, events) == Some(t)
    ensures t.dir == Directory(s.dir.disk + {ProductionReceipt}, []) && t.procs == map[]
    ensures Exact(w, t) && t.canonical == s.canonical
  {
    ArchiveRuns(w, s, 0);
    var u := Published(w, s, 0);
    ReplayAppend(s.dir.disk, [], Add(ProductionReceipt));
    t := Idle(DoSync(u), 0);
    PassesRuns(w, [u, t], [Step(0)]);
    RunSplit(w, s, ArchiveSweep(0)[..5], [Step(0)]);
    events := ArchiveSweep(0)[..5] + [Step(0)];
    assert t.procs == map[];
  }

  // ---- runs in which the promises fail ------------------------------------------------------

  /** A receipt published but not yet synced, a complete reaping on its strength, then the failing sync
      and the receipt taken back: the source is durably gone and so is its receipt. */
  lemma TakingBackCanDestroyTheProof(w: World, s: State) returns (events: seq<Event>)
    requires InitialState(w, s) && Favourable(w, s)
    ensures Run(w, s, events).Some?
    ensures var t := Run(w, s, events).value;
            Source !in t.dir.disk && ProductionReceipt !in t.dir.disk && t.dir.log == []
  {
    ArchiveRuns(w, s, 0);
    var a := Published(w, s, 0);
    VisibleAfterChange(s.dir, Add(ProductionReceipt));
    FullReap(w, a, 1);
    var c := a.(dir := Directory({ProductionReceipt}, []));
    assert Present(a) - {Source, Seal} == {ProductionReceipt};
    TakenBack(w, c, 0);
    hide Next, Visible;
    var back := [SyncFails(0), Step(0), Step(0)];
    RunSplit(w, a, ReapToUnlink(1) + ReapRest(1), back);
    RunSplit(w, s, ArchiveSweep(0)[..5], ReapToUnlink(1) + ReapRest(1) + back);
    events := ArchiveSweep(0)[..5] + (ReapToUnlink(1) + ReapRest(1) + back);
  }

  lemma TakenBack(w: World, c: State, p: Pid)
    requires c.dir == Directory({ProductionReceipt}, []) && p in c.procs && c.procs[p] == SyncReceipt && w.independent
    ensures Run(w, c, [SyncFails(p), Step(p), Step(p)]) == Some(Idle(c.(dir := Directory({}, [])), p))
  {
    var d := At(c, p, TakeBack);
    var e := At(Unlink(c, ProductionReceipt), p, SyncTakeBack);
    OneRemoved({ProductionReceipt}, ProductionReceipt);
    var t := Idle(c.(dir := Directory({}, [])), p);
    assert d.procs[p := SyncTakeBack] == e.procs && e.procs - {p} == t.procs;
    assert e.dir == Directory({ProductionReceipt}, [Remove(ProductionReceipt)]);
    var none: set<Name> := {ProductionReceipt} - {ProductionReceipt};
    assert none == {};
    PassesRuns(w, [c, d, e, t], [SyncFails(p), Step(p), Step(p)]);
  }

  /** A reaper killed between unlinking the source and syncing, a second one finishing the partial
      cleanup without a sync before the seal goes, and a crash that loses only the older change: the
      source is back without its seal. */
  lemma KilledReaperAndUnorderedCrashBareTheSource(w: World, s: State) returns (events: seq<Event>)
    requires InitialState(w, s) && Favourable(w, s)
    ensures Run(w, s, events).Some? && Bare(Run(w, s, events).value.dir.disk)
  {
    var first, a := ArchiveFinishes(w, s);
    ReapRuns(w, a, 1);
    var names := a.dir.disk;
    var b := At(a.(dir := Directory(names, [Remove(Source)])), 1, SyncSource);
    var c := Idle(b, 1);
    OneRemoved(names, Source);
    assert c.procs == map[];
    PassesRuns(w, [b, c], [Kill(1)]);
    PartialRuns(w, c, 2);
    var d := At(Unlink(c, Seal), 2, SyncSeal);
    var keep := [false, true];
    LostFirst(w, d, names, keep);
    hide Next, Visible;
    RunSplit(w, c, PartialToUnlink(2), [Crash(keep)]);
    RunSplit(w, b, [Kill(1)], PartialToUnlink(2) + [Crash(keep)]);
    var tail := [Kill(1)] + (PartialToUnlink(2) + [Crash(keep)]);
    RunSplit(w, a, ReapToUnlink(1), tail);
    RunSplit(w, s, first, ReapToUnlink(1) + tail);
    events := first + (ReapToUnlink(1) + tail);
  }

  lemma LostFirst(w: World, d: State, names: set<Name>, keep: seq<bool>)
    requires d.dir == Directory(names, [Remove(Source)] + [Remove(Seal)]) && keep == [false, true]
    requires Source in names
    ensures Run(w, d, [Crash(keep)]).Some? && Bare(Run(w, d, [Crash(keep)]).value.dir.disk)
  {
    KeepLast([Remove(Source)], Remove(Seal), keep);
    OneRemoved(names, Seal);
    var t := d.(dir := AfterCrash(d.dir, keep), procs := map[]);
    PassesRuns(w, [d, t], [Crash(keep)]);
  }
}
