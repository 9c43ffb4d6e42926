/** Any number of canonical reapers over one window, step by step, with kills, failed syncs and crashes. */
module CanonicalReaping {
  import opened Directories
  import opened CanonicalWindow

  /** What a reaper is about to do. `evidence` is whether its inventory saw that frame. */
  datatype Stage =
    | ConfirmReceipt(evidence: bool) | ConfirmMarker(evidence: bool)
    | StatEvidence | UnlinkEvidence | SyncEvidence
    | StatProvenance | UnlinkProvenance | SyncProvenance

  type Pid = nat

  datatype State = State(dir: Directory<Name>, procs: map<Pid, Stage>)

  datatype Event = Inspect(p: Pid) | Step(p: Pid) | Kill(p: Pid) | OtherSync | Crash(keep: seq<bool>)

  const ALL: set<Name> := {Evidence, Provenance, ReceiptFile, Marker}

  /** A finalized and archived window; the marker's own name may not have reached the disk yet. */
  ghost predicate Starts(w: Window, v: Service, s: State) {
    && Verdict(WindowAt(w, ALL), v) == Proven && s.procs == map[]
    && s.dir in {Directory(ALL, []), Directory(ALL - {Marker}, [Add(Marker)])}
  }

  predicate Sees(s: State, n: Name) {
    n in Visible(s.dir)
  }

  function At(s: State, p: Pid, stage: Stage): State {
    s.(procs := s.procs[p := stage])
  }

  function Leave(s: State, p: Pid): State {
    s.(procs := s.procs - {p})
  }

  function DoSync(s: State): State {
    s.(dir := Synced(s.dir))
  }

  function Unlink(s: State, n: Name): State {
    s.(dir := Changed(s.dir, Remove(n)))
  }

  /** The size of a frame that is gone cannot be taken: the pass ends there. Unlinking a frame that is
      gone goes on without a sync. */
  function Stepped(s: State, p: Pid): State
    requires p in s.procs
  {
    match s.procs[p]
    case ConfirmReceipt(e) => At(DoSync(s), p, ConfirmMarker(e))
    case ConfirmMarker(e) => At(DoSync(s), p, if e then StatEvidence else StatProvenance)
    case StatEvidence => if Sees(s, Evidence) then At(s, p, UnlinkEvidence) else Leave(s, p)
    case UnlinkEvidence =>
      if Sees(s, Evidence) then At(Unlink(s, Evidence), p, SyncEvidence) else At(s, p, StatProvenance)
    case SyncEvidence => At(DoSync(s), p, StatProvenance)
    case StatProvenance => if Sees(s, Provenance) then At(s, p, UnlinkProvenance) else Leave(s, p)
    case UnlinkProvenance =>
      if Sees(s, Provenance) then At(Unlink(s, Provenance), p, SyncProvenance) else Leave(s, p)
    case SyncProvenance => Leave(DoSync(s), p)
  }

  function Next(w: Window, v: Service, s: State, e: Event): State {
    match e
    case Inspect(p) =>
      if p !in s.procs && Verdict(WindowAt(w, Visible(s.dir)), v) == Proven
      then At(s, p, ConfirmReceipt(Sees(s, Evidence))) else s
    case Step(p) => if p in s.procs then Stepped(s, p) else s
    case Kill(p) => Leave(s, p)
    case OtherSync => DoSync(s)
    case Crash(keep) => if |keep| == |s.dir.log| then State(AfterCrash(s.dir, keep), map[]) else s
  }

  function Run(w: Window, v: Service, s: State, events: seq<Event>): State
    decreases |events|
  {
    if events == [] then s else Run(w, v, Next(w, v, s, events[0]), events[1..])
  }

  // ---- what every run keeps -----------------------------------------------------------------

  predicate PastConfirm(stage: Stage) {
    !stage.ConfirmReceipt? && !stage.ConfirmMarker?
  }

  /** The reaper counts on evidence being gone: it unlinked it, or never saw it. */
  predicate PastEvidence(stage: Stage) {
    match stage
    case ConfirmReceipt(e) => !e
    case ConfirmMarker(e) => !e
    case _ => stage != StatEvidence && stage != UnlinkEvidence
  }

  /** Provenance is not gone while evidence is there. */
  predicate Honest(names: set<Name>) {
    Evidence in names ==> Provenance in names
  }

  /** The receipt stays, the marker is on disk before anything is unlinked, and every prefix of the
      unsynced changes leaves an honest directory. */
  ghost predicate Inv(s: State) {
    && ReceiptFile in s.dir.disk && s.dir.disk <= ALL && (s.procs != map[] ==> Sees(s, Marker))
    && (forall c :: c in s.dir.log ==> c in {Add(Marker), Remove(Evidence), Remove(Provenance)})
    && (Armed(s) ==> Marker in s.dir.disk)
    && (forall n :: 0 <= n <= |s.dir.log| ==> Honest(Replay(s.dir.disk, s.dir.log[..n])))
    && (forall p :: p in s.procs && PastEvidence(s.procs[p]) ==> !Sees(s, Evidence))
  }

  predicate Armed(s: State) {
    || Evidence !in s.dir.disk || Remove(Evidence) in s.dir.log || Remove(Provenance) in s.dir.log
    || exists p :: p in s.procs && PastConfirm(s.procs[p])
  }

  /** What holds besides when reapers take turns: evidence is off the disk before provenance is touched. */
  ghost predicate Turns(s: State) {
    && Inv(s)
    && (forall p, q :: p in s.procs && q in s.procs ==> p == q)
    && (Remove(Provenance) in s.dir.log ==> Evidence !in s.dir.disk)
    && (forall p :: p in s.procs && s.procs[p] in {StatProvenance, UnlinkProvenance, SyncProvenance} ==>
          Evidence !in s.dir.disk)
    && (forall p :: p in s.procs && s.procs[p] == UnlinkEvidence ==> Sees(s, Evidence))
  }

  lemma Present(s: State)
    requires Inv(s)
    ensures ReceiptFile in Visible(s.dir) && Visible(s.dir) <= ALL && Honest(Visible(s.dir))
    ensures Armed(s) ==> Marker in Visible(s.dir)
    ensures Sees(s, Evidence) ==> Evidence in s.dir.disk
  {
    assert s.dir.log[..|s.dir.log|] == s.dir.log;
    ReplayKeeps(s.dir.disk, s.dir.log, ReceiptFile);
    ReplayKeeps(s.dir.disk, s.dir.log, Marker);
    ReplayKeeps(s.dir.disk, s.dir.log, Evidence);
    ReplayKeeps(s.dir.disk, s.dir.log, Stranger);
    ReplayKeeps(s.dir.disk, s.dir.log, LocalMarker);
    forall n | n in Visible(s.dir) ensures n in ALL {
      match n {
        case Evidence => case Provenance => case ReceiptFile => case Marker => case LocalMarker => case Stranger =>
      }
    }
  }

  lemma SyncKeepsInv(s: State)
    requires Inv(s)
    ensures Inv(DoSync(s)) && Visible(DoSync(s).dir) == Visible(s.dir) == DoSync(s).dir.disk
  {
    Present(s);
    if Evidence !in Visible(s.dir) {
      ReplayKeeps(s.dir.disk, s.dir.log, Evidence);
      assert Armed(s);
    }
    var t := DoSync(s);
    assert t.dir.log[..0] == [] && Visible(t.dir) == t.dir.disk;
  }

  lemma UnlinkKeepsInv(s: State, n: Name)
    requires Inv(s) && Marker in s.dir.disk
    requires n == Evidence || (n == Provenance && !Sees(s, Evidence))
    ensures Inv(Unlink(s, n)) && Visible(Unlink(s, n).dir) == Visible(s.dir) - {n}
  {
    var t := Unlink(s, n);
    Present(s);
    ReplayAppend(s.dir.disk, s.dir.log, Remove(n));
    forall k | 0 <= k <= |t.dir.log| ensures Honest(Replay(t.dir.disk, t.dir.log[..k])) {
      if k <= |s.dir.log| {
        assert t.dir.log[..k] == s.dir.log[..k];
      } else {
        assert t.dir.log[..k] == t.dir.log;
      }
    }
  }

  lemma StepKeepsInv(s: State, p: Pid)
    requires Inv(s) && p in s.procs
    ensures Inv(Stepped(s, p))
  {
    Present(s);
    hide Visible, Honest;
    match s.procs[p] {
      case ConfirmReceipt(e) => SyncKeepsInv(s);
      case ConfirmMarker(e) => SyncKeepsInv(s);
      case StatEvidence =>
      case UnlinkEvidence =>
        assert PastConfirm(s.procs[p]);
        if Sees(s, Evidence) { UnlinkKeepsInv(s, Evidence); }
      case SyncEvidence => SyncKeepsInv(s);
      case StatProvenance =>
      case UnlinkProvenance =>
        assert PastConfirm(s.procs[p]);
        if Sees(s, Provenance) { UnlinkKeepsInv(s, Provenance); }
      case SyncProvenance => SyncKeepsInv(s);
    }
  }

  lemma NextKeepsInv(w: Window, v: Service, s: State, e: Event)
    requires Inv(s) && Verdict(WindowAt(w, ALL), v) == Proven
    requires e.Crash? ==> InOrder(e.keep)
    ensures Inv(Next(w, v, s, e))
  {
    match e {
      case Inspect(p) =>
        DeletesOnlyWhenProven(WindowAt(w, Visible(s.dir)), v);
        DeletesOnlyWhenProven(WindowAt(w, ALL), v);
      case Step(p) => if p in s.procs { StepKeepsInv(s, p); }
      case Kill(p) =>
      case OtherSync => SyncKeepsInv(s);
      case Crash(keep) => if |keep| == |s.dir.log| { OrderedCrashKeepsInv(s, keep); }
    }
  }

  lemma OrderedCrashKeepsInv(s: State, keep: seq<bool>)
    requires Inv(s) && |keep| == |s.dir.log| && InOrder(keep)
    ensures Inv(State(AfterCrash(s.dir, keep), map[]))
  {
    var n := InOrderKeepsPrefix(s.dir.log, keep);
    CrashedKeepsInv(s, keep);
  }

  /** Whatever a crash keeps, all of the invariant survives once the directory it leaves is honest. */
  lemma CrashedKeepsInv(s: State, keep: seq<bool>)
    requires Inv(s) && |keep| == |s.dir.log| && Honest(AfterCrash(s.dir, keep).disk)
    ensures Inv(State(AfterCrash(s.dir, keep), map[]))
  {
    var t := AfterCrash(s.dir, keep);
    CrashKeeps(s.dir.disk, s.dir.log, keep, ReceiptFile);
    CrashKeeps(s.dir.disk, s.dir.log, keep, Marker);
    CrashKeeps(s.dir.disk, s.dir.log, keep, Evidence);
    CrashKeeps(s.dir.disk, s.dir.log, keep, Stranger);
    CrashKeeps(s.dir.disk, s.dir.log, keep, LocalMarker);
    forall n | n in t.disk ensures n in ALL {
      match n {
        case Evidence => case Provenance => case ReceiptFile => case Marker => case LocalMarker => case Stranger =>
      }
    }
    assert t.log[..0] == [] && Replay(t.disk, []) == t.disk;
  }

  // ---- what readers and later passes find ---------------------------------------------------

  ghost predicate Accepted(w: Window, names: set<Name>) {
    ReadReceipt(WindowAt(w, names)) != Refused
  }

  /** Both receipts are kept once anything was unlinked, and the reader accepts what is there. */
  ghost predicate Sound(w: Window, s: State) {
    && Accepted(w, Visible(s.dir)) && Sees(s, ReceiptFile)
    && (!Sees(s, Evidence) || !Sees(s, Provenance) ==> {ReceiptFile, Marker} <= s.dir.disk * Visible(s.dir))
  }

  lemma InvIsSound(w: Window, v: Service, s: State)
    requires Inv(s) && Verdict(WindowAt(w, ALL), v) == Proven
    ensures Sound(w, s)
  {
    var names := Visible(s.dir);
    Present(s);
    ReplayKeeps(s.dir.disk, s.dir.log, Evidence);
    DeletesOnlyWhenProven(WindowAt(w, ALL), v);
    ReplayKeeps(s.dir.disk, s.dir.log, Marker);
  }

  lemma StartsHolds(w: Window, v: Service, s: State)
    requires Starts(w, v, s)
    ensures Turns(s)
  {
    forall n | 0 <= n <= |s.dir.log| ensures Honest(Replay(s.dir.disk, s.dir.log[..n])) {
      ReplayKeeps(s.dir.disk, s.dir.log[..n], Provenance);
    }
  }

  predicate OrderedCrashes(events: seq<Event>) {
    forall i :: 0 <= i < |events| && events[i].Crash? ==> InOrder(events[i].keep)
  }

  lemma {:induction false} OrderedRunsKeepInv(w: Window, v: Service, s: State, events: seq<Event>)
    requires Inv(s) && Verdict(WindowAt(w, ALL), v) == Proven && OrderedCrashes(events)
    ensures Inv(Run(w, v, s, events))
    decreases |events|
  {
    if events != [] {
      NextKeepsInv(w, v, s, events[0]);
      OrderedRunsKeepInv(w, v, Next(w, v, s, events[0]), events[1..]);
    }
  }

  /** However many reapers interleave, while crashes undo changes in order every state is one the reader
      accepts, with both receipts in place once a frame is gone. */
  lemma OrderedCrashesStaySound(w: Window, v: Service, s: State, events: seq<Event>)
    requires Starts(w, v, s) && OrderedCrashes(events)
    ensures Sound(w, Run(w, v, s, events))
  {
    StartsHolds(w, v, s);
    OrderedRunsKeepInv(w, v, s, events);
    InvIsSound(w, v, Run(w, v, s, events));
  }

  // ---- reapers that take turns --------------------------------------------------------------

  predicate TakesTurns(w: Window, v: Service, s: State, events: seq<Event>)
    decreases |events|
  {
    events == [] ||
    ((events[0].Inspect? ==> s.procs == map[]) && TakesTurns(w, v, Next(w, v, s, events[0]), events[1..]))
  }

  lemma NextKeepsTurns(w: Window, v: Service, s: State, e: Event)
    requires Turns(s) && Verdict(WindowAt(w, ALL), v) == Proven && (e.Inspect? ==> s.procs == map[])
    ensures Turns(Next(w, v, s, e))
  {
    match e {
      case Inspect(p) => NextKeepsInv(w, v, s, e);
      case Step(p) => if p in s.procs { StepKeepsTurns(s, p); }
      case Kill(p) =>
      case OtherSync =>
        SyncKeepsInv(s);
        EvidenceStaysOff(s);
      case Crash(keep) => if |keep| == |s.dir.log| { CrashKeepsTurns(s, keep); }
    }
  }

  lemma EvidenceStaysOff(s: State)
    requires Inv(s)
    ensures Evidence !in s.dir.disk ==> !Sees(s, Evidence)
  {
    ReplayKeeps(s.dir.disk, s.dir.log, Evidence);
  }

  lemma StepKeepsTurns(s: State, p: Pid)
    requires Turns(s) && p in s.procs
    ensures Turns(Stepped(s, p))
  {
    StepKeepsInv(s, p);
    SyncKeepsInv(s);
    EvidenceStaysOff(s);
    Present(s);
    if s.procs[p] == UnlinkEvidence {
      UnlinkKeepsInv(s, Evidence);
    }
    hide Visible, Honest, Inv;
  }

  /** Between reapers that take turns, any crash at all is a clean one. */
  lemma CrashKeepsTurns(s: State, keep: seq<bool>)
    requires Turns(s) && |keep| == |s.dir.log|
    ensures Turns(State(AfterCrash(s.dir, keep), map[]))
  {
    assert s.dir.log[..0] == [] && Honest(Replay(s.dir.disk, s.dir.log[..0]));
    CrashKeeps(s.dir.disk, s.dir.log, keep, Evidence);
    CrashKeeps(s.dir.disk, s.dir.log, keep, Provenance);
    CrashedKeepsInv(s, keep);
  }

  lemma {:induction false} TurnsRun(w: Window, v: Service, s: State, events: seq<Event>)
    requires Turns(s) && Verdict(WindowAt(w, ALL), v) == Proven && TakesTurns(w, v, s, events)
    ensures Turns(Run(w, v, s, events))
    decreases |events|
  {
    if events != [] {
      NextKeepsTurns(w, v, s, events[0]);
      TurnsRun(w, v, Next(w, v, s, events[0]), events[1..]);
    }
  }

  /** Reapers that take turns, killed and restarted anywhere, leave a sound window behind every crash,
      whichever unsynced changes it keeps. */
  lemma TurnsStaySound(w: Window, v: Service, s: State, events: seq<Event>)
    requires Starts(w, v, s) && TakesTurns(w, v, s, events)
    ensures Sound(w, Run(w, v, s, events))
  {
    StartsHolds(w, v, s);
    TurnsRun(w, v, s, events);
    InvIsSound(w, v, Run(w, v, s, events));
  }

  // ---- reapers that overlap -----------------------------------------------------------------

  /** A crash now could leave evidence without provenance. */
  ghost predicate CanStrand(s: State) {
    exists keep :: |keep| == |s.dir.log| && !Honest(AfterCrash(s.dir, keep).disk)
  }

  /** Exactly when a crash can strand evidence: provenance is unlinked while evidence is on the disk. */
  lemma StrandedExactlyWhenBothUnsynced(s: State)
    requires Inv(s)
    ensures CanStrand(s) <==> Evidence in s.dir.disk && Remove(Provenance) in s.dir.log
  {
    var log := s.dir.log;
    if Evidence in s.dir.disk && Remove(Provenance) in log {
      var keep := seq(|log|, i requires 0 <= i < |log| => log[i] != Remove(Evidence));
      KeptAllBut(s.dir.disk, log, keep);
      assert !Honest(AfterCrash(s.dir, keep).disk);
    }
    forall keep | |keep| == |log| && !Honest(AfterCrash(s.dir, keep).disk)
      ensures Evidence in s.dir.disk && Remove(Provenance) in log
    {
      assert log[..0] == [] && Honest(Replay(s.dir.disk, log[..0]));
      CrashKeeps(s.dir.disk, log, keep, Evidence);
      CrashKeeps(s.dir.disk, log, keep, Provenance);
    }
  }

  lemma {:induction false} KeptAllBut(names: set<Name>, log: seq<Change<Name>>, keep: seq<bool>)
    requires |keep| == |log| && forall i :: 0 <= i < |log| ==> keep[i] == (log[i] != Remove(Evidence))
    requires forall c :: c in log ==> c in {Add(Marker), Remove(Evidence), Remove(Provenance)}
    ensures Evidence in names ==> Evidence in Replay(names, Kept(log, keep))
    ensures Provenance !in names || Remove(Provenance) in log ==> Provenance !in Replay(names, Kept(log, keep))
    decreases |log|
  {
    if log != [] {
      var next := if keep[0] then (match log[0] case Add(m) => names + {m} case Remove(m) => names - {m}) else names;
      assert log == [log[0]] + log[1..];
      forall c | c in log[1..] ensures c in {Add(Marker), Remove(Evidence), Remove(Provenance)} {
        assert c in log;
      }
      assert log[0] in log;
      KeptAllBut(next, log[1..], keep[1..]);
      var tail := Kept(log[1..], keep[1..]);
      if keep[0] {
        assert Kept(log, keep) == [log[0]] + tail && ([log[0]] + tail)[1..] == tail;
      } else {
        assert Kept(log, keep) == tail;
      }
    }
  }

  // ---- which runs strand evidence -----------------------------------------------------------

  /** A step that unlinks provenance while evidence is still on the disk. */
  predicate Hasty(s: State, e: Event) {
    && e.Step? && e.p in s.procs && s.procs[e.p] == UnlinkProvenance
    && Sees(s, Provenance) && Evidence in s.dir.disk
  }

  /** No step of the run is hasty. */
  predicate Unhurried(w: Window, v: Service, s: State, events: seq<Event>)
    decreases |events|
  {
    events != [] ==> !Hasty(s, events[0]) && Unhurried(w, v, Next(w, v, s, events[0]), events[1..])
  }

  ghost predicate Safe(s: State) {
    Inv(s) && (Remove(Provenance) in s.dir.log ==> Evidence !in s.dir.disk)
  }

  lemma SafeCannotStrand(s: State)
    requires Safe(s)
    ensures !CanStrand(s)
  {
    StrandedExactlyWhenBothUnsynced(s);
  }

  lemma StepKeepsSafe(s: State, p: Pid)
    requires Safe(s) && p in s.procs && !Hasty(s, Step(p))
    ensures Safe(Stepped(s, p))
  {
    StepKeepsInv(s, p);
    EvidenceStaysOff(s);
    hide Inv, Visible;
  }

  lemma NextKeepsSafe(w: Window, v: Service, s: State, e: Event)
    requires Safe(s) && Verdict(WindowAt(w, ALL), v) == Proven && !Hasty(s, e)
    ensures Safe(Next(w, v, s, e))
  {
    match e {
      case Inspect(p) => NextKeepsInv(w, v, s, e);
      case Step(p) => if p in s.procs { StepKeepsSafe(s, p); }
      case Kill(p) =>
      case OtherSync => SyncKeepsInv(s);
      case Crash(keep) =>
        SafeCannotStrand(s);
        if |keep| == |s.dir.log| { CrashedKeepsInv(s, keep); }
    }
  }

  lemma HastyCanStrand(w: Window, v: Service, s: State, e: Event)
    requires Safe(s) && Hasty(s, e)
    ensures CanStrand(Next(w, v, s, e))
  {
    StepKeepsInv(s, e.p);
    var t := Stepped(s, e.p);
    assert t.dir.log[|s.dir.log|] == Remove(Provenance);
    hide Inv;
    StrandedExactlyWhenBothUnsynced(t);
  }

  lemma {:induction false} UnhurriedRuns(w: Window, v: Service, s: State, events: seq<Event>, n: nat)
    requires Safe(s) && Verdict(WindowAt(w, ALL), v) == Proven && Unhurried(w, v, s, events) && n <= |events|
    ensures Safe(Run(w, v, s, events[..n]))
    decreases n
  {
    if n > 0 {
      NextKeepsSafe(w, v, s, events[0]);
      UnhurriedRuns(w, v, Next(w, v, s, events[0]), events[1..], n - 1);
      assert events[..n][1..] == events[1..][..n - 1];
    }
  }

  lemma {:induction false} FirstHaste(w: Window, v: Service, s: State, events: seq<Event>) returns (n: nat)
    requires Safe(s) && Verdict(WindowAt(w, ALL), v) == Proven && !Unhurried(w, v, s, events)
    ensures n <= |events| && CanStrand(Run(w, v, s, events[..n]))
    decreases |events|
  {
    var t := Next(w, v, s, events[0]);
    if Hasty(s, events[0]) {
      n := 1;
      HastyCanStrand(w, v, s, events[0]);
      assert events[..1][1..] == [] && Run(w, v, t, []) == t;
    } else {
      NextKeepsSafe(w, v, s, events[0]);
      var m := FirstHaste(w, v, t, events[1..]);
      n := m + 1;
      assert events[..n][1..] == events[1..][..m];
    }
  }

  /** Over any run of any number of reapers, with kills, failed syncs and crashes that keep any subset of
      the changes: evidence can at no moment be left without provenance if and only if no step unlinks
      provenance while evidence is still on the disk. */
  lemma EvidenceIsNeverStrandedExactly(w: Window, v: Service, s: State, events: seq<Event>)
    requires Starts(w, v, s)
    ensures Unhurried(w, v, s, events) <==>
            forall n :: 0 <= n <= |events| ==> !CanStrand(Run(w, v, s, events[..n]))
  {
    StartsHolds(w, v, s);
    if Unhurried(w, v, s, events) {
      forall n | 0 <= n <= |events| ensures !CanStrand(Run(w, v, s, events[..n])) {
        UnhurriedRuns(w, v, s, events, n);
        SafeCannotStrand(Run(w, v, s, events[..n]));
      }
    } else {
      var n := FirstHaste(w, v, s, events);
    }
  }

  /** Such a run is sound throughout, crashes included. */
  lemma UnhurriedStaysSound(w: Window, v: Service, s: State, events: seq<Event>)
    requires Starts(w, v, s) && Unhurried(w, v, s, events)
    ensures Sound(w, Run(w, v, s, events))
  {
    StartsHolds(w, v, s);
    UnhurriedRuns(w, v, s, events, |events|);
    assert events[..|events|] == events;
    InvIsSound(w, v, Run(w, v, s, events));
  }

  // ---- runs spelled out ---------------------------------------------------------------------

  lemma {:induction false} RunSplit(w: Window, v: Service, s: State, a: seq<Event>, b: seq<Event>)
    ensures Run(w, v, s, a + b) == Run(w, v, Run(w, v, s, a), b)
    decreases |a|
  {
    if a == [] {
      assert a + b == b;
    } else {
      assert (a + b)[1..] == a[1..] + b;
      RunSplit(w, v, Next(w, v, s, a[0]), a[1..], b);
    }
  }

  /** `n` steps of one reaper. */
  function Steps(p: Pid, n: nat): seq<Event> {
    if n == 0 then [] else [Step(p)] + Steps(p, n - 1)
  }

  lemma OneStep(w: Window, v: Service, s: State, p: Pid, n: nat)
    requires n > 0 && p in s.procs
    ensures Run(w, v, s, Steps(p, n)) == Run(w, v, Stepped(s, p), Steps(p, n - 1))
  {
    assert Steps(p, n)[1..] == Steps(p, n - 1);
  }

  lemma NothingPending(names: set<Name>)
    ensures Visible(Directory(names, [])) == names && Synced(Directory(names, [])) == Directory(names, [])
  {
  }

  lemma OnePending(names: set<Name>, n: Name)
    ensures var d := Changed(Directory(names, []), Remove(n));
            d == Directory(names, [Remove(n)]) && Visible(d) == names - {n} && Synced(d) == Directory(names - {n}, [])
  {
    assert [] + [Remove(n)] == [Remove(n)] && [Remove(n)][1..] == [];
    assert Replay(names - {n}, []) == names - {n};
  }

  lemma ConfirmsRun(w: Window, v: Service, s: State, p: Pid, e: bool)
    requires s.dir.log == [] && p in s.procs && s.procs[p] == ConfirmReceipt(e)
    ensures Run(w, v, s, Steps(p, 2)) == At(s, p, if e then StatEvidence else StatProvenance)
  {
    NothingPending(s.dir.disk);
    OneStep(w, v, s, p, 2);
    OneStep(w, v, At(s, p, ConfirmMarker(e)), p, 1);
    assert Stepped(s, p) == At(s, p, ConfirmMarker(e));
    assert Stepped(At(s, p, ConfirmMarker(e)), p) == At(s, p, if e then StatEvidence else StatProvenance);
  }

  lemma EvidenceRun(w: Window, v: Service, s: State, p: Pid)
    requires s.dir.log == [] && Evidence in s.dir.disk && p in s.procs && s.procs[p] == StatEvidence
    ensures Run(w, v, s, Steps(p, 3)) == At(s.(dir := Directory(s.dir.disk - {Evidence}, [])), p, StatProvenance)
  {
    NothingPending(s.dir.disk);
    OnePending(s.dir.disk, Evidence);
    var a := At(s, p, UnlinkEvidence);
    var b := At(s.(dir := Directory(s.dir.disk, [Remove(Evidence)])), p, SyncEvidence);
    assert Stepped(s, p) == a && Stepped(a, p) == b;
    OneStep(w, v, s, p, 3);
    OneStep(w, v, a, p, 2);
    OneStep(w, v, b, p, 1);
  }

  lemma ProvenanceRun(w: Window, v: Service, s: State, p: Pid)
    requires s.dir.log == [] && Provenance in s.dir.disk && p in s.procs && s.procs[p] == StatProvenance
    ensures Run(w, v, s, Steps(p, 3)) == Leave(s.(dir := Directory(s.dir.disk - {Provenance}, [])), p)
  {
    NothingPending(s.dir.disk);
    OnePending(s.dir.disk, Provenance);
    var a := At(s, p, UnlinkProvenance);
    var b := At(s.(dir := Directory(s.dir.disk, [Remove(Provenance)])), p, SyncProvenance);
    assert Stepped(s, p) == a && Stepped(a, p) == b;
    OneStep(w, v, s, p, 3);
    OneStep(w, v, a, p, 2);
    OneStep(w, v, b, p, 1);
    assert Leave(b, p).procs == Leave(s, p).procs;
  }

  /** From any state a crash can leave, one later pass removes what is left of both frames for good; only
      a marker the crash took stops it, and then both frames are still there. */
  lemma ALaterPassFinishes(w: Window, v: Service, s: State) returns (events: seq<Event>)
    requires Inv(s) && Verdict(WindowAt(w, ALL), v) == Proven && s.procs == map[] && s.dir.log == []
    ensures Marker in s.dir.disk ==>
              Run(w, v, s, events).dir == Directory(s.dir.disk - {Evidence, Provenance}, [])
    ensures Marker !in s.dir.disk ==> {Evidence, Provenance} <= s.dir.disk
  {
    events := [];
    Present(s);
    NothingPending(s.dir.disk);
    if Marker in s.dir.disk && Provenance in s.dir.disk {
      DeletesOnlyWhenProven(WindowAt(w, ALL), v);
      DeletesOnlyWhenProven(WindowAt(w, s.dir.disk), v);
      var e := Evidence in s.dir.disk;
      var a := At(s, 0, ConfirmReceipt(e));
      assert Next(w, v, s, Inspect(0)) == a;
      assert Run(w, v, s, [Inspect(0)]) == a by { assert [Inspect(0)][1..] == []; }
      ConfirmsRun(w, v, a, 0, e);
      var b := At(a, 0, if e then StatEvidence else StatProvenance);
      RunSplit(w, v, s, [Inspect(0)], Steps(0, 2));
      events := [Inspect(0)] + Steps(0, 2);
      assert Run(w, v, s, events) == b;
      hide Visible, Run, Steps, Verdict;
      if e {
        EvidenceRun(w, v, b, 0);
        RunSplit(w, v, s, events, Steps(0, 3));
        events := events + Steps(0, 3);
        b := At(b.(dir := Directory(s.dir.disk - {Evidence}, [])), 0, StatProvenance);
      }
      ProvenanceRun(w, v, b, 0);
      RunSplit(w, v, s, events, Steps(0, 3));
      events := events + Steps(0, 3);
      assert s.dir.disk - {Evidence, Provenance} ==
             if e then s.dir.disk - {Evidence} - {Provenance} else s.dir.disk - {Provenance};
    } else {
      assert Run(w, v, s, []) == s;
      assert s.dir == Directory(s.dir.disk, []);
      if Provenance !in s.dir.disk {
        assert s.dir.disk - {Evidence, Provenance} == s.dir.disk;
      }
    }
  }

  // ---- the run that strands evidence --------------------------------------------------------

  /** Two overlapping reapers and a crash that keeps only the later unlink: the second finds evidence
      already unlinked, does not sync, and goes on to provenance. What is left nobody accepts. */
  lemma OverlappingReapersStrandEvidence(w: Window, v: Service) returns (events: seq<Event>)
    requires Verdict(WindowAt(w, ALL), v) == Proven
    ensures var s := Run(w, v, State(Directory(ALL, []), map[]), events);
            && s.dir.disk == ALL - {Provenance} && s.procs == map[]
            && !Accepted(w, Visible(s.dir)) && Verdict(WindowAt(w, Visible(s.dir)), v) != Proven
  {
    var s := State(Directory(ALL, []), map[]);
    NothingPending(ALL);
    var both := State(Directory(ALL, []), map[0 := StatEvidence, 1 := StatEvidence]);
    var first := BothReady(w, v);
    var second := BothUnlink(w, v);
    RunSplit(w, v, s, first, second);
    events := first + second;
    EvidenceAloneIsRefused(WindowAt(w, ALL - {Provenance}), v);
    NothingPending(ALL - {Provenance});
  }

  lemma BothReady(w: Window, v: Service) returns (events: seq<Event>)
    requires Verdict(WindowAt(w, ALL), v) == Proven
    ensures Run(w, v, State(Directory(ALL, []), map[]), events) ==
            State(Directory(ALL, []), map[0 := StatEvidence, 1 := StatEvidence])
  {
    NothingPending(ALL);
    var s := State(Directory(ALL, []), map[]);
    var a := At(s, 0, ConfirmReceipt(true));
    var b := At(a, 1, ConfirmReceipt(true));
    assert Next(w, v, s, Inspect(0)) == a && Next(w, v, a, Inspect(1)) == b;
    events := [Inspect(0), Inspect(1)];
    assert Run(w, v, s, events) == b by {
      assert events[1..] == [Inspect(1)] && [Inspect(1)][1..] == [];
      assert Run(w, v, a, [Inspect(1)]) == Run(w, v, b, []);
    }
    hide Visible, Run, Steps, Verdict;
    ConfirmsRun(w, v, b, 0, true);
    RunSplit(w, v, s, events, Steps(0, 2));
    events := events + Steps(0, 2);
    var c := At(b, 0, StatEvidence);
    ConfirmsRun(w, v, c, 1, true);
    RunSplit(w, v, s, events, Steps(1, 2));
    events := events + Steps(1, 2);
  }

  /** The first reaper unlinks evidence, with the second one behind it. */
  lemma FirstUnlinks(w: Window, v: Service)
    ensures Run(w, v, State(Directory(ALL, []), map[0 := StatEvidence, 1 := StatEvidence]),
                [Step(0), Step(1), Step(0)]) ==
            State(Directory(ALL, [Remove(Evidence)]), map[0 := SyncEvidence, 1 := UnlinkEvidence])
  {
    NothingPending(ALL);
    OnePending(ALL, Evidence);
    var s0 := State(Directory(ALL, []), map[0 := StatEvidence, 1 := StatEvidence]);
    var s1 := State(Directory(ALL, []), map[0 := UnlinkEvidence, 1 := StatEvidence]);
    var s2 := State(Directory(ALL, []), map[0 := UnlinkEvidence, 1 := UnlinkEvidence]);
    var s3 := State(Directory(ALL, [Remove(Evidence)]), map[0 := SyncEvidence, 1 := UnlinkEvidence]);
    assert Stepped(s0, 0) == s1 && Stepped(s1, 1) == s2 && Stepped(s2, 0) == s3;
    hide Visible, Stepped;
    PassesRuns(w, v, [s0, s1, s2, s3], [Step(0), Step(1), Step(0)]);
  }

  /** The second finds evidence gone, does not sync, and goes on to provenance; then the crash. */
  lemma SecondGoesOn(w: Window, v: Service)
    ensures Run(w, v, State(Directory(ALL, [Remove(Evidence)]), map[0 := SyncEvidence, 1 := UnlinkEvidence]),
                [Step(1), Step(1), Step(1), Crash([false, true])]) ==
            State(Directory(ALL - {Provenance}, []), map[])
  {
    OnePending(ALL, Evidence);
    var gone := Directory(ALL, [Remove(Evidence)]);
    var s3 := State(gone, map[0 := SyncEvidence, 1 := UnlinkEvidence]);
    var s4 := State(gone, map[0 := SyncEvidence, 1 := StatProvenance]);
    var s5 := State(gone, map[0 := SyncEvidence, 1 := UnlinkProvenance]);
    var s6 := State(
      Directory(ALL, [Remove(Evidence), Remove(Provenance)]), map[0 := SyncEvidence, 1 := SyncProvenance]);
    assert Stepped(s3, 1) == s4 && Stepped(s4, 1) == s5 && Stepped(s5, 1) == s6;
    OnlyTheLater();
    var s7 := State(Directory(ALL - {Provenance}, []), map[]);
    hide Visible, Stepped, AfterCrash;
    PassesRuns(w, v, [s3, s4, s5, s6, s7], [Step(1), Step(1), Step(1), Crash([false, true])]);
  }

  lemma BothUnlink(w: Window, v: Service) returns (events: seq<Event>)
    ensures Run(w, v, State(Directory(ALL, []), map[0 := StatEvidence, 1 := StatEvidence]), events) ==
            State(Directory(ALL - {Provenance}, []), map[])
  {
    var first := [Step(0), Step(1), Step(0)];
    var second := [Step(1), Step(1), Step(1), Crash([false, true])];
    FirstUnlinks(w, v);
    SecondGoesOn(w, v);
    hide Run;
    RunSplit(w, v, State(Directory(ALL, []), map[0 := StatEvidence, 1 := StatEvidence]), first, second);
    events := first + second;
  }

  lemma OnlyTheLater()
    ensures AfterCrash(Directory(ALL, [Remove(Evidence), Remove(Provenance)]), [false, true]) ==
            Directory(ALL - {Provenance}, [])
  {
    var log, keep := [Remove(Evidence), Remove(Provenance)], [false, true];
    assert log[1..] == [Remove(Provenance)] && keep[1..] == [true];
    assert Kept([Remove(Provenance)], [true]) == [Remove(Provenance)] + Kept([], []);
    assert Kept(log, keep) == [Remove(Provenance)];
    OnePending(ALL, Provenance);
  }

  lemma {:induction false} PassesRuns(w: Window, v: Service, states: seq<State>, events: seq<Event>)
    requires |states| == |events| + 1
    requires forall i :: 0 <= i < |events| ==> Next(w, v, states[i], events[i]) == states[i + 1]
    ensures Run(w, v, states[0], events) == states[|events|]
    decreases |events|
  {
    if events != [] {
      forall i | 0 <= i < |events| - 1 ensures Next(w, v, states[1..][i], events[1..][i]) == states[1..][i + 1] {
        assert states[1..][i] == states[i + 1] && events[1..][i] == events[i + 1];
      }
      PassesRuns(w, v, states[1..], events[1..]);
    }
  }
}
