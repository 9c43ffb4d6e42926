/** Archiving and reaping one sealed raw segment, as interleaved steps of any number of archiver and
    reaper processes over one spool directory, with sync failures, kills and crashes. */
module RawArchive {
  import opened Options
  import opened FrameLayout
  import opened ByteStreams
  import opened Directories

  // ---- the segment and its records ----------------------------------------------------------

  datatype Segment = Segment(lane: string, file: string, index: nat, bytes: seq<byte>, seal: seq<byte>)

  /** What stays fixed: the segment, what its seal claims, the encoder, the object keys, and whether
      the store is an independent durability domain. */
  datatype World = World(
    segment: Segment, claims: LogicalIdentity, encode: seq<byte> -> seq<byte>, dataKey: string, sealKey: string,
    independent: bool)

  datatype Receipt = Receipt(
    lane: string, sourceFile: string, index: nat, source: LogicalIdentity,
    dataKey: string, data: StoredIdentity, sealKey: string, seal: StoredIdentity)

  /** One input of a committed canonical window. */
  datatype CanonicalInput = CanonicalInput(lane: string, sha256: Digest, file: string, index: nat)

  function ReceiptOf(w: World): Receipt {
    Receipt(w.segment.lane, w.segment.file, w.segment.index, LogicalOf(w.segment.bytes),
            w.dataKey, StoredOf(w.encode(w.segment.bytes)), w.sealKey, StoredOf(w.segment.seal))
  }

  function InputOf(r: Receipt): CanonicalInput {
    CanonicalInput(r.lane, r.source.sha256, r.sourceFile, r.index)
  }

  // ---- states -------------------------------------------------------------------------------

  datatype Name = Source | Seal | ProductionReceipt | LocalReceipt

  /** Where a process stands. The stages up to `SyncTakeBack` are the archiver's. */
  datatype Stage =
    | PutData | PutSeal | VerifyObjects | PublishReceipt | SyncReceipt | ConfirmExisting
    | TakeBack | SyncTakeBack
    | VerifyArchive | LookSource | LookSeal(sourcePresent: bool) | Match | Confirm
    | RemoveSource | SyncSource | RemoveSeal | SyncSeal

  type Pid = nat

  datatype State = State(
    dir: Directory<Name>, store: map<string, seq<byte>>, canonical: set<CanonicalInput>, procs: map<Pid, Stage>)

  predicate InitialState(w: World, s: State) {
    && s.dir == Directory({Source, Seal}, []) && s.procs == map[]
    && w.dataKey != w.sealKey
  }

  function Present(s: State): set<Name> {
    Visible(s.dir)
  }

  function Marker(w: World): Name {
    if w.independent then ProductionReceipt else LocalReceipt
  }

  /** Both objects match the receipt's identities when headed. */
  predicate ObjectsVerify(r: Receipt, store: map<string, seq<byte>>) {
    && r.dataKey in store && StoredOf(store[r.dataKey]) == r.data
    && r.sealKey in store && StoredOf(store[r.sealKey]) == r.seal
  }

  // ---- steps --------------------------------------------------------------------------------

  datatype Event =
    | StartArchive(p: Pid)
    | StartReap(p: Pid)
    | Step(p: Pid)
    | SyncFails(p: Pid)
    | Kill(p: Pid)
    | OtherSync
    | Finalize(input: CanonicalInput)
    | Crash(keep: seq<bool>)

  function At(s: State, p: Pid, stage: Stage): State {
    s.(procs := s.procs[p := stage])
  }

  function Idle(s: State, p: Pid): State {
    s.(procs := s.procs - {p})
  }

  function Put(s: State, key: string, bytes: seq<byte>): State {
    if key in s.store then s else s.(store := s.store[key := bytes])
  }

  function DoSync(s: State): State {
    s.(dir := Synced(s.dir))
  }

  function Unlink(s: State, n: Name): State {
    s.(dir := Changed(s.dir, Remove(n)))
  }

  /** What process `p` does next from `stage`, when nothing fails. */
  function Advance(w: World, s: State, p: Pid, stage: Stage): State {
    match stage
    case PutData =>
      var t := Put(s, w.dataKey, w.encode(w.segment.bytes));
      if t.store[w.dataKey] == w.encode(w.segment.bytes) then At(t, p, PutSeal) else Idle(s, p)
    case PutSeal =>
      var t := Put(s, w.sealKey, w.segment.seal);
      if Seal in Present(s) && t.store[w.sealKey] == w.segment.seal then At(t, p, VerifyObjects) else Idle(s, p)
    case VerifyObjects =>
      if ObjectsVerify(ReceiptOf(w), s.store) then At(s, p, PublishReceipt) else Idle(s, p)
    case PublishReceipt => At(s.(dir := Changed(s.dir, Add(Marker(w)))), p, SyncReceipt)
    case SyncReceipt => Idle(DoSync(s), p)
    case ConfirmExisting => Idle(DoSync(s), p)
    case TakeBack => At(if Marker(w) in Present(s) then Unlink(s, Marker(w)) else s, p, SyncTakeBack)
    case SyncTakeBack => Idle(DoSync(s), p)
    case VerifyArchive =>
      if ObjectsVerify(ReceiptOf(w), s.store) then At(s, p, LookSource) else Idle(s, p)
    case LookSource => At(s, p, LookSeal(Source in Present(s)))
    case LookSeal(sourcePresent) =>
      if sourcePresent then (if Seal in Present(s) then At(s, p, Match) else Idle(s, p))
      else if Seal in Present(s) then At(s, p, RemoveSeal)
      else Idle(s, p)
    case Match =>
      if {Source, Seal} <= Present(s) && w.claims == ReceiptOf(w).source then At(s, p, Confirm) else Idle(s, p)
    case Confirm => At(DoSync(s), p, RemoveSource)
    case RemoveSource =>
      if Source in Present(s) then At(Unlink(s, Source), p, SyncSource) else At(s, p, RemoveSeal)
    case SyncSource => At(DoSync(s), p, RemoveSeal)
    case RemoveSeal => if Seal in Present(s) then At(Unlink(s, Seal), p, SyncSeal) else Idle(s, p)
    case SyncSeal => Idle(DoSync(s), p)
  }

  /** The state after an event, or `None` when the event cannot happen. */
  function Next(w: World, s: State, e: Event): Option<State> {
    match e
    case StartArchive(p) =>
      if p in s.procs || !({Source, Seal} <= Present(s)) then None
      else if Marker(w) in Present(s) then
        Some(if ObjectsVerify(ReceiptOf(w), s.store) then At(s, p, ConfirmExisting) else s)
      else Some(if LogicalOf(w.segment.bytes) == w.claims then At(s, p, PutData) else s)
    case StartReap(p) =>
      if p in s.procs then None
      else if ProductionReceipt in Present(s) && w.independent && InputOf(ReceiptOf(w)) in s.canonical then
        Some(At(s, p, VerifyArchive))
      else Some(s)
    case Step(p) => if p in s.procs then Some(Advance(w, s, p, s.procs[p])) else None
    case SyncFails(p) =>
      if p !in s.procs then None
      else if s.procs[p] == SyncReceipt then Some(At(s, p, TakeBack))
      else if s.procs[p] in {ConfirmExisting, SyncTakeBack, Confirm, SyncSource, SyncSeal} then Some(Idle(s, p))
      else None
    case Kill(p) => if p in s.procs then Some(Idle(s, p)) else None
    case OtherSync => Some(DoSync(s))
    case Finalize(input) => Some(s.(canonical := s.canonical + {input}))
    case Crash(keep) =>
      if |keep| == |s.dir.log| then Some(s.(dir := AfterCrash(s.dir, keep), procs := map[])) else None
  }

  function Run(w: World, s: State, events: seq<Event>): Option<State>
    decreases |events|
  {
    if events == [] then Some(s)
    else
      match Next(w, s, events[0])
      case None => None
      case Some(t) => Run(w, t, events[1..])
  }

  // ---- what a missing source proves ---------------------------------------------------------

  /** A durable production receipt, the exact objects it names, and a canonical input that names the
      segment by lane, digest, file and index. */
  ghost predicate Evidence(w: World, s: State) {
    && ProductionReceipt in s.dir.disk && Remove(ProductionReceipt) !in s.dir.log
    && Exact(w, s)
    && InputOf(ReceiptOf(w)) in s.canonical
  }

  ghost predicate Exact(w: World, s: State) {
    && w.dataKey in s.store && s.store[w.dataKey] == w.encode(w.segment.bytes)
    && w.sealKey in s.store && s.store[w.sealKey] == w.segment.seal
  }

  /** The source is gone, or a crash or sync could still decide that it is. */
  predicate MayBeGone(s: State) {
    Source !in s.dir.disk || Remove(Source) in s.dir.log
  }

  predicate ReaperStage(stage: Stage) {
    !(stage in {PutData, PutSeal, VerifyObjects, PublishReceipt, SyncReceipt, ConfirmExisting, TakeBack,
                SyncTakeBack})
  }

  predicate Deleting(stage: Stage) {
    stage == RemoveSource || stage == SyncSource
  }

  ghost predicate StageOk(w: World, s: State, stage: Stage) {
    && (ReaperStage(stage) ==>
          && w.independent && ProductionReceipt in Present(s) && InputOf(ReceiptOf(w)) in s.canonical)
    && (ReaperStage(stage) || stage in {PublishReceipt, SyncReceipt} ==>
          stage == VerifyArchive || Exact(w, s))
    && (Deleting(stage) ==> ProductionReceipt in s.dir.disk && Remove(ProductionReceipt) !in s.dir.log)
    && (stage in {SyncSource, RemoveSeal, SyncSeal, LookSeal(false)} ==> Source !in Present(s))
    && (stage == PutSeal ==> w.dataKey in s.store && s.store[w.dataKey] == w.encode(w.segment.bytes))
  }

  /** Kept by every step of every process and by every crash. */
  ghost predicate Inv(w: World, s: State) {
    && Add(Source) !in s.dir.log && Add(Seal) !in s.dir.log
    && (MayBeGone(s) ==> Evidence(w, s))
    && (ProductionReceipt in s.dir.disk || Add(ProductionReceipt) in s.dir.log ==> Exact(w, s))
    && (forall p :: p in s.procs ==> StageOk(w, s, s.procs[p]))
  }

  /** Nothing depends on the receipt yet. */
  ghost predicate Quiet(s: State) {
    !MayBeGone(s) && forall p :: p in s.procs ==> !ReaperStage(s.procs[p])
  }

  /** Taking a receipt back after a failed sync is the one step that can destroy evidence. */
  ghost predicate HarmlessStep(w: World, s: State, e: Event) {
    e.Step? && e.p in s.procs && s.procs[e.p] == TakeBack ==> Marker(w) !in Present(s) || !w.independent || Quiet(s)
  }

  ghost predicate Harmless(w: World, s: State, events: seq<Event>)
    decreases |events|
  {
    events != [] ==>
      HarmlessStep(w, s, events[0]) &&
      (Next(w, s, events[0]).Some? ==> Harmless(w, Next(w, s, events[0]).value, events[1..]))
  }

  // ---- the invariant, step by step ----------------------------------------------------------

  lemma VisibleAfterChange(d: Directory<Name>, c: Change<Name>)
    ensures Visible(Changed(d, c)) == match c case Add(n) => Visible(d) + {n} case Remove(n) => Visible(d) - {n}
  {
    ReplayAppend(d.disk, d.log, c);
  }

  lemma SourceIsHonest(w: World, s: State)
    requires Inv(w, s)
    ensures Source !in Present(s) ==> MayBeGone(s)
    ensures MayBeGone(s) ==> ProductionReceipt in Present(s)
    ensures ProductionReceipt in Present(s) ==> Exact(w, s)
  {
    ReplayKeeps(s.dir.disk, s.dir.log, Source);
    ReplayKeeps(s.dir.disk, s.dir.log, ProductionReceipt);
  }

  lemma SyncKeepsInv(w: World, s: State)
    requires Inv(w, s)
    ensures Inv(w, DoSync(s)) && Present(DoSync(s)) == Present(s)
  {
    SourceIsHonest(w, s);
    var t := DoSync(s);
    if MayBeGone(t) {
      assert Source !in Present(s);
    }
    forall p | p in t.procs ensures StageOk(w, t, t.procs[p]) {
      assert StageOk(w, s, s.procs[p]);
    }
  }

  lemma CrashKeepsInv(w: World, s: State, keep: seq<bool>)
    requires Inv(w, s) && |keep| == |s.dir.log|
    ensures Inv(w, s.(dir := AfterCrash(s.dir, keep), procs := map[]))
  {
    CrashKeeps(s.dir.disk, s.dir.log, keep, Source);
    CrashKeeps(s.dir.disk, s.dir.log, keep, ProductionReceipt);
  }

  lemma PublishKeepsInv(w: World, s: State, p: Pid)
    requires Inv(w, s) && p in s.procs && s.procs[p] == PublishReceipt
    ensures Inv(w, Advance(w, s, p, PublishReceipt))
  {
    var t := Advance(w, s, p, PublishReceipt);
    VisibleAfterChange(s.dir, Add(Marker(w)));
    assert StageOk(w, s, s.procs[p]);
    forall q | q in t.procs ensures StageOk(w, t, t.procs[q]) {
      if q != p { assert StageOk(w, s, s.procs[q]); }
    }
  }

  lemma UnlinkKeepsInv(w: World, s: State, p: Pid, stage: Stage)
    requires Inv(w, s) && p in s.procs && s.procs[p] == stage && stage in {RemoveSource, RemoveSeal}
    ensures Inv(w, Advance(w, s, p, stage))
  {
    var t := Advance(w, s, p, stage);
    SourceIsHonest(w, s);
    VisibleAfterChange(s.dir, Remove(if stage == RemoveSource then Source else Seal));
    assert StageOk(w, s, s.procs[p]);
    forall q | q in t.procs ensures StageOk(w, t, t.procs[q]) {
      if q != p { assert StageOk(w, s, s.procs[q]); }
    }
  }

  lemma PutKeepsInv(w: World, s: State, p: Pid, stage: Stage)
    requires Inv(w, s) && p in s.procs && s.procs[p] == stage && stage in {PutData, PutSeal}
    ensures Inv(w, Advance(w, s, p, stage))
  {
    var t := Advance(w, s, p, stage);
    assert StageOk(w, s, s.procs[p]);
    forall q | q in t.procs ensures StageOk(w, t, t.procs[q]) {
      if q != p { assert StageOk(w, s, s.procs[q]); }
    }
  }

  lemma TakeBackKeepsInv(w: World, s: State, p: Pid)
    requires Inv(w, s) && p in s.procs && s.procs[p] == TakeBack
    requires Marker(w) !in Present(s) || !w.independent || Quiet(s)
    ensures Inv(w, Advance(w, s, p, TakeBack))
  {
    var t := Advance(w, s, p, TakeBack);
    SourceIsHonest(w, s);
    VisibleAfterChange(s.dir, Remove(Marker(w)));
    forall q | q in t.procs ensures StageOk(w, t, t.procs[q]) {
      if q != p { assert StageOk(w, s, s.procs[q]); }
    }
  }

  lemma MoveKeepsInv(w: World, s: State, p: Pid, stage: Stage)
    requires Inv(w, s) && StageOk(w, s, stage)
    ensures Inv(w, At(s, p, stage))
  {
    var t := At(s, p, stage);
    forall q | q in t.procs ensures StageOk(w, t, t.procs[q]) {
      if q != p { assert StageOk(w, s, s.procs[q]); }
    }
  }

  lemma StopKeepsInv(w: World, s: State, p: Pid)
    requires Inv(w, s) && p in s.procs
    ensures Inv(w, Idle(s, p))
    ensures s.procs[p] == SyncReceipt ==> Inv(w, At(s, p, TakeBack))
  {
    forall q | q in s.procs ensures StageOk(w, s, s.procs[q]) {
    }
  }

  /** The remaining stages change neither directory nor store. */
  lemma ReadKeepsInv(w: World, s: State, p: Pid, stage: Stage)
    requires Inv(w, s) && p in s.procs && s.procs[p] == stage
    requires stage in {VerifyObjects, VerifyArchive, LookSource, Match} || stage.LookSeal?
    ensures Inv(w, Advance(w, s, p, stage))
  {
    var t := Advance(w, s, p, stage);
    SourceIsHonest(w, s);
    assert StageOk(w, s, stage);
    if p in t.procs {
      assert StageOk(w, s, t.procs[p]);
      hide Inv, StageOk;
      MoveKeepsInv(w, s, p, t.procs[p]);
    } else {
      hide Inv, StageOk;
      StopKeepsInv(w, s, p);
    }
  }

  lemma StartKeepsInv(w: World, s: State, e: Event)
    requires Inv(w, s) && (e.StartArchive? || e.StartReap?) && Next(w, s, e).Some?
    ensures Inv(w, Next(w, s, e).value)
  {
    var t := Next(w, s, e).value;
    SourceIsHonest(w, s);
    if t != s {
      assert StageOk(w, s, t.procs[e.p]);
      hide Inv, StageOk;
      MoveKeepsInv(w, s, e.p, t.procs[e.p]);
    }
  }

  lemma SyncedStepKeepsInv(w: World, s: State, p: Pid)
    requires Inv(w, s) && p in s.procs && s.procs[p] in {Confirm, SyncSource}
    ensures Inv(w, At(DoSync(s), p, if s.procs[p] == Confirm then RemoveSource else RemoveSeal))
  {
    assert StageOk(w, s, s.procs[p]);
    SyncKeepsInv(w, s);
    var t := DoSync(s);
    forall q | q in t.procs && q != p ensures StageOk(w, t, t.procs[q]) {
    }
  }

  lemma StepKeepsInv(w: World, s: State, p: Pid)
    requires Inv(w, s) && p in s.procs && HarmlessStep(w, s, Step(p))
    ensures Inv(w, Advance(w, s, p, s.procs[p]))
  {
    hide Inv, StageOk, Exact, Evidence, Quiet;
    match s.procs[p]
    case PutData => PutKeepsInv(w, s, p, PutData);
    case PutSeal => PutKeepsInv(w, s, p, PutSeal);
    case PublishReceipt => PublishKeepsInv(w, s, p);
    case RemoveSource => UnlinkKeepsInv(w, s, p, RemoveSource);
    case RemoveSeal => UnlinkKeepsInv(w, s, p, RemoveSeal);
    case TakeBack => TakeBackKeepsInv(w, s, p);
    case Confirm => SyncedStepKeepsInv(w, s, p);
    case SyncSource => SyncedStepKeepsInv(w, s, p);
    case SyncReceipt => SyncKeepsInv(w, s); StopKeepsInv(w, DoSync(s), p);
    case ConfirmExisting => SyncKeepsInv(w, s); StopKeepsInv(w, DoSync(s), p);
    case SyncTakeBack => SyncKeepsInv(w, s); StopKeepsInv(w, DoSync(s), p);
    case SyncSeal => SyncKeepsInv(w, s); StopKeepsInv(w, DoSync(s), p);
    case VerifyObjects => ReadKeepsInv(w, s, p, VerifyObjects);
    case VerifyArchive => ReadKeepsInv(w, s, p, VerifyArchive);
    case LookSource => ReadKeepsInv(w, s, p, LookSource);
    case LookSeal(b) => ReadKeepsInv(w, s, p, LookSeal(b));
    case Match => ReadKeepsInv(w, s, p, Match);
  }

  lemma EventKeepsInv(w: World, s: State, e: Event)
    requires Inv(w, s) && Next(w, s, e).Some? && HarmlessStep(w, s, e)
    ensures Inv(w, Next(w, s, e).value)
  {
    match e
    case StartArchive(p) => StartKeepsInv(w, s, e);
    case StartReap(p) => StartKeepsInv(w, s, e);
    case Step(p) => StepKeepsInv(w, s, p);
    case SyncFails(p) => StopKeepsInv(w, s, p);
    case Kill(p) => StopKeepsInv(w, s, p);
    case OtherSync => SyncKeepsInv(w, s);
    case Finalize(input) =>
      var t := Next(w, s, e).value;
      forall q | q in t.procs ensures StageOk(w, t, t.procs[q]) {
        assert StageOk(w, s, s.procs[q]);
      }
    case Crash(keep) => CrashKeepsInv(w, s, keep);
  }

  lemma {:induction false} RunKeepsInv(w: World, s: State, events: seq<Event>)
    requires Inv(w, s) && Run(w, s, events).Some? && Harmless(w, s, events)
    ensures Inv(w, Run(w, s, events).value)
    decreases |events|
  {
    if events != [] {
      EventKeepsInv(w, s, events[0]);
      RunKeepsInv(w, Next(w, s, events[0]).value, events[1..]);
    }
  }

  /** In every interleaving with kills, sync failures and crashes that lose any subset of the unsynced
      changes, a source that is absent has its durable receipt, its exact objects and its canonical
      input. */
  lemma AbsentSourceIsProven(w: World, s: State, events: seq<Event>)
    requires InitialState(w, s) && Run(w, s, events).Some? && Harmless(w, s, events)
    ensures var t := Run(w, s, events).value;
            Source !in Present(t) || Source !in t.dir.disk ==> Evidence(w, t)
  {
    RunKeepsInv(w, s, events);
    SourceIsHonest(w, Run(w, s, events).value);
  }
}
