/** The raw reaper's decision over one archive receipt, and the deletions it makes. */
module RawReaper {
  import opened Options
  import opened FrameLayout
  import opened ByteStreams
  import opened Directories
  import RawArchive
  import RawArchiveOrder

  datatype File = Source | Seal | Derivative | ReceiptFile

  // ---- the canonical index ------------------------------------------------------------------

  /** One canonical window's receipt as read: the inputs it names, or a fault. */
  datatype Reading = Inputs(inputs: seq<RawArchive.CanonicalInput>) | Fault

  datatype Index = Index(named: map<RawArchive.CanonicalInput, nat>, faults: nat)

  /** Window `i` is the first readable one to name the input. */
  predicate FirstNamedBy(readings: seq<Reading>, x: RawArchive.CanonicalInput, i: int) {
    && 0 <= i < |readings| && readings[i].Inputs? && x in readings[i].inputs
    && forall j :: 0 <= j < i ==> readings[j].Fault? || x !in readings[j].inputs
  }

  function Faults(readings: seq<Reading>): nat {
    if readings == [] then 0
    else Faults(readings[..|readings| - 1]) + if readings[|readings| - 1].Fault? then 1 else 0
  }

  function Faulty(readings: seq<Reading>): set<int> {
    set i | 0 <= i < |readings| && readings[i].Fault?
  }

  lemma {:induction false} FaultsAreCounted(readings: seq<Reading>)
    ensures Faults(readings) == |Faulty(readings)|
  {
    if readings == [] {
      assert Faulty(readings) == {};
    } else {
      var n := |readings| - 1;
      FaultsAreCounted(readings[..n]);
      assert Faulty(readings) == Faulty(readings[..n]) + if readings[n].Fault? then {n} else {};
      assert n !in Faulty(readings[..n]);
    }
  }

  /** A receipt that cannot be read adds a fault and no names. */
  method BuildIndex(readings: seq<Reading>) returns (index: Index)
    ensures forall x, i :: x in index.named && index.named[x] == i <==> FirstNamedBy(readings, x, i)
    ensures index.faults == |Faulty(readings)|
  {
    var named: map<RawArchive.CanonicalInput, nat>, faults := map[], 0;
    for i := 0 to |readings|
      invariant faults == Faults(readings[..i])
      invariant forall x :: x in named ==> named[x] < i && FirstNamedBy(readings, x, named[x])
      invariant forall x, k :: 0 <= k < i && readings[k].Inputs? && x in readings[k].inputs ==> x in named
    {
      assert readings[..i + 1][..i] == readings[..i];
      if readings[i].Fault? {
        faults := faults + 1;
        continue;
      }
      var inputs := readings[i].inputs;
      for j := 0 to |inputs|
        invariant forall x :: x in named ==> named[x] <= i && FirstNamedBy(readings, x, named[x])
        invariant forall x, k :: 0 <= k < i && readings[k].Inputs? && x in readings[k].inputs ==> x in named
        invariant forall x :: x in inputs[..j] ==> x in named
      {
        if inputs[j] !in named {
          named := named[inputs[j] := i];
        }
      }
      assert inputs[..|inputs|] == inputs;
    }
    assert readings[..|readings|] == readings;
    FaultsAreCounted(readings);
    index := Index(named, faults);
  }

  // ---- one receipt --------------------------------------------------------------------------

  /** What a pass finds. `receipt` is nothing when the document does not parse; `claims` is what the seal
      beside the source claims, nothing when the seal cannot be read; `source` is nothing when the data
      cannot. */
  datatype Case = Case(
    local: bool, receipt: Option<RawArchive.Receipt>, directoryLane: string, independent: bool, destructive: bool,
    store: map<string, seq<byte>>, index: Index, names: set<File>,
    claims: Option<LogicalIdentity>, seal: Option<seq<byte>>, source: Option<seq<byte>>)

  datatype Reason =
    | DurabilityGate | ReceiptInvalid | ObjectUnverified | CanonicalMismatch | CanonicalMissing
    | AuditMode | SourceChanged | IoError

  /** `Keep` comes after the archive was verified, when a derivative may already have gone. */
  datatype Verdict = Refuse(reason: Reason) | Keep(reason: Reason) | AlreadyReaped | FinishSeal | RemoveBoth

  function WantedInput(r: RawArchive.Receipt): RawArchive.CanonicalInput {
    RawArchive.InputOf(r)
  }

  predicate NamesDigest(index: Index, r: RawArchive.Receipt) {
    exists x :: x in index.named && x.lane == r.lane && x.sha256 == r.source.sha256
  }

  /** The first thing on disk that contradicts the receipt: what the seal claims, the seal itself, then
      the source read anew. */
  function LocalMatches(c: Case, r: RawArchive.Receipt): Option<Reason> {
    if c.claims.None? then Some(IoError)
    else if c.claims.value != r.source then Some(SourceChanged)
    else if c.seal.None? then Some(IoError)
    else if StoredOf(c.seal.value) != r.seal then Some(SourceChanged)
    else if c.source.None? then Some(IoError)
    else if LogicalOf(c.source.value) != r.source then Some(SourceChanged)
    else None
  }

  function VerdictOf(c: Case): Verdict {
    if c.local then Refuse(DurabilityGate)
    else if c.receipt.None? || c.directoryLane != c.receipt.value.lane then Refuse(ReceiptInvalid)
    else if !c.independent then Refuse(DurabilityGate)
    else if !RawArchive.ObjectsVerify(c.receipt.value, c.store) then Refuse(ObjectUnverified)
    else
      var r := c.receipt.value;
      if WantedInput(r) !in c.index.named then
        Keep(if NamesDigest(c.index, r) then CanonicalMismatch else CanonicalMissing)
      else if Source !in c.names && Seal !in c.names then AlreadyReaped
      else if Source !in c.names then (if c.destructive then FinishSeal else Keep(AuditMode))
      else if Seal !in c.names then Keep(SourceChanged)
      else
        match LocalMatches(c, r)
        case Some(reason) => Keep(reason)
        case None => if c.destructive then RemoveBoth else Keep(AuditMode)
  }

  /** What goes, in the order in which it goes. */
  function Removals(c: Case): seq<File> {
    (if VerdictOf(c).Refuse? then [] else First(c)) +
    match VerdictOf(c) case RemoveBoth => [Source, Seal] case FinishSeal => [Seal] case _ => []
  }

  function Without(names: set<File>, gone: seq<File>): set<File> {
    set n | n in names && n !in gone
  }

  datatype Decision = Decided(verdict: Verdict, derivativeDeleted: bool) | Failed

  /** One pass over one receipt, with nobody else at work in the directory. A failed sync ends it after
      some of the removals, always from the front; and the receipt is on the disk before the source goes. */
  method Consider(c: Case, directory: DurableDirectory<File>) returns (d: Decision)
    requires Visible(directory.dir) == c.names && ReceiptFile in c.names
    modifies directory
    ensures d.Decided? ==>
              && d.verdict == VerdictOf(c) && d.derivativeDeleted == (Derivative in Removals(c))
              && Visible(directory.dir) == Without(c.names, Removals(c))
              && (Removals(c) == [] ==> directory.dir == old(directory.dir))
              && (Removals(c) != [] ==> directory.dir.log == [])
    ensures d == Failed ==>
              exists n :: 0 <= n <= |Removals(c)| && Visible(directory.dir) == Without(c.names, Removals(c)[..n])
    ensures directory.failed == (old(directory.failed) || d == Failed)
    ensures Source in c.names && Source !in Visible(directory.dir) ==>
              ReceiptFile in directory.dir.disk && Remove(ReceiptFile) !in directory.dir.log
  {
    Spelled(c);
    hide Removals, Visible, Without, LocalMatches, NamesDigest, RawArchive.ObjectsVerify;
    if c.local {
      return Decided(Refuse(DurabilityGate), false);
    }
    if c.receipt.None? {
      return Decided(Refuse(ReceiptInvalid), false);
    }
    var r := c.receipt.value;
    if c.directoryLane != r.lane {
      return Decided(Refuse(ReceiptInvalid), false);
    }
    if !c.independent {
      return Decided(Refuse(DurabilityGate), false);
    }
    if !RawArchive.ObjectsVerify(r, c.store) {
      return Decided(Refuse(ObjectUnverified), false);
    }
    var gone: seq<File>, ok := [], true;
    if c.destructive && Derivative in c.names {
      ok := RemoveOne(directory, c.names, gone, Derivative);
      gone := gone + [Derivative];
      assert gone == [Derivative];
      GoneOrNot(c.names, gone, Source);
      if !ok {
        assert gone == Removals(c)[..1];
        return Failed;
      }
    }
    var derivative := gone != [];
    assert gone == First(c) && gone + [] == gone && Removals(c)[..|gone|] == gone;
    if WantedInput(r) !in c.index.named {
      return Decided(Keep(if NamesDigest(c.index, r) then CanonicalMismatch else CanonicalMissing), derivative);
    }
    var sourcePresent, sealPresent := Source in c.names, Seal in c.names;
    if !sourcePresent && !sealPresent {
      return Decided(AlreadyReaped, derivative);
    }
    if !sourcePresent {
      if !c.destructive {
        return Decided(Keep(AuditMode), derivative);
      }
      ok := RemoveOne(directory, c.names, gone, Seal);
      if !ok {
        assert gone + [Seal] == Removals(c)[..|gone| + 1];
        return Failed;
      }
      return Decided(FinishSeal, derivative);
    }
    if !sealPresent {
      return Decided(Keep(SourceChanged), derivative);
    }
    var complaint := LocalMatches(c, r);
    if complaint.Some? {
      return Decided(Keep(complaint.value), derivative);
    }
    if !c.destructive {
      return Decided(Keep(AuditMode), derivative);
    }
    var more;
    ok, more := RemoveSegment(directory, c.names, gone);
    GoneOrNot(c.names, gone + more, Source);
    if !ok {
      assert gone + more == Removals(c)[..|gone + more|];
      return Failed;
    }
    d := Decided(RemoveBoth, derivative);
  }

  /** Source before seal, and the receipt confirmed before either. */
  method RemoveSegment(directory: DurableDirectory<File>, names: set<File>, gone: seq<File>)
    returns (ok: bool, more: seq<File>)
    requires Visible(directory.dir) == Without(names, gone) && {Source, Seal, ReceiptFile} <= names
    requires Source !in gone && Seal !in gone && ReceiptFile !in gone
    modifies directory
    ensures Visible(directory.dir) == Without(names, gone + more)
    ensures if ok then more == [Source, Seal] && directory.dir.log == [] else more in {[], [Source], [Source, Seal]}
    ensures directory.failed == (old(directory.failed) || !ok)
    ensures more != [] ==> ReceiptFile in directory.dir.disk && Remove(ReceiptFile) !in directory.dir.log
  {
    more := [];
    assert gone + more == gone;
    ok := directory.ConfirmDurable();
    if !ok {
      return;
    }
    OnDisk(directory.dir);
    GoneOrNot(names, gone, ReceiptFile);
    ok := RemoveOne(directory, names, gone, Source);
    more := [Source];
    if !ok {
      return;
    }
    OnDisk(directory.dir);
    GoneOrNot(names, gone + more, ReceiptFile);
    ok := RemoveOne(directory, names, gone + more, Seal);
    assert gone + more + [Seal] == gone + [Source, Seal];
    more := [Source, Seal];
    if ok {
      OnDisk(directory.dir);
      GoneOrNot(names, gone + more, ReceiptFile);
    }
  }

  lemma OnDisk(d: Directory<File>)
    requires d.log == []
    ensures Visible(d) == d.disk
  {
  }

  lemma GoneOrNot(names: set<File>, gone: seq<File>, n: File)
    ensures n in Without(names, gone) <==> n in names && n !in gone
  {
  }

  /** What goes on the archive's strength alone. */
  function First(c: Case): seq<File> {
    if c.destructive && Derivative in c.names then [Derivative] else []
  }

  /** The removals, spelled out for each verdict. */
  lemma Spelled(c: Case)
    ensures var v := VerdictOf(c);
            && Without(c.names, []) == c.names
            && Removals(c) == (if v.Refuse? then [] else First(c)) +
                 (if v == RemoveBoth then [Source, Seal] else if v == FinishSeal then [Seal] else [])
            && (v == RemoveBoth ==> {Source, Seal} <= c.names)
            && (v == FinishSeal ==> Seal in c.names && Source !in c.names)
  {
  }

  method RemoveOne(directory: DurableDirectory<File>, names: set<File>, gone: seq<File>, n: File) returns (ok: bool)
    requires Visible(directory.dir) == Without(names, gone) && n in names && n !in gone
    modifies directory
    ensures Visible(directory.dir) == Without(names, gone + [n])
    ensures if ok then directory.dir.log == [] else directory.dir == Changed(old(directory.dir), Remove(n))
    ensures directory.failed == (old(directory.failed) || !ok)
  {
    var removed;
    ok, removed := directory.RemoveDurable(n);
    assert Without(names, gone + [n]) == Without(names, gone) - {n};
  }

  // ---- what the verdict means ---------------------------------------------------------------

  /** The source may go exactly when all of it holds: a production receipt of this lane, an independent
      store whose objects match it, a canonical input of its lane, digest, file and index, a seal beside
      the source that still claims and is what was archived, and the source itself rehashed. */
  lemma SourceGoesExactlyWhenProven(c: Case)
    ensures Source in Removals(c) <==>
              && !c.local && c.independent && c.destructive && {Source, Seal} <= c.names
              && c.receipt.Some? && c.directoryLane == c.receipt.value.lane
              && var r := c.receipt.value;
                 && RawArchive.ObjectsVerify(r, c.store) && WantedInput(r) in c.index.named
                 && c.claims == Some(r.source)
                 && c.seal.Some? && StoredOf(c.seal.value) == r.seal
                 && c.source.Some? && LogicalOf(c.source.value) == r.source
  {
  }

  /** The compressed copy goes first, on the verified archive alone: neither the canonical windows nor the
      segment's own files have a say in it. */
  lemma DerivativeGoesExactlyWhenArchived(c: Case)
    ensures Derivative in Removals(c) <==>
              && c.destructive && Derivative in c.names && !c.local && c.independent
              && c.receipt.Some? && c.directoryLane == c.receipt.value.lane
              && RawArchive.ObjectsVerify(c.receipt.value, c.store)
    ensures Derivative in Removals(c) ==> Removals(c)[0] == Derivative && Derivative !in Removals(c)[1..]
  {
    hide RawArchive.ObjectsVerify, LocalMatches, NamesDigest;
    Spelled(c);
  }

  /** A seal left alone goes on the same proofs as the source, short of those that need the source. */
  lemma SealGoesExactlyWhenProven(c: Case)
    ensures Seal in Removals(c) <==>
              || Source in Removals(c)
              || (&& !c.local && c.independent && c.destructive && Source !in c.names && Seal in c.names
                  && c.receipt.Some? && c.directoryLane == c.receipt.value.lane
                  && RawArchive.ObjectsVerify(c.receipt.value, c.store)
                  && WantedInput(c.receipt.value) in c.index.named)
    ensures ReceiptFile !in Removals(c)
  {
  }

  /** An audit deletes nothing, and reports itself as the reason exactly where a destructive pass over the
      same case would delete raw files; elsewhere both decide alike. */
  lemma AuditsDeleteNothing(c: Case)
    requires !c.destructive
    ensures Removals(c) == []
    ensures var d := c.(destructive := true);
            && (VerdictOf(c) == Keep(AuditMode) <==> Source in Removals(d) || Seal in Removals(d))
            && (VerdictOf(c) != Keep(AuditMode) ==> VerdictOf(c) == VerdictOf(d))
  {
    hide RawArchive.ObjectsVerify, NamesDigest;
    Spelled(c);
    Spelled(c.(destructive := true));
  }

  /** What is reported when raw files stay: the gate that was closed, or what contradicts the receipt. */
  lemma ReasonsMean(c: Case)
    ensures var v := VerdictOf(c);
            && (v == Refuse(DurabilityGate) ==> c.local || !c.independent)
            && (v == Refuse(ReceiptInvalid) ==> c.receipt.None? || c.receipt.value.lane != c.directoryLane)
            && (v.Refuse? || (c.receipt.Some? && RawArchive.ObjectsVerify(c.receipt.value, c.store)))
    ensures c.receipt.Some? ==>
              var r, v := c.receipt.value, VerdictOf(c);
              && (v == Refuse(ObjectUnverified) ==> !RawArchive.ObjectsVerify(r, c.store))
              && (v == Keep(CanonicalMissing) ==>
                    forall x :: x in c.index.named ==> x.lane != r.lane || x.sha256 != r.source.sha256)
              && (v == Keep(CanonicalMismatch) ==>
                    exists x :: x in c.index.named && x.lane == r.lane && x.sha256 == r.source.sha256
                                && (x.file != r.sourceFile || x.index != r.index))
              && (v == Keep(SourceChanged) ==>
                    && Source in c.names
                    && (|| Seal !in c.names
                        || (c.claims.Some? && c.claims.value != r.source)
                        || (c.seal.Some? && StoredOf(c.seal.value) != r.seal)
                        || (c.source.Some? && LogicalOf(c.source.value) != r.source)))
              && (v == Keep(IoError) ==> Source in c.names && (c.claims.None? || c.seal.None? || c.source.None?))
              && (v == AlreadyReaped ==> {Source, Seal} !! c.names && WantedInput(r) in c.index.named)
  {
    hide RawArchive.ObjectsVerify;
  }

  /** A matching digest means matching bytes: what is deleted is what was archived. */
  lemma DeletedBytesAreTheArchivedBytes(c: Case, archived: seq<byte>)
    requires Source in Removals(c) && LogicalOf(archived) == c.receipt.value.source
    ensures c.source == Some(archived)
  {
    SourceGoesExactlyWhenProven(c);
  }

  /** The seal outlives the source, and goes only with it or after it. */
  lemma SealGoesAfterSource(c: Case)
    ensures Seal in Removals(c) ==>
              Source !in c.names || (Source in Removals(c) && Removals(c)[|Removals(c)| - 2] == Source)
    ensures Seal in Removals(c) ==> Removals(c)[|Removals(c)| - 1] == Seal
  {
  }

  function Later(c: Case, gone: seq<File>): Case {
    c.(names := Without(c.names, gone))
  }

  /** Over a finished deletion a later pass finds nothing to do. */
  lemma FinishedStaysFinished(c: Case)
    requires VerdictOf(c) == RemoveBoth
    ensures VerdictOf(Later(c, Removals(c))) == AlreadyReaped
  {
    Spelled(c);
    LaterRemovals(c, Removals(c));
  }

  /** Whatever a failed pass left, a later pass over the same proofs finishes the same deletion. */
  lemma LaterPassesFinish(c: Case, n: nat)
    requires n <= |Removals(c)| && VerdictOf(c) == RemoveBoth
    ensures var l := Later(c, Removals(c)[..n]);
            Without(l.names, Removals(l)) == Without(c.names, Removals(c))
  {
    hide VerdictOf, Removals;
    var all := Removals(c);
    assert all == all[..n] + all[n..];
    LaterRemovals(c, all[..n]);
    WithoutTwice(c.names, all, all[..n], Removals(Later(c, all[..n])));
  }

  lemma WithoutTwice(names: set<File>, all: seq<File>, gone: seq<File>, rest: seq<File>)
    requires forall f :: f in rest <==> f in all && f !in gone
    requires forall f :: f in gone ==> f in all
    ensures Without(Without(names, gone), rest) == Without(names, all)
  {
  }

  /** What a pass does after some of the removals were made from the front. */
  lemma LaterRemovals(c: Case, gone: seq<File>)
    requires VerdictOf(c) == RemoveBoth && gone <= Removals(c)
    ensures var l := Later(c, gone);
            && (Seal in gone ==> Source in gone && VerdictOf(l) == AlreadyReaped)
            && forall f :: f in Removals(l) <==> f in Removals(c) && f !in gone
  {
    var all := Removals(c);
    Spelled(c);
    var last := |all| - 1;
    assert all[last] == Seal && all[last - 1] == Source;
    if i :| 0 <= i < |gone| && gone[i] == Seal {
      assert all[i] == Seal && i == last;
      assert gone == all;
    }
    hide RawArchive.ObjectsVerify, LocalMatches, NamesDigest;
  }

  // ---- the decision and the protocol --------------------------------------------------------

  /** What a pass finds at a state of the protocol. */
  function CaseOf(w: RawArchive.World, s: RawArchive.State, index: Index): Case {
    var names := RawArchive.Present(s);
    Case(false, Some(RawArchive.ReceiptOf(w)), w.segment.lane, w.independent, true, s.store, index,
         (if RawArchive.Name.Source in names then {Source} else {}) +
         (if RawArchive.Name.Seal in names then {Seal} else {}) + {ReceiptFile},
         Some(w.claims), Some(w.segment.seal), Some(w.segment.bytes))
  }

  /** In every reachable state, whatever a process is about to delete is what a whole fresh decision,
      taken at that very moment, would delete. */
  lemma StagesDeleteWhatTheVerdictAllows(
      w: RawArchive.World, s: RawArchive.State, events: seq<RawArchive.Event>, p: RawArchive.Pid, index: Index)
    requires RawArchive.InitialState(w, s) && RawArchive.Run(w, s, events).Some? && RawArchive.Harmless(w, s, events)
    requires var u := RawArchive.Run(w, s, events).value; p in u.procs && index.named.Keys == u.canonical
    ensures var u := RawArchive.Run(w, s, events).value;
            var before, after := RawArchive.Present(u), RawArchive.Present(RawArchive.Advance(w, u, p, u.procs[p]));
            && (RawArchive.Name.Source in before - after ==> VerdictOf(CaseOf(w, u, index)) == RemoveBoth)
            && (RawArchive.Name.Seal in before - after ==> VerdictOf(CaseOf(w, u, index)) == FinishSeal)
  {
    var u := RawArchive.Run(w, s, events).value;
    RawArchive.RunKeepsInv(w, s, events);
    RawArchiveOrder.RunKeepsSealsStand(w, s, events);
    RawArchive.SourceIsHonest(w, u);
    assert RawArchive.StageOk(w, u, u.procs[p]);
    hide RawArchive.Run, RawArchive.Harmless, RawArchive.Inv;
    WhatGoes(w, u, p);
  }

  lemma WhatGoes(w: RawArchive.World, s: RawArchive.State, p: RawArchive.Pid)
    requires p in s.procs
    ensures var gone := RawArchive.Present(s) - RawArchive.Present(RawArchive.Advance(w, s, p, s.procs[p]));
            && (RawArchive.Name.Source in gone ==> s.procs[p] == RawArchive.RemoveSource)
            && (RawArchive.Name.Seal in gone ==> s.procs[p] == RawArchive.RemoveSeal)
  {
    match s.procs[p]
    case PublishReceipt => RawArchive.VisibleAfterChange(s.dir, Add(RawArchive.Marker(w)));
    case TakeBack => RawArchive.VisibleAfterChange(s.dir, Remove(RawArchive.Marker(w)));
    case RemoveSource => RawArchive.VisibleAfterChange(s.dir, Remove(RawArchive.Name.Source));
    case RemoveSeal => RawArchive.VisibleAfterChange(s.dir, Remove(RawArchive.Name.Seal));
    case _ =>
  }

  /** The other way round: where the decision calls for deletions, a reaper that starts there and is left
      alone makes exactly these, durably, and nothing else changes. */
  lemma StagesCarryTheVerdictOut(w: RawArchive.World, s: RawArchive.State, p: RawArchive.Pid, index: Index)
    requires p !in s.procs && RawArchive.ProductionReceipt in RawArchive.Present(s) && index.named.Keys == s.canonical
    ensures VerdictOf(CaseOf(w, s, index)) == RemoveBoth ==>
              RawArchive.Run(w, s, RawArchiveOrder.ReapToUnlink(p) + RawArchiveOrder.ReapRest(p)) ==
              Some(s.(dir := Directory(RawArchive.Present(s) - {RawArchive.Name.Source, RawArchive.Name.Seal}, [])))
    ensures VerdictOf(CaseOf(w, s, index)) == FinishSeal ==>
              RawArchive.Run(w, s, RawArchiveOrder.PartialToUnlink(p) + [RawArchive.Step(p)]) ==
              Some(s.(dir := Directory(RawArchive.Present(s) - {RawArchive.Name.Seal}, [])))
  {
    hide RawArchive.Run, RawArchive.Present, Removals;
    if VerdictOf(CaseOf(w, s, index)) == RemoveBoth {
      RawArchiveOrder.FullReap(w, s, p);
    } else if VerdictOf(CaseOf(w, s, index)) == FinishSeal {
      RawArchiveOrder.FullPartial(w, s, p);
    }
  }
}
