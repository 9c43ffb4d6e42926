/** A finalized window's directory: what its reader accepts, and the reaper that deletes its two frames. */
module CanonicalWindow {
  import opened Options
  import opened FrameLayout
  import opened ByteStreams
  import opened Directories

  datatype Name = Evidence | Provenance | ReceiptFile | Marker | LocalMarker | Stranger

  datatype Receipt = Receipt(
    start: int, end: int, finalizedAt: int, evidence: StoredIdentity, provenance: StoredIdentity)

  /** The production archive receipt: the window, and the identities of what was copied. */
  datatype ArchiveReceipt = ArchiveReceipt(
    start: int, end: int, verifiedAt: int,
    receipt: StoredIdentity, evidence: StoredIdentity, provenance: StoredIdentity)

  /** A window's files and how its two documents parse; a file a name does not hold is simply absent.
      `regular` lists the names that are plain files, `times` the modification times. */
  datatype Window = Window(
    names: set<Name>, regular: set<Name>, bytes: Name -> seq<byte>, times: Name -> int,
    receipt: seq<byte> -> Option<Receipt>, archive: seq<byte> -> Option<ArchiveReceipt>)

  // ---- the reader ---------------------------------------------------------------------------

  datatype Reading = Complete(receipt: Receipt) | Reaped(receipt: Receipt) | Refused

  /** A name is absent, present with the recorded size, or wrong. */
  function OutputPresent(w: Window, n: Name, recorded: StoredIdentity): Option<bool> {
    if n !in w.names then Some(false)
    else if n in w.regular && |w.bytes(n)| == recorded.byteLength then Some(true)
    else None
  }

  predicate TombstoneOk(w: Window, r: Receipt) {
    && Marker in w.names && Marker in w.regular && w.archive(w.bytes(Marker)).Some?
    && var a := w.archive(w.bytes(Marker)).value;
       && a.start == r.start && a.end == r.end
       && a.receipt == StoredOf(w.bytes(ReceiptFile)) && a.evidence == r.evidence && a.provenance == r.provenance
  }

  /** A document that declares a start at or after its end is refused with the malformed ones. */
  function ReadReceipt(w: Window): Reading {
    if ReceiptFile !in w.names || w.receipt(w.bytes(ReceiptFile)).None? then Refused
    else
      var r := w.receipt(w.bytes(ReceiptFile)).value;
      if r.start >= r.end then Refused
      else
        var e, p := OutputPresent(w, Evidence, r.evidence), OutputPresent(w, Provenance, r.provenance);
        if e.None? || p.None? then Refused
        else if e.value && p.value then Complete(r)
        else if e.value then Refused
        else if TombstoneOk(w, r) then Reaped(r)
        else Refused
  }

  /** Window, receipt bytes and both identities agree, and so does every frame that is still there. */
  predicate Bound(w: Window, r: Receipt, a: ArchiveReceipt, present: set<Name>) {
    && r.start == a.start && r.end == a.end && StoredOf(w.bytes(ReceiptFile)) == a.receipt
    && r.evidence == a.evidence && r.provenance == a.provenance
    && (Evidence in present ==> StoredOf(w.bytes(Evidence)) == r.evidence)
    && (Provenance in present ==> StoredOf(w.bytes(Provenance)) == r.provenance)
  }

  // ---- the reaper's decision ----------------------------------------------------------------

  datatype Reason =
    | NotArchived | DurabilityGate | ReceiptInvalid | UnexpectedArtifact | RetentionFloor
    | ObjectUnverified | WindowChanged | AuditMode | Proven | ArtifactsAbsent

  datatype Service = Service(destructive: bool, retention: int, now: int, independent: bool, objectsVerify: bool)

  /** The frames among the names, or nothing when the directory holds something it should not. */
  function Inventory(w: Window): Option<set<Name>> {
    if Stranger in w.names || !(w.names <= w.regular) then None else Some(w.names * {Evidence, Provenance})
  }

  function Latest(w: Window, r: Receipt, a: ArchiveReceipt): int {
    Max(Max(r.end, r.finalizedAt), Max(a.verifiedAt, Max(w.times(ReceiptFile), w.times(Marker))))
  }

  /** The checks in the order they are made; `Proven` means the frames may go. */
  function Verdict(w: Window, s: Service): Reason {
    if Marker !in w.names || Marker !in w.regular then
      (if LocalMarker in w.names && LocalMarker in w.regular then DurabilityGate else NotArchived)
    else if w.archive(w.bytes(Marker)).None? then ReceiptInvalid
    else if Inventory(w).None? then UnexpectedArtifact
    else
      var a, present, reading := w.archive(w.bytes(Marker)).value, Inventory(w).value, ReadReceipt(w);
      if present == {} then
        (if reading != Refused && Bound(w, reading.receipt, a, {}) then ArtifactsAbsent else WindowChanged)
      else if !s.independent then DurabilityGate
      else if present == {Evidence} then WindowChanged
      else if reading == Refused || !Bound(w, reading.receipt, a, present) then WindowChanged
      else if s.now - Latest(w, reading.receipt, a) < s.retention then RetentionFloor
      else if !s.objectsVerify then ObjectUnverified
      else if !s.destructive then AuditMode
      else Proven
  }

  datatype Decision = Decision(reason: Reason, deleted: nat, reclaimed: nat) | Failed

  function WindowAt(w: Window, names: set<Name>): Window {
    w.(names := names)
  }

  /** One pass of the reaper over a window's directory, with nobody else at work in it. Only the checks'
      verdict lets it delete; then it confirms the receipts, and removes evidence before provenance. */
  method Consider(w: Window, s: Service, directory: DurableDirectory<Name>) returns (d: Decision)
    requires Visible(directory.dir) == w.names
    modifies directory
    ensures Verdict(w, s) != Proven ==> directory.dir == old(directory.dir) && d == Decision(Verdict(w, s), 0, 0)
    ensures Verdict(w, s) == Proven && d != Failed ==>
              && directory.dir == Directory(w.names - {Evidence, Provenance}, [])
              && d.reason == Proven && d.deleted == |w.names * {Evidence, Provenance}|
              && d.reclaimed == (if Evidence in w.names then |w.bytes(Evidence)| else 0) +
                                (if Provenance in w.names then |w.bytes(Provenance)| else 0)
    ensures Verdict(w, s) == Proven && d == Failed ==>
              || directory.dir == old(directory.dir) || directory.dir == Directory(w.names, [])
              || (Evidence in w.names && directory.dir == Directory(w.names, [Remove(Evidence)]))
              || directory.dir == Directory(w.names - {Evidence}, [Remove(Provenance)])
    ensures directory.failed == (old(directory.failed) || d == Failed)
  {
    hide Visible, ReadReceipt, Bound, Latest;
    if Marker !in w.names || Marker !in w.regular {
      var local := LocalMarker in w.names && LocalMarker in w.regular;
      return Decision(if local then DurabilityGate else NotArchived, 0, 0);
    }
    var parsed := w.archive(w.bytes(Marker));
    if parsed.None? {
      return Decision(ReceiptInvalid, 0, 0);
    }
    var a, inventory := parsed.value, Inventory(w);
    if inventory.None? {
      return Decision(UnexpectedArtifact, 0, 0);
    }
    var present := inventory.value;
    if present == {} {
      var reading := ReadReceipt(w);
      var agree := reading != Refused && Bound(w, reading.receipt, a, {});
      return Decision(if agree then ArtifactsAbsent else WindowChanged, 0, 0);
    }
    if !s.independent {
      return Decision(DurabilityGate, 0, 0);
    }
    if present == {Evidence} {
      return Decision(WindowChanged, 0, 0);
    }
    var reading := ReadReceipt(w);
    if reading == Refused || !Bound(w, reading.receipt, a, present) {
      return Decision(WindowChanged, 0, 0);
    }
    if s.now - Latest(w, reading.receipt, a) < s.retention {
      return Decision(RetentionFloor, 0, 0);
    }
    if !s.objectsVerify {
      return Decision(ObjectUnverified, 0, 0);
    }
    if !s.destructive {
      return Decision(AuditMode, 0, 0);
    }
    assert present == w.names * {Evidence, Provenance};
    assert (Evidence in present <==> Evidence in w.names) && (Provenance in present <==> Provenance in w.names);
    assert Verdict(w, s) == Proven;
    hide Verdict, Visible, Inventory;
    var ok := directory.ConfirmDurable();
    if !ok {
      return Failed;
    }
    NoChanges(directory.dir);
    ok := directory.ConfirmDurable();
    if !ok {
      return Failed;
    }
    NoChanges(directory.dir);
    var deleted, reclaimed, more, size;
    ok, deleted, reclaimed := RemoveFrame(w, w.names, Evidence, Evidence in present, directory);
    if !ok {
      return Failed;
    }
    ok, more, size := RemoveFrame(w, w.names - {Evidence}, Provenance, Provenance in present, directory);
    if !ok {
      return Failed;
    }
    FramesApart(w.names);
    d := Decision(Proven, deleted + more, reclaimed + size);
  }

  /** One turn of the deletion loop. */
  method RemoveFrame(w: Window, names: set<Name>, n: Name, present: bool, directory: DurableDirectory<Name>)
    returns (ok: bool, deleted: nat, reclaimed: nat)
    requires directory.dir == Directory(names, []) && present == (n in names)
    modifies directory
    ensures ok ==>
              && directory.dir == Directory(names - {n}, [])
              && deleted == (if present then 1 else 0) && reclaimed == (if present then |w.bytes(n)| else 0)
    ensures !ok ==> present && directory.dir == Directory(names, [Remove(n)])
    ensures directory.failed == (old(directory.failed) || !ok)
  {
    NoChanges(directory.dir);
    hide Replay;
    if !present {
      assert names - {n} == names;
      return true, 0, 0;
    }
    var size := |w.bytes(n)|;
    var removed;
    ok, removed := directory.RemoveDurable(n);
    if ok {
      NoChanges(directory.dir);
    } else {
      assert [] + [Remove(n)] == [Remove(n)];
    }
    deleted, reclaimed := if removed then 1 else 0, if removed then size else 0;
  }

  lemma FramesApart(names: set<Name>)
    ensures names - {Evidence} - {Provenance} == names - {Evidence, Provenance}
    ensures |names * {Evidence, Provenance}| ==
            (if Evidence in names then 1 else 0) + (if Provenance in names then 1 else 0)
  {
    assert names * {Evidence, Provenance} ==
           (if Evidence in names then {Evidence} else {}) + (if Provenance in names then {Provenance} else {});
  }

  lemma NoChanges(d: Directory<Name>)
    requires d.log == []
    ensures Visible(d) == d.disk && d == Directory(Visible(d), [])
  {
  }

  /** Any crash after a failed pass leaves all frames, evidence gone, or both gone. */
  lemma FailedPassesCrashCleanly(names: set<Name>, d: Directory<Name>, keep: seq<bool>)
    requires || d == Directory(names, []) || d == Directory(names, [Remove(Evidence)])
             || d == Directory(names - {Evidence}, [Remove(Provenance)])
    requires |keep| == |d.log|
    ensures AfterCrash(d, keep).disk in {names, names - {Evidence}, names - {Evidence, Provenance}}
  {
    if d.log != [] {
      assert d.log[1..] == [] && keep[1..] == [];
      assert Kept(d.log, keep) == if keep[0] then d.log else [];
      assert d.log[1..] == [];
      assert names - {Evidence} - {Provenance} == names - {Evidence, Provenance};
    }
  }

  // ---- what the verdict means ---------------------------------------------------------------

  lemma AgeFromTheLatest(w: Window, r: Receipt, a: ArchiveReceipt, s: Service)
    ensures s.now - Latest(w, r, a) >= s.retention <==>
            forall t :: t in [r.end, r.finalizedAt, a.verifiedAt, w.times(ReceiptFile), w.times(Marker)] ==>
              s.now - t >= s.retention
  {
    var times := [r.end, r.finalizedAt, a.verifiedAt, w.times(ReceiptFile), w.times(Marker)];
    assert times[0] in times && times[1] in times && times[2] in times && times[3] in times && times[4] in times;
    assert Latest(w, r, a) in times;
    assert forall t :: t in times ==> t <= Latest(w, r, a);
  }

  /** Deletion needs all of it: the marker, an orderly directory, an independent store, provenance still
      there, receipts that read and agree with every byte present, age, and a fresh remote proof. */
  lemma DeletesOnlyWhenProven(w: Window, s: Service)
    ensures Verdict(w, s) == Proven <==>
              && {Marker, ReceiptFile, Provenance} <= w.names <= w.regular && Stranger !in w.names
              && s.independent && s.objectsVerify && s.destructive
              && w.archive(w.bytes(Marker)).Some? && w.receipt(w.bytes(ReceiptFile)).Some?
              && var a, r := w.archive(w.bytes(Marker)).value, w.receipt(w.bytes(ReceiptFile)).value;
                 && r.start == a.start < r.end == a.end && a.receipt == StoredOf(w.bytes(ReceiptFile))
                 && a.evidence == r.evidence && (Evidence in w.names ==> StoredOf(w.bytes(Evidence)) == r.evidence)
                 && a.provenance == r.provenance == StoredOf(w.bytes(Provenance))
                 && (forall t :: t in [r.end, r.finalizedAt, a.verifiedAt, w.times(ReceiptFile), w.times(Marker)] ==>
                       s.now - t >= s.retention)
  {
    if w.archive(w.bytes(Marker)).Some? && w.receipt(w.bytes(ReceiptFile)).Some? {
      AgeFromTheLatest(w, w.receipt(w.bytes(ReceiptFile)).value, w.archive(w.bytes(Marker)).value, s);
    }
    hide Latest;
    if Inventory(w).Some? {
      var present := Inventory(w).value;
      assert Evidence in present <==> Evidence in w.names;
      assert Provenance in present <==> Provenance in w.names;
      assert present == {} <==> Evidence !in present && Provenance !in present;
      assert present == {Evidence} <==> Evidence in present && Provenance !in present;
    }
  }

  /** An audit deletes nothing, and names itself as the reason exactly where a destructive pass would delete. */
  lemma AuditsDeleteNothing(w: Window, s: Service)
    requires !s.destructive
    ensures Verdict(w, s) != Proven
    ensures Verdict(w, s) == AuditMode <==> Verdict(w, s.(destructive := true)) == Proven
    ensures Verdict(w, s) != AuditMode ==> Verdict(w, s) == Verdict(w, s.(destructive := true))
  {
    hide ReadReceipt, Bound, Latest, Inventory;
  }

  /** What is reported when nothing is deleted: each reason names the gate that was closed, and the last two
      name the only one. */
  lemma ReasonsMean(w: Window, s: Service)
    ensures var v, marked := Verdict(w, s), Marker in w.names && Marker in w.regular;
            var open := s.(independent := true, objectsVerify := true, destructive := true);
            && (v == NotArchived <==> !marked && !(LocalMarker in w.names && LocalMarker in w.regular))
            && (v == DurabilityGate ==> !marked || !s.independent)
            && (!marked && LocalMarker in w.names && LocalMarker in w.regular ==> v == DurabilityGate)
            && (v == ReceiptInvalid <==> marked && w.archive(w.bytes(Marker)).None?)
            && (v == UnexpectedArtifact ==> Stranger in w.names || exists n :: n in w.names && n !in w.regular)
            && (v == ArtifactsAbsent <==>
                  && marked && w.archive(w.bytes(Marker)).Some? && Stranger !in w.names && w.names <= w.regular
                  && Evidence !in w.names && Provenance !in w.names && ReadReceipt(w).Reaped?)
            && (v == RetentionFloor ==> Verdict(w, open) == RetentionFloor
                                        && exists later :: s.now < later && Verdict(w, open.(now := later)) == Proven)
            && (v == ObjectUnverified ==> !s.objectsVerify && Verdict(w, open) == Proven)
  {
    if Verdict(w, s) == RetentionFloor {
      var a, r := w.archive(w.bytes(Marker)).value, ReadReceipt(w).receipt;
      var later := Latest(w, r, a) + s.retention;
      assert s.now < later;
      var open := s.(independent := true, objectsVerify := true, destructive := true);
      assert Verdict(w, open.(now := later)) == Proven;
    }
    FramesAmong(w.names);
  }

  lemma FramesAmong(names: set<Name>)
    ensures names * {Evidence, Provenance} == {} <==> Evidence !in names && Provenance !in names
  {
    assert Evidence in names * {Evidence, Provenance} <==> Evidence in names;
    assert Provenance in names * {Evidence, Provenance} <==> Provenance in names;
  }

  /** What the reader accepts: a receipt of a window, with both frames of the recorded sizes; or with the
      evidence gone, and the provenance gone or of its size, under an archive receipt that agrees. */
  lemma ReaderAcceptsExactly(w: Window, r: Receipt)
    ensures var known := ReceiptFile in w.names && w.receipt(w.bytes(ReceiptFile)) == Some(r) && r.start < r.end;
            var provenance := Provenance in w.regular && |w.bytes(Provenance)| == r.provenance.byteLength;
            && (ReadReceipt(w) == Complete(r) <==>
                  && known && {Evidence, Provenance} <= w.names && provenance
                  && Evidence in w.regular && |w.bytes(Evidence)| == r.evidence.byteLength)
            && (ReadReceipt(w) == Reaped(r) <==>
                  && known && Evidence !in w.names && (Provenance in w.names ==> provenance)
                  && Marker in w.names && Marker in w.regular && w.archive(w.bytes(Marker)).Some?
                  && var a := w.archive(w.bytes(Marker)).value;
                     && a.start == r.start && a.end == r.end && a.receipt == StoredOf(w.bytes(ReceiptFile))
                     && a.evidence == r.evidence && a.provenance == r.provenance)
  {
  }

  /** A window whose frames the reaper may delete is one its reader accepts, and stays so in every state
      the deletion passes through: complete, then a tombstone, without and with provenance. */
  lemma ReaderFollowsTheReaper(w: Window, s: Service)
    requires Verdict(w, s) == Proven
    ensures ReadReceipt(w) ==
            if Evidence in w.names then Complete(ReadReceipt(w).receipt) else Reaped(ReadReceipt(w).receipt)
    ensures ReadReceipt(WindowAt(w, w.names - {Evidence})) == Reaped(ReadReceipt(w).receipt)
    ensures ReadReceipt(WindowAt(w, w.names - {Evidence, Provenance})) == Reaped(ReadReceipt(w).receipt)
  {
    DeletesOnlyWhenProven(w, s);
  }

  /** A pass over what another pass left half done: it finishes the job, and over a finished window it
      reports that nothing is left to do. */
  lemma LaterPassesAgree(w: Window, s: Service)
    requires Verdict(w, s) == Proven
    ensures Verdict(WindowAt(w, w.names - {Evidence}), s) == Proven
    ensures Verdict(WindowAt(w, w.names - {Evidence, Provenance}), s) == ArtifactsAbsent
  {
    DeletesOnlyWhenProven(w, s);
    var partial := WindowAt(w, w.names - {Evidence});
    DeletesOnlyWhenProven(partial, s);
    var finished := WindowAt(w, w.names - {Evidence, Provenance});
    ReaderFollowsTheReaper(w, s);
    assert finished.names * {Evidence, Provenance} == {};
  }

  /** Evidence without provenance: the reader refuses it, and the reaper keeps it. */
  lemma EvidenceAloneIsRefused(w: Window, s: Service)
    requires Evidence in w.names && Provenance !in w.names
    ensures ReadReceipt(w) == Refused && Verdict(w, s) != Proven && Verdict(w, s) != ArtifactsAbsent
  {
    DeletesOnlyWhenProven(w, s);
    assert Evidence in w.names * {Evidence, Provenance};
  }
}
