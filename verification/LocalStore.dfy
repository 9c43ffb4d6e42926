/** One key of the local object store, written by any number of writers that ask for the same attributes,
    with failures and crashes between any two steps. */
module LocalStore {
  import opened Options
  import opened FrameLayout
  import opened ByteStreams

  datatype Attributes = Attributes(contentType: Option<string>, contentEncoding: Option<string>)

  const NO_ATTRIBUTES := Attributes(None, None)

  // ---- staging the bytes --------------------------------------------------------------------

  /** Reads the caller's stream to its end and keeps the copy only if it is what was promised. A read that
      breaks leaves nothing. */
  method Stage(source: Source, buffer: nat, promise: StoredIdentity) returns (ok: bool, staged: Option<seq<byte>>)
    requires source.Valid() && 0 < buffer
    modifies source
    ensures source.Valid() && (!ok ==> staged == None)
    ensures source.broke == (old(source.broke) || !ok)
    ensures ok ==>
              && source.position == |source.data|
              && staged == if StoredOf(source.data[old(source.position)..]) == promise
                           then Some(source.data[old(source.position)..]) else None
  {
    var written: seq<byte>, length := [], 0;
    while true
      invariant source.Valid() && old(source.position) <= source.position
      invariant written == source.data[old(source.position)..source.position] && length == |written|
      invariant source.broke == old(source.broke)
      decreases |source.data| - source.position
    {
      var got := source.Read(Some(buffer));
      if !got.Chunk? {
        return false, None;
      }
      if got.bytes == [] {
        break;
      }
      length := length + |got.bytes|;
      written := written + got.bytes;
    }
    assert source.data[old(source.position)..source.position] == source.data[old(source.position)..];
    ok, staged := true, None;
    if StoredIdentity(Sha256(written), length) == promise {
      staged := Some(written);
    }
  }

  // ---- one key and its writers --------------------------------------------------------------

  /** Why a writer looks at the published object. */
  datatype Purpose = First | Repaired | Raced | Published

  /** What a writer is about to do. */
  datatype Stop =
    | ReadData(purpose: Purpose)
    | ReadAttributes(purpose: Purpose, found: seq<byte>)
    | Staging
    | Linking(staged: seq<byte>)
    | SyncLink
    | ReplaceAttributes(next: Purpose)
    | SyncAttributes(next: Purpose)
    | SyncAccepted
    | SyncAcceptedAttributes
    | Returned
    | Refused

  /** `left` is what the caller's stream still holds; a second pass finds it empty. */
  datatype Writer = Writer(body: seq<byte>, left: seq<byte>, promise: StoredIdentity, at: Stop)

  /** `data` and `attributes` are what programs see; the flags say whether the disk has it too. */
  datatype Key = Key(
    wanted: Attributes, data: Option<seq<byte>>, dataSynced: bool, attributes: bool, attributesSynced: bool,
    writers: seq<Writer>)

  datatype Event =
    | Begin(body: seq<byte>, promise: StoredIdentity)
    | Step(writer: nat)
    | Fail(writer: nat)
    | SyncDirectories
    | Crash(keepData: bool, keepAttributes: bool)

  predicate Fresh(k: Key) {
    k.data == None && k.dataSynced && !k.attributes && k.attributesSynced && k.writers == []
  }

  function Seen(k: Key): Attributes {
    if k.attributes then k.wanted else NO_ATTRIBUTES
  }

  function At(k: Key, i: nat, stop: Stop): Key
    requires i < |k.writers|
  {
    k.(writers := k.writers[i := k.writers[i].(at := stop)])
  }

  /** Where a writer goes once it has read both the data and the attributes of the object. */
  function Judged(k: Key, purpose: Purpose, found: seq<byte>, promise: StoredIdentity): Stop {
    if StoredOf(found) != promise then Refused
    else if Seen(k) == k.wanted then (if purpose == Published then Returned else SyncAccepted)
    else if Seen(k) == NO_ATTRIBUTES && purpose == First then ReplaceAttributes(Repaired)
    else if Seen(k) == NO_ATTRIBUTES && purpose == Raced then ReadData(First)
    else Refused
  }

  function Stepped(k: Key, i: nat): Key
    requires i < |k.writers|
  {
    var w := k.writers[i];
    match w.at
    case ReadData(purpose) =>
      if k.data.Some? then At(k, i, ReadAttributes(purpose, k.data.value))
      else At(k, i, if purpose == First then Staging else Refused)
    case ReadAttributes(purpose, found) => At(k, i, Judged(k, purpose, found, w.promise))
    case Staging =>
      var read := k.(writers := k.writers[i := w.(left := [])]);
      At(read, i, if StoredOf(w.left) == w.promise then Linking(w.left) else Refused)
    case Linking(staged) =>
      if k.data.Some? then At(k, i, ReadData(Raced))
      else At(k.(data := Some(staged), dataSynced := false), i, SyncLink)
    case SyncLink =>
      At(k.(dataSynced := true), i,
         if k.wanted == NO_ATTRIBUTES then ReadData(Published) else ReplaceAttributes(Published))
    case ReplaceAttributes(next) =>
      At(k.(attributes := true, attributesSynced := k.attributes && k.attributesSynced), i, SyncAttributes(next))
    case SyncAttributes(next) => At(k.(attributesSynced := true), i, ReadData(next))
    case SyncAccepted =>
      At(k.(dataSynced := true), i, if k.attributes then SyncAcceptedAttributes else Returned)
    case SyncAcceptedAttributes => At(k.(attributesSynced := true), i, Returned)
    case Returned => k
    case Refused => k
  }

  function Killed(writers: seq<Writer>): (r: seq<Writer>)
    ensures |r| == |writers|
    ensures forall i :: 0 <= i < |r| ==>
              r[i] == if writers[i].at == Returned then writers[i] else writers[i].(at := Refused)
  {
    if writers == [] then []
    else [if writers[0].at == Returned then writers[0] else writers[0].(at := Refused)] + Killed(writers[1..])
  }

  function Next(k: Key, e: Event): Key {
    match e
    case Begin(body, promise) => k.(writers := k.writers + [Writer(body, body, promise, ReadData(First))])
    case Step(i) => if i < |k.writers| then Stepped(k, i) else k
    case Fail(i) => if i < |k.writers| && k.writers[i].at != Returned then At(k, i, Refused) else k
    case SyncDirectories => k.(dataSynced := true, attributesSynced := true)
    case Crash(keepData, keepAttributes) =>
      k.(data := if k.dataSynced || keepData then k.data else None, dataSynced := true,
         attributes := k.attributes && (k.attributesSynced || keepAttributes), attributesSynced := true,
         writers := Killed(k.writers))
  }

  function Run(k: Key, events: seq<Event>): Key
    decreases |events|
  {
    if events == [] then k else Run(Next(k, events[0]), events[1..])
  }

  // ---- what every run keeps -----------------------------------------------------------------

  /** What a successful put promises: the identity in place, the attributes in place, both on disk. */
  predicate InPlace(k: Key, promise: StoredIdentity) {
    Matches(k, promise) && k.dataSynced && AttributesInPlace(k)
  }

  predicate Matches(k: Key, promise: StoredIdentity) {
    k.data.Some? && StoredOf(k.data.value) == promise
  }

  predicate AttributesInPlace(k: Key) {
    k.wanted != NO_ATTRIBUTES ==> k.attributes && k.attributesSynced
  }

  /** What a writer may rely on where it stands. */
  predicate Grounded(k: Key, w: Writer) {
    match w.at
    case ReadData(purpose) => Ready(k, w, purpose)
    case ReadAttributes(purpose, found) => k.data == Some(found) && Ready(k, w, purpose)
    case Staging => w.left == w.body
    case Linking(staged) => staged == w.body && StoredOf(staged) == w.promise
    case SyncLink => Matches(k, w.promise)
    case ReplaceAttributes(next) => Attributing(k, w, next)
    case SyncAttributes(next) => Attributing(k, w, next) && k.attributes
    case SyncAccepted => Matches(k, w.promise) && (k.wanted != NO_ATTRIBUTES ==> k.attributes)
    case SyncAcceptedAttributes => Matches(k, w.promise) && k.dataSynced && k.attributes
    case Returned => InPlace(k, w.promise)
    case Refused => true
  }

  predicate Ready(k: Key, w: Writer, purpose: Purpose) {
    match purpose
    case First => w.left == w.body || k.data.Some?
    case Repaired => Matches(k, w.promise) && AttributesInPlace(k)
    case Raced => k.data.Some?
    case Published => InPlace(k, w.promise)
  }

  predicate Attributing(k: Key, w: Writer, next: Purpose) {
    && Matches(k, w.promise) && k.wanted != NO_ATTRIBUTES
    && (next == Repaired || (next == Published && k.dataSynced))
  }

  /** Some writer brought exactly these bytes and had promised them. */
  ghost predicate Brought(k: Key, bytes: seq<byte>) {
    exists i :: 0 <= i < |k.writers| && Brings(k.writers[i], bytes)
  }

  predicate Brings(w: Writer, bytes: seq<byte>) {
    w.body == bytes && StoredOf(bytes) == w.promise
  }

  ghost predicate Inv(k: Key) {
    && (forall i :: 0 <= i < |k.writers| ==> Grounded(k, k.writers[i]))
    && (k.attributes ==> k.wanted != NO_ATTRIBUTES)
    && (k.data.Some? ==> Brought(k, k.data.value))
  }

  // ---- every step keeps it ------------------------------------------------------------------

  /** What other writers cannot take away: bytes, and whatever was made durable. */
  predicate Grows(k: Key, l: Key) {
    && l.wanted == k.wanted
    && (k.data.Some? ==> l.data == k.data && (k.dataSynced ==> l.dataSynced))
    && (k.attributes ==> l.attributes && (k.attributesSynced ==> l.attributesSynced))
  }

  lemma GroundedGrows(k: Key, l: Key, w: Writer)
    requires Grounded(k, w) && Grows(k, l)
    ensures Grounded(l, w)
  {
  }

  lemma StepGrows(k: Key, e: Event)
    requires !e.Crash?
    ensures Grows(k, Next(k, e))
  {
  }

  lemma StepGrounds(k: Key, i: nat)
    requires i < |k.writers| && Grounded(k, k.writers[i]) && (k.attributes ==> k.wanted != NO_ATTRIBUTES)
    ensures |Stepped(k, i).writers| == |k.writers| && Grounded(Stepped(k, i), Stepped(k, i).writers[i])
  {
    hide Stepped, Grounded;
    if k.writers[i].at.ReadAttributes? {
      JudgedGrounds(k, i);
    } else if Writes(k.writers[i].at) {
      WritingGrounds(k, i);
    } else {
      LookingGrounds(k, i);
    }
  }

  predicate Writes(stop: Stop) {
    !(stop.ReadData? || stop.ReadAttributes? || stop.Staging? || stop == Returned || stop == Refused)
  }

  lemma WritingGrounds(k: Key, i: nat)
    requires i < |k.writers| && Writes(k.writers[i].at) && Grounded(k, k.writers[i])
    requires k.attributes ==> k.wanted != NO_ATTRIBUTES
    ensures |Stepped(k, i).writers| == |k.writers| && Grounded(Stepped(k, i), Stepped(k, i).writers[i])
  {
    hide Judged;
  }

  lemma LookingGrounds(k: Key, i: nat)
    requires i < |k.writers| && Grounded(k, k.writers[i])
    requires k.writers[i].at.ReadData? || k.writers[i].at.Staging? || k.writers[i].at in {Returned, Refused}
    ensures |Stepped(k, i).writers| == |k.writers| && Grounded(Stepped(k, i), Stepped(k, i).writers[i])
  {
    hide Judged;
  }

  lemma JudgedGrounds(k: Key, i: nat)
    requires i < |k.writers| && k.writers[i].at.ReadAttributes? && Grounded(k, k.writers[i])
    requires k.attributes ==> k.wanted != NO_ATTRIBUTES
    ensures |Stepped(k, i).writers| == |k.writers| && Grounded(Stepped(k, i), Stepped(k, i).writers[i])
  {
    var w := k.writers[i];
    var stop := Judged(k, w.at.purpose, w.at.found, w.promise);
    assert Stepped(k, i) == At(k, i, stop);
    assert Grounded(k, w.(at := stop));
    GroundedGrows(k, At(k, i, stop), w.(at := stop));
  }

  lemma StepTouchesOne(k: Key, i: nat)
    requires i < |k.writers| && Grounded(k, k.writers[i]) && (k.attributes ==> k.wanted != NO_ATTRIBUTES)
    ensures var l := Stepped(k, i);
            && |l.writers| == |k.writers| && (l.attributes ==> l.wanted != NO_ATTRIBUTES)
            && (forall j :: 0 <= j < |k.writers| ==>
                  && (j != i ==> l.writers[j] == k.writers[j])
                  && l.writers[j].body == k.writers[j].body && l.writers[j].promise == k.writers[j].promise)
            && (l.data == k.data || (k.data.None? && l.data.Some? && Brings(k.writers[i], l.data.value)))
  {
    OneWriterMoves(k, i);
    WhatAStepWrites(k, i);
    hide Stepped, Grounded, Brings;
  }

  lemma OneWriterMoves(k: Key, i: nat)
    requires i < |k.writers|
    ensures OneMoves(k, Stepped(k, i), i)
  {
    hide Judged, Seen, At;
    var read := k.(writers := k.writers[i := k.writers[i].(left := [])]);
    forall l, stop | l in {k, read} || l.writers == k.writers ensures OneMoves(k, At(l, i, stop), i) {
      AtMoves(k, l, i, stop);
    }
  }

  predicate OneMoves(k: Key, l: Key, i: nat)
    requires i < |k.writers|
  {
    && |l.writers| == |k.writers| && (forall j :: 0 <= j < |k.writers| && j != i ==> l.writers[j] == k.writers[j])
    && l.writers[i].body == k.writers[i].body && l.writers[i].promise == k.writers[i].promise
  }

  lemma AtMoves(k: Key, l: Key, i: nat, stop: Stop)
    requires i < |k.writers|
    requires l.writers == k.writers || l.writers == k.writers[i := k.writers[i].(left := [])]
    ensures OneMoves(k, At(l, i, stop), i)
  {
  }

  lemma WhatAStepWrites(k: Key, i: nat)
    requires i < |k.writers| && Grounded(k, k.writers[i]) && (k.attributes ==> k.wanted != NO_ATTRIBUTES)
    ensures var l := Stepped(k, i);
            && (l.attributes ==> l.wanted != NO_ATTRIBUTES)
            && (l.data == k.data || (k.data.None? && l.data.Some? && Brings(k.writers[i], l.data.value)))
  {
    hide Judged, Ready, InPlace, Matches, Seen, AttributesInPlace;
  }

  lemma NextKeepsInv(k: Key, e: Event)
    requires Inv(k)
    ensures Inv(Next(k, e))
  {
    if e.Crash? {
      CrashGrounds(k, e);
    } else {
      LiveGrounds(k, e);
    }
    if Next(k, e).data.Some? {
      StillBrought(k, e);
    }
    hide Grounded, Brought, Next;
  }

  lemma CrashGrounds(k: Key, e: Event)
    requires Inv(k) && e.Crash?
    ensures var l := Next(k, e);
            && (forall i :: 0 <= i < |l.writers| ==> Grounded(l, l.writers[i]))
            && (l.attributes ==> l.wanted != NO_ATTRIBUTES)
  {
    var l := Next(k, e);
    forall i | 0 <= i < |l.writers| ensures Grounded(l, l.writers[i]) {
      assert Grounded(k, k.writers[i]);
    }
  }

  lemma LiveGrounds(k: Key, e: Event)
    requires Inv(k) && !e.Crash?
    ensures var l := Next(k, e);
            && (forall i :: 0 <= i < |l.writers| ==> Grounded(l, l.writers[i]))
            && (l.attributes ==> l.wanted != NO_ATTRIBUTES)
  {
    var l := Next(k, e);
    StepGrows(k, e);
    if e.Step? && e.writer < |k.writers| {
      StepGrounds(k, e.writer);
      StepTouchesOne(k, e.writer);
      hide Stepped;
    }
    forall i | 0 <= i < |l.writers| ensures Grounded(l, l.writers[i]) {
      if i < |k.writers| {
        assert Grounded(k, k.writers[i]);
        GroundedGrows(k, l, k.writers[i]);
      }
    }
  }

  lemma StillBrought(k: Key, e: Event)
    requires Inv(k) && Next(k, e).data.Some?
    ensures Brought(Next(k, e), Next(k, e).data.value)
  {
    var l := Next(k, e);
    if e.Step? && e.writer < |k.writers| {
      StepTouchesOne(k, e.writer);
    }
    if l.data == k.data {
      var i :| 0 <= i < |k.writers| && Brings(k.writers[i], k.data.value);
      assert Brings(l.writers[i], l.data.value);
    } else {
      assert Brings(l.writers[e.writer], l.data.value);
    }
  }

  lemma {:induction false} RunKeepsInv(k: Key, events: seq<Event>)
    requires Inv(k)
    ensures Inv(Run(k, events))
    decreases |events|
  {
    if events != [] {
      NextKeepsInv(k, events[0]);
      RunKeepsInv(Next(k, events[0]), events[1..]);
    }
  }

  // ---- what that means for callers ----------------------------------------------------------

  predicate NoCrash(events: seq<Event>) {
    forall i :: 0 <= i < |events| ==> !events[i].Crash?
  }

  /** Whatever a fresh key holds after any run is the complete body of a writer that had promised it. */
  lemma OnlyPromisedBytesAppear(k: Key, events: seq<Event>)
    requires Fresh(k)
    ensures var l := Run(k, events); l.data.Some? ==> Brought(l, l.data.value)
  {
    RunKeepsInv(k, events);
  }

  /** Without a crash, visible bytes never change. */
  lemma {:induction false} VisibleBytesStay(k: Key, events: seq<Event>)
    requires k.data.Some? && NoCrash(events)
    ensures Run(k, events).data == k.data
    decreases |events|
  {
    if events != [] {
      StepGrows(k, events[0]);
      VisibleBytesStay(Next(k, events[0]), events[1..]);
    }
  }

  /** A crash hits bytes whose directory entry neither was synced nor happened to be written. */
  predicate Hits(k: Key, e: Event) {
    e.Crash? && !k.dataSynced && !e.keepData
  }

  /** No crash of the run hits the bytes it finds. */
  predicate Unhit(k: Key, events: seq<Event>) {
    forall n :: 0 <= n < |events| ==> !Hits(Run(k, events[..n]), events[n])
  }

  /** Over any run, crashes included, visible bytes stay the same at every moment if and only if no crash
      in it hits them; and the first thing seen after a hit is an empty key, never other bytes. */
  lemma CrashTakesOnlyUnsynced(k: Key, events: seq<Event>)
    requires k.data.Some?
    ensures (forall n :: 0 <= n <= |events| ==> Run(k, events[..n]).data == k.data) <==> Unhit(k, events)
    ensures forall n :: 0 <= n < |events| && Unhit(k, events[..n]) && Hits(Run(k, events[..n]), events[n]) ==>
              Run(k, events[..n + 1]).data == None
  {
    hide Run, Next, Hits;
    forall n | 0 <= n < |events| && Hits(Run(k, events[..n]), events[n])
      ensures Run(k, events[..n + 1]).data == None
    {
      HitEmpties(k, events, n);
    }
    if Unhit(k, events) {
      forall n | 0 <= n <= |events| ensures Run(k, events[..n]).data == k.data {
        UnhitBytesStay(k, events, n);
      }
    } else {
      var n :| 0 <= n < |events| && Hits(Run(k, events[..n]), events[n]);
      assert Run(k, events[..n + 1]).data == None;
    }
  }

  lemma HitEmpties(k: Key, events: seq<Event>, n: nat)
    requires n < |events| && Hits(Run(k, events[..n]), events[n])
    ensures Run(k, events[..n + 1]).data == None
  {
    RunAppend(k, events[..n], events[n]);
    assert events[..n + 1] == events[..n] + [events[n]];
    hide Run;
  }

  lemma {:induction false} UnhitBytesStay(k: Key, events: seq<Event>, n: nat)
    requires k.data.Some? && Unhit(k, events) && n <= |events|
    ensures Run(k, events[..n]).data == k.data
    decreases n
  {
    if n > 0 {
      UnhitBytesStay(k, events, n - 1);
      assert events[..n] == events[..n - 1] + [events[n - 1]];
      RunAppend(k, events[..n - 1], events[n - 1]);
      if !events[n - 1].Crash? {
        StepGrows(Run(k, events[..n - 1]), events[n - 1]);
      }
    }
  }

  lemma {:induction false} RunAppend(k: Key, events: seq<Event>, e: Event)
    ensures Run(k, events + [e]) == Next(Run(k, events), e)
    decreases |events|
  {
    if events == [] {
      assert [e][1..] == [] && events + [e] == [e];
    } else {
      assert (events + [e])[1..] == events[1..] + [e];
      RunAppend(Next(k, events[0]), events[1..], e);
    }
  }

  /** Durable bytes are there for good, whatever happens. */
  lemma {:induction false} SyncedBytesStay(k: Key, events: seq<Event>)
    requires k.data.Some? && k.dataSynced
    ensures Run(k, events).data == k.data && Run(k, events).dataSynced
    decreases |events|
  {
    if events != [] {
      SyncedBytesStay(Next(k, events[0]), events[1..]);
    }
  }

  /** A put that returned keeps its promise over every continuation, crashes included: the identity and
      the attributes are in place and on disk, with the very same bytes. */
  lemma {:induction false} ReturnedPutsHold(k: Key, events: seq<Event>, i: nat)
    requires Inv(k) && i < |k.writers| && k.writers[i].at == Returned
    ensures InPlace(k, k.writers[i].promise) && InPlace(Run(k, events), k.writers[i].promise)
    ensures Run(k, events).data == k.data
    decreases |events|
  {
    assert Grounded(k, k.writers[i]);
    if events != [] {
      NextKeepsInv(k, events[0]);
      ReturnedStays(k, events[0], i);
      hide Inv, InPlace, Next;
      ReturnedPutsHold(Next(k, events[0]), events[1..], i);
    }
  }

  lemma ReturnedStays(k: Key, e: Event, i: nat)
    requires i < |k.writers| && k.writers[i].at == Returned && Grounded(k, k.writers[i])
    ensures i < |Next(k, e).writers| && Next(k, e).writers[i] == k.writers[i] && Next(k, e).data == k.data
  {
    if e.Step? && e.writer < |k.writers| {
      OneWriterMoves(k, e.writer);
      ReturnedHasBytes(k, e.writer, i);
    }
    hide Judged;
  }

  /** No step of any writer changes bytes that are there. */
  lemma ReturnedHasBytes(k: Key, j: nat, i: nat)
    requires i < |k.writers| && k.writers[i].at == Returned && Grounded(k, k.writers[i]) && j < |k.writers|
    ensures Stepped(k, j).data == k.data && (j == i ==> Stepped(k, j) == k)
  {
    hide Judged, AttributesInPlace, Seen;
  }

  /** Two puts that both returned, at whatever times, had promised the same bytes. */
  lemma ReturnedPutsAgree(k: Key, events: seq<Event>, i: nat, j: nat)
    requires Fresh(k)
    requires var l := Run(k, events);
             i < |l.writers| && j < |l.writers| && l.writers[i].at == l.writers[j].at == Returned
    ensures Run(k, events).writers[i].promise == Run(k, events).writers[j].promise
  {
    RunKeepsInv(k, events);
    var l := Run(k, events);
    assert Grounded(l, l.writers[i]) && Grounded(l, l.writers[j]);
  }

  /** Before any put returned, a crash can undo an unsynced link, and another writer's bytes can then
      take the name: visible bytes do change, once nobody was promised them. */
  lemma AnUnsyncedLinkCanBeReplaced(wanted: Attributes, one: seq<byte>, two: seq<byte>)
    requires one != two
    ensures var empty := Key(wanted, None, true, false, true, []);
            var first := [Begin(one, StoredOf(one)), Step(0), Step(0), Step(0)];
            var second := [Crash(false, false), Begin(two, StoredOf(two)), Step(1), Step(1), Step(1)];
            && Fresh(empty)
            && Run(empty, first).data == Some(one)
            && Run(Run(empty, first), second).data == Some(two)
  {
    var k0 := Key(wanted, None, true, false, true, []);
    var w0 := Writer(one, one, StoredOf(one), ReadData(First));
    var k1 := k0.(writers := [w0]);
    var k2 := k0.(writers := [w0.(at := Staging)]);
    var k3 := k0.(writers := [w0.(left := [], at := Linking(one))]);
    var k4 := k0.(data := Some(one), dataSynced := false, writers := [w0.(left := [], at := SyncLink)]);
    assert Next(k0, Begin(one, StoredOf(one))) == k1;
    assert Next(k1, Step(0)) == k2;
    assert Next(k2, Step(0)) == k3;
    assert Next(k3, Step(0)) == k4;
    Unfold4(k0, Begin(one, StoredOf(one)), Step(0), Step(0), Step(0));
    var dead := w0.(left := [], at := Refused);
    var w1 := Writer(two, two, StoredOf(two), ReadData(First));
    var k5 := k0.(writers := [dead]);
    var k6 := k0.(writers := [dead, w1]);
    var k7 := k0.(writers := [dead, w1.(at := Staging)]);
    var k8 := k0.(writers := [dead, w1.(left := [], at := Linking(two))]);
    assert Next(k4, Crash(false, false)) == k5;
    assert Next(k5, Begin(two, StoredOf(two))) == k6;
    assert Next(k6, Step(1)) == k7;
    assert Next(k7, Step(1)) == k8;
    assert Next(k8, Step(1)).data == Some(two);
    Unfold4(k5, Begin(two, StoredOf(two)), Step(1), Step(1), Step(1));
    var second := [Crash(false, false), Begin(two, StoredOf(two)), Step(1), Step(1), Step(1)];
    assert second[1..] == [Begin(two, StoredOf(two)), Step(1), Step(1), Step(1)];
  }

  lemma Unfold4(k: Key, a: Event, b: Event, c: Event, d: Event)
    ensures Run(k, [a, b, c, d]) == Next(Next(Next(Next(k, a), b), c), d)
  {
    var s := [a, b, c, d];
    assert s[1..] == [b, c, d];
    assert [b, c, d][1..] == [c, d];
    assert [c, d][1..] == [d];
    assert [d][1..] == [];
    var l := Next(Next(k, a), b);
    assert Run(k, s) == Run(l, [c, d]);
    assert Run(Next(l, c), [d]) == Run(Next(Next(l, c), d), []);
  }

  // ---- a retry finishes ---------------------------------------------------------------------

  /** A writer running alone: `n` of its own steps. */
  function Alone(k: Key, i: nat, n: nat): Key
    decreases n
  {
    if n == 0 || i >= |k.writers| then k else Alone(Stepped(k, i), i, n - 1)
  }

  /** What a writer that runs alone ends up with. */
  ghost predicate SettlesAs(k: Key, i: nat, n: nat, stop: Stop) {
    i < |k.writers| && i < |Alone(k, i, n).writers| && Alone(k, i, n).writers[i].at == stop
  }

  /** From any state a run can reach, a new writer left alone is done after eight steps. It returns
      exactly when the key is free and its bytes are what it promised, or the key holds those bytes. */
  lemma RetrySettles(k: Key, i: nat)
    requires Inv(k) && i < |k.writers| && k.writers[i].at == ReadData(First) && k.writers[i].left == k.writers[i].body
    ensures var w := k.writers[i];
            var fine := if k.data.Some? then Matches(k, w.promise) else StoredOf(w.body) == w.promise;
            SettlesAs(k, i, 8, if fine then Returned else Refused)
  {
    var w := k.writers[i];
    var l := Stepped(k, i);
    if k.data.None? {
      var m := Stepped(l, i);
      if StoredOf(w.body) == w.promise {
        LinkingSettles(m, i);
      } else {
        DoneSettles(m, i, 6);
      }
    } else if !Matches(k, w.promise) {
      DoneSettles(Stepped(l, i), i, 6);
    } else if Seen(k) == k.wanted {
      AcceptedSettles(Stepped(l, i), i, 6);
    } else {
      RepairSettles(Stepped(l, i), i);
    }
  }

  /** A writer that lost the race to link is done after ten steps, even where the winner has not stored the
      attributes yet: it stores them itself. It returns exactly when the winner's bytes are what it promised. */
  lemma RaceSettles(k: Key, i: nat)
    requires Inv(k) && i < |k.writers| && k.writers[i].at == ReadData(Raced) && k.data.Some?
    ensures SettlesAs(k, i, 10, if Matches(k, k.writers[i].promise) then Returned else Refused)
  {
    var l := Stepped(Stepped(k, i), i);
    TwoSteps(k, i, 8);
    if !Matches(k, k.writers[i].promise) {
      DoneSettles(l, i, 8);
    } else if Seen(k) == k.wanted {
      AcceptedSettles(l, i, 8);
    } else {
      assert l == At(k, i, ReadData(First));
      TwoSteps(l, i, 6);
      var m := Stepped(Stepped(l, i), i);
      assert m.writers[i].at == ReplaceAttributes(Repaired) && m.data == k.data;
      RepairSettles(m, i);
    }
  }

  lemma {:induction false} DoneSettles(k: Key, i: nat, n: nat)
    requires i < |k.writers| && k.writers[i].at in {Returned, Refused}
    ensures SettlesAs(k, i, n, k.writers[i].at)
  {
    if n > 0 {
      DoneSettles(Stepped(k, i), i, n - 1);
    }
  }

  lemma TwoSteps(k: Key, i: nat, n: nat)
    requires i < |k.writers|
    ensures |Stepped(k, i).writers| == |k.writers|
    ensures Alone(k, i, n + 2) == Alone(Stepped(Stepped(k, i), i), i, n)
  {
    assert Alone(k, i, n + 2) == Alone(Stepped(k, i), i, n + 1);
  }

  lemma AcceptedSettles(k: Key, i: nat, n: nat)
    requires i < |k.writers| && k.writers[i].at == SyncAccepted && n >= 2
    ensures SettlesAs(k, i, n, Returned)
  {
    var l := Stepped(k, i);
    if k.attributes {
      DoneSettles(Stepped(l, i), i, n - 2);
    } else {
      DoneSettles(l, i, n - 1);
    }
  }

  lemma RepairSettles(k: Key, i: nat)
    requires i < |k.writers| && k.writers[i].at == ReplaceAttributes(Repaired)
    requires Matches(k, k.writers[i].promise)
    ensures SettlesAs(k, i, 6, Returned)
  {
    var m := Stepped(Stepped(k, i), i);
    assert m.attributes && m.data == k.data && m.writers[i] == k.writers[i].(at := ReadData(Repaired));
    AcceptedSettles(Stepped(Stepped(m, i), i), i, 2);
    TwoSteps(k, i, 4);
    TwoSteps(m, i, 2);
  }

  lemma LinkingSettles(k: Key, i: nat)
    requires k.data.None? && i < |k.writers| && k.writers[i].at.Linking?
    requires StoredOf(k.writers[i].at.staged) == k.writers[i].promise
    requires k.attributes ==> k.wanted != NO_ATTRIBUTES
    ensures SettlesAs(k, i, 6, Returned)
  {
    var l := Stepped(Stepped(k, i), i);
    assert l.data == Some(k.writers[i].at.staged) && l.writers[i].promise == k.writers[i].promise;
    if k.wanted == NO_ATTRIBUTES {
      PublishedSettles(l, i, 4);
    } else {
      PublishedSettles(Stepped(Stepped(l, i), i), i, 2);
      TwoSteps(l, i, 2);
    }
    TwoSteps(k, i, 4);
  }

  lemma PublishedSettles(k: Key, i: nat, n: nat)
    requires i < |k.writers| && k.writers[i].at == ReadData(Published) && n >= 2
    requires Matches(k, k.writers[i].promise) && Seen(k) == k.wanted
    ensures SettlesAs(k, i, n, Returned)
  {
    DoneSettles(Stepped(Stepped(k, i), i), i, n - 2);
  }
}
