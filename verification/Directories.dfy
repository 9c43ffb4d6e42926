/** One directory as programs see it and as the disk holds it. A name appears or disappears at once for
    every program, but only a sync of the directory makes that survive a crash. */
module Directories {
  datatype Change<N> = Add(name: N) | Remove(name: N)

  /** `log` holds the changes made since the last sync, oldest first. */
  datatype Directory<!N> = Directory(disk: set<N>, log: seq<Change<N>>)

  function Replay<N>(names: set<N>, log: seq<Change<N>>): set<N>
    decreases |log|
  {
    if log == [] then names
    else Replay(match log[0] case Add(n) => names + {n} case Remove(n) => names - {n}, log[1..])
  }

  function Visible<N>(d: Directory<N>): set<N> {
    Replay(d.disk, d.log)
  }

  function Changed<N>(d: Directory<N>, c: Change<N>): Directory<N> {
    d.(log := d.log + [c])
  }

  function Synced<N>(d: Directory<N>): Directory<N> {
    Directory(Visible(d), [])
  }

  /** The changes a crash leaves, given which of them reached the disk. */
  function Kept<N>(log: seq<Change<N>>, keep: seq<bool>): seq<Change<N>>
    requires |keep| == |log|
  {
    if log == [] then []
    else (if keep[0] then [log[0]] else []) + Kept(log[1..], keep[1..])
  }

  function AfterCrash<N>(d: Directory<N>, keep: seq<bool>): Directory<N>
    requires |keep| == |d.log|
  {
    Directory(Replay(d.disk, Kept(d.log, keep)), [])
  }

  /** The disk took the changes in order: a crash undoes the latest ones. */
  predicate InOrder(keep: seq<bool>) {
    forall i, j :: 0 <= i < j < |keep| && keep[j] ==> keep[i]
  }

  lemma {:induction false} ReplayAppend<N>(names: set<N>, log: seq<Change<N>>, c: Change<N>)
    ensures Replay(names, log + [c]) ==
            match c case Add(n) => Replay(names, log) + {n} case Remove(n) => Replay(names, log) - {n}
    decreases |log|
  {
    if log == [] {
      assert [c][1..] == [];
    } else {
      assert (log + [c])[1..] == log[1..] + [c];
      ReplayAppend(match log[0] case Add(n) => names + {n} case Remove(n) => names - {n}, log[1..], c);
    }
  }

  /** A crash that undoes changes in order leaves a prefix of them. */
  lemma {:induction false} InOrderKeepsPrefix<N>(log: seq<Change<N>>, keep: seq<bool>) returns (n: nat)
    requires |keep| == |log| && InOrder(keep)
    ensures n <= |log| && Kept(log, keep) == log[..n]
  {
    if log == [] || !keep[0] {
      n := 0;
      NothingKept(log, keep);
    } else {
      var m := InOrderKeepsPrefix(log[1..], keep[1..]);
      n := m + 1;
      assert log[..n] == [log[0]] + log[1..][..m];
    }
  }

  lemma {:induction false} NothingKept<N>(log: seq<Change<N>>, keep: seq<bool>)
    requires |keep| == |log| && forall i :: 0 <= i < |keep| ==> !keep[i]
    ensures Kept(log, keep) == []
  {
    if log != [] {
      NothingKept(log[1..], keep[1..]);
    }
  }

  /** A name nobody removed since the sync survives any crash; a name nobody added does not appear. */
  lemma {:induction false} CrashKeeps<N>(names: set<N>, log: seq<Change<N>>, keep: seq<bool>, n: N)
    requires |keep| == |log|
    ensures n in names && Remove(n) !in log ==> n in Replay(names, Kept(log, keep))
    ensures n !in names && Add(n) !in log ==> n !in Replay(names, Kept(log, keep))
    decreases |log|
  {
    if log != [] {
      var next := if keep[0] then (match log[0] case Add(m) => names + {m} case Remove(m) => names - {m}) else names;
      CrashKeeps(next, log[1..], keep[1..], n);
      assert Remove(n) !in log ==> Remove(n) !in log[1..];
      var tail := Kept(log[1..], keep[1..]);
      if keep[0] {
        assert Kept(log, keep) == [log[0]] + tail && ([log[0]] + tail)[1..] == tail;
      } else {
        assert Kept(log, keep) == tail;
      }
    }
  }

  lemma {:induction false} ReplayKeeps<N>(names: set<N>, log: seq<Change<N>>, n: N)
    ensures n in names && Remove(n) !in log ==> n in Replay(names, log)
    ensures n !in names && Add(n) !in log ==> n !in Replay(names, log)
    decreases |log|
  {
    if log != [] {
      var next := match log[0] case Add(m) => names + {m} case Remove(m) => names - {m};
      ReplayKeeps(next, log[1..], n);
    }
  }

  // ---- the durable operations ---------------------------------------------------------------

  /** The states in which a durable write of `name` can leave the directory. */
  predicate WriteEnds<N>(before: Directory<N>, name: N, ok: bool, tookBack: bool, after: Directory<N>) {
    var added := Changed(before, Add(name));
    var taken := Changed(added, Remove(name));
    if ok then !tookBack && after == Synced(added)
    else if tookBack then after == taken || after == Synced(taken)
    else after == before || after == added
  }

  /** The directory under the operations; a sync can fail, and then nothing is known to be durable. */
  class DurableDirectory<N(==)> {
    var dir: Directory<N>
    /** Whether a write, a rename or a sync has failed so far. */
    ghost var failed: bool

    constructor (names: set<N>)
      ensures dir == Directory(names, []) && !failed
    {
      dir, failed := Directory(names, []), false;
    }

    method Fsync() returns (ok: bool)
      modifies this
      ensures dir == if ok then Synced(old(dir)) else old(dir)
      ensures failed == (old(failed) || !ok)
    {
      ok := *;
      if ok {
        dir := Synced(dir);
      }
      failed := failed || !ok;
    }

    /** Makes an already visible marker durable. */
    method ConfirmDurable() returns (ok: bool)
      modifies this
      ensures Visible(dir) == Visible(old(dir)) && (ok ==> dir.log == [])
      ensures !ok ==> dir == old(dir)
      ensures failed == (old(failed) || !ok)
    {
      ok := Fsync();
    }

    /** Publishes a complete file under `name`. Success means durable. Failure takes the name back, and
        can only leave it visible when the filesystem refuses that too. */
    method WriteDurable(name: N) returns (ok: bool, tookBack: bool)
      modifies this
      ensures WriteEnds(old(dir), name, ok, tookBack, dir)
      ensures ok ==> dir == Directory(Visible(old(dir)) + {name}, [])
      ensures !ok && tookBack ==> Visible(dir) == Visible(old(dir)) - {name}
      ensures failed == (old(failed) || !ok)
    {
      tookBack := false;
      var written: bool := *;
      if !written {
        failed := true;
        return false, false;
      }
      dir := Changed(dir, Add(name));
      ReplayAppend(old(dir).disk, old(dir).log, Add(name));
      ok := Fsync();
      if !ok {
        var unlinked: bool := *;
        if unlinked {
          ReplayAppend(dir.disk, dir.log, Remove(name));
          dir := Changed(dir, Remove(name));
          var _ := Fsync();
          tookBack := true;
        }
      }
    }

    /** Takes a name away, and syncs the directory if it was there to be taken. */
    method RemoveDurable(name: N) returns (ok: bool, removed: bool)
      modifies this
      ensures name !in Visible(old(dir)) ==> ok && !removed && dir == old(dir)
      ensures name in Visible(old(dir)) ==>
                && removed == ok
                && Visible(dir) == Visible(old(dir)) - {name}
                && (ok ==> dir.log == [])
                && (!ok ==> dir == Changed(old(dir), Remove(name)))
      ensures failed == (old(failed) || !ok)
    {
      if name !in Visible(dir) {
        return true, false;
      }
      ReplayAppend(dir.disk, dir.log, Remove(name));
      dir := Changed(dir, Remove(name));
      ok := Fsync();
      removed := ok;
    }
  }
}
