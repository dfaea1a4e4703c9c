/** A same-session rollback that runs beside an install, call by call. On iOS the exception and log hooks roll back on
    their own thread while the serial queue may be in the middle of an install. Each side replaces state.json in one
    step: Foundation writes an atomic file under a name of its own before it renames it. */
module Race {
  import opened Common
  import opened Disk
  import opened CrashSafety

  /** An install, and the order in which pruning reads the directory. */
  datatype Task = Task(id: Id, bundle: Bytes, listing: seq<Id>)

  /** How far the two sides are, and what each has read. */
  datatype Race = Race(
    disk: Disk,
    install: nat,          // 0 to 3: the bundle; 4: read; 5: replace; 6: delete the marker; from 7: prune
    installRead: State,
    rollback: nat,         // 0: look for the marker; 1: read; 2: replace; 3: create the marker; 4: over
    rollbackRead: State,
    readAt: nat,           // how far the install was when the rollback read the state
    rolled: Option<nat>)   // and when it replaced it

  function Removals(t: Task, read: State): seq<Step> {
    Prune(t.listing, Keep(t.id, read.current))
  }

  function BundleCall(t: Task, k: nat): Step {
    if k == 0 then MakeDir(t.id) else if k == 1 then WriteTemp(t.id, t.bundle)
    else if k == 2 then DeleteBundle(t.id) else RenameBundle(t.id)
  }

  predicate InstallOver(t: Task, r: Race) {
    r.install >= 7 + |Removals(t, r.installRead)|
  }

  function InstallNext(t: Task, r: Race): Race {
    if InstallOver(t, r) then r else
    var r1 := r.(install := r.install + 1);
    if r.install < 4 then r1.(disk := Apply(r.disk, BundleCall(t, r.install)))
    else if r.install == 4 then r1.(installRead := ReadState(r.disk))
    else if r.install == 5 then r1.(disk := r.disk.(state := Some(Whole(Installed(t.id, r.installRead)))))
    else if r.install == 6 then r1.(disk := Apply(r.disk, DeleteMount))
    else r1.(disk := Apply(r.disk, Removals(t, r.installRead)[r.install - 7]))
  }

  function RollbackNext(r: Race): Race {
    if r.rollback == 0 then r.(rollback := if r.disk.mount then 4 else 1)
    else if r.rollback == 1 then
      var s := ReadState(r.disk);
      r.(rollback := if s.previous.None? then 4 else 2, rollbackRead := s, readAt := r.install)
    else if r.rollback == 2 then
      r.(rollback := 3, rolled := Some(r.install),
         disk := r.disk.(state := Some(Whole(RolledBack(r.rollbackRead)))))
    else if r.rollback == 3 then r.(rollback := 4, disk := Apply(r.disk, CreateMount))
    else r
  }

  /** true: the install makes its next step. */
  function Interleave(t: Task, r: Race, schedule: seq<bool>): Race
    decreases |schedule|
  {
    if schedule == [] then r
    else Interleave(t, if schedule[0] then InstallNext(t, r) else RollbackNext(r), schedule[1..])
  }

  function Start(d: Disk): Race {
    Race(d, 0, CONFIRMED_EMPTY, 0, CONFIRMED_EMPTY, 0, None)
  }

  /** The rollback read the state before the install replaced it, and replaced it afterwards. */
  predicate Stale(r: Race) {
    r.rolled.Some? && r.readAt <= 5 < r.rolled.value
  }

  predicate HasBundle(d: Disk, id: Id) {
    id in d.releases && d.releases[id].bundle.Some?
  }

  /** b is current and a can be restored. */
  ghost predicate Restorable(d: Disk, s: State, a: Id, b: Id) {
    && d.state == Some(Whole(s)) && s.current == Some(b) && s.previous == Some(a)
    && HasBundle(d, a) && HasBundle(d, b)
  }

  // ---------- the state ----------

  /** What state.json holds: it depends on who replaced it last, and on what that side had read. */
  function Expected(t: Task, s: State, r: Race): State {
    if r.rolled.None? then (if r.install <= 5 then s else Installed(t.id, s))
    else if r.install <= 5 then RolledBack(s)
    else if r.rolled.value <= 5 then Installed(t.id, r.installRead)
    else if r.readAt <= 5 then RolledBack(s)
    else RolledBack(Installed(t.id, s))
  }

  ghost predicate StateTracks(t: Task, s: State, r: Race) {
    && r.disk.state == Some(Whole(Expected(t, s, r)))
    && (r.rollback <= 2 ==> r.rolled.None?) && (r.rollback == 3 ==> r.rolled.Some?)
    && (r.rolled.Some? ==> r.readAt <= r.rolled.value <= r.install)
    && (r.rollback == 2 ==>
          r.readAt <= r.install && r.rollbackRead == if r.readAt <= 5 then s else Installed(t.id, s))
    && (r.install >= 5 ==>
          r.installRead == if r.rolled.Some? && r.rolled.value <= 4 then RolledBack(s) else s)
  }

  lemma InstallTracks(t: Task, s: State, r: Race)
    requires StateTracks(t, s, r)
    ensures StateTracks(t, s, InstallNext(t, r))
  {
    if r.install >= 7 && !InstallOver(t, r) {
      PruneOnlyRemoves(t.listing, Keep(t.id, r.installRead.current));
      assert Removals(t, r.installRead)[r.install - 7] in Removals(t, r.installRead);
    }
  }

  lemma RollbackTracks(t: Task, s: State, r: Race)
    requires StateTracks(t, s, r) && s.previous.Some? && s.current.Some?
    ensures StateTracks(t, s, RollbackNext(r))
  {
  }

  // ---------- the bundles ----------

  /** Until pruning begins x has its bundle, and after that if it is kept. */
  predicate Spared(t: Task, x: Id, r: Race) {
    x != t.id && (r.install <= 6 || x in Keep(t.id, r.installRead.current)) ==> HasBundle(r.disk, x)
  }

  ghost predicate BundlesTrack(t: Task, a: Id, b: Id, r: Race) {
    && (r.install in {2, 3} ==> t.id in r.disk.releases && r.disk.releases[t.id].tmp.Some?)
    && (r.install == 1 ==> t.id in r.disk.releases)
    && (r.install >= 4 ==> HasBundle(r.disk, t.id))
    && Spared(t, a, r) && Spared(t, b, r)
    && (forall k :: 0 <= k < r.install - 7 && k < |Removals(t, r.installRead)| ==>
          Gone(r.disk, Removals(t, r.installRead)[k]))
  }

  predicate Gone(d: Disk, s: Step) {
    s.RemoveRelease? && s.id !in d.releases
  }

  lemma RemovalsAre(t: Task, read: State)
    ensures forall s :: s in Removals(t, read) ==> s.RemoveRelease? && s.id !in Keep(t.id, read.current)
    ensures forall x :: x in t.listing && x !in Keep(t.id, read.current) ==> RemoveRelease(x) in Removals(t, read)
  {
    RemovalsOf(t.listing, Keep(t.id, read.current));
  }

  lemma {:induction false} RemovalsOf(listing: seq<Id>, keep: seq<Id>)
    ensures forall s :: s in Prune(listing, keep) ==> s.RemoveRelease? && s.id !in keep
    ensures forall x :: x in listing && x !in keep ==> RemoveRelease(x) in Prune(listing, keep)
  {
    if listing != [] {
      RemovalsOf(listing[1..], keep);
      assert forall x :: x in listing ==> x == listing[0] || x in listing[1..];
    }
  }

  lemma PruningTracks(t: Task, a: Id, b: Id, r: Race)
    requires BundlesTrack(t, a, b, r) && r.install >= 7 && !InstallOver(t, r)
    ensures BundlesTrack(t, a, b, InstallNext(t, r))
  {
    RemovalsAre(t, r.installRead);
    assert Removals(t, r.installRead)[r.install - 7] in Removals(t, r.installRead);
  }

  lemma StagingTracks(t: Task, a: Id, b: Id, r: Race)
    requires BundlesTrack(t, a, b, r) && r.install < 7
    ensures BundlesTrack(t, a, b, InstallNext(t, r))
  {
  }

  lemma {:induction false} InterleavingTracks(t: Task, s: State, a: Id, b: Id, r: Race, schedule: seq<bool>)
    requires StateTracks(t, s, r) && BundlesTrack(t, a, b, r) && s.previous.Some? && s.current.Some?
    ensures StateTracks(t, s, Interleave(t, r, schedule)) && BundlesTrack(t, a, b, Interleave(t, r, schedule))
    decreases |schedule|
  {
    if schedule != [] {
      if schedule[0] {
        InstallTracks(t, s, r);
        if r.install < 7 {
          StagingTracks(t, a, b, r);
        } else if !InstallOver(t, r) {
          PruningTracks(t, a, b, r);
        }
        InterleavingTracks(t, s, a, b, InstallNext(t, r), schedule[1..]);
      } else {
        RollbackTracks(t, s, r);
        assert RollbackNext(r).disk.releases == r.disk.releases;
        InterleavingTracks(t, s, a, b, RollbackNext(r), schedule[1..]);
      }
    }
  }

  /** Every interleaving of an install with a rollback, once both are over. The current release is the new one if the
      install replaced the state last, b if the rollback undid the install, and a if the rollback was stale. It has
      lost its bundle if and only if the rollback was stale and a is neither b nor the new release. */
  lemma CurrentLosesItsBundleIff(t: Task, d: Disk, s: State, a: Id, b: Id, schedule: seq<bool>)
    requires Restorable(d, s, a, b) && a in t.listing
    requires var r := Interleave(t, Start(d), schedule); InstallOver(t, r) && r.rollback == 4
    ensures var r := Interleave(t, Start(d), schedule);
            && ReadState(r.disk).current ==
               Some(if Stale(r) then a else if r.rolled.Some? && r.rolled.value > 5 then b else t.id)
            && (Booted(r.disk).None? <==> Stale(r) && a != b && a != t.id)
  {
    var r := Interleave(t, Start(d), schedule);
    InterleavingTracks(t, s, a, b, Start(d), schedule);
    RemovalsAre(t, r.installRead);
    assert Booted(r.disk).None? <==> !HasBundle(r.disk, ReadState(r.disk).current.value);
    if Stale(r) && a != b && a != t.id {
      assert r.installRead == s && RemoveRelease(a) in Removals(t, s);
      var k :| 0 <= k < |Removals(t, s)| && Removals(t, s)[k] == RemoveRelease(a);
      assert k < r.install - 7 ==> Gone(r.disk, Removals(t, s)[k]);
    }
  }

  /** While the marker is there the rollback does not begin, so on a mounted device it reads the new state. */
  ghost predicate WaitsForMarker(r: Race) {
    && (r.rollback == 0 && r.install <= 6 ==> r.disk.mount)
    && (1 <= r.rollback <= 3 ==> r.install >= 7)
    && (r.rollback == 2 || r.rolled.Some? ==> r.readAt >= 7)
  }

  lemma {:induction false} MountedWaits(t: Task, r: Race, schedule: seq<bool>)
    requires WaitsForMarker(r) && (r.rollback <= 2 ==> r.rolled.None?)
    ensures WaitsForMarker(Interleave(t, r, schedule))
    decreases |schedule|
  {
    if schedule != [] {
      var r1 := if schedule[0] then InstallNext(t, r) else RollbackNext(r);
      if schedule[0] {
        InstallWaits(t, r);
      }
      MountedWaits(t, r1, schedule[1..]);
    }
  }

  lemma InstallWaits(t: Task, r: Race)
    requires WaitsForMarker(r)
    ensures WaitsForMarker(InstallNext(t, r))
  {
    if r.install >= 7 && !InstallOver(t, r) {
      RemovalsAre(t, r.installRead);
      assert Removals(t, r.installRead)[r.install - 7] in Removals(t, r.installRead);
    }
  }

  /** An install over a confirmed release is never undone by a stale rollback: in no interleaving. */
  lemma MountedIsNeverStale(t: Task, d: Disk, schedule: seq<bool>)
    requires d.mount
    ensures !Stale(Interleave(t, Start(d), schedule))
  {
    MountedWaits(t, Start(d), schedule);
  }

  lemma {:induction false} InterleaveAppend(t: Task, r: Race, x: seq<bool>, y: seq<bool>)
    ensures Interleave(t, r, x + y) == Interleave(t, Interleave(t, r, x), y)
    decreases |x|
  {
    if x == [] {
      assert x + y == y;
    } else {
      assert (x + y)[1..] == x[1..] + y && (x + y)[0] == x[0];
      InterleaveAppend(t, if x[0] then InstallNext(t, r) else RollbackNext(r), x[1..], y);
    }
  }

  lemma FinishInstall(t: Task, r: Race) returns (schedule: seq<bool>)
    ensures var r1 := Interleave(t, r, schedule);
            InstallOver(t, r1) && r1 == r.(disk := r1.disk, install := r1.install, installRead := r1.installRead)
    decreases r.install <= 4, if r.install <= 4 then 5 - r.install
                              else Max(0, 7 + |Removals(t, r.installRead)| - r.install)
  {
    if InstallOver(t, r) {
      schedule := [];
    } else {
      var rest := FinishInstall(t, InstallNext(t, r));
      schedule := [true] + rest;
      assert schedule[1..] == rest;
    }
  }

  function Max(a: int, b: int): int { if a < b then b else a }

  /** On an unconfirmed release with a previous one a stale rollback can happen. */
  lemma StaleIsReachable(t: Task, d: Disk, s: State, a: Id, b: Id) returns (schedule: seq<bool>)
    requires Restorable(d, s, a, b) && !d.mount
    ensures var r := Interleave(t, Start(d), schedule); InstallOver(t, r) && r.rollback == 4 && Stale(r)
  {
    var first, last := [false, false], [false, false];
    assert first[1..] == [false] && [false][1..] == [];
    var r0 := RollbackNext(RollbackNext(Start(d)));
    assert Interleave(t, Start(d), first) == r0;
    var middle := FinishInstall(t, r0);
    var r1 := Interleave(t, r0, middle);
    assert Interleave(t, r1, last) == RollbackNext(RollbackNext(r1));
    InterleaveAppend(t, Start(d), first, middle);
    InterleaveAppend(t, Start(d), first + middle, last);
    schedule := first + middle + last;
  }
}
