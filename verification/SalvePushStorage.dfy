/** The storage object of the SDK. Its methods issue one filesystem call after the other. `fates` says what happens
    to the calls to come, so that a method can be cut short anywhere; `log` remembers the calls that were issued. */
module SalvePushStorage {
  import opened Common
  import opened Disk
  import opened CrashSafety
  import CrashMarker

  /** The disk, what happens to the calls to come, and the calls so far. */
  datatype Moment = Moment(disk: Disk, fates: seq<Fate>, log: seq<Step>)

  /** Between two moments `steps` were issued in this order, each with the fate that was due. ok is false when one of
      them ended the process or threw: then it was the last one. */
  ghost predicate Happened(m: Moment, m1: Moment, steps: seq<Step>, ok: bool) {
    && m1.disk == Exec(m.disk, steps, m.fates)
    && ok == Survives(m.fates, |steps|)
    && m.log <= m1.log <= m.log + steps
    && (ok ==> m1.fates == Drop(m.fates, |steps|) && m1.log == m.log + steps)
  }

  lemma DropTwice(fates: seq<Fate>, a: nat, b: nat)
    ensures Drop(Drop(fates, a), b) == Drop(fates, a + b)
  {
  }

  lemma PrefixOfMore(log: seq<Step>, now: seq<Step>, a: seq<Step>, b: seq<Step>)
    requires now <= log + a
    ensures now <= log + (a + b)
  {
    assert log + (a + b) == (log + a) + b;
  }

  /** The first part was cut short. */
  lemma CutInFirst(m: Moment, m1: Moment, a: seq<Step>, b: seq<Step>)
    requires Happened(m, m1, a, false)
    ensures Happened(m, m1, a + b, false)
  {
    ExecSplit(m.disk, a, b, m.fates);
    PrefixOfMore(m.log, m1.log, a, b);
  }

  lemma LogsInSequence(m: Moment, m1: Moment, m2: Moment, a: seq<Step>, b: seq<Step>, ok: bool)
    requires Happened(m, m1, a, true) && Happened(m1, m2, b, ok)
    ensures m.log <= m2.log <= m.log + (a + b) && (ok ==> m2.log == m.log + (a + b))
  {
    assert (m.log + a) + b == m.log + (a + b);
  }

  /** Issuing a and then, unless that was cut short, b. */
  lemma InSequence(m: Moment, m1: Moment, m2: Moment, a: seq<Step>, b: seq<Step>, ok1: bool, ok2: bool)
    requires Happened(m, m1, a, ok1)
    requires if ok1 then Happened(m1, m2, b, ok2) else m2 == m1 && !ok2
    ensures Happened(m, m2, a + b, ok2)
  {
    if ok1 {
      ExecSplit(m.disk, a, b, m.fates);
      SurvivesShift(m.fates, |a|, |b|);
      DropTwice(m.fates, |a|, |b|);
      LogsInSequence(m, m1, m2, a, b, ok2);
    } else {
      CutInFirst(m, m1, a, b);
    }
  }

  function BundleSteps(id: Id, bundle: Bytes): seq<Step> {
    [MakeDir(id), WriteTemp(id, bundle)] + [DeleteBundle(id), RenameBundle(id)]
  }

  lemma InstallInParts(id: Id, bundle: Bytes, before: State, listing: seq<Id>)
    ensures InstallSteps(id, bundle, before, listing) ==
            BundleSteps(id, bundle) + (Replace(Installed(id, before), []) +
                                       ([DeleteMount] + Prune(listing, Keep(id, before.current))))
  {
  }

  function PruneOne(entry: Id, keep: seq<Id>): seq<Step> {
    if entry in keep then [] else [RemoveRelease(entry)]
  }

  lemma PruneNext(entries: seq<Id>, i: nat, keep: seq<Id>, done: seq<Step>)
    requires i < |entries|
    ensures (done + PruneOne(entries[i], keep)) + Prune(entries[i + 1..], keep) == done + Prune(entries[i..], keep)
  {
    assert entries[i..][0] == entries[i] && entries[i..][1..] == entries[i + 1..];
  }

  class Storage {
    var releases: map<Id, Dir>
    var stateTmp: Option<Text>
    var state: Option<Text>
    var mount: bool
    var crash: Option<string>
    var fates: seq<Fate>
    ghost var log: seq<Step>

    function View(): Disk
      reads this
    {
      Disk(releases, stateTmp, state, mount, crash)
    }

    ghost function Now(): Moment
      reads this
    {
      Moment(View(), fates, log)
    }

    /** The method issued exactly these calls. */
    twostate predicate Ran(steps: seq<Step>, ok: bool)
      reads this
    {
      Happened(old(Now()), Now(), steps, ok)
    }

    constructor ()
      ensures View() == EMPTY && fates == [] && log == []
    {
      releases, stateTmp, state, mount, crash := map[], None, None, false, None;
      fates, log := [], [];
    }

    // ---------- filesystem calls ----------

    /** A call that fails or is cut short. */
    method Fail(s: Step) returns (ok: bool)
      requires !FateOf(fates).Done?
      modifies this
      ensures Ran([s], ok)
      ensures state == old(state) && releases.Keys == old(releases).Keys
    {
      var d := Torn(View(), s, FateOf(fates).t);
      releases, stateTmp, state, mount, crash := d.releases, d.stateTmp, d.state, d.mount, d.crash;
      ok := FateOf(fates).Lost?;
      fates := RestOf(fates);
      log := log + [s];
    }

    ghost method Succeed(s: Step)
      modifies `log
      ensures log == old(log) + [s]
    {
      log := log + [s];
    }

    method Mkdirs(id: Id) returns (ok: bool)
      modifies this
      ensures Ran([MakeDir(id)], ok)
      ensures state == old(state)
      ensures FateOf(old(fates)).Done? ==> releases.Keys == old(releases).Keys + {id}
    {
      if !FateOf(fates).Done? {
        ok := Fail(MakeDir(id));
        return;
      }
      if id !in releases {
        releases := releases[id := Dir(None, None)];
      }
      fates, ok := RestOf(fates), true;
      Succeed(MakeDir(id));
    }

    method WriteBytes(id: Id, bytes: Bytes) returns (ok: bool)
      modifies this
      ensures Ran([WriteTemp(id, bytes)], ok)
      ensures state == old(state) && releases.Keys == old(releases).Keys
    {
      if !FateOf(fates).Done? {
        ok := Fail(WriteTemp(id, bytes));
        return;
      }
      if id in releases {
        releases := releases[id := releases[id].(tmp := Some(bytes))];
      }
      fates, ok := RestOf(fates), true;
      Succeed(WriteTemp(id, bytes));
    }

    method DeleteIfExists(id: Id) returns (ok: bool)
      modifies this
      ensures Ran([DeleteBundle(id)], ok)
      ensures state == old(state) && releases.Keys == old(releases).Keys
    {
      if !FateOf(fates).Done? {
        ok := Fail(DeleteBundle(id));
        return;
      }
      if id in releases && releases[id].bundle.Some? {
        releases := releases[id := releases[id].(bundle := None)];
      }
      assert id in releases ==> releases == releases[id := releases[id].(bundle := None)];
      fates, ok := RestOf(fates), true;
      Succeed(DeleteBundle(id));
    }

    method RenameTemp(id: Id) returns (ok: bool)
      modifies this
      ensures Ran([RenameBundle(id)], ok)
      ensures state == old(state) && releases.Keys == old(releases).Keys
    {
      if !FateOf(fates).Done? {
        ok := Fail(RenameBundle(id));
        return;
      }
      if id in releases && releases[id].tmp.Some? {
        releases := releases[id := Dir(None, releases[id].tmp)];
      }
      fates, ok := RestOf(fates), true;
      Succeed(RenameBundle(id));
    }

    method WriteStateFile(s: State) returns (ok: bool)
      modifies this
      ensures Ran([WriteStateTmp(s)], ok)
      ensures releases.Keys == old(releases).Keys
    {
      if !FateOf(fates).Done? {
        ok := Fail(WriteStateTmp(s));
        return;
      }
      stateTmp := Some(Whole(s));
      fates, ok := RestOf(fates), true;
      Succeed(WriteStateTmp(s));
    }

    method RenameStateFile() returns (ok: bool)
      modifies this
      ensures Ran([RenameState], ok)
      ensures releases.Keys == old(releases).Keys
    {
      if !FateOf(fates).Done? {
        ok := Fail(RenameState);
        return;
      }
      if stateTmp.Some? {
        state, stateTmp := stateTmp, None;
      }
      fates, ok := RestOf(fates), true;
      Succeed(RenameState);
    }

    method WriteState(s: State) returns (ok: bool)
      modifies this
      ensures Ran(Replace(s, []), ok)
      ensures releases.Keys == old(releases).Keys
    {
      ghost var m := Now();
      ok := WriteStateFile(s);
      ghost var m1, ok1 := Now(), ok;
      if ok {
        ok := RenameStateFile();
      }
      InSequence(m, m1, Now(), [WriteStateTmp(s)], [RenameState], ok1, ok);
      assert Replace(s, []) == [WriteStateTmp(s)] + [RenameState];
    }

    method MarkMounted() returns (ok: bool)
      modifies this
      ensures Ran([CreateMount], ok)
      ensures state == old(state)
    {
      if !FateOf(fates).Done? {
        ok := Fail(CreateMount);
        return;
      }
      mount := true;
      fates, ok := RestOf(fates), true;
      Succeed(CreateMount);
    }

    method ClearMountedMarker() returns (ok: bool)
      modifies this
      ensures Ran([DeleteMount], ok)
      ensures releases.Keys == old(releases).Keys
    {
      if !FateOf(fates).Done? {
        ok := Fail(DeleteMount);
        return;
      }
      mount := false;
      fates, ok := RestOf(fates), true;
      Succeed(DeleteMount);
    }

    method DeleteRecursively(id: Id) returns (ok: bool)
      modifies this
      ensures Ran([RemoveRelease(id)], ok)
    {
      if !FateOf(fates).Done? {
        ok := Fail(RemoveRelease(id));
        return;
      }
      releases := releases - {id};
      fates, ok := RestOf(fates), true;
      Succeed(RemoveRelease(id));
    }

    method DeleteCrashMarker() returns (ok: bool)
      modifies this
      ensures Ran([DeleteCrash], ok)
      ensures state == old(state)
    {
      if !FateOf(fates).Done? {
        ok := Fail(DeleteCrash);
        return;
      }
      crash := None;
      fates, ok := RestOf(fates), true;
      Succeed(DeleteCrash);
    }

    method OpenCrashMarker() returns (ok: bool)
      modifies this
      ensures Ran([TruncateCrash], ok)
    {
      if !FateOf(fates).Done? {
        ok := Fail(TruncateCrash);
        return;
      }
      crash := Some([]);
      fates, ok := RestOf(fates), true;
      Succeed(TruncateCrash);
    }

    method PrintCrashMarker(text: string) returns (ok: bool)
      modifies this
      ensures Ran([WriteCrash(text)], ok)
    {
      if !FateOf(fates).Done? {
        ok := Fail(WriteCrash(text));
        return;
      }
      crash := Some(text);
      fates, ok := RestOf(fates), true;
      Succeed(WriteCrash(text));
    }

    method ListFiles() returns (listing: seq<Id>)
      ensures Enumerates(listing, releases.Keys)
    {
      listing := [];
      var remaining := releases.Keys;
      while remaining != {}
        invariant remaining <= releases.Keys
        invariant Enumerates(listing, releases.Keys - remaining)
        decreases |remaining|
      {
        var id :| id in remaining;
        listing := listing + [id];
        remaining := remaining - {id};
      }
    }

    // ---------- operations ----------

    function CurrentState(): State
      reads this
    {
      if state.Some? && state.value.Whole? then state.value.state else CONFIRMED_EMPTY
    }

    method PruneOldReleases(keep: seq<Id>) returns (ok: bool, ghost listing: seq<Id>)
      modifies this
      ensures Enumerates(listing, old(releases).Keys)
      ensures Ran(Prune(listing, keep), ok)
    {
      var entries := ListFiles();
      listing := entries;
      ok := PruneEntries(entries, keep);
    }

    method PruneEntries(entries: seq<Id>, keep: seq<Id>) returns (ok: bool)
      modifies this
      ensures Ran(Prune(entries, keep), ok)
    {
      var i := 0;
      ghost var m := Now();
      ghost var done: seq<Step> := [];
      assert entries[0..] == entries;
      ok := true;
      while i < |entries| && ok
        invariant 0 <= i <= |entries|
        invariant done + Prune(entries[i..], keep) == Prune(entries, keep)
        invariant Happened(m, Now(), done, ok)
      {
        ghost var m1 := Now();
        PruneNext(entries, i, keep, done);
        ok := PruneEntry(entries[i], keep);
        InSequence(m, m1, Now(), done, PruneOne(entries[i], keep), true, ok);
        done := done + PruneOne(entries[i], keep);
        i := i + 1;
      }
      InSequence(m, Now(), Now(), done, Prune(entries[i..], keep), ok, ok);
    }

    method PruneEntry(entry: Id, keep: seq<Id>) returns (ok: bool)
      modifies this
      ensures Ran(PruneOne(entry, keep), ok)
    {
      ok := true;
      if entry !in keep {
        ok := DeleteRecursively(entry);
      }
    }

    /** Writes the bundle, makes it current and unconfirmed, and prunes. The listing is what pruning read, if the
        install got that far. */
    method InstallUpdate(releaseId: Id, bundle: Bytes) returns (ok: bool, ghost listing: seq<Id>)
      modifies this
      ensures Ran(Steps(Install(releaseId, bundle, listing), old(View())), ok)
      ensures View() == After(old(View()), Event(Install(releaseId, bundle, listing), old(fates)))
      ensures Survives(old(fates), 7) && FateAt(old(fates), 0).Done? ==>
                Enumerates(listing, old(releases).Keys + {releaseId})
    {
      ghost var before := ReadState(View());
      ok, listing := StageAndActivate(releaseId, bundle);
      InstallInParts(releaseId, bundle, before, listing);
    }

    method StageAndActivate(releaseId: Id, bundle: Bytes) returns (ok: bool, ghost listing: seq<Id>)
      modifies this
      ensures Ran(BundleSteps(releaseId, bundle) + ActivateSteps(releaseId, old(CurrentState()), listing), ok)
      ensures Survives(old(fates), 7) && FateAt(old(fates), 0).Done? ==>
                Enumerates(listing, old(releases).Keys + {releaseId})
    {
      ghost var m, before := Now(), CurrentState();
      if Survives(m.fates, 7) {
        SurvivesShift(m.fates, 4, 3);
      }
      ok := StageBundle(releaseId, bundle);
      ghost var m1, ok1 := Now(), ok;
      listing := [];
      if ok {
        ok, listing := Activate(releaseId);
      }
      InSequence(m, m1, Now(), BundleSteps(releaseId, bundle), ActivateSteps(releaseId, before, listing), ok1, ok);
    }

    ghost function ActivateSteps(releaseId: Id, before: State, listing: seq<Id>): seq<Step> {
      Replace(Installed(releaseId, before), []) + ([DeleteMount] + Prune(listing, Keep(releaseId, before.current)))
    }

    /** installUpdate from the rename of the bundle on. */
    method Activate(releaseId: Id) returns (ok: bool, ghost listing: seq<Id>)
      modifies this
      ensures Ran(ActivateSteps(releaseId, old(CurrentState()), listing), ok)
      ensures Survives(old(fates), 3) ==> Enumerates(listing, old(releases).Keys)
    {
      ghost var m := Now();
      var before := CurrentState();
      if Survives(m.fates, 3) {
        SurvivesShift(m.fates, 2, 1);
      }
      ok := WriteState(Installed(releaseId, before));
      ghost var m1, ok1 := Now(), ok;
      listing := [];
      if ok {
        ok, listing := ClearAndPrune(Keep(releaseId, before.current));
      }
      InSequence(m, m1, Now(), Replace(Installed(releaseId, before), []),
                 [DeleteMount] + Prune(listing, Keep(releaseId, before.current)), ok1, ok);
    }

    method ClearAndPrune(keep: seq<Id>) returns (ok: bool, ghost listing: seq<Id>)
      modifies this
      ensures Ran([DeleteMount] + Prune(listing, keep), ok)
      ensures Survives(old(fates), 1) ==> Enumerates(listing, old(releases).Keys)
    {
      ghost var m := Now();
      ok := ClearMountedMarker();
      ghost var m1, ok1 := Now(), ok;
      listing := [];
      if ok {
        ok, listing := PruneOldReleases(keep);
      }
      InSequence(m, m1, Now(), [DeleteMount], Prune(listing, keep), ok1, ok);
    }

    /** installUpdate up to the rename of the bundle. */
    method StageBundle(releaseId: Id, bundle: Bytes) returns (ok: bool)
      modifies this
      ensures Ran(BundleSteps(releaseId, bundle), ok)
      ensures ok && FateAt(old(fates), 0).Done? ==> releases.Keys == old(releases).Keys + {releaseId}
      ensures state == old(state)
    {
      ghost var m := Now();
      ok := WriteTempBundle(releaseId, bundle);
      ghost var m1, ok1 := Now(), ok;
      if ok {
        ok := ReplaceBundle(releaseId);
      }
      InSequence(m, m1, Now(), [MakeDir(releaseId), WriteTemp(releaseId, bundle)],
                 [DeleteBundle(releaseId), RenameBundle(releaseId)], ok1, ok);
    }

    method WriteTempBundle(releaseId: Id, bundle: Bytes) returns (ok: bool)
      modifies this
      ensures Ran([MakeDir(releaseId), WriteTemp(releaseId, bundle)], ok)
      ensures ok && FateAt(old(fates), 0).Done? ==> releases.Keys == old(releases).Keys + {releaseId}
      ensures state == old(state)
    {
      ghost var m := Now();
      ok := Mkdirs(releaseId);
      ghost var m1, ok1 := Now(), ok;
      if ok {
        ok := WriteBytes(releaseId, bundle);
      }
      InSequence(m, m1, Now(), [MakeDir(releaseId)], [WriteTemp(releaseId, bundle)], ok1, ok);
      assert [MakeDir(releaseId)] + [WriteTemp(releaseId, bundle)] ==
             [MakeDir(releaseId), WriteTemp(releaseId, bundle)];
    }

    method ReplaceBundle(releaseId: Id) returns (ok: bool)
      modifies this
      ensures Ran([DeleteBundle(releaseId), RenameBundle(releaseId)], ok)
      ensures state == old(state) && releases.Keys == old(releases).Keys
    {
      ghost var m := Now();
      ok := DeleteIfExists(releaseId);
      ghost var m1, ok1 := Now(), ok;
      if ok {
        ok := RenameTemp(releaseId);
      }
      InSequence(m, m1, Now(), [DeleteBundle(releaseId)], [RenameBundle(releaseId)], ok1, ok);
      assert [DeleteBundle(releaseId)] + [RenameBundle(releaseId)] ==
             [DeleteBundle(releaseId), RenameBundle(releaseId)];
    }

    method ConfirmBoot() returns (ok: bool)
      modifies this
      ensures Ran(Steps(Op.Confirm, old(View())), ok)
      ensures View() == After(old(View()), Event(Op.Confirm, old(fates)))
    {
      ghost var m, next := Now(), CurrentState().(boot := Confirmed);
      ok := MarkMounted();
      ghost var m1, ok1 := Now(), ok;
      if ok {
        var before := CurrentState();
        ok := WriteState(before.(boot := Confirmed));
      }
      InSequence(m, m1, Now(), [CreateMount], Replace(next, []), ok1, ok);
      assert [CreateMount] + Replace(next, []) == Steps(Op.Confirm, m.disk);
    }

    method GetCurrentReleaseId() returns (id: string)
      ensures id == match ReadState(View()).current case Some(current) => current case None => ""
    {
      var current := CurrentState().current;
      id := if current.Some? then current.value else "";
    }

    /** The bundle to load, or None for the embedded one; a pending crash marker is consumed first. */
    method ResolveBundlePath() returns (ok: bool, bundle: Option<Bytes>)
      modifies this
      ensures Ran(Steps(Op.Resolve, old(View())), ok)
      ensures View() == After(old(View()), Event(Op.Resolve, old(fates)))
      ensures ok ==> bundle == Booted(View())
    {
      bundle := None;
      ok := ProcessCrashMarkerIfPresent();
      if !ok {
        return;
      }
      var currentId := CurrentState().current;
      if currentId.Some? && currentId.value in releases {
        bundle := releases[currentId.value].bundle;
      }
    }

    method ProcessCrashMarkerIfPresent() returns (ok: bool)
      modifies this
      ensures Ran(Steps(Op.Resolve, old(View())), ok)
      ensures View() == After(old(View()), Event(Op.Resolve, old(fates)))
    {
      if crash.None? {
        return true;
      }
      var content := crash.value;
      ghost var m, before := Now(), CurrentState();
      ok := DeleteCrashMarker();
      ghost var m1, ok1 := Now(), ok;
      if ok && CrashMarker.IsAutoRollback(content) {
        ok := RollbackToPrevious();
      }
      ghost var rest := if CrashMarker.IsAutoRollback(content) then RollbackSteps(before) else [];
      InSequence(m, m1, Now(), [DeleteCrash], rest, ok1, ok);
      assert [DeleteCrash] + rest == Steps(Op.Resolve, m.disk);
    }

    method RollbackToPreviousIfUnconfirmed() returns (ok: bool)
      modifies this
      ensures Ran(Steps(Op.RollbackIfUnconfirmed, old(View())), ok)
      ensures View() == After(old(View()), Event(Op.RollbackIfUnconfirmed, old(fates)))
    {
      ok := true;
      if !mount {
        ok := RollbackToPrevious();
      }
    }

    method RollbackToPrevious() returns (ok: bool)
      modifies this
      ensures Ran(RollbackSteps(old(CurrentState())), ok)
    {
      var before := CurrentState();
      if before.previous.None? {
        return true;
      }
      ghost var m := Now();
      ok := WriteState(RolledBack(before));
      ghost var m1, ok1 := Now(), ok;
      if ok {
        ok := MarkMounted();
      }
      InSequence(m, m1, Now(), Replace(RolledBack(before), []), [CreateMount], ok1, ok);
      assert RollbackSteps(before) == Replace(RolledBack(before), []) + [CreateMount];
    }

    /** The signal handler: the flag is decided before the marker file is opened. */
    method WriteCrashMarker(signalNumber: int) returns (ok: bool)
      modifies this
      ensures Ran(Steps(Signal(signalNumber), old(View())), ok)
      ensures View() == After(old(View()), Event(Signal(signalNumber), old(fates)))
    {
      var isAutoRollback := !mount;
      var text := CrashMarker.Print(signalNumber, isAutoRollback);
      ghost var m := Now();
      ok := OpenCrashMarker();
      ghost var m1, ok1 := Now(), ok;
      if ok {
        ok := PrintCrashMarker(text);
      }
      InSequence(m, m1, Now(), [TruncateCrash], [WriteCrash(text)], ok1, ok);
      assert Steps(Signal(signalNumber), m.disk) == [TruncateCrash] + [WriteCrash(text)];
    }
  }
}
