/** What each operation leaves of state.json and the two markers when its calls are cut short or fail unnoticed in any
    way that the platform allows. */
module CutOperations {
  import opened Common
  import opened Disk
  import opened CrashSafety
  import CrashMarker

  /** Call n was made and did what it was asked. */
  predicate Made(fates: seq<Fate>, n: nat) {
    FateAt(fates, n).Done? && forall i :: 0 <= i < n && i < |fates| ==> !fates[i].Killed?
  }

  lemma MadeIff(fates: seq<Fate>, n: nat)
    ensures Made(fates, n) <==> Survives(fates, n) && FateAt(fates, n).Done?
    ensures Survives(fates, n + 1) <==> Survives(fates, n) && !FateAt(fates, n).Killed?
  {
  }

  lemma {:induction false} MountUntouched(d: Disk, steps: seq<Step>, fates: seq<Fate>)
    requires CreateMount !in steps && DeleteMount !in steps
    ensures Exec(d, steps, fates).mount == d.mount
    decreases |steps|
  {
    if steps != [] && !FateOf(fates).Killed? {
      MountUntouched(Meet(d, steps[0], FateOf(fates)), steps[1..], RestOf(fates));
    }
  }

  /** One call, and what follows if it did not end the operation. */
  lemma FirstCall(d: Disk, s: Step, rest: seq<Step>, fates: seq<Fate>)
    ensures Exec(d, Then(s, rest), fates) ==
            if FateAt(fates, 0).Killed? then Torn(d, s, FateAt(fates, 0).t)
            else Exec(Meet(d, s, FateAt(fates, 0)), rest, Drop(fates, 1))
  {
    assert Drop(fates, 1) == RestOf(fates);
  }

  /** The replacement of state.json: all or nothing. */
  lemma ReplaceCut(d: Disk, s: State, rest: seq<Step>, fates: seq<Fate>) returns (d1: Disk)
    requires !FateAt(fates, 0).Lost?
    ensures d1.state == if Made(fates, 1) then Some(Whole(s)) else d.state
    ensures d1.mount == d.mount && d1.crash == d.crash && d1.releases == d.releases
    ensures Exec(d, Replace(s, rest), fates) ==
            if Survives(fates, 2) then Exec(d1, rest, Drop(fates, 2)) else d1
  {
    var r1 := Then(RenameState, rest);
    MadeIff(fates, 0);
    MadeIff(fates, 1);
    FirstCall(d, WriteStateTmp(s), r1, fates);
    if FateAt(fates, 0).Killed? {
      d1 := Torn(d, WriteStateTmp(s), FateAt(fates, 0).t);
    } else {
      var d0 := Apply(d, WriteStateTmp(s));
      FirstCall(d0, RenameState, rest, Drop(fates, 1));
      assert FateAt(Drop(fates, 1), 0) == FateAt(fates, 1);
      assert Drop(Drop(fates, 1), 1) == Drop(fates, 2);
      d1 := if FateAt(fates, 1).Killed? then d0 else Meet(d0, RenameState, FateAt(fates, 1));
    }
  }

  /** A rollback with a target: calls 0 and 1 replace the state, call 2 creates the mount marker. */
  lemma RollbackCut(d: Disk, fates: seq<Fate>)
    requires ReadState(d).previous.Some? && !FateAt(fates, 0).Lost?
    ensures var d1 := Exec(d, RollbackSteps(ReadState(d)), fates);
            && d1.state == (if Made(fates, 1) then Some(Whole(RolledBack(ReadState(d)))) else d.state)
            && d1.mount == (d.mount || Made(fates, 2))
            && d1.crash == d.crash && d1.releases == d.releases
  {
    var d1 := ReplaceCut(d, RolledBack(ReadState(d)), Then(CreateMount, []), fates);
    MadeIff(fates, 2);
    FirstCall(d1, CreateMount, [], Drop(fates, 2));
    assert FateAt(Drop(fates, 2), 0) == FateAt(fates, 2);
  }

  /** A pending crash asks for a rollback that has a target. */
  predicate Asks(d: Disk) {
    d.crash.Some? && CrashMarker.IsAutoRollback(d.crash.value) && ReadState(d).previous.Some?
  }

  lemma MadeShift(fates: seq<Fate>, n: nat)
    ensures Made(fates, n + 1) <==> !FateAt(fates, 0).Killed? && Made(Drop(fates, 1), n)
    ensures FateAt(Drop(fates, 1), n) == FateAt(fates, n + 1)
  {
    MadeIff(fates, n + 1);
    MadeIff(Drop(fates, 1), n);
    if !FateAt(fates, 0).Killed? {
      SurvivesShift(fates, 1, n);
    } else {
      assert !Survives(fates, n + 1);
    }
  }

  /** A launch: call 0 deletes the crash marker, and calls 1 to 3 are the rollback if the crash asks for one. */
  lemma ResolveCut(p: Platform, d: Disk, fates: seq<Fate>)
    requires LegalEvent(p, d, Event(Resolve, fates))
    ensures var d1 := After(d, Event(Resolve, fates));
            && d1.state == (if Asks(d) && Made(fates, 2) then Some(Whole(RolledBack(ReadState(d)))) else d.state)
            && d1.mount == (d.mount || (Asks(d) && Made(fates, 3)))
            && d1.crash == (if Made(fates, 0) then None else d.crash)
            && d1.releases == d.releases
  {
    if Asks(d) {
      assert Steps(Resolve, d)[1] == WriteStateTmp(RolledBack(ReadState(d)));
      LaunchRollbackCut(d, fates);
    } else if d.crash.Some? {
      FirstCall(d, DeleteCrash, [], fates);
    }
  }

  lemma LaunchRollbackCut(d: Disk, fates: seq<Fate>)
    requires Asks(d) && !FateAt(fates, 1).Lost?
    ensures var d1 := Exec(d, Then(DeleteCrash, RollbackSteps(ReadState(d))), fates);
            && d1.state == (if Made(fates, 2) then Some(Whole(RolledBack(ReadState(d)))) else d.state)
            && d1.mount == (d.mount || Made(fates, 3))
            && d1.crash == (if Made(fates, 0) then None else d.crash)
            && d1.releases == d.releases
  {
    MadeShift(fates, 0);
    MadeShift(fates, 1);
    MadeShift(fates, 2);
    FirstCall(d, DeleteCrash, RollbackSteps(ReadState(d)), fates);
    if !FateAt(fates, 0).Killed? {
      RollbackCut(Meet(d, DeleteCrash, FateAt(fates, 0)), Drop(fates, 1));
    }
  }

  lemma SameSessionCut(p: Platform, d: Disk, fates: seq<Fate>)
    requires LegalEvent(p, d, Event(RollbackIfUnconfirmed, fates))
    ensures var acts := !d.mount && ReadState(d).previous.Some?;
            var d1 := After(d, Event(RollbackIfUnconfirmed, fates));
            && d1.state == (if acts && Made(fates, 1) then Some(Whole(RolledBack(ReadState(d)))) else d.state)
            && d1.mount == (d.mount || (acts && Made(fates, 2)))
            && d1.crash == d.crash && d1.releases == d.releases
  {
    if !d.mount && ReadState(d).previous.Some? {
      assert Steps(RollbackIfUnconfirmed, d)[0] == WriteStateTmp(RolledBack(ReadState(d)));
      RollbackCut(d, fates);
    }
  }

  /** A confirmation: call 0 creates the mount marker, calls 1 and 2 replace the state. */
  lemma ConfirmCut(p: Platform, d: Disk, fates: seq<Fate>)
    requires LegalEvent(p, d, Event(Confirm, fates))
    ensures var d1 := After(d, Event(Confirm, fates));
            && d1.state == (if Made(fates, 2) then Some(Whole(ReadState(d).(boot := Confirmed))) else d.state)
            && d1.mount == (d.mount || Made(fates, 0))
            && d1.crash == d.crash && d1.releases == d.releases
  {
    var s := ReadState(d).(boot := Confirmed);
    MadeShift(fates, 1);
    MadeShift(fates, 0);
    assert Steps(Confirm, d)[1] == WriteStateTmp(s);
    FirstCall(d, CreateMount, Replace(s, []), fates);
    if !FateAt(fates, 0).Killed? {
      var d0 := Meet(d, CreateMount, FateAt(fates, 0));
      var d1 := ReplaceCut(d0, s, [], Drop(fates, 1));
    }
  }

  /** A crash handler writes nothing but the crash marker. */
  lemma SignalCut(d: Disk, n: int, fates: seq<Fate>)
    ensures var d1 := After(d, Event(Signal(n), fates));
            d1.state == d.state && d1.mount == d.mount && d1.releases == d.releases
  {
    var last := WriteCrash(CrashMarker.Print(n, !d.mount));
    FirstCall(d, TruncateCrash, Then(last, []), fates);
    FirstCall(Meet(d, TruncateCrash, FateAt(fates, 0)), last, [], Drop(fates, 1));
  }

  /** An install: calls 4 and 5 replace the state, call 6 deletes the mount marker. */
  lemma InstallCut(p: Platform, d: Disk, op: Op, fates: seq<Fate>)
    requires op.Install? && LegalEvent(p, d, Event(op, fates))
    ensures var d1 := After(d, Event(op, fates));
            && d1.state == (if Made(fates, 5) then Some(Whole(Installed(op.id, ReadState(d)))) else d.state)
            && d1.mount == (d.mount && !Made(fates, 6))
            && d1.crash == d.crash
  {
    var before := ReadState(d);
    MadeIff(fates, 5);
    MadeIff(fates, 6);
    InstallHasNoCrashSteps(op.id, op.bundle, before, op.listing);
    CrashUntouched(d, InstallSteps(op.id, op.bundle, before, op.listing), fates);
    if Survives(fates, 6) {
      InstallEventHasPattern(p, d, Event(op, fates));
      InstallReplaces(d, op.id, op.bundle, op.listing, fates);
    } else {
      InstallEndsEarly(d, op.id, op.bundle, op.listing, fates);
    }
  }

  lemma InstallEndsEarly(d: Disk, id: Id, bundle: Bytes, listing: seq<Id>, fates: seq<Fate>)
    requires !Survives(fates, 6)
    ensures var d1 := After(d, Event(Install(id, bundle, listing), fates)); d1.state == d.state && d1.mount == d.mount
  {
    InstallInTwo(d, id, bundle, listing, fates);
    StateUntouched(d, Front(id, bundle, ReadState(d)), fates);
    MountUntouched(d, Front(id, bundle, ReadState(d)), fates);
  }

  lemma InstallReplaces(d: Disk, id: Id, bundle: Bytes, listing: seq<Id>, fates: seq<Fate>)
    requires Survives(fates, 6) && FateAt(fates, 4).Done?
    ensures var d1 := After(d, Event(Install(id, bundle, listing), fates));
            && d1.state == (if FateAt(fates, 5).Done? then Some(Whole(Installed(id, ReadState(d)))) else d.state)
            && d1.mount == (d.mount && !FateAt(fates, 6).Done?)
  {
    var before := ReadState(d);
    var front := Front(id, bundle, before);
    var d1 := Exec(d, front, fates);
    InstallInTwo(d, id, bundle, listing, fates);
    StateUntouched(d, front, fates);
    MountUntouched(d, front, fates);
    StagedState(d, id, bundle, fates);
    TailCut(Meet(d1, RenameState, FateAt(fates, 5)), id, before, listing, Drop(fates, 6));
    SurvivesShift(fates, 6, 0);
  }

  lemma StagedState(d: Disk, id: Id, bundle: Bytes, fates: seq<Fate>)
    requires Survives(fates, 5) && FateAt(fates, 4).Done?
    ensures Exec(d, Front(id, bundle, ReadState(d)), fates).stateTmp == Some(Whole(Installed(id, ReadState(d))))
  {
    FrontUnrolled(d, id, bundle, fates);
  }

  lemma TailCut(d: Disk, id: Id, before: State, listing: seq<Id>, fates: seq<Fate>)
    ensures var d1 := Exec(d, InstallTail(id, before, listing), fates);
            d1.state == d.state && d1.mount == (d.mount && !FateAt(fates, 0).Done?)
  {
    var prune := Prune(listing, Keep(id, before.current));
    PruneOnlyRemoves(listing, Keep(id, before.current));
    FirstCall(d, DeleteMount, prune, fates);
    if !FateAt(fates, 0).Killed? {
      var d0 := Meet(d, DeleteMount, FateAt(fates, 0));
      StateUntouched(d0, prune, Drop(fates, 1));
      MountUntouched(d0, prune, Drop(fates, 1));
    }
  }

  // ---------- patterns of failure ----------

  datatype Kind = Installing | Confirming | Launching | RollingBack | Crashing

  function KindOf(op: Op): Kind {
    match op
    case Install(_, _, _) => Installing
    case Confirm => Confirming
    case Resolve => Launching
    case RollbackIfUnconfirmed => RollingBack
    case Signal(_) => Crashing
  }

  /** The calls of an operation that can fail unnoticed, by position. */
  predicate MayGoUnnoticed(p: Platform, kind: Kind, i: nat) {
    match kind
    case Installing => if p.Kotlin? then i !in {0, 1, 4} else i >= 6
    case Confirming => i == 0 || i > 2 || (i == 2 && p.Kotlin?)
    case Launching => i != 1
    case RollingBack => i != 0
    case Crashing => i != 0
  }

  ghost predicate LegalPattern(p: Platform, kind: Kind, fates: seq<Fate>) {
    forall i :: 0 <= i < |fates| && fates[i].Lost? ==> MayGoUnnoticed(p, kind, i)
  }

  lemma PatternIsLegal(p: Platform, d: Disk, op: Op, fates: seq<Fate>)
    requires LegalPattern(p, KindOf(op), fates)
    ensures LegalEvent(p, d, Event(op, fates))
  {
    if op.Install? {
      InstallPatternIsLegal(p, d, op, fates);
    }
  }

  lemma InstallPatternIsLegal(p: Platform, d: Disk, op: Op, fates: seq<Fate>)
    requires op.Install? && LegalPattern(p, Installing, fates)
    ensures LegalEvent(p, d, Event(op, fates))
  {
    KotlinFatesAreLegal(op, d, fates);
    var steps := Steps(op, d);
    if p.Swift? {
      var keep := Keep(op.id, ReadState(d).current);
      InstallIsFrontAndTail(op.id, op.bundle, ReadState(d), op.listing);
      PruneOnlyRemoves(op.listing, keep);
      forall i | 6 <= i < |steps| ensures MayBeLost(p, op, steps[i]) {
        assert steps[i] == if i == 6 then DeleteMount else Prune(op.listing, keep)[i - 7];
        assert i == 6 || steps[i] in Prune(op.listing, keep);
      }
    }
  }

  lemma InstallEventHasPattern(p: Platform, d: Disk, e: Event)
    requires e.op.Install? && LegalEvent(p, d, e)
    ensures LegalPattern(p, Installing, e.fates)
  {
    var steps := Steps(e.op, d);
    assert steps[0] == MakeDir(e.op.id) && steps[1] == WriteTemp(e.op.id, e.op.bundle);
    assert steps[2] == DeleteBundle(e.op.id) && steps[3] == RenameBundle(e.op.id);
    assert steps[4].WriteStateTmp? && steps[5] == RenameState;
  }
}
