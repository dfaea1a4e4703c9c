/** Rollback: recovery that may itself be killed, the agreement of the crash paths, how often a device can roll
    back, and what it rolls back to. */
module Recovery {
  import opened Common
  import opened Disk
  import opened CrashSafety
  import opened CutOperations
  import CrashMarker

  // ---------- completed operations in closed form ----------

  lemma SignalEffect(d: Disk, n: int)
    ensures After(d, Complete(Signal(n))) == d.(crash := Some(CrashMarker.Print(n, !d.mount)))
  {
    var last := WriteCrash(CrashMarker.Print(n, !d.mount));
    assert Exec(Apply(d, TruncateCrash), Then(last, []), []) == Apply(Apply(d, TruncateCrash), last);
  }

  function Undone(d: Disk): Disk {
    if ReadState(d).previous.None? then d
    else d.(stateTmp := None, state := Some(Whole(RolledBack(ReadState(d)))), mount := true)
  }

  lemma RollbackEffect(d: Disk, before: State)
    requires before == ReadState(d)
    ensures Exec(d, RollbackSteps(before), []) == Undone(d)
  {
    if before.previous.Some? {
      var d1 := Apply(d, WriteStateTmp(RolledBack(before)));
      var d2 := Apply(d1, RenameState);
      assert Exec(d, RollbackSteps(before), []) == Exec(d1, Then(RenameState, Then(CreateMount, [])), []);
      assert Exec(d1, Then(RenameState, Then(CreateMount, [])), []) == Exec(d2, Then(CreateMount, []), []);
      assert Exec(d2, Then(CreateMount, []), []) == Apply(d2, CreateMount);
    }
  }

  lemma ResolveEffect(d: Disk)
    ensures After(d, Complete(Resolve)) ==
            if d.crash.Some? && CrashMarker.IsAutoRollback(d.crash.value)
            then Undone(d.(crash := None)) else d.(crash := None)
  {
    if d.crash.Some? {
      var rest := if CrashMarker.IsAutoRollback(d.crash.value) then RollbackSteps(ReadState(d)) else [];
      assert Exec(d, Then(DeleteCrash, rest), []) == Exec(Apply(d, DeleteCrash), rest, []);
      RollbackEffect(d.(crash := None), ReadState(d));
    }
  }

  lemma ConfirmEffect(d: Disk)
    ensures After(d, Complete(Confirm)) ==
            d.(stateTmp := None, state := Some(Whole(ReadState(d).(boot := Confirmed))), mount := true)
  {
    var s := ReadState(d).(boot := Confirmed);
    var d1 := Apply(d, CreateMount);
    assert Exec(d1, Replace(s, []), []) == Exec(Apply(d1, WriteStateTmp(s)), Then(RenameState, []), []);
  }

  lemma SameSessionEffect(d: Disk)
    ensures After(d, Complete(RollbackIfUnconfirmed)) == if d.mount then d else Undone(d)
  {
    RollbackEffect(d, ReadState(d));
  }

  // ---------- restartable recovery ----------

  /** The unconfirmed release c is current, nothing marks it as mounted, and p can be restored. */
  ghost predicate Protected(d: Disk, c: Id, p: Id) {
    d.state == Some(Whole(State(Some(c), Some(p), Pending))) && !d.mount
  }

  ghost predicate Recovered(d: Disk, p: Id) {
    d.state == Some(Whole(State(Some(p), None, Confirmed)))
  }

  /** A crash, a launch or a same-session rollback, killed anywhere or not at all. */
  ghost predicate RecoveryEvent(e: Event) {
    (e.op.Signal? || e.op.Resolve? || e.op.RollbackIfUnconfirmed?) && NoLoss(e.fates)
  }

  ghost predicate RecoveryRun(es: seq<Event>) {
    forall e :: e in es ==> RecoveryEvent(e)
  }

  lemma RecoveryEventIsLegal(d: Disk, e: Event)
    requires NoLoss(e.fates)
    ensures LegalEvent(Swift, d, e)
  {
  }

  /** Without unnoticed failures the calls before one that was made were made. */
  lemma MadeBefore(fates: seq<Fate>, i: nat, j: nat)
    requires NoLoss(fates) && i <= j && Made(fates, j)
    ensures Made(fates, i)
  {
    MadeIff(fates, j);
    MadeIff(fates, i);
    assert i < |fates| ==> fates[i] in fates;
  }

  lemma RecoveryStep(d: Disk, c: Id, p: Id, e: Event)
    requires RecoveryEvent(e) && (Protected(d, c, p) || Recovered(d, p))
    ensures Recovered(d, p) ==> Recovered(After(d, e), p)
    ensures Protected(After(d, e), c, p) || Recovered(After(d, e), p)
  {
    RecoveryEventIsLegal(d, e);
    match e.op
    case RollbackIfUnconfirmed =>
      SameSessionCut(Swift, d, e.fates);
      if Made(e.fates, 2) { MadeBefore(e.fates, 1, 2); }
    case Resolve =>
      ResolveCut(Swift, d, e.fates);
      if Made(e.fates, 3) { MadeBefore(e.fates, 2, 3); }
    case Signal(n) => SignalCut(d, n, e.fates);
  }

  /** However often marker writing, marker processing and rollback are killed, the device is still protected,
      or back on p for good. */
  lemma {:induction false} RecoveryIsRestartable(d: Disk, c: Id, p: Id, es: seq<Event>)
    requires RecoveryRun(es) && (Protected(d, c, p) || Recovered(d, p))
    ensures Recovered(d, p) ==> Recovered(Play(d, es), p)
    ensures Protected(Play(d, es), c, p) || Recovered(Play(d, es), p)
    decreases |es|
  {
    if es != [] {
      RecoveryStep(d, c, p, es[0]);
      RecoveryIsRestartable(After(d, es[0]), c, p, es[1..]);
    }
  }

  /** After any such run, the first crash and launch that are not killed restore p, and it stays. */
  lemma FirstFullCrashRestores(d: Disk, c: Id, p: Id, killed: seq<Event>, signal: int, later: seq<Event>)
    requires Protected(d, c, p) && RecoveryRun(killed) && RecoveryRun(later)
    ensures Recovered(Play(d, killed + [Complete(Signal(signal)), Complete(Resolve)] + later), p)
  {
    var d1 := Play(d, killed);
    RecoveryIsRestartable(d, c, p, killed);
    PlayAppend(d, killed, [Complete(Signal(signal)), Complete(Resolve)]);
    CrashAndLaunch(d1, signal);
    var d3 := After(After(d1, Complete(Signal(signal))), Complete(Resolve));
    PlayAppend(d, killed + [Complete(Signal(signal)), Complete(Resolve)], later);
    RecoveryIsRestartable(d3, c, p, later);
  }

  /** A crash and the next launch, both uncut: one rollback when unmounted, nothing when mounted. */
  lemma CrashAndLaunch(d: Disk, signal: int)
    ensures Play(d, [Complete(Signal(signal)), Complete(Resolve)]) ==
            if d.mount then d.(crash := None) else Undone(d.(crash := None))
    ensures Play(d, [Complete(Signal(signal)), Complete(Resolve)]) ==
            After(After(d, Complete(Signal(signal))), Complete(Resolve))
  {
    var es := [Complete(Signal(signal)), Complete(Resolve)];
    var d1 := After(d, es[0]);
    assert es[1..] == [Complete(Resolve)] && es[1..][1..] == [];
    assert Play(d1, [Complete(Resolve)]) == After(d1, Complete(Resolve));
    SignalEffect(d, signal);
    CrashMarker.MarkerReads(signal, !d.mount);
    ResolveEffect(d1);
  }

  /** On an unmounted device with a previous release a completed marker asks for a rollback. */
  lemma CrashAsks(d: Disk, n: int)
    requires !d.mount && ReadState(d).previous.Some?
    ensures Asks(After(d, Complete(Signal(n))))
  {
    SignalEffect(d, n);
    CrashMarker.MarkerReads(n, true);
  }

  lemma MarkerOnDisk(d: Disk, n: int, fates: seq<Fate>) returns (k: nat)
    ensures var text := CrashMarker.Print(n, !d.mount);
            var crash := After(d, Event(Signal(n), fates)).crash;
            crash == d.crash || (k <= |text| && crash == Some(text[..k]))
  {
    var text := CrashMarker.Print(n, !d.mount);
    var last := WriteCrash(text);
    k := 0;
    assert Drop(fates, 0) == fates;
    if !FateAt(fates, 0).Killed? {
      var d0 := Meet(d, TruncateCrash, FateAt(fates, 0));
      assert d0.crash == d.crash || d0.crash == Some(text[..0]);
      ExecThen(d, TruncateCrash, Then(last, []), fates, 0);
      var f := FateOf(Drop(fates, 1));
      if f.Done? {
        k := |text|;
        assert text[..k] == text;
      } else if f.t.Part? {
        k := Min(f.t.k, |text|);
      }
    }
  }

  /** A crash marker that was not written to its end never makes the next launch roll back: the launch does what an
      older, unprocessed marker asks for if that one is still there, and leaves the state alone otherwise. */
  lemma UnfinishedMarkerIsHarmless(d: Disk, n: int, fates: seq<Fate>)
    requires After(d, Event(Signal(n), fates)).crash != Some(CrashMarker.Print(n, !d.mount))
    ensures var d1 := After(d, Event(Signal(n), fates));
            After(d1, Complete(Resolve)).state ==
            if d1.crash == d.crash then After(d, Complete(Resolve)).state else d.state
  {
    var text := CrashMarker.Print(n, !d.mount);
    var d1 := After(d, Event(Signal(n), fates));
    StateUntouched(d, Steps(Signal(n), d), fates);
    var k := MarkerOnDisk(d, n, fates);
    if d1.crash != d.crash {
      assert text[..|text|] == text;
      CrashMarker.TornMarkerIsIgnored(n, !d.mount, k);
    }
    ResolveEffect(d1);
    ResolveEffect(d);
  }

  /** Swift ignores a failed write of state.json in a rollback and Kotlin a failed rename, and both then create
      the mount marker. A rollback, by the same session or at launch, that is killed or fails unnoticed anywhere still
      ends, at the latest after one more crash and launch, on p, except exactly when the state was not replaced
      although nothing was killed and the marker was created. */
  lemma LostWriteEndsProtection(d: Disk, c: Id, p: Id, plat: Platform, e: Event, signal: int)
    requires Protected(d, c, p) && LegalEvent(plat, d, e) && (e.op.RollbackIfUnconfirmed? || e.op.Resolve?)
    ensures var first := if e.op.Resolve? then 1 else 0;
            Recovered(Play(After(d, e), [Complete(Signal(signal)), Complete(Resolve)]), p) <==>
            !((e.op.Resolve? ==> Asks(d)) && FateAt(e.fates, first + 1).Lost? && Made(e.fates, first + 2))
  {
    if e.op.Resolve? {
      ResolveCut(plat, d, e.fates);
      MadeAfter(e.fates, 2);
    } else {
      SameSessionCut(plat, d, e.fates);
      MadeAfter(e.fates, 1);
    }
    CrashAndLaunch(After(d, e), signal);
  }

  lemma MadeAfter(fates: seq<Fate>, n: nat)
    ensures Made(fates, n + 1) ==> (Made(fates, n) <==> !FateAt(fates, n).Lost?)
  {
    MadeIff(fates, n);
    MadeIff(fates, n + 1);
  }

  /** A launch forgets the crash, leaving the device protected but with nothing to undo until it crashes once more,
      if and only if it deleted the crash marker and neither replaced the state nor created the mount marker. Without
      unnoticed failures: if and only if it was killed between the two. The launches that follow change nothing. */
  lemma KilledLaunchForgetsTheCrash(d: Disk, c: Id, p: Id, plat: Platform, fates: seq<Fate>)
    requires Protected(d, c, p) && Asks(d) && LegalEvent(plat, d, Event(Resolve, fates))
    ensures var d1 := After(d, Event(Resolve, fates));
            && (Protected(d1, c, p) && d1.crash.None? <==> Made(fates, 0) && !Made(fates, 2) && !Made(fates, 3))
            && (NoLoss(fates) ==>
                  (Protected(d1, c, p) && d1.crash.None? <==> Survives(fates, 1) && !Survives(fates, 3)))
            && (d1.crash.None? ==> After(d1, Complete(Resolve)) == d1)
  {
    ResolveCut(plat, d, fates);
    if NoLoss(fates) {
      if Made(fates, 3) {
        MadeBefore(fates, 2, 3);
      }
      NoLossMade(fates, 0);
      NoLossMade(fates, 2);
    }
  }

  lemma NoLossMade(fates: seq<Fate>, n: nat)
    requires NoLoss(fates)
    ensures Made(fates, n) <==> Survives(fates, n + 1)
  {
    MadeIff(fates, n);
    assert n < |fates| ==> fates[n] in fates;
  }

  /** confirmBoot marks before it writes: killed anywhere, it never leaves a confirmed state without the marker,
      so the next crash does not undo a release whose confirmation was recorded. */
  lemma ConfirmMarksFirst(d: Disk, fates: seq<Fate>)
    requires NoLoss(fates)
    ensures var d1 := After(d, Event(Confirm, fates));
            d1.state == d.state || (d1.mount && d1.state == Some(Whole(ReadState(d).(boot := Confirmed))))
  {
    RecoveryEventIsLegal(d, Event(Confirm, fates));
    ConfirmCut(Swift, d, fates);
    if Made(fates, 2) {
      MadeBefore(fates, 0, 2);
    }
  }

  // ---------- when kills and failures part marker and state ----------

  /** mount.marker exists if and only if state.json says confirmed; without a state.json there is no marker. */
  ghost predicate Agrees(d: Disk) {
    if d.state.None? then !d.mount
    else d.state.value.Whole? && (d.mount <==> d.state.value.state.boot.Confirmed?)
  }

  /** The two calls of an operation of which both or neither must be made. */
  function Pair(op: Op): (nat, nat) {
    match op
    case Install(_, _, _) => (5, 6)
    case Confirm => (0, 2)
    case Resolve => (2, 3)
    case _ => (1, 2)
  }

  /** Whether the operation is about to change both marker and state. */
  predicate ChangesBoth(d: Disk, op: Op) {
    match op
    case Install(_, _, _) => d.mount
    case Confirm => !d.mount
    case Resolve => Asks(d) && !d.mount
    case RollbackIfUnconfirmed => ReadState(d).previous.Some? && !d.mount
    case Signal(_) => false
  }

  /** Whatever is killed or fails unnoticed: from a disk where marker and state agree, an operation keeps the
      agreement if and only if it made both or neither of the two calls that change them, or need not change both. */
  lemma AgreementIsKeptIff(p: Platform, d: Disk, e: Event)
    requires Agrees(d) && LegalEvent(p, d, e)
    ensures Agrees(After(d, e)) <==>
            (ChangesBoth(d, e.op) ==> (Made(e.fates, Pair(e.op).0) <==> Made(e.fates, Pair(e.op).1)))
  {
    match e.op
    case Install(_, _, _) => InstallCut(p, d, e.op, e.fates);
    case Confirm => ConfirmCut(p, d, e.fates);
    case Resolve => ResolveCut(p, d, e.fates);
    case RollbackIfUnconfirmed => SameSessionCut(p, d, e.fates);
    case Signal(n) => SignalCut(d, n, e.fates);
  }

  // ---------- the launch after an install that was cut short ----------

  /** What the launch loads when it does, or does not, undo the last install. */
  lemma LoadedAfter(w: World, id: Id, d1: Disk, given: map<Id, Bytes>)
    requires Consistent(w) && Consistent(World(d1, given)) && id !in Refs(ReadState(w.disk))
    requires id in given && forall x :: x in w.given && x != id ==> x in given && given[x] == w.given[x]
    requires d1.state == w.disk.state || d1.state == Some(Whole(Installed(id, ReadState(w.disk))))
    ensures var before := ReadState(w.disk);
            && Booted(d1) == (if d1.state == w.disk.state then Booted(w.disk) else Some(given[id]))
            && Booted(Undone(d1)) ==
               if d1.state == w.disk.state
               then (if before.previous.Some? then Some(w.given[before.previous.value]) else Booted(w.disk))
               else (if before.current.Some? then Booted(w.disk) else Some(given[id]))
  {
    var before := ReadState(w.disk);
    assert before.current.Some? ==> before.current.value in Refs(before);
    assert before.previous.Some? ==> before.previous.value in Refs(before);
    assert Installed(id, before).current.value in Refs(Installed(id, before));
    assert before.current.Some? ==> before.current.value in Refs(Installed(id, before));
  }

  lemma DurableMade(fates: seq<Fate>)
    requires Durable(fates)
    ensures Made(fates, 6) ==> Made(fates, 5)
  {
    MadeIff(fates, 5);
    MadeIff(fates, 6);
  }

  /** An install that ends anywhere, because the process was killed, a call threw, or a signal arrived (which then
      leaves its marker), on a device with or without an older unprocessed crash. The next launch loads exactly what
      the old current release loaded or exactly the new bytes, according to whether state.json was replaced and
      whether the crash asks for a rollback; or the previous release, but only when the state was not replaced and
      the crash asks for a rollback. */
  lemma NextLaunchAfterTornInstall(p: Platform, w: World, e: Event, signal: Option<int>)
    requires Consistent(w) && LegalEvent(p, w.disk, e) && e.op.Install? && Durable(e.fates)
    requires e.op.id !in Refs(ReadState(w.disk))
    ensures var d, before := w.disk, ReadState(w.disk);
            var d1 := After(d, e);
            var d2 := if signal.Some? then After(d1, Complete(Signal(signal.value))) else d1;
            var undo := if signal.Some? then !d1.mount else d.crash.Some? && CrashMarker.IsAutoRollback(d.crash.value);
            && (d1.state == d.state || d1.state == Some(Whole(Installed(e.op.id, before))))
            && (d1.state == d.state ==> d1.mount == d.mount)
            && Booted(After(d2, Complete(Resolve))) ==
               if d1.state == d.state
               then (if undo && before.previous.Some? then Some(w.given[before.previous.value]) else Booted(d))
               else (if undo && before.current.Some? then Booted(d) else Some(e.op.bundle))
  {
    var d, d1 := w.disk, After(w.disk, e);
    var w1 := Advance(w, e);
    InstallCut(p, d, e.op, e.fates);
    DurableMade(e.fates);
    InstallKeepsConsistent(p, w, e);
    LoadedAfter(w, e.op.id, d1, w1.given);
    if signal.Some? {
      CrashAndLaunch(d1, signal.value);
    } else {
      ResolveEffect(d1);
    }
  }

  // ---------- confluence of the crash paths ----------

  /** The disk that every crash path from d ends in. */
  function Settled(d: Disk): Disk {
    if d.mount then d else Undone(d)
  }

  function Rollbacks(n: nat): seq<Event> {
    if n == 0 then [] else [Complete(RollbackIfUnconfirmed)] + Rollbacks(n - 1)
  }

  lemma {:induction false} RollbacksSettle(d: Disk, n: nat)
    ensures Play(d, Rollbacks(n)) == if n == 0 then d else Settled(d)
    decreases n
  {
    if n > 0 {
      SameSessionEffect(d);
      RollbacksSettle(Settled(d), n - 1);
      assert Rollbacks(n)[1..] == Rollbacks(n - 1);
    }
  }

  /** Same-session rollback once or more, a signal alone, or rollbacks followed by the abort signal: after the
      next launch all leave the same disk, that of a single rollback (or no change when mounted or without a
      previous release). An older crash marker that no launch has read yet makes a difference only if there is no
      new signal: then the launch rolls back if that marker asks for it, also when mounted. */
  lemma CrashPathsAgree(d: Disk, n: nat, signal: Option<int>)
    requires n > 0 || signal.Some?
    ensures var crash := if signal.Some? then [Complete(Signal(signal.value))] else [];
            Play(d, Rollbacks(n) + (crash + [Complete(Resolve)])) ==
            if signal.None? && Asks(d) then Undone(d.(crash := None)) else Settled(d.(crash := None))
  {
    var crash := if signal.Some? then [Complete(Signal(signal.value))] else [];
    var d1 := Play(d, Rollbacks(n));
    RollbacksSettle(d, n);
    PlayAppend(d, Rollbacks(n), crash + [Complete(Resolve)]);
    if signal.Some? {
      assert crash + [Complete(Resolve)] == [Complete(Signal(signal.value)), Complete(Resolve)];
      CrashAndLaunch(d1, signal.value);
    } else {
      assert crash + [Complete(Resolve)] == [Complete(Resolve)];
      assert Play(d1, [Complete(Resolve)]) == After(d1, Complete(Resolve));
      ResolveEffect(d1);
    }
  }

  // ---------- how often a device rolls back ----------

  function Potential(d: Disk): nat {
    if ReadState(d).previous.Some? then 1 else 0
  }

  predicate IsRollback(d: Disk, e: Event) {
    && !e.op.Install? && ReadState(d).previous.Some?
    && ReadState(After(d, e)) == RolledBack(ReadState(d))
  }

  function EffectiveRollbacks(d: Disk, es: seq<Event>): nat
    decreases |es|
  {
    if es == [] then 0
    else (if IsRollback(d, es[0]) then 1 else 0) + EffectiveRollbacks(After(d, es[0]), es[1..])
  }

  function InstallsOverCurrent(d: Disk, es: seq<Event>): nat
    decreases |es|
  {
    if es == [] then 0
    else (if es[0].op.Install? && ReadState(d).current.Some? then 1 else 0)
         + InstallsOverCurrent(After(d, es[0]), es[1..])
  }

  function CurrentChanges(d: Disk, es: seq<Event>): nat
    decreases |es|
  {
    if es == [] then 0
    else (if ReadState(After(d, es[0])).current != ReadState(d).current then 1 else 0)
         + CurrentChanges(After(d, es[0]), es[1..])
  }

  ghost predicate LegalRun(p: Platform, d: Disk, es: seq<Event>)
    decreases |es|
  {
    es == [] || (LegalEvent(p, d, es[0]) && LegalRun(p, After(d, es[0]), es[1..]))
  }

  /** With kills and failures at any step, rollbacks that take effect are paid for by installs over a current
      release. */
  lemma {:induction false} RollbacksArePaidFor(p: Platform, d: Disk, es: seq<Event>)
    requires LegalRun(p, d, es)
    ensures EffectiveRollbacks(d, es) + Potential(Play(d, es)) <= InstallsOverCurrent(d, es) + Potential(d)
    decreases |es|
  {
    if es != [] {
      StateIsAtomic(p, d, es[0]);
      RollbacksArePaidFor(p, After(d, es[0]), es[1..]);
    }
  }

  /** On a new device: never more rollbacks than installs made over a current release. */
  lemma RollbacksBoundedByInstalls(p: Platform, es: seq<Event>)
    requires LegalRun(p, EMPTY, es)
    ensures EffectiveRollbacks(EMPTY, es) <= InstallsOverCurrent(EMPTY, es)
  {
    RollbacksArePaidFor(p, EMPTY, es);
  }

  /** Between installs the current release changes at most once, however many crashes and launches there are. */
  lemma {:induction false} CurrentChangesAtMostOnce(p: Platform, d: Disk, es: seq<Event>)
    requires LegalRun(p, d, es) && forall e :: e in es ==> !e.op.Install?
    ensures CurrentChanges(d, es) + Potential(Play(d, es)) <= Potential(d) <= 1
    decreases |es|
  {
    if es != [] {
      StateIsAtomic(p, d, es[0]);
      CurrentChangesAtMostOnce(p, After(d, es[0]), es[1..]);
    }
  }

  // ---------- what a device rolls back to ----------

  function ConfirmedBy(d: Disk, e: Event): set<Id> {
    if e.op.Confirm? && ReadState(d).current.Some? then {ReadState(d).current.value} else {}
  }

  /** The releases for which confirmBoot was called while they were current. */
  function ConfirmedIds(d: Disk, es: seq<Event>): set<Id>
    decreases |es|
  {
    if es == [] then {} else ConfirmedBy(d, es[0]) + ConfirmedIds(After(d, es[0]), es[1..])
  }

  ghost predicate InstallsWhen(guard: Disk -> bool, d: Disk, es: seq<Event>)
    decreases |es|
  {
    es == [] || ((es[0].op.Install? ==> guard(d)) && InstallsWhen(guard, After(d, es[0]), es[1..]))
  }

  /** The state says that the current release was confirmed, or there is none. */
  predicate StateConfirmed(d: Disk) {
    ReadState(d).boot.Confirmed? || ReadState(d).current.None?
  }

  predicate Mounted(d: Disk) {
    d.mount || ReadState(d).current.None?
  }

  ghost predicate TrustedTargets(d: Disk, confirmed: set<Id>) {
    && (ReadState(d).previous.Some? ==> ReadState(d).previous.value in confirmed)
    && (ReadState(d).boot.Confirmed? && ReadState(d).current.Some? ==> ReadState(d).current.value in confirmed)
  }

  lemma {:induction false} TargetsStayTrusted(p: Platform, d: Disk, es: seq<Event>, confirmed: set<Id>)
    requires LegalRun(p, d, es) && InstallsWhen(StateConfirmed, d, es) && TrustedTargets(d, confirmed)
    ensures TrustedTargets(Play(d, es), confirmed + ConfirmedIds(d, es))
    decreases |es|
  {
    if es == [] {
      assert confirmed + {} == confirmed;
    } else {
      var now := confirmed + ConfirmedBy(d, es[0]);
      StateIsAtomic(p, d, es[0]);
      TargetsStayTrusted(p, After(d, es[0]), es[1..], now);
      assert now + ConfirmedIds(After(d, es[0]), es[1..]) == confirmed + ConfirmedIds(d, es);
    }
  }

  /** If installs happen only over a release that state.json records as confirmed, or over none, then in every
      reachable state, kills included, the rollback target was confirmed while it was current. */
  lemma RollbackTargetWasConfirmed(p: Platform, es: seq<Event>)
    requires LegalRun(p, EMPTY, es) && InstallsWhen(StateConfirmed, EMPTY, es)
    ensures ReadState(Play(EMPTY, es)).previous.Some? ==>
              ReadState(Play(EMPTY, es)).previous.value in ConfirmedIds(EMPTY, es)
  {
    TargetsStayTrusted(p, EMPTY, es, {});
    assert {} + ConfirmedIds(EMPTY, es) == ConfirmedIds(EMPTY, es);
  }

  // ---------- what notifyAppReady confirms ----------

  /** A session on the disk that its launch left: any calls that are not launches, cut or failing anywhere. */
  ghost predicate Session(p: Platform, d: Disk, es: seq<Event>) {
    LegalRun(p, d, es) && forall e :: e in es ==> !e.op.Resolve?
  }

  /** No install of the session, and no rollback, can bring the running release back under its own id. */
  ghost predicate OtherIds(d: Disk, es: seq<Event>) {
    && (forall e :: e in es && e.op.Install? ==> Some(e.op.id) != ReadState(d).current)
    && (ReadState(d).previous.Some? ==> ReadState(d).previous != ReadState(d).current)
  }

  /** The installs of a session that took effect and were not undone; -1 once a rollback undid something older. */
  function Standing(n: int, d: Disk, es: seq<Event>): int
    decreases |es|
  {
    if es == [] then n else Standing(StandingAfter(n, d, es[0]), After(d, es[0]), es[1..])
  }

  function StandingAfter(n: int, d: Disk, e: Event): int {
    if n < 0 || After(d, e).state == d.state then n
    else if e.op.Install? then n + 1
    else if IsRollback(d, e) then n - 1 else n
  }

  /** What n standing installs say about the two releases of state.json; `other` means that all ids differ from the
      running one. */
  ghost predicate Stands(n: int, running: Option<Id>, other: bool, d: Disk) {
    var s := ReadState(d);
    && (n == 0 ==> s.current == running)
    && (n == 1 ==> s.previous == running || s.previous.None?)
    && (other ==> (s.current == running ==> n == 0))
    && (other ==> (s.previous.Some? && s.previous == running ==> n == 1))
  }

  lemma StandsAfter(p: Platform, running: Option<Id>, other: bool, n: int, d: Disk, e: Event)
    requires Stands(n, running, other, d) && n >= -1 && LegalEvent(p, d, e)
    requires !e.op.Resolve? && (other && e.op.Install? ==> Some(e.op.id) != running)
    ensures Stands(StandingAfter(n, d, e), running, other, After(d, e)) && StandingAfter(n, d, e) >= -1
  {
    StateIsAtomic(p, d, e);
  }

  lemma {:induction false} SessionStands(
    p: Platform, running: Option<Id>, other: bool, n: int, d: Disk, es: seq<Event>)
    requires Session(p, d, es) && Stands(n, running, other, d) && n >= -1
    requires other ==> forall e :: e in es && e.op.Install? ==> Some(e.op.id) != running
    ensures Stands(Standing(n, d, es), running, other, Play(d, es))
    decreases |es|
  {
    if es != [] {
      StandsAfter(p, running, other, n, d, es[0]);
      SessionStands(p, running, other, StandingAfter(n, d, es[0]), After(d, es[0]), es[1..]);
    }
  }

  /** notifyAppReady confirms the release that state.json names. Over every session, that is the release that runs if
      every install that took effect since the launch was undone, and nothing older was. If ids tell releases apart,
      it is the release that runs only then. */
  lemma ConfirmRecordsTheRunningReleaseIff(p: Platform, d: Disk, es: seq<Event>)
    requires Session(p, d, es)
    ensures var d1 := After(Play(d, es), Complete(Confirm));
            && ReadState(d1).boot.Confirmed? && d1.mount
            && (Standing(0, d, es) == 0 ==> ReadState(d1).current == ReadState(d).current)
            && (OtherIds(d, es) ==>
                  (ReadState(d1).current == ReadState(d).current <==> Standing(0, d, es) == 0))
  {
    SessionStands(p, ReadState(d).current, OtherIds(d, es), 0, d, es);
    ConfirmEffect(Play(d, es));
  }

  /** The ids must tell releases apart: sync, which never compares ids, can install other bytes under the running id,
      and notifyAppReady then confirms that id although an install stands. */
  lemma ReinstallIsConfirmedByName(d: Disk, id: Id, bundle: Bytes, listing: seq<Id>)
    requires ReadState(d).current == Some(id) && ReadState(d).boot.Confirmed?
    ensures var es := [Complete(Install(id, bundle, listing))];
            && ReadState(After(Play(d, es), Complete(Confirm))).current == ReadState(d).current
            && Standing(0, d, es) == 1
  {
    var e := Complete(Install(id, bundle, listing));
    InstallCut(Swift, d, e.op, []);
    assert [e][1..] == [] && Play(d, [e]) == After(d, e);
    assert Standing(0, d, [e]) == StandingAfter(0, d, e);
    ConfirmEffect(After(d, e));
  }
}
