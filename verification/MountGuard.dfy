/** An app that installs only while mount.marker is there, or while nothing is installed: when its rollback targets are
    releases that were confirmed. */
module MountGuard {
  import opened Common
  import opened Disk
  import opened CrashSafety
  import opened CutOperations
  import opened Recovery

  /** The marker stays, or appears, although the current release was not confirmed: an install replaced the state and
      did not delete the marker, or a rollback created the marker and did not replace the state. */
  predicate Parts(kind: Kind, fates: seq<Fate>) {
    match kind
    case Installing => Made(fates, 5) && !Made(fates, 6)
    case Launching => Made(fates, 3) && !Made(fates, 2)
    case RollingBack => Made(fates, 2) && !Made(fates, 1)
    case _ => false
  }

  /** mount.marker vouches for the current release, and the rollback target needs no voucher. */
  ghost predicate Vouched(d: Disk, confirmed: set<Id>) {
    && (ReadState(d).previous.Some? ==> ReadState(d).previous.value in confirmed)
    && (d.mount && ReadState(d).current.Some? ==> ReadState(d).current.value in confirmed)
  }

  lemma StaysVouched(p: Platform, d: Disk, e: Event, confirmed: set<Id>)
    requires Vouched(d, confirmed) && LegalEvent(p, d, e) && (e.op.Install? ==> Mounted(d))
    requires LegalPattern(p, KindOf(e.op), e.fates) ==> !Parts(KindOf(e.op), e.fates)
    ensures Vouched(After(d, e), confirmed + ConfirmedBy(d, e))
  {
    match e.op
    case Install(_, _, _) =>
      InstallCut(p, d, e.op, e.fates);
      InstallEventHasPattern(p, d, e);
    case Confirm => ConfirmCut(p, d, e.fates);
    case Resolve =>
      ResolveCut(p, d, e.fates);
      if Asks(d) {
        LaunchEventHasPattern(p, d, e);
      }
    case RollbackIfUnconfirmed =>
      SameSessionCut(p, d, e.fates);
      if !d.mount && ReadState(d).previous.Some? {
        assert Steps(e.op, d)[0] == WriteStateTmp(RolledBack(ReadState(d)));
      }
    case Signal(n) => SignalCut(d, n, e.fates);
  }

  lemma LaunchEventHasPattern(p: Platform, d: Disk, e: Event)
    requires e.op.Resolve? && LegalEvent(p, d, e) && Asks(d)
    ensures LegalPattern(p, Launching, e.fates)
  {
    assert Steps(e.op, d)[1] == WriteStateTmp(RolledBack(ReadState(d)));
  }

  /** Which patterns of kills and unnoticed failures may strike which operations. */
  ghost predicate Within(allowed: (Kind, seq<Fate>) -> bool, es: seq<Event>) {
    forall e :: e in es ==> allowed(KindOf(e.op), e.fates)
  }

  ghost predicate Harmless(p: Platform, allowed: (Kind, seq<Fate>) -> bool) {
    forall kind: Kind, fates: seq<Fate> ::
      allowed(kind, fates) && LegalPattern(p, kind, fates) ==> !Parts(kind, fates)
  }

  lemma {:induction false} RunStaysVouched(
    p: Platform, allowed: (Kind, seq<Fate>) -> bool, d: Disk, es: seq<Event>, confirmed: set<Id>)
    requires LegalRun(p, d, es) && InstallsWhen(Mounted, d, es) && Within(allowed, es) && Harmless(p, allowed)
    requires Vouched(d, confirmed)
    ensures Vouched(Play(d, es), confirmed + ConfirmedIds(d, es))
    decreases |es|
  {
    if es == [] {
      assert confirmed + {} == confirmed;
    } else {
      var now := confirmed + ConfirmedBy(d, es[0]);
      assert allowed(KindOf(es[0].op), es[0].fates);
      StaysVouched(p, d, es[0], confirmed);
      RunStaysVouched(p, allowed, After(d, es[0]), es[1..], now);
      assert now + ConfirmedIds(After(d, es[0]), es[1..]) == confirmed + ConfirmedIds(d, es);
    }
  }

  ghost predicate TargetConfirmed(es: seq<Event>) {
    ReadState(Play(EMPTY, es)).previous.Some? ==>
      ReadState(Play(EMPTY, es)).previous.value in ConfirmedIds(EMPTY, es)
  }

  /** A run from an empty device in which installs wait for the marker and failures stay within `allowed`. */
  ghost predicate Guarded(p: Platform, allowed: (Kind, seq<Fate>) -> bool, es: seq<Event>) {
    LegalRun(p, EMPTY, es) && InstallsWhen(Mounted, EMPTY, es) && Within(allowed, es)
  }

  /** Installs that wait for the marker make every rollback target a confirmed release, if no operation is cut or fails
      in a way that parts marker and state. */
  lemma MountedInstallsRollBackToConfirmed(p: Platform, es: seq<Event>)
    requires LegalRun(p, EMPTY, es) && InstallsWhen(Mounted, EMPTY, es)
    requires forall e :: e in es ==> !Parts(KindOf(e.op), e.fates)
    ensures TargetConfirmed(es)
  {
    RunStaysVouched(p, (kind, fates) => !Parts(kind, fates), EMPTY, es, {});
    assert {} + ConfirmedIds(EMPTY, es) == ConfirmedIds(EMPTY, es);
  }

  // ---------- runs that end on an unconfirmed target ----------

  lemma {:induction false} RunSnoc(p: Platform, d: Disk, es: seq<Event>, e: Event)
    ensures Play(d, es + [e]) == After(Play(d, es), e)
    ensures LegalRun(p, d, es) && LegalEvent(p, Play(d, es), e) ==> LegalRun(p, d, es + [e])
    ensures InstallsWhen(Mounted, d, es) && (e.op.Install? ==> Mounted(Play(d, es))) ==>
              InstallsWhen(Mounted, d, es + [e])
    ensures ConfirmedIds(d, es + [e]) == ConfirmedIds(d, es) + ConfirmedBy(Play(d, es), e)
    decreases |es|
  {
    if es == [] {
      assert es + [e] == [e] && [e][1..] == [];
    } else {
      assert (es + [e])[1..] == es[1..] + [e];
      RunSnoc(p, After(d, es[0]), es[1..], e);
    }
  }

  /** A guarded run so far: its state, its marker, whether a crash asks for a rollback, and what was confirmed. */
  ghost predicate Reaches(
    p: Platform, allowed: (Kind, seq<Fate>) -> bool, es: seq<Event>, s: State, mount: bool, confirmed: set<Id>)
  {
    var d := Play(EMPTY, es);
    Guarded(p, allowed, es) && d.state == Some(Whole(s)) && d.mount == mount && ConfirmedIds(EMPTY, es) == confirmed
  }

  lemma Installs(p: Platform, allowed: (Kind, seq<Fate>) -> bool, es: seq<Event>, s: State, confirmed: set<Id>,
                 id: Id, fates: seq<Fate>) returns (es1: seq<Event>)
    requires Reaches(p, allowed, es, s, true, confirmed)
    requires allowed(Installing, fates) && LegalPattern(p, Installing, fates) && Made(fates, 5)
    ensures Reaches(p, allowed, es1, Installed(id, s), !Made(fates, 6), confirmed)
  {
    var e := Event(Install(id, [], []), fates);
    PatternIsLegal(p, Play(EMPTY, es), e.op, fates);
    InstallCut(p, Play(EMPTY, es), e.op, fates);
    RunSnoc(p, EMPTY, es, e);
    es1 := es + [e];
  }

  /** A release that was installed on an empty device and confirmed. */
  lemma ConfirmedRelease(p: Platform, allowed: (Kind, seq<Fate>) -> bool, a: Id) returns (es: seq<Event>)
    requires forall kind: Kind :: allowed(kind, [])
    ensures Reaches(p, allowed, es, State(Some(a), None, Confirmed), true, {a})
  {
    var e1, e2 := Complete(Install(a, [], [])), Complete(Confirm);
    var d1 := After(EMPTY, e1);
    InstallCut(p, EMPTY, e1.op, []);
    ConfirmCut(p, d1, []);
    RunSnoc(p, EMPTY, [], e1);
    RunSnoc(p, EMPTY, [e1], e2);
    assert [] + [e1] == [e1] && allowed(Installing, []) && allowed(Confirming, []);
    es := [e1] + [e2];
  }

  lemma Fails(p: Platform, allowed: (Kind, seq<Fate>) -> bool, es: seq<Event>, s: State, confirmed: set<Id>,
              kind: Kind, fates: seq<Fate>) returns (es1: seq<Event>)
    requires Reaches(p, allowed, es, s, false, confirmed) && s.previous.Some?
    requires forall k: Kind :: allowed(k, [])
    requires kind.Launching? || kind.RollingBack?
    requires allowed(kind, fates) && LegalPattern(p, kind, fates) && Parts(kind, fates)
    ensures Reaches(p, allowed, es1, s, true, confirmed)
  {
    es1 := es;
    if kind.Launching? {
      var crash := Complete(Signal(6));
      SignalEffect(Play(EMPTY, es), 6);
      CrashAsks(Play(EMPTY, es), 6);
      RunSnoc(p, EMPTY, es, crash);
      assert allowed(Crashing, []);
      es1 := es + [crash];
    }
    var d := Play(EMPTY, es1);
    var e := Event(if kind.Launching? then Resolve else RollbackIfUnconfirmed, fates);
    PatternIsLegal(p, d, e.op, fates);
    if kind.Launching? {
      ResolveCut(p, d, fates);
    } else {
      SameSessionCut(p, d, fates);
    }
    RunSnoc(p, EMPTY, es1, e);
    es1 := es1 + [e];
  }

  /** A pattern that parts marker and state leads to a rollback target that nobody confirmed: release a is confirmed, b
      is left mounted without confirmation, and c is installed over it. */
  lemma PartingRun(p: Platform, allowed: (Kind, seq<Fate>) -> bool, kind: Kind, fates: seq<Fate>, a: Id, b: Id, c: Id)
    returns (es: seq<Event>)
    requires (forall k: Kind :: allowed(k, [])) && a != b
    requires allowed(kind, fates) && LegalPattern(p, kind, fates) && Parts(kind, fates)
    ensures Guarded(p, allowed, es) && ConfirmedIds(EMPTY, es) == {a}
    ensures ReadState(Play(EMPTY, es)) == State(Some(c), Some(b), Pending)
  {
    es := ConfirmedRelease(p, allowed, a);
    var s := State(Some(a), None, Confirmed);
    assert allowed(Installing, []);
    if kind.Installing? {
      es := Installs(p, allowed, es, s, {a}, b, fates);
    } else {
      es := Installs(p, allowed, es, s, {a}, b, []);
      es := Fails(p, allowed, es, Installed(b, s), {a}, kind, fates);
    }
    es := Installs(p, allowed, es, Installed(b, s), {a}, c, []);
  }

  /** Over all sets of failure patterns (that let operations also complete): in every guarded run the rollback target
      was confirmed while it was current, if and only if no pattern parts marker and state. */
  lemma MountGuardHoldsIff(p: Platform, allowed: (Kind, seq<Fate>) -> bool)
    requires forall kind: Kind :: allowed(kind, [])
    ensures (forall es :: Guarded(p, allowed, es) ==> TargetConfirmed(es)) <==> Harmless(p, allowed)
  {
    if Harmless(p, allowed) {
      forall es | Guarded(p, allowed, es) ensures TargetConfirmed(es) {
        RunStaysVouched(p, allowed, EMPTY, es, {});
        assert {} + ConfirmedIds(EMPTY, es) == ConfirmedIds(EMPTY, es);
      }
    } else {
      var kind: Kind, fates: seq<Fate> :|
        allowed(kind, fates) && LegalPattern(p, kind, fates) && Parts(kind, fates);
      var es := PartingRun(p, allowed, kind, fates, "a", "b", "c");
      assert "a"[0] != "b"[0];
      assert !TargetConfirmed(es);
    }
  }

  /** With kills alone one kill point does it: from an empty device, install a, confirm it, install b and kill that
      install at its seventh call, install c. The marker was there for every install, and the rollback target b was
      never confirmed. */
  lemma KilledInstallLeavesMounted(p: Platform, a: Id, b: Id, c: Id, t: Tear) returns (es: seq<Event>)
    requires a != b
    ensures LegalRun(p, EMPTY, es) && InstallsWhen(Mounted, EMPTY, es)
    ensures forall e :: e in es ==> e.fates == [] || e.fates == [Done, Done, Done, Done, Done, Done, Killed(t)]
    ensures ReadState(Play(EMPTY, es)).previous == Some(b) && ConfirmedIds(EMPTY, es) == {a}
  {
    var killed := [Done, Done, Done, Done, Done, Done, Killed(t)];
    es := PartingRun(p, (kind, fates) => fates == [] || fates == killed, Installing, killed, a, b, c);
  }

  /** Without unnoticed failures it is the only one. */
  lemma OnlyThatKillParts(kind: Kind, fates: seq<Fate>)
    requires NoLoss(fates)
    ensures Parts(kind, fates) <==> kind.Installing? && Made(fates, 5) && FateAt(fates, 6).Killed?
  {
    match kind
    case Installing =>
      MadeIff(fates, 5);
      MadeIff(fates, 6);
      assert 6 < |fates| ==> fates[6] in fates;
    case Launching => if Made(fates, 3) { MadeBefore(fates, 2, 3); }
    case RollingBack => if Made(fates, 2) { MadeBefore(fates, 1, 2); }
    case _ =>
  }

  /** The guard is needed: an install over an unconfirmed release makes that release the rollback target. */
  lemma UnguardedInstallKeepsUnconfirmed(a: Id, b: Id, bytes: Bytes)
    ensures var es := [Complete(Install(a, bytes, [a])), Complete(Install(b, bytes, [a, b]))];
            ReadState(Play(EMPTY, es)).previous == Some(a) && ConfirmedIds(EMPTY, es) == {}
  {
    var es := [Complete(Install(a, bytes, [a])), Complete(Install(b, bytes, [a, b]))];
    var d1 := After(EMPTY, es[0]);
    InstallCut(Swift, EMPTY, es[0].op, []);
    InstallCut(Swift, d1, es[1].op, []);
    assert es[1..] == [es[1]] && es[1..][1..] == [];
    assert Play(EMPTY, es) == Play(d1, [es[1]]) == After(d1, es[1]);
    assert ConfirmedIds(EMPTY, es) == ConfirmedIds(d1, [es[1]]) == {};
  }
}
