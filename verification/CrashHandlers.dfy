/** The process-wide hooks: POSIX signal handlers, the uncaught-exception handler and the fatal-log function. */
module CrashHandlers {
  import opened Common
  import opened Disk
  import opened CutOperations
  import CrashSafety
  import opened SalvePushStorage
  import CrashMarker
  import Recovery

  const MAX_SIGNAL_NUMBER: nat := 32

  const SIGILL: int := 4
  const SIGTRAP: int := 5
  const SIGABRT: int := 6
  const SIGFPE: int := 8
  const SIGSEGV: int := 11
  const SIGPIPE: int := 13

  /** Linux and Darwin number these two differently. */
  function SigBus(p: Platform): int { if p.Kotlin? then 7 else 10 }
  function SigSys(p: Platform): int { if p.Kotlin? then 31 else 12 }

  function Signals(p: Platform): seq<int> {
    [SIGABRT, SIGSEGV, SIGILL, SigBus(p), SIGFPE, SIGTRAP, SIGPIPE, SigSys(p)]
  }

  /** The numbers that <signal.h> gives the eight signals. */
  lemma SignalsAre(p: Platform, n: int)
    ensures n in Signals(p) <==> n in if p.Kotlin? then {4, 5, 6, 7, 8, 11, 13, 31} else {4, 5, 6, 8, 10, 11, 12, 13}
    ensures SIGABRT == 6 && SIGSEGV == 11 && SIGILL == 4 && SIGFPE == 8 && SIGTRAP == 5 && SIGPIPE == 13
    ensures SigBus(Kotlin) == 7 && SigBus(Swift) == 10 && SigSys(Kotlin) == 31 && SigSys(Swift) == 12
  {
  }

  /** What a signal does. A foreign handler is a number: the installs of other crash reporters are counted. */
  datatype Disposition =
    | Default                // SIG_DFL
    | Ignore                 // SIG_IGN
    | Plain(handler: nat)    // sa_handler
    | WithInfo(handler: nat) // SA_SIGINFO
    | Ours                   // handleSignal

  predicate Foreign(x: Disposition) {
    x.Plain? || x.WithInfo?
  }

  datatype Effect = Marker | Call(foreign: Disposition) | Reset | Raise | Unfinished

  /** What handleSignal finds to chain to; Default stands for nothing. */
  function Chained(previous: seq<Disposition>, signal: int): Disposition {
    if signal < 0 || signal >= MAX_SIGNAL_NUMBER || signal >= |previous| then Default else previous[signal]
  }

  /** saved[h] is what foreign handler h calls before it returns: the disposition that it replaced, which is
      therefore ours or that of an earlier handler, or Default when it calls nothing. */
  predicate Ordered(saved: seq<Disposition>) {
    forall h :: 0 <= h < |saved| && Foreign(saved[h]) ==> saved[h].handler < h
  }

  /** The effects of delivering a signal to x, following at most `depth` calls of one handler within another. A
      foreign handler calls what it saved and returns; handleSignal calls `previous`, resets and re-raises. */
  function Deliver(x: Disposition, previous: Disposition, saved: seq<Disposition>, depth: nat): seq<Effect>
    decreases depth
  {
    if x.Default? || x.Ignore? then []
    else if depth == 0 then [Unfinished]
    else if x.Ours? then [Marker] + Deliver(previous, previous, saved, depth - 1) + [Reset, Raise]
    else [Call(x)] + if x.handler < |saved| then Deliver(saved[x.handler], previous, saved, depth - 1) else []
  }

  /** The effects of handleSignal. */
  function Handle(previous: seq<Disposition>, saved: seq<Disposition>, signal: int, depth: nat): seq<Effect> {
    Deliver(Ours, Chained(previous, signal), saved, depth)
  }

  function Rank(x: Disposition): nat {
    if Foreign(x) then x.handler + 1 else 0
  }

  /** Some handler in the chain that starts at x is ours. */
  predicate ReachesOurs(x: Disposition, saved: seq<Disposition>)
    requires Ordered(saved)
    decreases Rank(x)
  {
    x.Ours? || (Foreign(x) && x.handler < |saved| && ReachesOurs(saved[x.handler], saved))
  }

  /** The calls of the foreign handlers in the chain that starts at x, in order. */
  function Calls(x: Disposition, saved: seq<Disposition>): seq<Effect>
    requires Ordered(saved)
    decreases Rank(x)
  {
    if !Foreign(x) then []
    else [Call(x)] + if x.handler < |saved| then Calls(saved[x.handler], saved) else []
  }

  /** The handler comes back to re-raise the signal if and only if the chain from the handler it replaced does not
      lead back to it. Then it writes one marker, each handler of the chain is called once, in order, and the
      default is restored. Foreign handlers are taken to return once what they chain to has returned. */
  lemma HandlerReturnsIff(previous: seq<Disposition>, saved: seq<Disposition>, signal: int)
    requires Ordered(saved) && |previous| == 32
    ensures var x := if 0 <= signal < 32 then previous[signal] else Default;
            (exists depth: nat :: Unfinished !in Handle(previous, saved, signal, depth)) <==> !ReachesOurs(x, saved)
    ensures var x := if 0 <= signal < 32 then previous[signal] else Default;
            !ReachesOurs(x, saved) ==>
              forall depth: nat :: depth > Rank(x) ==>
                Handle(previous, saved, signal, depth) == [Marker] + Calls(x, saved) + [Reset, Raise]
  {
    var x := Chained(previous, signal);
    if ReachesOurs(x, saved) {
      forall depth: nat ensures Unfinished in Handle(previous, saved, signal, depth) {
        LoopNeverReturns(Ours, x, saved, depth);
      }
    } else {
      forall depth: nat | depth > Rank(x)
        ensures Handle(previous, saved, signal, depth) == [Marker] + Calls(x, saved) + [Reset, Raise]
      {
        ChainEnds(x, x, saved, depth - 1);
      }
      ChainEnds(x, x, saved, Rank(x));
      CallsFinish(x, saved);
      assert Unfinished !in Handle(previous, saved, signal, Rank(x) + 1);
    }
  }

  lemma {:induction false} LoopNeverReturns(x: Disposition, previous: Disposition, saved: seq<Disposition>, depth: nat)
    requires Ordered(saved) && ReachesOurs(x, saved) && ReachesOurs(previous, saved)
    ensures Unfinished in Deliver(x, previous, saved, depth)
    decreases depth
  {
    if depth > 0 {
      LoopNeverReturns(if x.Ours? then previous else saved[x.handler], previous, saved, depth - 1);
    }
  }

  lemma DeliverForeign(x: Disposition, previous: Disposition, saved: seq<Disposition>, depth: nat)
    requires Foreign(x) && x.handler < |saved| && depth > 0
    ensures Deliver(x, previous, saved, depth) == [Call(x)] + Deliver(saved[x.handler], previous, saved, depth - 1)
  {
  }

  lemma {:induction false} ChainEnds(x: Disposition, previous: Disposition, saved: seq<Disposition>, depth: nat)
    requires Ordered(saved) && !ReachesOurs(x, saved) && depth >= Rank(x)
    ensures Deliver(x, previous, saved, depth) == Calls(x, saved)
    decreases depth
  {
    if Foreign(x) && x.handler < |saved| {
      DeliverForeign(x, previous, saved, depth);
      ChainEnds(saved[x.handler], previous, saved, depth - 1);
    }
  }

  lemma {:induction false} CallsFinish(x: Disposition, saved: seq<Disposition>)
    requires Ordered(saved)
    ensures Unfinished !in Calls(x, saved)
    decreases Rank(x)
  {
    if Foreign(x) && x.handler < |saved| {
      CallsFinish(saved[x.handler], saved);
    }
  }

  // ---------- every order of installs ----------

  /** One signal: the process's disposition, the one that we remember, and those that others remember. */
  datatype Slot = Slot(current: Disposition, previous: Disposition, saved: seq<Disposition>)

  const UNHANDLED := Slot(Default, Default, [])

  /** Who sets the disposition next: we, another crash reporter that may or may not chain to what it replaces, or
      anyone who restores the default or ignores the signal. */
  datatype Setting = InstallOurs | InstallOther(withInfo: bool, chains: bool) | SetDefault | SetIgnore

  function Set(s: Slot, e: Setting): Slot {
    match e
    case InstallOurs => s.(current := Ours, previous := s.current)
    case InstallOther(withInfo, chains) =>
      s.(current := if withInfo then WithInfo(|s.saved|) else Plain(|s.saved|),
         saved := s.saved + [if chains then s.current else Default])
    case SetDefault => s.(current := Default)
    case SetIgnore => s.(current := Ignore)
  }

  function SetAll(es: seq<Setting>): Slot
    decreases |es|
  {
    if es == [] then UNHANDLED else Set(SetAll(es[..|es| - 1]), es[|es| - 1])
  }

  predicate Chains(e: Setting) {
    e.InstallOther? && e.chains
  }

  /** Our handler was installed and everything that was installed after it, up to position n, chains. */
  ghost predicate OursBelow(es: seq<Setting>, n: nat)
    requires n <= |es|
  {
    exists i :: 0 <= i < n && es[i].InstallOurs? && forall k :: i < k < n ==> Chains(es[k])
  }

  ghost predicate LastOurs(es: seq<Setting>, j: nat) {
    j < |es| && es[j].InstallOurs? && forall k :: j < k < |es| ==> !es[k].InstallOurs?
  }

  ghost predicate WellSaved(s: Slot) {
    && Ordered(s.saved)
    && (Foreign(s.current) ==> s.current.handler < |s.saved|)
    && (Foreign(s.previous) ==> s.previous.handler < |s.saved|)
  }

  lemma {:induction false} SavedGrows(x: Disposition, saved: seq<Disposition>, y: Disposition)
    requires Ordered(saved) && Ordered(saved + [y]) && (Foreign(x) ==> x.handler < |saved|)
    ensures ReachesOurs(x, saved + [y]) == ReachesOurs(x, saved)
    decreases Rank(x)
  {
    if Foreign(x) {
      SavedGrows(saved[x.handler], saved, y);
    }
  }

  lemma {:induction false} ChainsBelow(es: seq<Setting>)
    ensures WellSaved(SetAll(es))
    ensures ReachesOurs(SetAll(es).current, SetAll(es).saved) <==> OursBelow(es, |es|)
    decreases |es|
  {
    if es != [] {
      var n := |es| - 1;
      var before, e := es[..n], es[n];
      var s := SetAll(before);
      ChainsBelow(before);
      OursBelowPrefix(es, n);
      if e.InstallOther? {
        SavedGrows(s.current, s.saved, if e.chains then s.current else Default);
      }
      if e.InstallOurs? {
        assert OursBelow(es, |es|);
      }
    }
  }

  lemma OursBelowPrefix(es: seq<Setting>, n: nat)
    requires n < |es|
    ensures OursBelow(es[..n], n) == OursBelow(es, n)
    ensures Chains(es[n]) ==> OursBelow(es, n + 1) == OursBelow(es, n)
    ensures !Chains(es[n]) ==> OursBelow(es, n + 1) == es[n].InstallOurs?
  {
    if OursBelow(es, n) {
      var i :| 0 <= i < n && es[i].InstallOurs? && forall k :: i < k < n ==> Chains(es[k]);
      assert es[..n][i].InstallOurs?;
    }
    if OursBelow(es[..n], n) {
      var i :| 0 <= i < n && es[..n][i].InstallOurs? && forall k :: i < k < n ==> Chains(es[..n][k]);
      assert es[i].InstallOurs?;
      forall k | i < k < n ensures Chains(es[k]) { assert Chains(es[..n][k]); }
    }
  }

  lemma {:induction false} PreviousAtLastOurs(es: seq<Setting>, j: nat)
    requires LastOurs(es, j)
    ensures WellSaved(SetAll(es))
    ensures ReachesOurs(SetAll(es).previous, SetAll(es).saved) <==> OursBelow(es, j)
    decreases |es|
  {
    var n := |es| - 1;
    var before, e := es[..n], es[n];
    var s := SetAll(before);
    ChainsBelow(before);
    ChainsBelow(es);
    if j == n {
      OursBelowPrefix(es, n);
    } else {
      assert LastOurs(before, j);
      PreviousAtLastOurs(before, j);
      OursBelowPrefix(es, j);
      OursBelowPrefix(before, j);
      assert before[..j] == es[..j];
      if e.InstallOther? {
        SavedGrows(s.previous, s.saved, if e.chains then s.current else Default);
      }
    }
  }

  /** After any order of installs by us and by others, with j our last one: the handler calls itself for ever if
      and only if an earlier install of ours is followed, up to j, by chaining handlers only. */
  lemma RepeatedInstallLoopsIff(es: seq<Setting>, j: nat, previous: seq<Disposition>, signal: int)
    requires LastOurs(es, j)
    requires 0 <= signal < 32 == |previous| && previous[signal] == SetAll(es).previous
    ensures (forall depth: nat :: Unfinished in Handle(previous, SetAll(es).saved, signal, depth))
            <==> OursBelow(es, j)
  {
    PreviousAtLastOurs(es, j);
    HandlerReturnsIff(previous, SetAll(es).saved, signal);
  }

  /** Installed twice in a row, or with a chaining crash reporter in between, the handler never returns. */
  lemma InstalledTwice(withInfo: bool)
    ensures OursBelow([InstallOurs, InstallOurs], 1)
    ensures OursBelow([InstallOurs, InstallOther(withInfo, true), InstallOurs], 2)
    ensures !OursBelow([InstallOurs, InstallOther(withInfo, false), InstallOurs], 2)
  {
    assert [InstallOurs, InstallOurs][0].InstallOurs?;
    assert [InstallOurs, InstallOther(withInfo, true), InstallOurs][0].InstallOurs?;
    OursBelowPrefix([InstallOurs, InstallOther(withInfo, false), InstallOurs], 1);
  }

  class SignalTable {
    const platform: Platform
    var crashMarkerPath: string
    var mountMarkerPath: string
    const previousHandlers: array<Disposition>
    const dispositions: array<Disposition>  // the process's own table

    ghost predicate Valid()
      reads this
    {
      && previousHandlers.Length == MAX_SIGNAL_NUMBER && dispositions.Length == MAX_SIGNAL_NUMBER
      && previousHandlers != dispositions
    }

    constructor (platform: Platform)
      ensures Valid() && this.platform == platform && fresh(previousHandlers) && fresh(dispositions)
      ensures forall i :: 0 <= i < MAX_SIGNAL_NUMBER ==> dispositions[i] == Default
    {
      this.platform := platform;
      crashMarkerPath, mountMarkerPath := [], [];
      previousHandlers := new Disposition[MAX_SIGNAL_NUMBER](_ => Default);
      dispositions := new Disposition[MAX_SIGNAL_NUMBER](_ => Default);
    }

    ghost function SlotOf(s: int, saved: seq<Disposition>): Slot
      requires Valid() && 0 <= s < MAX_SIGNAL_NUMBER
      reads this, previousHandlers, dispositions
    {
      Slot(dispositions[s], previousHandlers[s], saved)
    }

    /** The eight signals are ours afterwards, and their old dispositions are remembered; nothing else changes. */
    method Install(baseDirectory: string)
      requires Valid()
      modifies this, previousHandlers, dispositions
      ensures crashMarkerPath == baseDirectory + "/crash.marker" <==> |baseDirectory| <= 498
      ensures mountMarkerPath == baseDirectory + "/mount.marker" <==> |baseDirectory| <= 498
      ensures previousHandlers.Length == dispositions.Length == 32
      ensures forall n :: 0 <= n < 32 ==>
                if n in if platform.Kotlin? then {4, 5, 6, 7, 8, 11, 13, 31} else {4, 5, 6, 8, 10, 11, 12, 13}
                then dispositions[n] == Ours && previousHandlers[n] == old(dispositions[n])
                else dispositions[n] == old(dispositions[n]) && previousHandlers[n] == old(previousHandlers[n])
      ensures forall n, saved :: 0 <= n < 32 && dispositions[n] != old(dispositions[n]) ==>
                SlotOf(n, saved) == Set(old(SlotOf(n, saved)), InstallOurs)
      ensures TookOver(platform, baseDirectory, old(dispositions[..]), dispositions[..], crashMarkerPath,
                       mountMarkerPath)
    {
      crashMarkerPath := CrashMarker.Snprintf(CrashMarker.PATH_BUFFER_SIZE, baseDirectory + "/crash.marker");
      mountMarkerPath := CrashMarker.Snprintf(CrashMarker.PATH_BUFFER_SIZE, baseDirectory + "/mount.marker");
      CrashMarker.PathBuffersAgree(baseDirectory);
      var signals := Signals(platform);
      for i := 0 to |signals|
        modifies previousHandlers, dispositions
        invariant forall s :: 0 <= s < MAX_SIGNAL_NUMBER ==>
                    if s in signals[..i]
                    then dispositions[s] == Ours && previousHandlers[s] == old(dispositions[s])
                    else dispositions[s] == old(dispositions[s]) && previousHandlers[s] == old(previousHandlers[s])
      {
        var signal := signals[i];
        assert signals[..i + 1] == signals[..i] + [signal];
        assert signal !in signals[..i] by { DistinctSignals(platform); }
        previousHandlers[signal] := dispositions[signal];
        dispositions[signal] := Ours;
      }
      assert signals[..|signals|] == signals;
      forall n ensures n in signals <==> n in if platform.Kotlin? then {4, 5, 6, 7, 8, 11, 13, 31}
                                              else {4, 5, 6, 8, 10, 11, 12, 13} {
        SignalsAre(platform, n);
      }
    }

    /** The process receives a signal. A handler that is ours writes the marker at the path in its buffer; the storage
        sees it if the buffers name the storage's files. What others do does not touch the storage. */
    method Receive(n: int, baseDirectory: string, storage: Storage)
      requires Valid() && 0 <= n < 32
      modifies storage
      ensures storage.View() == Received(dispositions[..], crashMarkerPath, mountMarkerPath, baseDirectory, n,
                                         old(storage.View()), old(storage.fates))
    {
      if dispositions[n].Ours? && crashMarkerPath == baseDirectory + "/crash.marker"
         && mountMarkerPath == baseDirectory + "/mount.marker" {
        var _ := storage.WriteCrashMarker(n);
      }
    }
  }

  /** The handlers were installed for the files below `base`, on top of the dispositions `before`. */
  ghost predicate TookOver(
    p: Platform, base: string, before: seq<Disposition>, after: seq<Disposition>, crash: string, mount: string)
  {
    && |before| == |after| == 32
    && (crash == base + "/crash.marker" <==> |base| <= 498) && (mount == base + "/mount.marker" <==> |base| <= 498)
    && forall n :: 0 <= n < 32 ==> after[n] == if n in Signals(p) then Ours else before[n]
  }

  function Received(dispositions: seq<Disposition>, crash: string, mount: string, base: string, n: int, d: Disk,
                    fates: seq<Fate>): Disk
    requires 0 <= n < |dispositions|
  {
    if dispositions[n].Ours? && crash == base + "/crash.marker" && mount == base + "/mount.marker"
    then After(d, Event(Signal(n), fates)) else d
  }

  /** On an unconfirmed release with a previous one, after one install over handlers of others: a signal makes the next
      launch restore the previous release if and only if it is SIGABRT, SIGSEGV, SIGILL, SIGBUS, SIGFPE, SIGTRAP,
      SIGPIPE or SIGSYS and the base path has at most 498 bytes. Any other signal changes nothing. */
  lemma SignalRestoresPreviousIff(
    p: Platform, base: string, before: seq<Disposition>, after: seq<Disposition>, crash: string, mount: string,
    d: Disk, current: Id, previous: Id, n: int)
    requires TookOver(p, base, before, after, crash, mount) && 0 <= n < 32 && before[n] != Ours
    requires Recovery.Protected(d, current, previous) && d.crash.None?
    ensures var d1 := Received(after, crash, mount, base, n, d, []);
            var restores := |base| <= 498
              && n in if p.Kotlin? then {4, 5, 6, 7, 8, 11, 13, 31} else {4, 5, 6, 8, 10, 11, 12, 13};
            && (Recovery.Recovered(After(d1, Complete(Resolve)), previous) <==> restores)
            && (!restores ==> After(d1, Complete(Resolve)) == d)
  {
    SignalsAre(p, n);
    Recovery.CrashAndLaunch(d, n);
  }

  lemma DistinctSignals(p: Platform)
    ensures forall i, j :: 0 <= i < j < |Signals(p)| ==> Signals(p)[i] != Signals(p)[j]
    ensures forall s :: s in Signals(p) ==> 0 <= s < MAX_SIGNAL_NUMBER
  {
  }

  // ---------- the exception and log hooks of iOS ----------

  /** React Native's log levels, in order. */
  datatype LogLevel = Trace | Info | Warning | Error | Fatal

  function Severity(level: LogLevel): nat {
    match level
    case Trace => 0
    case Info => 1
    case Warning => 2
    case Error => 3
    case Fatal => 4
  }

  class CrashHandlerBridge {
    const storage: Storage
    var logLayers: nat            // each installation wraps the log function that was there
    var exceptionHandlerIsOurs: bool

    constructor (storage: Storage)
      ensures this.storage == storage && logLayers == 0 && !exceptionHandlerIsOurs
    {
      this.storage := storage;
      logLayers, exceptionHandlerIsOurs := 0, false;
    }

    /** The exception handler is replaced without chaining; the log function is wrapped. */
    method Install()
      modifies this
      ensures exceptionHandlerIsOurs && logLayers == old(logLayers) + 1
    {
      exceptionHandlerIsOurs := true;
      logLayers := logLayers + 1;
    }

    /** One same-session rollback, cut short or not. Uncut, it settles the disk. */
    method HandleUncaughtException()
      modifies storage
      ensures storage.View() ==
              if exceptionHandlerIsOurs
              then After(old(storage.View()), Event(RollbackIfUnconfirmed, old(storage.fates)))
              else old(storage.View())
      ensures exceptionHandlerIsOurs && old(storage.fates) == [] ==>
                storage.View() == Recovery.Settled(old(storage.View()))
    {
      if exceptionHandlerIsOurs {
        Recovery.SameSessionEffect(storage.View());
        var _ := storage.RollbackToPreviousIfUnconfirmed();
      }
    }

    /** However many times the bridge was installed, a fatal message runs the rollbacks of all layers until one is
        cut short, which settles the disk as one rollback does when nothing fails; no other message touches it. */
    method Log(level: LogLevel)
      modifies storage
      ensures storage.View() == if level.Fatal?
                                then AfterLayers(old(storage.View()), logLayers, old(storage.fates))
                                else old(storage.View())
      ensures level.Fatal? && logLayers > 0 && old(storage.fates) == [] ==>
                storage.View() == Recovery.Settled(old(storage.View()))
    {
      if Severity(level) >= Severity(Fatal) && storage.fates == [] {
        UncutLayers(storage.View(), logLayers);
      }
      var _ := LogThrough(logLayers, level);
    }

    /** The outermost of `layers` wrappers, which calls the one it wraps. */
    method LogThrough(layers: nat, level: LogLevel) returns (ok: bool)
      modifies storage
      ensures storage.View() == if level.Fatal?
                                then AfterLayers(old(storage.View()), layers, old(storage.fates))
                                else old(storage.View())
      ensures !level.Fatal? ==> ok
      decreases layers
    {
      ok := true;
      if layers > 0 {
        if Severity(level) >= Severity(Fatal) {
          ok := storage.RollbackToPreviousIfUnconfirmed();
        }
        if ok {
          ok := LogThrough(layers - 1, level);
        }
      }
    }
  }

  // ---------- wrapped log functions ----------

  /** The disk after the rollbacks of n layers, each with the fates that are due. */
  function AfterLayers(d: Disk, n: nat, fates: seq<Fate>): Disk
    decreases n
  {
    if n == 0 then d
    else
      var k := |Steps(RollbackIfUnconfirmed, d)|;
      var d1 := After(d, Event(RollbackIfUnconfirmed, fates));
      if Survived(fates, k) then AfterLayers(d1, n - 1, CrashSafety.Drop(fates, k)) else d1
  }

  /** None of the first n calls ended the process. */
  predicate Survived(fates: seq<Fate>, n: nat) {
    forall i :: 0 <= i < n && i < |fates| ==> !fates[i].Killed?
  }

  lemma {:induction false} UncutLayers(d: Disk, n: nat)
    ensures AfterLayers(d, n, []) == if n == 0 then d else Recovery.Settled(d)
    decreases n
  {
    if n > 0 {
      Recovery.SameSessionEffect(d);
      UncutLayers(Recovery.Settled(d), n - 1);
    }
  }

  /** What happens in each layer is something that Swift allows. */
  ghost predicate LegalLayers(d: Disk, n: nat, fates: seq<Fate>)
    decreases n
  {
    n == 0 ||
    var e := Event(RollbackIfUnconfirmed, fates);
    var k := |Steps(RollbackIfUnconfirmed, d)|;
    LegalEvent(Swift, d, e) && (Survived(fates, k) ==> LegalLayers(After(d, e), n - 1, CrashSafety.Drop(fates, k)))
  }

  /** Whatever is cut or fails unnoticed in any layer: the layers together roll back at most once, and not at all when
      the release is mounted or there is no previous one; and they touch neither crash marker nor bundles. */
  lemma {:induction false} LayersRollBackAtMostOnce(d: Disk, n: nat, fates: seq<Fate>)
    requires LegalLayers(d, n, fates)
    ensures var d1 := AfterLayers(d, n, fates);
            && d1.crash == d.crash && d1.releases == d.releases
            && (d1.state == d.state ||
                (!d.mount && ReadState(d).previous.Some? && d1.state == Some(Whole(RolledBack(ReadState(d))))))
            && (d.mount ==> d1.mount)
    decreases n
  {
    if n > 0 {
      var k := |Steps(RollbackIfUnconfirmed, d)|;
      var d1 := After(d, Event(RollbackIfUnconfirmed, fates));
      SameSessionCut(Swift, d, fates);
      if Survived(fates, k) {
        LayersRollBackAtMostOnce(d1, n - 1, CrashSafety.Drop(fates, k));
      }
    }
  }
}
