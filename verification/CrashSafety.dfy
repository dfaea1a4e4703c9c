/** Crash consistency: whenever the process ends, the releases that state.json names have their whole bundles. */
module CrashSafety {
  import opened Common
  import opened Disk

  // ---------- executions in two parts ----------

  ghost predicate Survives(fates: seq<Fate>, n: nat) {
    forall i :: 0 <= i < n && i < |fates| ==> !fates[i].Killed?
  }

  function Drop(fates: seq<Fate>, n: nat): seq<Fate> {
    if n <= |fates| then fates[n..] else []
  }

  lemma {:induction false} ExecSplit(d: Disk, a: seq<Step>, b: seq<Step>, fates: seq<Fate>)
    ensures Exec(d, a + b, fates) == if Survives(fates, |a|) then Exec(Exec(d, a, fates), b, Drop(fates, |a|))
                                     else Exec(d, a, fates)
    decreases |a|
  {
    if a == [] {
      assert a + b == b;
    } else {
      assert (a + b)[1..] == a[1..] + b;
      var rest := RestOf(fates);
      assert Drop(rest, |a| - 1) == Drop(fates, |a|);
      if FateOf(fates).Killed? {
        assert !Survives(fates, |a|);
      } else {
        var d1 := Meet(d, a[0], FateOf(fates));
        ExecSplit(d1, a[1..], b, rest);
        assert Survives(fates, |a|) <==> Survives(rest, |a| - 1) by {
          if Survives(rest, |a| - 1) {
            forall i | 0 <= i < |a| && i < |fates| ensures !fates[i].Killed? {
              if i > 0 { assert rest[i - 1] == fates[i]; }
            }
          } else {
            var i :| 0 <= i < |a| - 1 && i < |rest| && rest[i].Killed?;
            assert fates[i + 1] == rest[i];
          }
        }
      }
    }
  }

  // ---------- bundles that an execution does not touch ----------

  predicate Spares(s: Step, keep: set<Id>) {
    match s
    case DeleteBundle(id) => id !in keep
    case RenameBundle(id) => id !in keep
    case RemoveRelease(id) => id !in keep
    case _ => true
  }

  ghost predicate AllSpare(steps: seq<Step>, keep: set<Id>) {
    forall s :: s in steps ==> Spares(s, keep)
  }

  /** The bundles of `keep` in d are there, unchanged, in d1. */
  ghost predicate KeepsBundles(d: Disk, d1: Disk, keep: set<Id>) {
    forall id :: id in keep && id in d.releases ==>
      id in d1.releases && d1.releases[id].bundle == d.releases[id].bundle
  }

  lemma {:induction false} SparedBundles(d: Disk, steps: seq<Step>, fates: seq<Fate>, keep: set<Id>)
    requires AllSpare(steps, keep)
    ensures KeepsBundles(d, Exec(d, steps, fates), keep)
    decreases |steps|
  {
    if steps != [] {
      var f := FateOf(fates);
      assert Spares(steps[0], keep);
      if !f.Killed? {
        var d1 := Meet(d, steps[0], f);
        SparedBundles(d1, steps[1..], RestOf(fates), keep);
      }
    }
  }

  lemma {:induction false} PruneSpares(listing: seq<Id>, keep: seq<Id>, spared: set<Id>)
    requires forall id :: id in spared ==> id in keep
    ensures AllSpare(Prune(listing, keep), spared)
  {
    if listing != [] {
      PruneSpares(listing[1..], keep, spared);
    }
  }

  // ---------- consistency ----------

  /** The disk, with the bytes that the last install of each id was given. */
  datatype World = World(disk: Disk, given: map<Id, Bytes>)

  const START := World(EMPTY, map[])

  function Refs(s: State): set<Id> {
    (if s.current.Some? then {s.current.value} else {}) + (if s.previous.Some? then {s.previous.value} else {})
  }

  /** state.json is whole, and current and previous each have the complete bundle they were installed with. */
  ghost predicate Consistent(w: World) {
    && (w.disk.state.Some? ==> w.disk.state.value.Whole?)
    && forall id :: id in Refs(ReadState(w.disk)) ==>
         id in w.disk.releases && id in w.given && w.disk.releases[id].bundle == Some(w.given[id])
  }

  function Advance(w: World, e: Event): World {
    World(After(w.disk, e), if e.op.Install? then w.given[e.op.id := e.op.bundle] else w.given)
  }

  function PlayWorld(w: World, es: seq<Event>): World
    decreases |es|
  {
    if es == [] then w else PlayWorld(Advance(w, es[0]), es[1..])
  }

  /** Neither rename of an install failed without the caller noticing. */
  ghost predicate Durable(fates: seq<Fate>) {
    && (|fates| > 3 ==> !fates[3].Lost?)
    && (|fates| > 5 ==> !fates[5].Lost?)
  }

  lemma OnlyInstallTouchesBundles(op: Op, d: Disk, keep: set<Id>)
    requires !op.Install?
    ensures AllSpare(Steps(op, d), keep)
  {
    assert forall s :: s in RollbackSteps(ReadState(d)) ==> s.WriteStateTmp? || s.RenameState? || s.CreateMount?;
  }

  lemma RollbackKeepsConsistent(p: Platform, w: World, e: Event)
    requires Consistent(w) && LegalEvent(p, w.disk, e) && !e.op.Install?
    ensures Consistent(Advance(w, e))
  {
    var d := w.disk;
    var keep := Refs(ReadState(d));
    StateIsAtomic(p, d, e);
    OnlyInstallTouchesBundles(e.op, d, keep);
    SparedBundles(d, Steps(e.op, d), e.fates, keep);
    assert Refs(ReadState(After(d, e))) <= keep;
  }

  function Front(id: Id, bundle: Bytes, before: State): seq<Step> {
    [MakeDir(id), WriteTemp(id, bundle), DeleteBundle(id), RenameBundle(id), WriteStateTmp(Installed(id, before))]
  }

  function Tail(id: Id, before: State, listing: seq<Id>): seq<Step> {
    Then(RenameState, InstallTail(id, before, listing))
  }

  lemma InstallIsFrontAndTail(id: Id, bundle: Bytes, before: State, listing: seq<Id>)
    ensures InstallSteps(id, bundle, before, listing) == Front(id, bundle, before) + Tail(id, before, listing)
  {
  }

  /** Before state.json is replaced an install has touched only its own directory. */
  lemma FrontKeeps(d: Disk, id: Id, bundle: Bytes, fates: seq<Fate>)
    requires id !in Refs(ReadState(d))
    ensures var d1 := Exec(d, Front(id, bundle, ReadState(d)), fates);
            d1.state == d.state && KeepsBundles(d, d1, Refs(ReadState(d)))
  {
    var front := Front(id, bundle, ReadState(d));
    SparedBundles(d, front, fates, Refs(ReadState(d)));
    StateUntouched(d, front, fates);
  }

  lemma {:induction false} StateUntouched(d: Disk, steps: seq<Step>, fates: seq<Fate>)
    requires RenameState !in steps
    ensures Exec(d, steps, fates).state == d.state
    decreases |steps|
  {
    if steps != [] && !FateOf(fates).Killed? {
      var d1 := Meet(d, steps[0], FateOf(fates));
      StateUntouched(d1, steps[1..], RestOf(fates));
    }
  }

  ghost predicate FrontLegal(fates: seq<Fate>) {
    forall i :: 0 <= i < 5 && i < |fates| && fates[i].Lost? ==> i == 2
  }

  lemma ExecThen(d: Disk, s: Step, rest: seq<Step>, fates: seq<Fate>, n: nat)
    requires !FateAt(fates, n).Killed?
    ensures Exec(d, Then(s, rest), Drop(fates, n)) == Exec(Meet(d, s, FateAt(fates, n)), rest, Drop(fates, n + 1))
  {
    assert Drop(fates, n + 1) == RestOf(Drop(fates, n));
  }

  lemma FrontUnrolled(d: Disk, id: Id, bundle: Bytes, fates: seq<Fate>)
    requires Survives(fates, 5)
    ensures Exec(d, Front(id, bundle, ReadState(d)), fates) ==
            Meet(Meet(Meet(Meet(Meet(d, MakeDir(id), FateAt(fates, 0)), WriteTemp(id, bundle), FateAt(fates, 1)),
                           DeleteBundle(id), FateAt(fates, 2)), RenameBundle(id), FateAt(fates, 3)),
                 WriteStateTmp(Installed(id, ReadState(d))), FateAt(fates, 4))
  {
    var s5 := WriteStateTmp(Installed(id, ReadState(d)));
    var r4 := Then(s5, []);
    var r3 := Then(RenameBundle(id), r4);
    var r2 := Then(DeleteBundle(id), r3);
    var r1 := Then(WriteTemp(id, bundle), r2);
    assert Front(id, bundle, ReadState(d)) == Then(MakeDir(id), r1);
    var d1 := Meet(d, MakeDir(id), FateAt(fates, 0));
    var d2 := Meet(d1, WriteTemp(id, bundle), FateAt(fates, 1));
    var d3 := Meet(d2, DeleteBundle(id), FateAt(fates, 2));
    var d4 := Meet(d3, RenameBundle(id), FateAt(fates, 3));
    assert Drop(fates, 0) == fates;
    ExecThen(d, MakeDir(id), r1, fates, 0);
    ExecThen(d1, WriteTemp(id, bundle), r2, fates, 1);
    ExecThen(d2, DeleteBundle(id), r3, fates, 2);
    ExecThen(d3, RenameBundle(id), r4, fates, 3);
    ExecThen(d4, s5, [], fates, 4);
  }

  /** Once the front is through, the new bundle is whole and the next state waits to be renamed. */
  lemma FrontPrepares(d: Disk, id: Id, bundle: Bytes, fates: seq<Fate>)
    requires Survives(fates, 5) && FrontLegal(fates)
    ensures var d1 := Exec(d, Front(id, bundle, ReadState(d)), fates);
            && id in d1.releases && d1.releases[id].bundle == Some(bundle)
            && d1.stateTmp == Some(Whole(Installed(id, ReadState(d))))
  {
    FrontUnrolled(d, id, bundle, fates);
  }

  lemma TailKeepsConsistent(w: World, id: Id, bundle: Bytes, before: State, listing: seq<Id>, fates: seq<Fate>)
    requires Consistent(w) && before == ReadState(w.disk)
    requires id in w.disk.releases && w.disk.releases[id].bundle == Some(bundle)
    requires id in w.given && w.given[id] == bundle
    requires w.disk.stateTmp == Some(Whole(Installed(id, before)))
    requires !FateOf(fates).Lost?
    ensures Consistent(World(Exec(w.disk, Tail(id, before, listing), fates), w.given))
  {
    if FateOf(fates).Done? {
      var d1 := Apply(w.disk, RenameState);
      var rest := InstallTail(id, before, listing);
      var keep := Refs(Installed(id, before));
      PruneSpares(listing, Keep(id, before.current), keep);
      assert AllSpare(rest, keep);
      SparedBundles(d1, rest, RestOf(fates), keep);
      PruneOnlyRemoves(listing, Keep(id, before.current));
      StateUntouched(d1, rest, RestOf(fates));
    }
  }

  lemma {:induction false} PruneOnlyRemoves(listing: seq<Id>, keep: seq<Id>)
    ensures forall s :: s in Prune(listing, keep) ==> s.RemoveRelease?
  {
    if listing != [] {
      PruneOnlyRemoves(listing[1..], keep);
    }
  }

  lemma LegalFront(p: Platform, op: Op, d: Disk, fates: seq<Fate>)
    requires op.Install? && Legal(p, op, Steps(op, d), fates) && Durable(fates)
    ensures FrontLegal(fates)
  {
    var steps := Steps(op, d);
    InstallIsFrontAndTail(op.id, op.bundle, ReadState(d), op.listing);
    forall i | 0 <= i < 5 && i < |fates| && fates[i].Lost? ensures i == 2 {
      assert MayBeLost(p, op, steps[i]);
      assert steps[i] == Front(op.id, op.bundle, ReadState(d))[i];
    }
  }

  lemma InstallKeepsConsistent(p: Platform, w: World, e: Event)
    requires Consistent(w) && LegalEvent(p, w.disk, e) && e.op.Install? && Durable(e.fates)
    requires e.op.id !in Refs(ReadState(w.disk))
    ensures Consistent(Advance(w, e))
  {
    var Install(id, bundle, listing) := e.op;
    var d, before := w.disk, ReadState(w.disk);
    var front := Front(id, bundle, before);
    var d1 := Exec(d, front, e.fates);
    var w1 := World(d1, w.given[id := bundle]);
    InstallIsFrontAndTail(id, bundle, before, listing);
    ExecSplit(d, front, Tail(id, before, listing), e.fates);
    FrontKeeps(d, id, bundle, e.fates);
    assert Consistent(w1);
    if Survives(e.fates, 5) {
      LegalFront(p, e.op, d, e.fates);
      FrontPrepares(d, id, bundle, e.fates);
      assert FateOf(Drop(e.fates, 5)) == if |e.fates| > 5 then e.fates[5] else Done;
      TailKeepsConsistent(w1, id, bundle, before, listing, Drop(e.fates, 5));
    }
  }

  /** On Swift a lost rename ends the install, so every legal install is durable. */
  lemma SwiftInstallsAreDurable(d: Disk, e: Event)
    requires LegalEvent(Swift, d, e) && e.op.Install?
    ensures Durable(e.fates)
  {
    var steps := Steps(e.op, d);
    InstallIsFrontAndTail(e.op.id, e.op.bundle, ReadState(d), e.op.listing);
    assert steps[3] == RenameBundle(e.op.id) && steps[5] == RenameState;
  }

  // ---------- every run ----------

  /** A run of operations, each cut short or not: installs use an id that is neither current nor previous,
      and on Kotlin no rename of an install is lost silently. */
  ghost predicate Admissible(p: Platform, w: World, es: seq<Event>)
    decreases |es|
  {
    es == [] ||
    (&& LegalEvent(p, w.disk, es[0])
     && (es[0].op.Install? ==> es[0].op.id !in Refs(ReadState(w.disk)) && (p.Kotlin? ==> Durable(es[0].fates)))
     && Admissible(p, Advance(w, es[0]), es[1..]))
  }

  lemma {:induction false} RunKeepsConsistent(p: Platform, w: World, es: seq<Event>)
    requires Consistent(w) && Admissible(p, w, es)
    ensures Consistent(PlayWorld(w, es))
    decreases |es|
  {
    if es != [] {
      if es[0].op.Install? {
        if p.Swift? {
          SwiftInstallsAreDurable(w.disk, es[0]);
        }
        InstallKeepsConsistent(p, w, es[0]);
      } else {
        RollbackKeepsConsistent(p, w, es[0]);
      }
      RunKeepsConsistent(p, Advance(w, es[0]), es[1..]);
    }
  }

  /** From an empty device, after any run with kills and torn writes at any step, current and previous have
      their complete bundles, so a launch loads whole bytes that some install was given. */
  lemma EveryRunIsConsistent(p: Platform, es: seq<Event>)
    requires Admissible(p, START, es)
    ensures Consistent(PlayWorld(START, es))
    ensures var w := PlayWorld(START, es);
            ReadState(w.disk).current.Some? ==>
              ReadState(w.disk).current.value in w.given &&
              Booted(w.disk) == Some(w.given[ReadState(w.disk).current.value])
  {
    RunKeepsConsistent(p, START, es);
  }

  // ---------- one torn install ----------

  ghost predicate NoLoss(fates: seq<Fate>) {
    forall f :: f in fates ==> !f.Lost?
  }

  /** Killing an install anywhere is harmless exactly when its id is neither current nor previous. */
  lemma TornInstallIsSafeIff(w: World, id: Id, bundle: Bytes, listing: seq<Id>)
    requires Consistent(w)
    ensures (forall fates :: NoLoss(fates) ==> Consistent(Advance(w, Event(Install(id, bundle, listing), fates))))
            <==> id !in Refs(ReadState(w.disk))
  {
    var op := Install(id, bundle, listing);
    if id !in Refs(ReadState(w.disk)) {
      forall fates | NoLoss(fates) ensures Consistent(Advance(w, Event(op, fates))) {
        InstallKeepsConsistent(Swift, w, Event(op, fates));
      }
    } else {
      var fates := [Done, Done, Done, Killed(Nothing)];
      DeletedBundle(w.disk, id, bundle, listing);
      assert NoLoss(fates) && !Consistent(Advance(w, Event(op, fates)));
    }
  }

  lemma DeletedBundle(d: Disk, id: Id, bundle: Bytes, listing: seq<Id>)
    ensures var d1 := After(d, Event(Install(id, bundle, listing), [Done, Done, Done, Killed(Nothing)]));
            d1.state == d.state && id in d1.releases && d1.releases[id].bundle.None?
  {
    var before := ReadState(d);
    var fates := [Done, Done, Done, Killed(Nothing)];
    InstallIsFrontAndTail(id, bundle, before, listing);
    var front := Front(id, bundle, before);
    ExecSplit(d, front, Tail(id, before, listing), fates);
    assert fates[3].Killed? && !Survives(fates, 5);
    var r3 := Then(RenameBundle(id), Then(WriteStateTmp(Installed(id, before)), []));
    var r2 := Then(DeleteBundle(id), r3);
    var r1 := Then(WriteTemp(id, bundle), r2);
    assert front == Then(MakeDir(id), r1) && Drop(fates, 0) == fates;
    ExecThen(d, MakeDir(id), r1, fates, 0);
    ExecThen(Apply(d, MakeDir(id)), WriteTemp(id, bundle), r2, fates, 1);
    ExecThen(Apply(Apply(d, MakeDir(id)), WriteTemp(id, bundle)), DeleteBundle(id), r3, fates, 2);
    assert Drop(fates, 3) == [Killed(Nothing)];
  }

  lemma {:induction false} CrashUntouched(d: Disk, steps: seq<Step>, fates: seq<Fate>)
    requires forall s :: s in steps ==> !s.TruncateCrash? && !s.WriteCrash? && !s.DeleteCrash?
    ensures Exec(d, steps, fates).crash == d.crash
    decreases |steps|
  {
    if steps != [] && !FateOf(fates).Killed? {
      assert steps[0] in steps;
      var d1 := Meet(d, steps[0], FateOf(fates));
      CrashUntouched(d1, steps[1..], RestOf(fates));
    }
  }

  lemma InstallHasNoCrashSteps(id: Id, bundle: Bytes, before: State, listing: seq<Id>)
    ensures forall s :: s in InstallSteps(id, bundle, before, listing) ==>
              !s.TruncateCrash? && !s.WriteCrash? && !s.DeleteCrash?
  {
    PruneOnlyRemoves(listing, Keep(id, before.current));
    InstallIsFrontAndTail(id, bundle, before, listing);
    var tail := Tail(id, before, listing);
    forall s | s in tail ensures !s.TruncateCrash? && !s.WriteCrash? && !s.DeleteCrash? {
      assert s == RenameState || s == DeleteMount || s in Prune(listing, Keep(id, before.current));
    }
  }

  // ---------- Kotlin: renames whose failure is ignored ----------

  /** A directory listing: every entry once, in whatever order the filesystem returns. */
  ghost predicate Enumerates(listing: seq<Id>, entries: set<Id>) {
    && (forall id :: id in listing <==> id in entries)
    && (forall i, j :: 0 <= i < j < |listing| ==> listing[i] != listing[j])
  }

  ghost predicate SafeFromEveryWorld(fates: seq<Fate>) {
    forall w: World, id: Id, bundle: Bytes, listing: seq<Id> ::
      Consistent(w) && id !in Refs(ReadState(w.disk)) && Enumerates(listing, w.disk.releases.Keys + {id}) ==>
        Consistent(Advance(w, Event(Install(id, bundle, listing), fates)))
  }

  /** The failures that Kotlin's installUpdate does not notice: of every call but the two writes and the creation
      of the directory, after whose failure the first write throws. */
  ghost predicate KotlinFates(fates: seq<Fate>) {
    forall i :: 0 <= i < |fates| && fates[i].Lost? ==> i !in {0, 1, 4}
  }

  /** A recursive deletion that met this fate has taken the bundle away. */
  predicate Destroys(f: Fate) {
    f.Done? || (f.t.Part? && !f.t.keepBundle)
  }

  /** Step 7 is the first removal of pruning. */
  ghost predicate RemovesSomething(fates: seq<Fate>) {
    exists j :: j >= 7 && Survives(fates, j) && Destroys(FateAt(fates, j))
  }

  lemma KotlinFatesAreLegal(op: Op, d: Disk, fates: seq<Fate>)
    requires op.Install? && KotlinFates(fates)
    ensures Legal(Kotlin, op, Steps(op, d), fates)
  {
    var before := ReadState(d);
    var steps := Steps(op, d);
    InstallIsFrontAndTail(op.id, op.bundle, before, op.listing);
    PruneOnlyRemoves(op.listing, Keep(op.id, before.current));
    forall i | 0 <= i < |fates| && i < |steps| && fates[i].Lost? ensures MayBeLost(Kotlin, op, steps[i]) {
      if i < 7 {
        assert steps[2] == DeleteBundle(op.id) && steps[3] == RenameBundle(op.id);
        assert steps[5] == RenameState && steps[6] == DeleteMount;
        assert i in {2, 3, 5, 6};
      } else {
        assert steps[i] == Prune(op.listing, Keep(op.id, before.current))[i - 7];
        assert steps[i] in Prune(op.listing, Keep(op.id, before.current));
      }
    }
  }

  /** Kotlin ignores the results of both renames of installUpdate. Over every way in which the calls of an install
      can be cut or fail unnoticed, every device stays consistent if and only if the install ended before its
      rename of state.json, or that rename and the bundle's happened, or it was lost and nothing was pruned. */
  lemma KotlinInstallIsSafeIff(fates: seq<Fate>)
    requires KotlinFates(fates)
    ensures SafeFromEveryWorld(fates) <==>
              || !Survives(fates, 6)
              || (if FateAt(fates, 5).Lost? then !RemovesSomething(fates) else !FateAt(fates, 3).Lost?)
  {
    if !Survives(fates, 6) {
      forall w: World, id: Id, bundle: Bytes, listing: seq<Id> | Consistent(w) && id !in Refs(ReadState(w.disk))
        ensures Consistent(Advance(w, Event(Install(id, bundle, listing), fates)))
      {
        EarlyEndIsSafe(w, id, bundle, listing, fates);
      }
    } else if FateAt(fates, 5).Lost? {
      if RemovesSomething(fates) {
        LostStateBreaks(fates);
      } else {
        forall w: World, id: Id, bundle: Bytes, listing: seq<Id> | Consistent(w) && id !in Refs(ReadState(w.disk))
          ensures Consistent(Advance(w, Event(Install(id, bundle, listing), fates)))
        {
          LostStateIsSafe(w, id, bundle, listing, fates);
        }
      }
    } else if FateAt(fates, 3).Lost? {
      LostBundleBreaks(fates);
    } else {
      forall w: World, id: Id, bundle: Bytes, listing: seq<Id> | Consistent(w) && id !in Refs(ReadState(w.disk))
        ensures Consistent(Advance(w, Event(Install(id, bundle, listing), fates)))
      {
        var e := Event(Install(id, bundle, listing), fates);
        KotlinFatesAreLegal(e.op, w.disk, fates);
        InstallKeepsConsistent(Kotlin, w, e);
      }
    }
  }

  /** The disk before the rename of state.json, and what the rest of the install makes of it. */
  lemma InstallInTwo(d: Disk, id: Id, bundle: Bytes, listing: seq<Id>, fates: seq<Fate>)
    ensures var d1 := Exec(d, Front(id, bundle, ReadState(d)), fates);
            var d2 := After(d, Event(Install(id, bundle, listing), fates));
            && (Survives(fates, 5) ==> d2 == Exec(d1, Tail(id, ReadState(d), listing), Drop(fates, 5)))
            && (!Survives(fates, 5) ==> d2 == d1)
            && (Survives(fates, 5) && !Survives(fates, 6) ==> d2 == d1)
            && (Survives(fates, 6) ==>
                  d2 == Exec(Meet(d1, RenameState, FateAt(fates, 5)),
                             InstallTail(id, ReadState(d), listing), Drop(fates, 6)))
  {
    var before := ReadState(d);
    var d1 := Exec(d, Front(id, bundle, before), fates);
    InstallIsFrontAndTail(id, bundle, before, listing);
    ExecSplit(d, Front(id, bundle, before), Tail(id, before, listing), fates);
    if Survives(fates, 5) {
      assert FateOf(Drop(fates, 5)) == FateAt(fates, 5);
      if !FateAt(fates, 5).Killed? {
        ExecThen(d1, RenameState, InstallTail(id, before, listing), fates, 5);
      }
    }
  }

  lemma EarlyEndIsSafe(w: World, id: Id, bundle: Bytes, listing: seq<Id>, fates: seq<Fate>)
    requires Consistent(w) && id !in Refs(ReadState(w.disk)) && !Survives(fates, 6)
    ensures Consistent(Advance(w, Event(Install(id, bundle, listing), fates)))
  {
    InstallInTwo(w.disk, id, bundle, listing, fates);
    FrontKeeps(w.disk, id, bundle, fates);
  }

  lemma {:induction false} HarmlessRemovals(d: Disk, steps: seq<Step>, fates: seq<Fate>, keep: set<Id>)
    requires forall s :: s in steps ==> s.RemoveRelease?
    requires forall j :: j >= 0 && Survives(fates, j) ==> !Destroys(FateAt(fates, j))
    ensures KeepsBundles(d, Exec(d, steps, fates), keep)
    decreases |steps|
  {
    if steps != [] {
      assert Survives(fates, 0) && FateAt(fates, 0) == FateOf(fates);
      var f, rest := FateOf(fates), RestOf(fates);
      assert steps[0].RemoveRelease?;
      if !f.Killed? {
        forall j | j >= 0 && Survives(rest, j) ensures !Destroys(FateAt(rest, j)) {
          SurvivesShift(fates, 1, j);
        }
        HarmlessRemovals(Meet(d, steps[0], f), steps[1..], rest, keep);
      }
    }
  }

  lemma SurvivesShift(fates: seq<Fate>, n: nat, j: nat)
    requires Survives(fates, n)
    ensures Survives(fates, n + j) == Survives(Drop(fates, n), j)
    ensures FateAt(fates, n + j) == FateAt(Drop(fates, n), j)
    ensures n == 1 ==> Drop(fates, n) == RestOf(fates)
  {
    if Survives(Drop(fates, n), j) {
      forall i | 0 <= i < n + j && i < |fates| ensures !fates[i].Killed? {
        if i >= n { assert Drop(fates, n)[i - n] == fates[i]; }
      }
    }
    if Survives(fates, n + j) {
      forall i | 0 <= i < j && i < |Drop(fates, n)| ensures !Drop(fates, n)[i].Killed? {
        assert Drop(fates, n)[i] == fates[i + n];
      }
    }
  }

  /** The end of an install in which no removal takes a bundle away. */
  lemma HarmlessTail(d: Disk, id: Id, before: State, listing: seq<Id>, fates: seq<Fate>)
    requires forall j :: j >= 1 && Survives(fates, j) ==> !Destroys(FateAt(fates, j))
    ensures var d1 := Exec(d, InstallTail(id, before, listing), fates);
            d1.state == d.state && KeepsBundles(d, d1, Refs(before))
  {
    var prune := Prune(listing, Keep(id, before.current));
    PruneOnlyRemoves(listing, Keep(id, before.current));
    assert Drop(fates, 0) == fates;
    if !FateAt(fates, 0).Killed? {
      ExecThen(d, DeleteMount, prune, fates, 0);
      var d1 := Meet(d, DeleteMount, FateAt(fates, 0));
      forall j | j >= 0 && Survives(Drop(fates, 1), j) ensures !Destroys(FateAt(Drop(fates, 1), j)) {
        SurvivesShift(fates, 1, j);
      }
      HarmlessRemovals(d1, prune, Drop(fates, 1), Refs(before));
      StateUntouched(d1, prune, Drop(fates, 1));
    }
  }

  lemma LostStateIsSafe(w: World, id: Id, bundle: Bytes, listing: seq<Id>, fates: seq<Fate>)
    requires Consistent(w) && id !in Refs(ReadState(w.disk))
    requires Survives(fates, 6) && FateAt(fates, 5).Lost? && !RemovesSomething(fates)
    ensures Consistent(Advance(w, Event(Install(id, bundle, listing), fates)))
  {
    var d, before := w.disk, ReadState(w.disk);
    InstallInTwo(d, id, bundle, listing, fates);
    FrontKeeps(d, id, bundle, fates);
    var d1 := Exec(d, Front(id, bundle, before), fates);
    assert Meet(d1, RenameState, FateAt(fates, 5)) == d1;
    forall j | j >= 1 && Survives(Drop(fates, 6), j) ensures !Destroys(FateAt(Drop(fates, 6), j)) {
      SurvivesShift(fates, 6, j);
    }
    HarmlessTail(d1, id, before, listing, Drop(fates, 6));
  }

  // ---------- devices that a lost rename breaks ----------

  const A: Id := "a"
  const B: Id := "b"
  const C: Id := "c"

  /** A device that runs B and can fall back to A, with n directories that earlier prunings have left behind. */
  function TwoReleases(n: nat): World {
    var dir := Dir(None, Some([1]));
    World(Disk((map id | id in JunkIds(n) :: Dir(None, None)) + map[A := dir, B := dir],
               None, Some(Whole(State(Some(B), Some(A), Confirmed))), true, None),
          map[A := [1], B := [1]])
  }

  function JunkId(k: nat): Id {
    seq(k + 2, _ => 'x')
  }

  function Junk(n: nat): seq<Id> {
    if n == 0 then [] else Junk(n - 1) + [JunkId(n - 1)]
  }

  function JunkIds(n: nat): set<Id> {
    set id | id in Junk(n)
  }

  lemma {:induction false} JunkIsDistinct(n: nat)
    ensures |Junk(n)| == n && forall i :: 0 <= i < n ==> Junk(n)[i] == JunkId(i) && |Junk(n)[i]| == i + 2
  {
    if n > 0 {
      JunkIsDistinct(n - 1);
    }
  }

  /** The listing that meets A at position n. */
  function Listing(n: nat): seq<Id> {
    Junk(n) + [A, B, C]
  }

  lemma ThreeIds()
    ensures |A| == |B| == |C| == 1 && A != B && A != C && B != C
  {
    assert A[0] != B[0] && B[0] != C[0] && A[0] != C[0];
  }

  lemma ListingOrder(n: nat)
    ensures |Listing(n)| == n + 3 && Listing(n)[n] == A && A !in Keep(C, Some(B))
    ensures forall i :: 0 <= i < n ==> Listing(n)[i] !in Keep(C, Some(B))
  {
    JunkIsDistinct(n);
    ThreeIds();
  }

  lemma ListingEntries(n: nat)
    ensures forall id :: id in Listing(n) <==> id in JunkIds(n) + {A, B, C}
    ensures forall i, j :: 0 <= i < j < |Listing(n)| ==> Listing(n)[i] != Listing(n)[j]
  {
    JunkIsDistinct(n);
    ThreeIds();
    forall id ensures id in Listing(n) <==> id in JunkIds(n) + {A, B, C} {
      assert id in [A, B, C] <==> id in {A, B, C};
    }
  }

  lemma TwoReleasesAreConsistent(n: nat)
    ensures Consistent(TwoReleases(n)) && C !in Refs(ReadState(TwoReleases(n).disk))
    ensures TwoReleases(n).disk.releases.Keys == JunkIds(n) + {A, B} && C !in TwoReleases(n).disk.releases
  {
    JunkIsDistinct(n);
    ThreeIds();
  }

  lemma ListingEnumerates(n: nat)
    ensures Consistent(TwoReleases(n)) && C !in Refs(ReadState(TwoReleases(n).disk))
    ensures Enumerates(Listing(n), TwoReleases(n).disk.releases.Keys + {C}) && C !in TwoReleases(n).disk.releases
    ensures |Listing(n)| == n + 3 && Listing(n)[n] == A && A !in Keep(C, Some(B))
    ensures forall i :: 0 <= i < n ==> Listing(n)[i] !in Keep(C, Some(B))
  {
    ListingOrder(n);
    ListingEntries(n);
    TwoReleasesAreConsistent(n);
  }

  /** The bundle of id is gone for good. */
  ghost predicate Gone(d: Disk, id: Id) {
    id !in d.releases || d.releases[id].bundle.None?
  }

  lemma {:induction false} StaysGone(d: Disk, steps: seq<Step>, fates: seq<Fate>, id: Id)
    requires Gone(d, id) && forall s :: s in steps ==> s.RemoveRelease? || s.DeleteMount? || s.RenameState?
    ensures Gone(Exec(d, steps, fates), id)
    decreases |steps|
  {
    if steps != [] && !FateOf(fates).Killed? {
      assert steps[0].RemoveRelease? || steps[0].DeleteMount? || steps[0].RenameState?;
      StaysGone(Meet(d, steps[0], FateOf(fates)), steps[1..], RestOf(fates), id);
    }
  }

  /** Pruning removes the entry at position j if its deletion is reached. */
  lemma {:induction false} PruneDestroys(d: Disk, listing: seq<Id>, keep: seq<Id>, fates: seq<Fate>, j: nat)
    requires j < |listing| && forall i :: 0 <= i <= j ==> listing[i] !in keep
    requires Survives(fates, j) && Destroys(FateAt(fates, j))
    ensures Gone(Exec(d, Prune(listing, keep), fates), listing[j])
    decreases |listing|
  {
    var rest := Prune(listing[1..], keep);
    var s := RemoveRelease(listing[0]);
    assert Prune(listing, keep) == Then(s, rest) && Drop(fates, 0) == fates && listing[0] !in keep;
    PruneOnlyRemoves(listing[1..], keep);
    if j == 0 {
      if !FateAt(fates, 0).Killed? {
        ExecThen(d, s, rest, fates, 0);
        StaysGone(Meet(d, s, FateAt(fates, 0)), rest, Drop(fates, 1), listing[0]);
      }
    } else {
      assert !FateAt(fates, 0).Killed?;
      ExecThen(d, s, rest, fates, 0);
      SurvivesShift(fates, 1, j - 1);
      PruneDestroys(Meet(d, s, FateAt(fates, 0)), listing[1..], keep, Drop(fates, 1), j - 1);
    }
  }

  lemma TailPrunes(d: Disk, id: Id, before: State, listing: seq<Id>, fates: seq<Fate>, n: nat)
    requires Survives(fates, n + 1) && Destroys(FateAt(fates, n + 1))
    requires n < |listing| && forall i :: 0 <= i <= n ==> listing[i] !in Keep(id, before.current)
    ensures var d1 := Exec(d, InstallTail(id, before, listing), fates); d1.state == d.state && Gone(d1, listing[n])
  {
    var prune := Prune(listing, Keep(id, before.current));
    assert Drop(fates, 0) == fates && !FateAt(fates, 0).Killed?;
    ExecThen(d, DeleteMount, prune, fates, 0);
    var d1 := Meet(d, DeleteMount, FateAt(fates, 0));
    SurvivesShift(fates, 1, n);
    PruneDestroys(d1, listing, Keep(id, before.current), Drop(fates, 1), n);
    PruneOnlyRemoves(listing, Keep(id, before.current));
    StateUntouched(d1, prune, Drop(fates, 1));
  }

  /** A lost rename of state.json does not keep the pruning from removing the entry at position n. */
  lemma LostStatePrunes(d: Disk, id: Id, bundle: Bytes, listing: seq<Id>, fates: seq<Fate>, n: nat)
    requires Survives(fates, n + 7) && FateAt(fates, 5).Lost? && Destroys(FateAt(fates, n + 7))
    requires n < |listing| && forall i :: 0 <= i <= n ==> listing[i] !in Keep(id, ReadState(d).current)
    ensures var d1 := After(d, Event(Install(id, bundle, listing), fates)); d1.state == d.state && Gone(d1, listing[n])
  {
    var before := ReadState(d);
    InstallInTwo(d, id, bundle, listing, fates);
    StateUntouched(d, Front(id, bundle, before), fates);
    var d1 := Exec(d, Front(id, bundle, before), fates);
    assert Meet(d1, RenameState, FateAt(fates, 5)) == d1;
    SurvivesShift(fates, 6, n + 1);
    TailPrunes(d1, id, before, listing, Drop(fates, 6), n);
  }

  lemma NotSafe(n: nat, fates: seq<Fate>)
    requires !Consistent(Advance(TwoReleases(n), Event(Install(C, [3], Listing(n)), fates)))
    ensures !SafeFromEveryWorld(fates)
  {
    ListingEnumerates(n);
  }

  lemma GoneIsInconsistent(w: World, id: Id)
    requires id in Refs(ReadState(w.disk)) && Gone(w.disk, id)
    ensures !Consistent(w)
  {
  }

  lemma LostStateBreaks(fates: seq<Fate>)
    requires Survives(fates, 6) && FateAt(fates, 5).Lost? && RemovesSomething(fates)
    ensures !SafeFromEveryWorld(fates)
  {
    var j :| j >= 7 && Survives(fates, j) && Destroys(FateAt(fates, j));
    var n := j - 7;
    var w, e := TwoReleases(n), Event(Install(C, [3], Listing(n)), fates);
    ListingEnumerates(n);
    LostStatePrunes(w.disk, C, [3], Listing(n), fates, n);
    GoneIsInconsistent(Advance(w, e), A);
    NotSafe(n, fates);
  }

  /** After a lost rename of the bundle the new release has none. */
  lemma LostBundleStays(d: Disk, listing: seq<Id>, fates: seq<Fate>)
    requires KotlinFates(fates) && Survives(fates, 6) && FateAt(fates, 3).Lost? && !FateAt(fates, 5).Lost?
    requires C !in d.releases
    ensures var d1 := After(d, Event(Install(C, [3], listing), fates));
            d1.state == Some(Whole(Installed(C, ReadState(d)))) && Gone(d1, C)
  {
    var before := ReadState(d);
    InstallInTwo(d, C, [3], listing, fates);
    LostBundle(d, fates);
    var d1 := Exec(d, Front(C, [3], before), fates);
    assert FateAt(fates, 5).Done?;
    var d2 := Apply(d1, RenameState);
    var rest := InstallTail(C, before, listing);
    PruneOnlyRemoves(listing, Keep(C, before.current));
    StaysGone(d2, rest, Drop(fates, 6), C);
    StateUntouched(d2, rest, Drop(fates, 6));
  }

  lemma LostBundleBreaks(fates: seq<Fate>)
    requires KotlinFates(fates) && Survives(fates, 6) && FateAt(fates, 3).Lost? && !FateAt(fates, 5).Lost?
    ensures !SafeFromEveryWorld(fates)
  {
    var w := TwoReleases(0);
    ListingEnumerates(0);
    LostBundleStays(w.disk, Listing(0), fates);
    GoneIsInconsistent(Advance(w, Event(Install(C, [3], Listing(0)), fates)), C);
    NotSafe(0, fates);
  }

  lemma LostBundle(d: Disk, fates: seq<Fate>)
    requires C !in d.releases && KotlinFates(fates) && Survives(fates, 5) && FateAt(fates, 3).Lost?
    ensures var d1 := Exec(d, Front(C, [3], ReadState(d)), fates);
            && C in d1.releases && d1.releases[C].bundle.None?
            && d1.stateTmp == Some(Whole(Installed(C, ReadState(d))))
  {
    FrontUnrolled(d, C, [3], fates);
  }
}
