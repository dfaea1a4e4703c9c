/** iOS runs installs and confirmations on one serial queue while getCurrentReleaseId reads beside it. */
module SerialQueue {
  import opened Common
  import opened Disk
  import opened CrashSafety
  import opened CutOperations
  import opened History
  import opened SalvePushStorage
  import Recovery

  datatype Job = InstallJob(id: Id, bundle: Bytes) | ReadyJob

  function JobOf(op: Op): Job {
    if op.Install? then InstallJob(op.id, op.bundle) else ReadyJob
  }

  function KindOfJob(job: Job): Kind {
    if job.InstallJob? then Installing else Confirming
  }

  predicate Queued(op: Op) {
    op.Install? || op.Confirm?
  }

  /** Jobs that ran one after the other; a job that threw ended early, and the queue went on with the next. */
  ghost predicate QueueRun(d: Disk, es: seq<Event>) {
    Recovery.LegalRun(Swift, d, es) && forall e :: e in es ==> Queued(e.op)
  }

  lemma {:induction false} LegalAppend(d: Disk, es: seq<Event>, e: Event)
    requires Recovery.LegalRun(Swift, d, es) && LegalEvent(Swift, Play(d, es), e)
    ensures Recovery.LegalRun(Swift, d, es + [e]) && Play(d, es + [e]) == After(Play(d, es), e)
    decreases |es|
  {
    if es == [] {
      assert es + [e] == [e] && [e][1..] == [];
    } else {
      assert (es + [e])[1..] == es[1..] + [e];
      LegalAppend(After(d, es[0]), es[1..], e);
    }
  }

  // ---------- the directories of current and previous ----------

  ghost predicate HasDirs(d: Disk) {
    Refs(ReadState(d)) <= d.releases.Keys
  }

  lemma {:induction false} KeysStay(d: Disk, steps: seq<Step>, fates: seq<Fate>, keep: set<Id>)
    requires keep <= d.releases.Keys && forall s :: s in steps && s.RemoveRelease? ==> s.id !in keep
    ensures keep <= Exec(d, steps, fates).releases.Keys
    decreases |steps|
  {
    if steps != [] && !FateOf(fates).Killed? {
      var d1 := Meet(d, steps[0], FateOf(fates));
      assert steps[0] in steps;
      assert keep <= d1.releases.Keys;
      KeysStay(d1, steps[1..], RestOf(fates), keep);
    }
  }

  lemma InstallKeepsDirs(d: Disk, op: Op, fates: seq<Fate>)
    requires HasDirs(d) && op.Install? && LegalEvent(Swift, d, Event(op, fates))
    ensures HasDirs(After(d, Event(op, fates)))
  {
    var Install(id, bundle, listing) := op;
    var before := ReadState(d);
    var front := Front(id, bundle, before);
    InstallEventHasPattern(Swift, d, Event(op, fates));
    InstallInTwo(d, id, bundle, listing, fates);
    StateUntouched(d, front, fates);
    KeysStay(d, front, fates, Refs(before));
    if Survives(fates, 6) {
      assert FateAt(fates, 5).Done?;
      FrontPrepares(d, id, bundle, fates);
      var d1 := Exec(d, front, fates);
      TailKeepsDirs(Apply(d1, RenameState), id, before, listing, Drop(fates, 6));
    }
  }

  lemma TailKeepsDirs(d: Disk, id: Id, before: State, listing: seq<Id>, fates: seq<Fate>)
    requires ReadState(d) == Installed(id, before) && HasDirs(d)
    ensures HasDirs(Exec(d, InstallTail(id, before, listing), fates))
  {
    var keep := Refs(Installed(id, before));
    var rest := InstallTail(id, before, listing);
    PruneSpares(listing, Keep(id, before.current), keep);
    PruneOnlyRemoves(listing, Keep(id, before.current));
    forall s | s in rest && s.RemoveRelease? ensures s.id !in keep {
      assert s in Prune(listing, Keep(id, before.current)) && Spares(s, keep);
    }
    KeysStay(d, rest, fates, keep);
    StateUntouched(d, rest, fates);
  }

  lemma EventKeepsDirs(d: Disk, e: Event)
    requires HasDirs(d) && LegalEvent(Swift, d, e)
    ensures HasDirs(After(d, e))
  {
    match e.op
    case Install(_, _, _) => InstallKeepsDirs(d, e.op, e.fates);
    case Confirm => ConfirmCut(Swift, d, e.fates);
    case Resolve => ResolveCut(Swift, d, e.fates);
    case RollbackIfUnconfirmed => SameSessionCut(Swift, d, e.fates);
    case Signal(n) => SignalCut(d, n, e.fates);
  }

  lemma {:induction false} RunKeepsDirs(d: Disk, es: seq<Event>)
    requires HasDirs(d) && Recovery.LegalRun(Swift, d, es)
    ensures HasDirs(Play(d, es))
    decreases |es|
  {
    if es != [] {
      EventKeepsDirs(d, es[0]);
      RunKeepsDirs(After(d, es[0]), es[1..]);
    }
  }

  ghost predicate Uncut(fates: seq<Fate>) {
    forall i :: 0 <= i < |fates| ==> fates[i].Done?
  }

  lemma {:induction false} UncutIsComplete(d: Disk, steps: seq<Step>, fates: seq<Fate>)
    requires Uncut(fates)
    ensures Exec(d, steps, fates) == Exec(d, steps, [])
    decreases |steps|
  {
    if steps != [] {
      UncutIsComplete(Apply(d, steps[0]), steps[1..], RestOf(fates));
    }
  }

  /** An install that was not cut leaves exactly the directories of current and previous. */
  lemma InstallHoldsBoth(d: Disk, id: Id, bundle: Bytes, listing: seq<Id>, fates: seq<Fate>)
    requires HasDirs(d) && Uncut(fates) && Enumerates(listing, d.releases.Keys + {id})
    ensures var d1 := After(d, Event(Install(id, bundle, listing), fates)); d1.releases.Keys == Refs(ReadState(d1))
  {
    var before := ReadState(d);
    var d1 := InstalledDisk(d, id, bundle, listing);
    UncutIsComplete(d, InstallSteps(id, bundle, before, listing), fates);
    InstallEffect(d, id, bundle, listing);
    assert before.current.Some? ==> before.current.value in Refs(before);
    assert forall x :: x in Refs(Installed(id, before)) <==> x in Keep(id, before.current);
    assert d1.releases.Keys == Refs(Installed(id, before));
  }

  // ---------- the queue ----------

  class HybridSalvePushNative {
    const storage: Storage
    var queue: seq<Job>
    ghost var past: seq<Event>  // everything that happened to the device since it was new

    ghost predicate Valid()
      reads this, storage
    {
      storage.View() == Play(EMPTY, past) && Recovery.LegalRun(Swift, EMPTY, past)
    }

    /** A process starts on a disk that any installs, confirmations, crashes, launches and rollbacks have left. */
    constructor (storage: Storage, ghost past: seq<Event>)
      requires storage.View() == Play(EMPTY, past) && Recovery.LegalRun(Swift, EMPTY, past)
      ensures Valid() && queue == [] && this.past == past && this.storage == storage
    {
      this.storage := storage;
      queue := [];
      this.past := past;
    }

    method InstallUpdate(releaseId: Id, bundle: Bytes)
      modifies `queue
      ensures queue == old(queue) + [InstallJob(releaseId, bundle)]
    {
      queue := queue + [InstallJob(releaseId, bundle)];
    }

    method NotifyAppReady()
      modifies `queue
      ensures queue == old(queue) + [ReadyJob]
    {
      queue := queue + [ReadyJob];
    }

    /** The queue's worker takes the jobs in the order in which they were enqueued. A job ends early when one of its
        calls throws, and then its promise is rejected; the worker goes on with the next one. `fates` says what
        happens to the job's calls. An install that was not cut leaves the directories of the current and the
        previous release and no other. */
    method RunNext(fates: seq<Fate>) returns (ok: bool, ghost e: Event)
      requires Valid() && queue != [] && LegalPattern(Swift, KindOfJob(queue[0]), fates)
      modifies this, storage
      ensures Valid() && queue == old(queue)[1..]
      ensures past == old(past) + [e] && Queued(e.op) && JobOf(e.op) == old(queue)[0] && e.fates == fates
      ensures storage.View() == After(old(storage.View()), e)
      ensures ok == Survives(fates, |Steps(e.op, old(storage.View()))|)
      ensures e.op.Install? && Uncut(fates) ==> storage.releases.Keys == Refs(ReadState(storage.View()))
    {
      ghost var before := storage.View();
      var job := queue[0];
      queue := queue[1..];
      storage.fates := fates;
      match job {
        case InstallJob(id, bundle) =>
          RunKeepsDirs(EMPTY, past);
          ok, e := RunInstall(id, bundle);
        case ReadyJob =>
          ok := storage.ConfirmBoot();
          e := Event(Confirm, fates);
      }
      PatternIsLegal(Swift, before, e.op, fates);
      LegalAppend(EMPTY, past, e);
      past := past + [e];
    }

    method RunInstall(id: Id, bundle: Bytes) returns (ok: bool, ghost e: Event)
      requires HasDirs(storage.View())
      modifies storage
      ensures JobOf(e.op) == InstallJob(id, bundle) && e.op.Install? && e.fates == old(storage.fates)
      ensures storage.View() == After(old(storage.View()), e)
      ensures ok == Survives(e.fates, |Steps(e.op, old(storage.View()))|)
      ensures Uncut(e.fates) ==> storage.releases.Keys == Refs(ReadState(storage.View()))
    {
      ghost var before, fates := storage.View(), storage.fates;
      ghost var listing;
      ok, listing := storage.InstallUpdate(id, bundle);
      e := Event(Install(id, bundle, listing), fates);
      if Uncut(fates) {
        InstallHoldsBoth(before, id, bundle, listing, fates);
      }
    }

    /** An exception or fatal-log hook that fires while no job is under way rolls back beside the queue. */
    method HookFires(fates: seq<Fate>)
      requires Valid() && LegalPattern(Swift, RollingBack, fates)
      modifies this, storage
      ensures Valid() && queue == old(queue) && past == old(past) + [Event(RollbackIfUnconfirmed, fates)]
      ensures storage.View() == After(old(storage.View()), Event(RollbackIfUnconfirmed, fates))
    {
      ghost var before := storage.View();
      storage.fates := fates;
      var _ := storage.RollbackToPreviousIfUnconfirmed();
      PatternIsLegal(Swift, before, RollbackIfUnconfirmed, fates);
      LegalAppend(EMPTY, past, Event(RollbackIfUnconfirmed, fates));
      past := past + [Event(RollbackIfUnconfirmed, fates)];
    }

    /** Reads state.json as it is, whether or not a job is under way. */
    method GetCurrentReleaseId() returns (id: string)
      ensures id == match ReadState(storage.View()).current case Some(current) => current case None => ""
    {
      id := storage.GetCurrentReleaseId();
    }
  }

  // ---------- reads between the steps ----------

  /** How many calls a job issues: it stops after one that throws. */
  function Issued(steps: seq<Step>, fates: seq<Fate>): (n: nat)
    ensures n <= |steps|
  {
    if steps == [] then 0
    else if FateOf(fates).Killed? then 1
    else 1 + Issued(steps[1..], RestOf(fates))
  }

  function Length(d: Disk, e: Event): nat {
    Issued(Steps(e.op, d), e.fates)
  }

  /** The disk after the first t calls of the queued jobs, run one after the other. */
  function DiskAt(d: Disk, es: seq<Event>, t: nat): Disk
    decreases |es|
  {
    if es == [] then d
    else if t < Length(d, es[0]) then Exec(d, Steps(es[0].op, d)[..t], es[0].fates)
    else DiskAt(After(d, es[0]), es[1..], t - Length(d, es[0]))
  }

  /** A job in the plan of a run: how many calls it makes, and whether the seventh on follow its new state. */
  datatype Slot = Slot(calls: nat, installs: bool)

  function Plan(d: Disk, es: seq<Event>): seq<Slot>
    decreases |es|
  {
    if es == [] then []
    else [Slot(Length(d, es[0]), es[0].op.Install?)] + Plan(After(d, es[0]), es[1..])
  }

  /** How many jobs are over after t calls. */
  function FinishedAt(plan: seq<Slot>, t: nat): nat {
    if plan == [] || t < plan[0].calls then 0 else 1 + FinishedAt(plan[1..], t - plan[0].calls)
  }

  /** How many jobs a read after t calls sees: an install counts from the rename of state.json on. */
  function SeenAt(plan: seq<Slot>, t: nat): nat {
    if plan == [] then 0
    else if t < plan[0].calls then (if plan[0].installs && t >= 6 then 1 else 0)
    else 1 + SeenAt(plan[1..], t - plan[0].calls)
  }

  lemma {:induction false} IssuedCalls(steps: seq<Step>, fates: seq<Fate>)
    ensures forall t: nat :: t < Issued(steps, fates) ==> Survives(fates, t)
  {
    if steps != [] && !FateOf(fates).Killed? {
      IssuedCalls(steps[1..], RestOf(fates));
      forall t: nat | t < Issued(steps, fates) ensures Survives(fates, t) {
        if t > 0 {
          assert t - 1 < Issued(steps[1..], RestOf(fates));
          SurvivesShift(fates, 1, t - 1);
        }
      }
    }
  }

  /** The state after the first t calls of an install, thrown out of anywhere. */
  lemma InstallPart(d: Disk, e: Event, t: nat)
    requires e.op.Install? && LegalEvent(Swift, d, e) && t <= |Steps(e.op, d)|
    ensures Exec(d, Steps(e.op, d)[..t], e.fates).state ==
            if t >= 6 && Survives(e.fates, 6) then Some(Whole(Installed(e.op.id, ReadState(d)))) else d.state
  {
    var before := ReadState(d);
    var steps := Steps(e.op, d);
    var front := Front(e.op.id, e.op.bundle, before);
    var rest := InstallTail(e.op.id, before, e.op.listing);
    InstallIsFrontAndTail(e.op.id, e.op.bundle, before, e.op.listing);
    assert steps == front + Then(RenameState, rest);
    if t <= 5 {
      assert steps[..t] == front[..t];
      StateUntouched(d, front[..t], e.fates);
    } else {
      var part := rest[..t - 6];
      assert steps[..t] == front + Then(RenameState, part);
      ExecSplit(d, front, Then(RenameState, part), e.fates);
      StateUntouched(d, front, e.fates);
      if Survives(e.fates, 5) {
        RenamedPart(d, e, part);
      }
    }
  }

  lemma RenamedPart(d: Disk, e: Event, part: seq<Step>)
    requires e.op.Install? && LegalEvent(Swift, d, e) && Survives(e.fates, 5)
    requires part <= InstallTail(e.op.id, ReadState(d), e.op.listing)
    ensures var d1 := Exec(d, Front(e.op.id, e.op.bundle, ReadState(d)), e.fates);
            Exec(d1, Then(RenameState, part), Drop(e.fates, 5)).state ==
            if Survives(e.fates, 6) then Some(Whole(Installed(e.op.id, ReadState(d)))) else d1.state
  {
    var d1 := Exec(d, Front(e.op.id, e.op.bundle, ReadState(d)), e.fates);
    SwiftInstallsAreDurable(d, e);
    LegalFront(Swift, e.op, d, e.fates);
    FrontPrepares(d, e.op.id, e.op.bundle, e.fates);
    assert FateOf(Drop(e.fates, 5)) == FateAt(e.fates, 5);
    if Survives(e.fates, 6) {
      assert FateAt(e.fates, 5).Done?;
      ExecThen(d1, RenameState, part, e.fates, 5);
      TailHasNoRename(e.op.id, ReadState(d), e.op.listing);
      StateUntouched(Apply(d1, RenameState), part, Drop(e.fates, 6));
    }
  }

  lemma TailHasNoRename(id: Id, before: State, listing: seq<Id>)
    ensures RenameState !in InstallTail(id, before, listing)
  {
    PruneOnlyRemoves(listing, Keep(id, before.current));
  }

  lemma ReadDuring(d: Disk, e: Event, t: nat)
    requires Queued(e.op) && LegalEvent(Swift, d, e) && t < Length(d, e)
    ensures ReadState(Exec(d, Steps(e.op, d)[..t], e.fates)).current ==
            ReadState(if e.op.Install? && t >= 6 then After(d, e) else d).current
  {
    var steps := Steps(e.op, d);
    IssuedCalls(steps, e.fates);
    if e.op.Install? {
      InstallPart(d, e, t);
      InstallPart(d, e, |steps|);
      assert steps[..|steps|] == steps;
      assert t >= 6 ==> Survives(e.fates, 6);
    } else {
      var s := ReadState(d).(boot := Confirmed);
      assert steps == [CreateMount, WriteStateTmp(s), RenameState];
      StateUntouched(d, steps[..t], e.fates);
    }
  }

  lemma {:induction false} SeenIsFinishedOrOneMore(plan: seq<Slot>, t: nat)
    ensures FinishedAt(plan, t) <= SeenAt(plan, t) <= FinishedAt(plan, t) + 1
    ensures SeenAt(plan, t) <= |plan|
  {
    if plan != [] && t >= plan[0].calls {
      SeenIsFinishedOrOneMore(plan[1..], t - plan[0].calls);
    }
  }

  lemma {:induction false} PlanLength(d: Disk, es: seq<Event>)
    ensures |Plan(d, es)| == |es|
    decreases |es|
  {
    if es != [] {
      PlanLength(After(d, es[0]), es[1..]);
    }
  }

  /** Every read returns the current release after some prefix of the jobs, with each job that threw counted as far
      as it got: at least the jobs that are over, at most one more. */
  lemma ReadSeesAPrefix(d: Disk, es: seq<Event>, t: nat)
    requires QueueRun(d, es)
    ensures var plan := Plan(d, es);
            && FinishedAt(plan, t) <= SeenAt(plan, t) <= FinishedAt(plan, t) + 1
            && SeenAt(plan, t) <= |es|
            && ReadState(DiskAt(d, es, t)).current == ReadState(Play(d, es[..SeenAt(plan, t)])).current
  {
    PlanLength(d, es);
    SeenIsFinishedOrOneMore(Plan(d, es), t);
    ReadIsPlanned(d, es, t);
  }

  lemma {:induction false} ReadIsPlanned(d: Disk, es: seq<Event>, t: nat)
    requires QueueRun(d, es) && SeenAt(Plan(d, es), t) <= |es|
    ensures ReadState(DiskAt(d, es, t)).current == ReadState(Play(d, es[..SeenAt(Plan(d, es), t)])).current
    decreases |es|
  {
    if es != [] {
      if t < Length(d, es[0]) {
        ReadInFirst(d, es, t);
      } else {
        var d1, t1 := After(d, es[0]), t - Length(d, es[0]);
        FirstIsOver(d, es, t);
        ReadIsPlanned(d1, es[1..], t1);
        PlayFirst(d, es, SeenAt(Plan(d1, es[1..]), t1));
      }
    }
  }

  lemma SeenAfterFirst(slot: Slot, rest: seq<Slot>, t: nat)
    requires t >= slot.calls
    ensures SeenAt([slot] + rest, t) == 1 + SeenAt(rest, t - slot.calls)
  {
    assert ([slot] + rest)[1..] == rest;
  }

  lemma FirstIsOver(d: Disk, es: seq<Event>, t: nat)
    requires es != [] && t >= Length(d, es[0])
    ensures var d1, t1 := After(d, es[0]), t - Length(d, es[0]);
            && DiskAt(d, es, t) == DiskAt(d1, es[1..], t1)
            && SeenAt(Plan(d, es), t) == 1 + SeenAt(Plan(d1, es[1..]), t1)
  {
    SeenAfterFirst(Slot(Length(d, es[0]), es[0].op.Install?), Plan(After(d, es[0]), es[1..]), t);
  }

  lemma PlayFirst(d: Disk, es: seq<Event>, k: nat)
    requires k < |es|
    ensures Play(d, es[..k + 1]) == Play(After(d, es[0]), es[1..][..k])
  {
    assert es[..k + 1][0] == es[0] && es[..k + 1][1..] == es[1..][..k];
  }

  lemma ReadInFirst(d: Disk, es: seq<Event>, t: nat)
    requires QueueRun(d, es) && es != [] && t < Length(d, es[0])
    ensures SeenAt(Plan(d, es), t) == if es[0].op.Install? && t >= 6 then 1 else 0
    ensures ReadState(DiskAt(d, es, t)).current == ReadState(Play(d, es[..SeenAt(Plan(d, es), t)])).current
  {
    ReadDuring(d, es[0], t);
    PlayFirst(d, es, 0);
    assert es[1..][..0] == [] && es[..0] == [];
  }

  /** Later reads see at least as many jobs. */
  lemma {:induction false} ReadsNeverGoBack(plan: seq<Slot>, t1: nat, t2: nat)
    requires t1 <= t2
    ensures SeenAt(plan, t1) <= SeenAt(plan, t2)
  {
    if plan != [] && t1 >= plan[0].calls {
      ReadsNeverGoBack(plan[1..], t1 - plan[0].calls, t2 - plan[0].calls);
    }
  }

  // ---------- off the queue ----------

  /** The serialisation is needed. A rollback that read state.json before an install and writes it afterwards (as
      the exception hooks on iOS and the parallel promises on Android allow) makes the old previous release current.
      Its bundle is still there if and only if it was also the current release, or is the one just installed. */
  lemma StaleRollbackLosesTheBundle(d: Disk, a: Id, b: Id, id: Id, bundle: Bytes, listing: seq<Id>)
    requires ReadState(d).current == Some(b) && ReadState(d).previous == Some(a)
    requires Enumerates(listing, d.releases.Keys + {id}) && a in d.releases && d.releases[a].bundle.Some?
    ensures var d1 := Exec(After(d, Complete(Install(id, bundle, listing))), RollbackSteps(ReadState(d)), []);
            ReadState(d1).current == Some(a) && (Booted(d1).Some? <==> a == b || a == id)
  {
    var before := ReadState(d);
    var s := RolledBack(before);
    InstallEffect(d, id, bundle, listing);
    var d1 := After(d, Complete(Install(id, bundle, listing)));
    var d2 := Apply(Apply(d1, WriteStateTmp(s)), RenameState);
    assert a in d1.releases <==> a == b || a == id;
    assert Exec(d1, RollbackSteps(before), []) ==
           Exec(Apply(d1, WriteStateTmp(s)), Then(RenameState, Then(CreateMount, [])), []);
    assert Exec(Apply(d1, WriteStateTmp(s)), Then(RenameState, Then(CreateMount, [])), []) ==
           Exec(d2, Then(CreateMount, []), []);
    assert Exec(d2, Then(CreateMount, []), []) == Apply(d2, CreateMount);
  }
}
