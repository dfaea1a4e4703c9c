/** What uninterrupted operations amount to: the device shows the last two entries of an unbounded install
    history, and a rollback takes the last install back. */
module History {
  import opened Common
  import opened Disk
  import opened CrashSafety
  import opened Recovery
  import CrashMarker

  // ---------- a completed install in closed form ----------

  function WithoutPruned(releases: map<Id, Dir>, listing: seq<Id>, keep: seq<Id>): map<Id, Dir> {
    map id | id in releases && (id !in listing || id in keep) :: releases[id]
  }

  lemma {:induction false} PruneEffect(d: Disk, listing: seq<Id>, keep: seq<Id>)
    ensures Exec(d, Prune(listing, keep), []) == d.(releases := WithoutPruned(d.releases, listing, keep))
    decreases |listing|
  {
    if listing == [] {
      assert WithoutPruned(d.releases, listing, keep) == d.releases;
    } else {
      var id, rest := listing[0], listing[1..];
      assert forall x :: x in listing <==> x == id || x in rest;
      if id in keep {
        PruneEffect(d, rest, keep);
        assert WithoutPruned(d.releases, listing, keep) == WithoutPruned(d.releases, rest, keep);
      } else {
        var d1 := Apply(d, RemoveRelease(id));
        PruneEffect(d1, rest, keep);
        assert WithoutPruned(d.releases, listing, keep) == WithoutPruned(d1.releases, rest, keep);
        assert Exec(d, Then(RemoveRelease(id), Prune(rest, keep)), []) == Exec(d1, Prune(rest, keep), []);
      }
    }
  }

  function InstalledDisk(d: Disk, id: Id, bundle: Bytes, listing: seq<Id>): Disk {
    var before := ReadState(d);
    Disk(WithoutPruned(d.releases[id := Dir(None, Some(bundle))], listing, Keep(id, before.current)),
         None, Some(Whole(Installed(id, before))), false, d.crash)
  }

  lemma BundleEffect(d: Disk, id: Id, bundle: Bytes)
    ensures Apply(Apply(Apply(Apply(d, MakeDir(id)), WriteTemp(id, bundle)), DeleteBundle(id)), RenameBundle(id)) ==
            d.(releases := d.releases[id := Dir(None, Some(bundle))])
  {
    var d2 := Apply(Apply(d, MakeDir(id)), WriteTemp(id, bundle));
    assert id in d2.releases && d2.releases[id].tmp == Some(bundle);
    assert d2.releases[id := Dir(None, Some(bundle))] == d.releases[id := Dir(None, Some(bundle))];
  }

  lemma FrontEffect(d: Disk, id: Id, bundle: Bytes)
    ensures Exec(d, Front(id, bundle, ReadState(d)), []) ==
            d.(releases := d.releases[id := Dir(None, Some(bundle))],
               stateTmp := Some(Whole(Installed(id, ReadState(d)))))
  {
    FrontUnrolled(d, id, bundle, []);
    BundleEffect(d, id, bundle);
  }

  lemma TailEffect(d: Disk, id: Id, before: State, listing: seq<Id>)
    ensures Exec(d, InstallTail(id, before, listing), []) ==
            d.(mount := false, releases := WithoutPruned(d.releases, listing, Keep(id, before.current)))
  {
    var prune := Prune(listing, Keep(id, before.current));
    assert Exec(d, Then(DeleteMount, prune), []) == Exec(Apply(d, DeleteMount), prune, []);
    PruneEffect(Apply(d, DeleteMount), listing, Keep(id, before.current));
  }

  lemma InstallEffect(d: Disk, id: Id, bundle: Bytes, listing: seq<Id>)
    ensures After(d, Complete(Install(id, bundle, listing))) == InstalledDisk(d, id, bundle, listing)
  {
    var before := ReadState(d);
    InstallInTwo(d, id, bundle, listing, []);
    FrontEffect(d, id, bundle);
    TailEffect(Apply(Exec(d, Front(id, bundle, before), []), RenameState), id, before, listing);
  }

  // ---------- the history ----------

  /** Every install ever made and not undone, whether the last one can be undone, whether the running release
      was confirmed, and the flag of an unprocessed crash. */
  datatype History = History(installs: seq<Id>, undoable: bool, confirmed: bool, crash: Option<bool>)

  const NEW_DEVICE := History([], false, false, None)

  ghost predicate WellFormed(h: History) {
    h.undoable ==> |h.installs| >= 2
  }

  function Undo(h: History): History {
    if h.undoable && h.installs != []
    then h.(installs := h.installs[..|h.installs| - 1], undoable := false, confirmed := true) else h
  }

  function Observe(h: History, op: Op): History {
    match op
    case Install(id, _, _) => History(h.installs + [id], h.installs != [], false, h.crash)
    case Confirm => h.(confirmed := true)
    case Signal(_) => h.(crash := Some(!h.confirmed))
    case RollbackIfUnconfirmed => if h.confirmed then h else Undo(h)
    case Resolve => if h.crash == Some(true) then Undo(h.(crash := None)) else h.(crash := None)
  }

  function Fold(h: History, ops: seq<Op>): History
    decreases |ops|
  {
    if ops == [] then h else Fold(Observe(h, ops[0]), ops[1..])
  }

  /** The view of depth two. */
  function Top(h: History): Option<Id> {
    if h.installs == [] then None else Some(h.installs[|h.installs| - 1])
  }

  function Second(h: History): Option<Id> {
    if h.undoable && |h.installs| >= 2 then Some(h.installs[|h.installs| - 2]) else None
  }

  /** The disk shows the history; mount.marker exists exactly when state.json says confirmed. */
  ghost predicate Refines(w: World, h: History) {
    var d := w.disk;
    && WellFormed(h) && Consistent(w)
    && ReadState(d).current == Top(h) && ReadState(d).previous == Second(h)
    && d.mount == h.confirmed
    && (d.state.Some? ==> (d.mount <==> ReadState(d).boot.Confirmed?))
    && (d.state.None? ==> !d.mount && h.installs == [])
    && (d.crash.Some? <==> h.crash.Some?)
    && (d.crash.Some? ==> CrashMarker.IsAutoRollback(d.crash.value) == h.crash.value)
  }

  /** Right after an install: exactly the two releases of the view, each with the bytes of its latest install. */
  ghost predicate HoldsExactly(w: World, keep: set<Id>) {
    && w.disk.releases.Keys == keep
    && forall id :: id in keep ==> id in w.given && w.disk.releases[id].bundle == Some(w.given[id])
  }

  /** The prune loop reads a listing of the directory that the install has just written to. */
  predicate ListingOk(op: Op, d: Disk) {
    op.Install? ==> (set id | id in op.listing) == d.releases.Keys + {op.id}
  }

  ghost predicate ListingsOk(w: World, ops: seq<Op>)
    decreases |ops|
  {
    ops == [] || (ListingOk(ops[0], w.disk) && ListingsOk(Advance(w, Complete(ops[0])), ops[1..]))
  }

  function Completed(ops: seq<Op>): seq<Event>
    decreases |ops|
  {
    if ops == [] then [] else [Complete(ops[0])] + Completed(ops[1..])
  }

  lemma InstallRefines(w: World, h: History, op: Op)
    requires Refines(w, h) && op.Install? && ListingOk(op, w.disk)
    ensures var w1 := Advance(w, Complete(op));
            Refines(w1, Observe(h, op)) && HoldsExactly(w1, Refs(ReadState(w1.disk)))
  {
    var d := w.disk;
    InstallEffect(d, op.id, op.bundle, op.listing);
    var w1 := Advance(w, Complete(op));
    var keep := Refs(ReadState(w1.disk));
    var h1 := Observe(h, op);
    assert h1.installs[|h1.installs| - 1] == op.id;
    assert forall id :: id in keep <==> id in Keep(op.id, ReadState(d).current);
    assert forall id :: id in op.listing <==> id in (set x | x in op.listing);
    assert w1.disk.releases.Keys == keep;
  }

  lemma UndoneRefines(w: World, h: History)
    requires Refines(w, h)
    ensures Refines(World(Undone(w.disk), w.given), Undo(h))
  {
  }

  lemma ConfirmRefines(w: World, h: History)
    requires Refines(w, h)
    ensures Refines(Advance(w, Complete(Confirm)), Observe(h, Confirm))
  {
    ConfirmEffect(w.disk);
  }

  lemma SignalRefines(w: World, h: History, n: int)
    requires Refines(w, h)
    ensures Refines(Advance(w, Complete(Signal(n))), Observe(h, Signal(n)))
  {
    SignalEffect(w.disk, n);
    CrashMarker.MarkerReads(n, !w.disk.mount);
  }

  lemma RollbackRefines(w: World, h: History)
    requires Refines(w, h)
    ensures Refines(Advance(w, Complete(RollbackIfUnconfirmed)), Observe(h, RollbackIfUnconfirmed))
  {
    SameSessionEffect(w.disk);
    UndoneRefines(w, h);
  }

  lemma ResolveRefines(w: World, h: History)
    requires Refines(w, h)
    ensures Refines(Advance(w, Complete(Resolve)), Observe(h, Resolve))
  {
    var w1, h1 := World(w.disk.(crash := None), w.given), h.(crash := None);
    ResolveEffect(w.disk);
    assert Refines(w1, h1);
    UndoneRefines(w1, h1);
  }

  lemma OtherRefines(w: World, h: History, op: Op)
    requires Refines(w, h) && !op.Install?
    ensures Refines(Advance(w, Complete(op)), Observe(h, op))
  {
    match op
    case Confirm => ConfirmRefines(w, h);
    case Signal(n) => SignalRefines(w, h, n);
    case RollbackIfUnconfirmed => RollbackRefines(w, h);
    case Resolve => ResolveRefines(w, h);
  }

  lemma {:induction false} RunRefines(w: World, h: History, ops: seq<Op>)
    requires Refines(w, h) && ListingsOk(w, ops)
    ensures Refines(PlayWorld(w, Completed(ops)), Fold(h, ops))
    ensures ops != [] && ops[|ops| - 1].Install? ==>
              var w1 := PlayWorld(w, Completed(ops)); HoldsExactly(w1, Refs(ReadState(w1.disk)))
    decreases |ops|
  {
    if ops != [] {
      if ops[0].Install? {
        InstallRefines(w, h, ops[0]);
      } else {
        OtherRefines(w, h, ops[0]);
      }
      var w1 := Advance(w, Complete(ops[0]));
      assert Completed(ops)[1..] == Completed(ops[1..]);
      RunRefines(w1, Observe(h, ops[0]), ops[1..]);
      if |ops| == 1 {
        assert PlayWorld(w, Completed(ops)) == w1;
      }
    }
  }

  /** Over every run of completed operations, with any ids: (current, previous) is the view of the history,
      mount.marker agrees with bootStatus, and after an install the directory holds exactly those releases. */
  lemma RunsShowTheHistory(ops: seq<Op>)
    requires ListingsOk(START, ops)
    ensures Refines(PlayWorld(START, Completed(ops)), Fold(NEW_DEVICE, ops))
    ensures ops != [] && ops[|ops| - 1].Install? ==>
              var w := PlayWorld(START, Completed(ops)); HoldsExactly(w, Refs(ReadState(w.disk)))
  {
    RunRefines(START, NEW_DEVICE, ops);
  }

  /** The signal handler's file-existence check decides what reading state.json would: once state.json exists
      the marker exists exactly when the state is confirmed, and before that there is no marker. */
  lemma MarkerAgreesWithState(ops: seq<Op>)
    requires ListingsOk(START, ops)
    ensures var d := PlayWorld(START, Completed(ops)).disk;
            if d.state.Some? then d.state.value.Whole? && (d.mount <==> d.state.value.state.boot.Confirmed?)
            else !d.mount
  {
    RunsShowTheHistory(ops);
  }

  // ---------- an update that never ran ----------

  function Confirms(n: nat): seq<Event> {
    if n == 0 then [] else [Complete(Confirm)] + Confirms(n - 1)
  }

  lemma {:induction false} ConfirmsEffect(d: Disk, n: nat)
    ensures Play(d, Confirms(n)) ==
            if n == 0 then d
            else d.(stateTmp := None, state := Some(Whole(ReadState(d).(boot := Confirmed))), mount := true)
    decreases n
  {
    if n > 0 {
      ConfirmEffect(d);
      ConfirmsEffect(After(d, Complete(Confirm)), n - 1);
      assert Confirms(n)[1..] == Confirms(n - 1);
    }
  }

  /** The session that installs an update, calls notifyAppReady n more times and then crashes. The next launch still
      has the update if and only if notifyAppReady was called after the install, although the update never ran, or
      there was no other release. Otherwise it is back on the old release, however long that had been confirmed. */
  lemma CrashAfterInstallUndoesIt(d: Disk, id: Id, bundle: Bytes, listing: seq<Id>, n: nat, signal: int)
    ensures var before := ReadState(d);
            var d1 := Play(After(d, Complete(Install(id, bundle, listing))),
                           Confirms(n) + [Complete(Signal(signal)), Complete(Resolve)]);
            && (ReadState(d1).current == Some(id) <==> n > 0 || before.current.None? || before.current == Some(id))
            && (n > 0 ==> ReadState(d1) == State(Some(id), before.current, Confirmed) && d1.mount)
            && (n == 0 && before.current.Some? ==> ReadState(d1) == State(before.current, None, Confirmed) && d1.mount)
  {
    var d0 := After(d, Complete(Install(id, bundle, listing)));
    InstallEffect(d, id, bundle, listing);
    ConfirmsEffect(d0, n);
    PlayAppend(d0, Confirms(n), [Complete(Signal(signal)), Complete(Resolve)]);
    CrashAndLaunch(Play(d0, Confirms(n)), signal);
  }
}
