/** The files below <sandbox>/salve-push, the atomic filesystem steps that change them, and the steps that
    each storage operation issues. A step either completes, is cut short by the end of the process (or by a
    thrown error, which ends the operation in the same place), or is reported as failed to a caller that
    ignores the report. */
module Disk {
  import opened Common
  import CrashMarker

  datatype Boot = Pending | Confirmed

  datatype State = State(current: Option<Id>, previous: Option<Id>, boot: Boot)

  const CONFIRMED_EMPTY := State(None, None, Confirmed)

  /** The content of a state file: one whole document, or what an interrupted writer left. */
  datatype Text = Whole(state: State) | Partial

  /** releases/<id>: bundle.js.tmp and bundle.js. */
  datatype Dir = Dir(tmp: Option<Bytes>, bundle: Option<Bytes>)

  datatype Disk = Disk(
    releases: map<Id, Dir>,
    stateTmp: Option<Text>,
    state: Option<Text>,
    mount: bool,
    crash: Option<string>)

  const EMPTY := Disk(map[], None, None, false, None)

  /** A missing or unreadable state.json counts as nothing installed. */
  function ReadState(d: Disk): State {
    if d.state.Some? && d.state.value.Whole? then d.state.value.state else CONFIRMED_EMPTY
  }

  // ---------- atomic steps ----------

  datatype Step =
    | MakeDir(id: Id)
    | WriteTemp(id: Id, bytes: Bytes)
    | DeleteBundle(id: Id)
    | RenameBundle(id: Id)
    | WriteStateTmp(state: State)
    | RenameState
    | CreateMount
    | DeleteMount
    | RemoveRelease(id: Id)
    | TruncateCrash
    | WriteCrash(text: string)
    | DeleteCrash

  function Apply(d: Disk, s: Step): Disk {
    match s
    case MakeDir(id) =>
      if id in d.releases then d else d.(releases := d.releases[id := Dir(None, None)])
    case WriteTemp(id, bytes) =>
      if id in d.releases then d.(releases := d.releases[id := d.releases[id].(tmp := Some(bytes))]) else d
    case DeleteBundle(id) =>
      if id in d.releases then d.(releases := d.releases[id := d.releases[id].(bundle := None)]) else d
    case RenameBundle(id) =>
      if id in d.releases && d.releases[id].tmp.Some?
      then d.(releases := d.releases[id := Dir(None, d.releases[id].tmp)]) else d
    case WriteStateTmp(state) => d.(stateTmp := Some(Whole(state)))
    case RenameState => if d.stateTmp.Some? then d.(stateTmp := None, state := d.stateTmp) else d
    case CreateMount => d.(mount := true)
    case DeleteMount => d.(mount := false)
    case RemoveRelease(id) => d.(releases := d.releases - {id})
    case TruncateCrash => d.(crash := Some([]))
    case WriteCrash(text) => d.(crash := Some(text))
    case DeleteCrash => d.(crash := None)
  }

  /** How much of an interrupted step reached the disk. */
  datatype Tear = Nothing | Part(k: nat, keepTmp: bool, keepBundle: bool)

  /** What an interrupted step leaves: a written file may hold any prefix, a recursive deletion may have
      removed some of the files. Renames, creations and single deletions are all or nothing. */
  function Torn(d: Disk, s: Step, t: Tear): Disk {
    if t == Nothing then d else
    match s
    case WriteTemp(id, bytes) =>
      if id in d.releases
      then d.(releases := d.releases[id := d.releases[id].(tmp := Some(bytes[..Min(t.k, |bytes|)]))]) else d
    case WriteStateTmp(_) => d.(stateTmp := Some(Partial))
    case RemoveRelease(id) =>
      if id in d.releases then
        var dir := d.releases[id];
        d.(releases := d.releases[id := Dir(if t.keepTmp then dir.tmp else None,
                                            if t.keepBundle then dir.bundle else None)])
      else d
    case WriteCrash(text) => d.(crash := Some(text[..Min(t.k, |text|)]))
    case _ => d
  }

  datatype Fate = Done | Lost(t: Tear) | Killed(t: Tear)

  function FateOf(fates: seq<Fate>): Fate {
    if fates == [] then Done else fates[0]
  }

  function RestOf(fates: seq<Fate>): seq<Fate> {
    if fates == [] then [] else fates[1..]
  }

  /** The disk after a step that did not end the process. */
  function Meet(d: Disk, s: Step, f: Fate): Disk {
    if f.Done? then Apply(d, s) else Torn(d, s, f.t)
  }

  function FateAt(fates: seq<Fate>, i: nat): Fate {
    if i < |fates| then fates[i] else Done
  }

  /** Runs the steps; fates says what happens to each, and steps beyond it are done. */
  function Exec(d: Disk, steps: seq<Step>, fates: seq<Fate>): Disk
    decreases |steps|
  {
    if steps == [] then d else
    if FateOf(fates).Killed? then Torn(d, steps[0], FateOf(fates).t)
    else Exec(Meet(d, steps[0], FateOf(fates)), steps[1..], RestOf(fates))
  }

  // ---------- operations ----------

  datatype Op =
    | Install(id: Id, bundle: Bytes, listing: seq<Id>)  // listing: the order in which the directory is read
    | Confirm
    | Resolve
    | RollbackIfUnconfirmed
    | Signal(number: int)

  function Then(s: Step, rest: seq<Step>): seq<Step> {
    [s] + rest
  }

  /** state.json is replaced by writing a sibling and renaming it over. */
  function Replace(state: State, rest: seq<Step>): seq<Step> {
    Then(WriteStateTmp(state), Then(RenameState, rest))
  }

  function Keep(id: Id, previous: Option<Id>): seq<Id> {
    if previous.Some? then [id, previous.value] else [id]
  }

  function Prune(listing: seq<Id>, keep: seq<Id>): seq<Step> {
    if listing == [] then []
    else if listing[0] in keep then Prune(listing[1..], keep)
    else Then(RemoveRelease(listing[0]), Prune(listing[1..], keep))
  }

  function Installed(id: Id, before: State): State {
    State(Some(id), before.current, Pending)
  }

  function InstallTail(id: Id, before: State, listing: seq<Id>): seq<Step> {
    Then(DeleteMount, Prune(listing, Keep(id, before.current)))
  }

  function InstallSteps(id: Id, bundle: Bytes, before: State, listing: seq<Id>): seq<Step> {
    Then(MakeDir(id),
    Then(WriteTemp(id, bundle),
    Then(DeleteBundle(id),
    Then(RenameBundle(id),
    Replace(Installed(id, before), InstallTail(id, before, listing))))))
  }

  function ConfirmSteps(before: State): seq<Step> {
    Then(CreateMount, Replace(before.(boot := Confirmed), []))
  }

  function RolledBack(before: State): State {
    State(before.previous, None, Confirmed)
  }

  function RollbackSteps(before: State): seq<Step> {
    if before.previous.None? then [] else Replace(RolledBack(before), Then(CreateMount, []))
  }

  function Steps(op: Op, d: Disk): seq<Step> {
    match op
    case Install(id, bundle, listing) => InstallSteps(id, bundle, ReadState(d), listing)
    case Confirm => ConfirmSteps(ReadState(d))
    case Resolve =>
      if d.crash.None? then []
      else Then(DeleteCrash,
                if CrashMarker.IsAutoRollback(d.crash.value) then RollbackSteps(ReadState(d)) else [])
    case RollbackIfUnconfirmed => if d.mount then [] else RollbackSteps(ReadState(d))
    case Signal(number) => Then(TruncateCrash, Then(WriteCrash(CrashMarker.Print(number, !d.mount)), []))
  }

  /** The bundle that a launch hands to React Native once pending work is done; None means the embedded one. */
  function Booted(d: Disk): Option<Bytes> {
    var current := ReadState(d).current;
    if current.Some? && current.value in d.releases then d.releases[current.value].bundle else None
  }

  // ---------- failures that the caller does not notice ----------

  datatype Platform = Kotlin | Swift

  /** Kotlin's File methods return false, which installUpdate and writeState ignore; Swift throws except
      under `try?`. Everything else ends the operation, as a kill does. */
  predicate MayBeLost(p: Platform, op: Op, s: Step) {
    match s
    case DeleteBundle(_) => p.Kotlin?
    case RenameBundle(_) => p.Kotlin?
    case RenameState => p.Kotlin? || op.Resolve? || op.RollbackIfUnconfirmed?
    case CreateMount => true
    case DeleteMount => true
    case RemoveRelease(_) => true
    case DeleteCrash => true
    case WriteCrash(_) => true
    case _ => false
  }

  datatype Event = Event(op: Op, fates: seq<Fate>)

  ghost predicate Legal(p: Platform, op: Op, steps: seq<Step>, fates: seq<Fate>) {
    forall i :: 0 <= i < |fates| && i < |steps| && fates[i].Lost? ==> MayBeLost(p, op, steps[i])
  }

  ghost predicate LegalEvent(p: Platform, d: Disk, e: Event) {
    Legal(p, e.op, Steps(e.op, d), e.fates)
  }

  /** An operation that ran to its end with every step done. */
  function Complete(op: Op): Event { Event(op, []) }

  function After(d: Disk, e: Event): Disk {
    Exec(d, Steps(e.op, d), e.fates)
  }

  function Play(d: Disk, es: seq<Event>): Disk
    decreases |es|
  {
    if es == [] then d else Play(After(d, es[0]), es[1..])
  }

  lemma {:induction false} PlayAppend(d: Disk, a: seq<Event>, b: seq<Event>)
    ensures Play(d, a + b) == Play(Play(d, a), b)
    decreases |a|
  {
    if a == [] {
      assert a + b == b;
    } else {
      assert (a + b)[1..] == a[1..] + b;
      PlayAppend(After(d, a[0]), a[1..], b);
    }
  }

  // ---------- state.json is never seen half written ----------

  /** Every rename over state.json follows directly on a whole write of `target`. */
  ghost predicate OnlyWrites(steps: seq<Step>, target: State)
    decreases |steps|
  {
    steps == [] ||
    match steps[0]
    case WriteStateTmp(s) =>
      s == target && |steps| >= 2 && steps[1] == RenameState && OnlyWrites(steps[2..], target)
    case RenameState => false
    case _ => OnlyWrites(steps[1..], target)
  }

  lemma {:induction false} ReplaceIsAtomic(
    p: Platform, op: Op, d: Disk, steps: seq<Step>, fates: seq<Fate>, target: State)
    requires OnlyWrites(steps, target) && Legal(p, op, steps, fates)
    ensures Exec(d, steps, fates).state == d.state || Exec(d, steps, fates).state == Some(Whole(target))
    decreases |steps|
  {
    if steps != [] && !FateOf(fates).Killed? {
      var rest := RestOf(fates);
      var d1 := Meet(d, steps[0], FateOf(fates));
      if steps[0].WriteStateTmp? {
        assert FateOf(fates).Done?;
        var d2 := Meet(d1, steps[1], FateOf(rest));
        assert steps[1..][1..] == steps[2..];
        if !FateOf(rest).Killed? {
          ReplaceIsAtomic(p, op, d2, steps[2..], RestOf(rest), target);
        }
      } else {
        ReplaceIsAtomic(p, op, d1, steps[1..], rest, target);
      }
    }
  }

  function Target(op: Op, before: State): State {
    match op
    case Install(id, _, _) => Installed(id, before)
    case Confirm => before.(boot := Confirmed)
    case _ => RolledBack(before)
  }

  lemma {:induction false} PruneOnlyWrites(listing: seq<Id>, keep: seq<Id>, target: State)
    ensures OnlyWrites(Prune(listing, keep), target)
  {
    if listing != [] {
      PruneOnlyWrites(listing[1..], keep, target);
    }
  }

  lemma ThenOnlyWrites(s: Step, rest: seq<Step>, target: State)
    requires OnlyWrites(rest, target) && !s.WriteStateTmp? && !s.RenameState?
    ensures OnlyWrites(Then(s, rest), target)
  {
  }

  lemma ReplaceOnlyWrites(rest: seq<Step>, target: State)
    requires OnlyWrites(rest, target)
    ensures OnlyWrites(Replace(target, rest), target)
  {
    assert Replace(target, rest)[2..] == rest;
  }

  lemma InstallOnlyWrites(id: Id, bundle: Bytes, before: State, listing: seq<Id>)
    ensures OnlyWrites(InstallSteps(id, bundle, before, listing), Installed(id, before))
  {
    var target := Installed(id, before);
    PruneOnlyWrites(listing, Keep(id, before.current), target);
    var tail := InstallTail(id, before, listing);
    ThenOnlyWrites(DeleteMount, Prune(listing, Keep(id, before.current)), target);
    ReplaceOnlyWrites(tail, target);
    var s4 := Then(RenameBundle(id), Replace(target, tail));
    ThenOnlyWrites(RenameBundle(id), Replace(target, tail), target);
    ThenOnlyWrites(DeleteBundle(id), s4, target);
    ThenOnlyWrites(WriteTemp(id, bundle), Then(DeleteBundle(id), s4), target);
    ThenOnlyWrites(MakeDir(id), Then(WriteTemp(id, bundle), Then(DeleteBundle(id), s4)), target);
  }

  lemma RollbackOnlyWrites(before: State, target: State)
    requires before.previous.Some? ==> target == RolledBack(before)
    ensures OnlyWrites(RollbackSteps(before), target)
  {
    ThenOnlyWrites(CreateMount, [], target);
    if before.previous.Some? {
      ReplaceOnlyWrites(Then(CreateMount, []), target);
    }
  }

  /** The state that op writes, if any; an op that writes none fits every target. */
  lemma OpOnlyWrites(op: Op, d: Disk, target: State)
    requires target == Target(op, ReadState(d)) || op.Signal?
             || ((op.Resolve? || op.RollbackIfUnconfirmed?) && ReadState(d).previous.None?)
    ensures OnlyWrites(Steps(op, d), target)
  {
    var before := ReadState(d);
    match op
    case Install(id, bundle, listing) => InstallOnlyWrites(id, bundle, before, listing);
    case Confirm =>
      ReplaceOnlyWrites([], target);
      ThenOnlyWrites(CreateMount, Replace(target, []), target);
    case Resolve =>
      RollbackOnlyWrites(before, target);
      ThenOnlyWrites(DeleteCrash, RollbackSteps(before), target);
      ThenOnlyWrites(DeleteCrash, [], target);
    case RollbackIfUnconfirmed => RollbackOnlyWrites(before, target);
    case Signal(number) =>
      var last := WriteCrash(CrashMarker.Print(number, !d.mount));
      ThenOnlyWrites(last, [], target);
      ThenOnlyWrites(TruncateCrash, Then(last, []), target);
  }

  /** Whatever happens to its steps, an operation leaves state.json as it was or as the operation wants it. */
  lemma StateIsAtomic(p: Platform, d: Disk, e: Event)
    requires LegalEvent(p, d, e)
    ensures After(d, e).state == d.state || After(d, e).state == Some(Whole(Target(e.op, ReadState(d))))
    ensures e.op.Signal? ==> After(d, e).state == d.state
    ensures (e.op.Resolve? || e.op.RollbackIfUnconfirmed?) && ReadState(d).previous.None? ==>
              After(d, e).state == d.state
  {
    var target := Target(e.op, ReadState(d));
    OpOnlyWrites(e.op, d, target);
    ReplaceIsAtomic(p, e.op, d, Steps(e.op, d), e.fates, target);
    if e.op.Signal? || ((e.op.Resolve? || e.op.RollbackIfUnconfirmed?) && ReadState(d).previous.None?) {
      // no state is written, so the result is the same for two targets that differ
      var other := target.(boot := if target.boot.Pending? then Confirmed else Pending);
      OpOnlyWrites(e.op, d, other);
      ReplaceIsAtomic(p, e.op, d, Steps(e.op, d), e.fates, other);
    }
  }
}
