/** The release service: bundle bytes in a blob store, metadata in a table, and no transaction over both. */
module Releases {
  import opened Common
  import opened Signing

  datatype Release = Release(
    id: Id, version: string, platform: string, channel: string, runtimeVersion: string,
    bundleHash: string, signature: string, bundleSize: int, bundleStorageKey: string,
    rolloutPercentage: int, publishedAt: Option<int>, createdAt: int)

  datatype CreateInput = CreateInput(
    version: string, platform: string, channel: string, runtimeVersion: string,
    bundleHash: string, signature: string, rolloutPercentage: int)

  datatype Filter = Filter(channel: string, platform: string, runtimeVersion: string)

  datatype Error = HashMismatch | NotFound | InvalidId | StoreFailed | InsertFailed | UpdateFailed | QueryFailed

  predicate IsHex(c: char) {
    '0' <= c <= '9' || 'a' <= c <= 'f'
  }

  /** The canonical form of a UUID: 36 lower-case characters with hyphens in four places. */
  predicate IsUuid(id: string) {
    |id| == 36 && forall i :: 0 <= i < 36 ==> if i in {8, 13, 18, 23} then id[i] == '-' else IsHex(id[i])
  }

  /** Five groups of lower-case hexadecimal digits, of 8, 4, 4, 4 and 12. */
  lemma UuidGroups(id: string)
    ensures IsUuid(id) <==>
            && |id| == 36 && id[8] == id[13] == id[18] == id[23] == '-'
            && forall c :: c in id[..8] + id[9..13] + id[14..18] + id[19..23] + id[24..] ==> c in "0123456789abcdef"
  {
    HexDigits();
    if |id| == 36 {
      var digits := id[..8] + id[9..13] + id[14..18] + id[19..23] + id[24..];
      forall i | 0 <= i < 36 && i !in {8, 13, 18, 23} ensures id[i] in digits {
        var k := if i < 8 then i else if i < 13 then i - 1 else if i < 18 then i - 2
                 else if i < 23 then i - 3 else i - 4;
        assert digits[k] == id[i];
      }
      forall c | c in digits ensures exists i :: 0 <= i < 36 && i !in {8, 13, 18, 23} && id[i] == c {
        var k :| 0 <= k < |digits| && digits[k] == c;
        var i := if k < 8 then k else if k < 12 then k + 1 else if k < 16 then k + 2
                 else if k < 20 then k + 3 else k + 4;
        assert id[i] == c;
      }
    }
  }

  lemma HexDigits()
    ensures forall c :: IsHex(c) <==> c in "0123456789abcdef"
  {
    forall c ensures IsHex(c) <==> c in "0123456789abcdef" {
      if '0' <= c <= '9' {
        assert "0123456789abcdef"[c as int - '0' as int] == c;
      } else if 'a' <= c <= 'f' {
        assert "0123456789abcdef"[c as int - 'a' as int + 10] == c;
      }
    }
  }

  function StorageKey(id: Id): string {
    "releases/" + id + "/bundle"
  }

  lemma StorageKeyIsInjective(a: Id, b: Id)
    requires StorageKey(a) == StorageKey(b)
    ensures a == b
  {
    var p, q := "releases/", "/bundle";
    assert (p + a + q)[|p|..|p| + |a|] == a && (p + b + q)[|p|..|p| + |b|] == b;
  }

  function NewRelease(id: Id, in_: CreateInput, bundle: Bytes, now: int): Release {
    Release(id, in_.version, in_.platform, in_.channel, in_.runtimeVersion, in_.bundleHash, in_.signature,
            |bundle|, StorageKey(id), in_.rolloutPercentage, None, now)
  }

  /** The CHECK constraints of the releases table. */
  predicate RowAllowed(r: Release) {
    (r.platform == "ios" || r.platform == "android") && 0 <= r.rolloutPercentage <= 100
  }

  // ---------- calls as sequences of steps on the two stores ----------

  datatype Task =
    | Hashed(input: CreateInput, bundle: Bytes, id: Id)
    | Stored(input: CreateInput, bundle: Bytes, id: Id)
    | Publishing(id: Id, missed: bool)     // the update is done; missed: it found no such row
    | Refetching(id: Id)                   // missed, but the first Get found a row

  datatype Returned = Returned(row: Release, missed: bool)

  datatype System = System(
    blobs: map<string, Bytes>,
    rows: map<Id, Release>,
    tasks: map<nat, Task>,
    uploads: map<Id, Bytes>,      // what each generated id was generated for
    published: seq<Returned>)     // the rows that Publish returned

  const EMPTY := System(map[], map[], map[], map[], [])

  datatype PutOutcome = PutDone | PutTorn(k: nat) | PutRefused

  /** How a statement ends for the client: Unseen means that it was committed, but the client only sees an error. */
  datatype Outcome = Written | Refused | Unseen

  datatype Event =
    | BeginCreate(task: nat, input: CreateInput, bundle: Bytes, id: Id)
    | PutBlob(task: nat, outcome: PutOutcome)
    | InsertRow(task: nat, ok: bool, now: int)
    | BeginPublish(task: nat, id: Id, now: int)
    | CheckMissed(task: nat)
    | EndPublish(task: nat)
    | FailPublish(task: nat)  // its client sees an error from the update or from a query

  function End(s: System, t: nat): System {
    s.(tasks := s.tasks - {t})
  }

  /** Create up to the hash check; a mismatch ends the call. */
  function Hashing(c: Crypto, s: System, t: nat, input: CreateInput, bundle: Bytes, id: Id): System {
    if t in s.tasks || Sha256Hex(c, bundle) != input.bundleHash then s
    else s.(tasks := s.tasks[t := Hashed(input, bundle, id)], uploads := s.uploads[id := bundle])
  }

  /** A failed Put may leave nothing or part of the bundle under the key. */
  function Putting(s: System, t: nat, outcome: PutOutcome): System {
    if t !in s.tasks || !s.tasks[t].Hashed? then s else
    var Hashed(input, bundle, id) := s.tasks[t];
    match outcome
    case PutDone =>
      s.(blobs := s.blobs[StorageKey(id) := bundle], tasks := s.tasks[t := Stored(input, bundle, id)])
    case PutTorn(k) => End(s, t).(blobs := s.blobs[StorageKey(id) := bundle[..Min(k, |bundle|)]])
    case PutRefused => End(s, t)
  }

  function Inserting(s: System, t: nat, ok: bool, now: int): System {
    if t !in s.tasks || !s.tasks[t].Stored? then s else
    var Stored(input, bundle, id) := s.tasks[t];
    var row := NewRelease(id, input, bundle, now);
    if ok && RowAllowed(row) && id !in s.rows then End(s, t).(rows := s.rows[id := row]) else End(s, t)
  }

  /** UPDATE ... WHERE published_at IS NULL */
  function SetPublished(rows: map<Id, Release>, id: Id, now: int): map<Id, Release>
    requires id in rows
  {
    if rows[id].publishedAt.None? then rows[id := rows[id].(publishedAt := Some(now))] else rows
  }

  function Updating(s: System, t: nat, id: Id, now: int): System {
    if t in s.tasks || !IsUuid(id) then s
    else if id !in s.rows then s.(tasks := s.tasks[t := Publishing(id, true)])
    else s.(tasks := s.tasks[t := Publishing(id, false)], rows := SetPublished(s.rows, id, now))
  }

  /** The first Get of a Publish whose update found no row. */
  function Checking(s: System, t: nat): System {
    if t !in s.tasks || !s.tasks[t].Publishing? || !s.tasks[t].missed then s
    else if s.tasks[t].id in s.rows then s.(tasks := s.tasks[t := Refetching(s.tasks[t].id)]) else End(s, t)
  }

  /** The last Get of a Publish. */
  function Returning(s: System, t: nat): System {
    if t in s.tasks && (s.tasks[t].Refetching? || (s.tasks[t].Publishing? && !s.tasks[t].missed)) then
      if s.tasks[t].id in s.rows
      then End(s, t).(published := s.published + [Returned(s.rows[s.tasks[t].id], s.tasks[t].Refetching?)])
      else End(s, t)
    else s
  }

  function Failing(s: System, t: nat): System {
    if t in s.tasks && !Creating(s.tasks[t]) then End(s, t) else s
  }

  function Step(c: Crypto, s: System, e: Event): System {
    match e
    case BeginCreate(t, input, bundle, id) => Hashing(c, s, t, input, bundle, id)
    case PutBlob(t, outcome) => Putting(s, t, outcome)
    case InsertRow(t, ok, now) => Inserting(s, t, ok, now)
    case BeginPublish(t, id, now) => Updating(s, t, id, now)
    case CheckMissed(t) => Checking(s, t)
    case EndPublish(t) => Returning(s, t)
    case FailPublish(t) => Failing(s, t)
  }

  /** uuid.NewString never repeats an id. */
  predicate FreshId(s: System, e: Event) {
    e.BeginCreate? ==> e.id !in s.uploads
  }

  ghost predicate FreshIds(c: Crypto, s: System, es: seq<Event>)
    decreases |es|
  {
    es == [] || (FreshId(s, es[0]) && FreshIds(c, Step(c, s, es[0]), es[1..]))
  }

  function Run(c: Crypto, s: System, es: seq<Event>): System
    decreases |es|
  {
    if es == [] then s else Run(c, Step(c, s, es[0]), es[1..])
  }

  // ---------- every row has its blob ----------

  predicate Creating(task: Task) {
    task.Hashed? || task.Stored?
  }

  ghost predicate RowBacked(c: Crypto, r: Release, id: Id, blobs: map<string, Bytes>, uploads: map<Id, Bytes>) {
    && r.id == id && id in uploads && r.bundleStorageKey == StorageKey(id)
    && StorageKey(id) in blobs && blobs[StorageKey(id)] == uploads[id]
    && r.bundleHash == Sha256Hex(c, uploads[id]) && r.bundleSize == |uploads[id]|
  }

  ghost predicate TaskOk(c: Crypto, task: Task, rows: map<Id, Release>, blobs: map<string, Bytes>,
                         uploads: map<Id, Bytes>)
  {
    match task
    case Hashed(input, bundle, id) =>
      id in uploads && uploads[id] == bundle && Sha256Hex(c, bundle) == input.bundleHash && id !in rows
    case Stored(input, bundle, id) =>
      && id in uploads && uploads[id] == bundle && Sha256Hex(c, bundle) == input.bundleHash && id !in rows
      && StorageKey(id) in blobs && blobs[StorageKey(id)] == bundle
    case Publishing(id, missed) => missed || (id in rows && rows[id].publishedAt.Some?)
    case Refetching(id) => id in rows
  }

  ghost predicate RowsOk(c: Crypto, rows: map<Id, Release>, blobs: map<string, Bytes>, uploads: map<Id, Bytes>) {
    forall id :: id in rows ==> RowBacked(c, rows[id], id, blobs, uploads)
  }

  ghost predicate TasksOk(c: Crypto, tasks: map<nat, Task>, rows: map<Id, Release>, blobs: map<string, Bytes>,
                          uploads: map<Id, Bytes>) {
    && (forall t :: t in tasks ==> TaskOk(c, tasks[t], rows, blobs, uploads))
    && (forall t1, t2 :: t1 in tasks && t2 in tasks && t1 != t2 && Creating(tasks[t1]) && Creating(tasks[t2])
          ==> tasks[t1].id != tasks[t2].id)
  }

  /** The same row, or the same but published since. */
  predicate Grows(row: Release, row1: Release) {
    row1 == row || (row.publishedAt.None? && row1.publishedAt.Some? && row1 == row.(publishedAt := row1.publishedAt))
  }

  ghost predicate ReturnedOk(published: seq<Returned>, rows: map<Id, Release>) {
    forall i :: 0 <= i < |published| ==>
      var row := published[i].row;
      row.id in rows && Grows(row, rows[row.id]) && (!published[i].missed ==> row.publishedAt.Some?)
  }

  ghost predicate Invariant(c: Crypto, s: System) {
    && RowsOk(c, s.rows, s.blobs, s.uploads)
    && TasksOk(c, s.tasks, s.rows, s.blobs, s.uploads)
    && ReturnedOk(s.published, s.rows)
  }

  /** Rows only ever change by being published once. */
  ghost predicate RowsGrow(s: System, s1: System) {
    forall id :: id in s.rows ==> id in s1.rows && Grows(s.rows[id], s1.rows[id])
  }

  lemma HashingKeeps(c: Crypto, s: System, t: nat, input: CreateInput, bundle: Bytes, id: Id)
    requires Invariant(c, s) && id !in s.uploads
    ensures var s1 := Hashing(c, s, t, input, bundle, id); Invariant(c, s1) && RowsGrow(s, s1)
  {
    var uploads := s.uploads[id := bundle];
    forall x | x in s.rows ensures RowBacked(c, s.rows[x], x, s.blobs, uploads) {
      assert RowBacked(c, s.rows[x], x, s.blobs, s.uploads);
    }
    forall u | u in s.tasks
      ensures TaskOk(c, s.tasks[u], s.rows, s.blobs, uploads) && (Creating(s.tasks[u]) ==> s.tasks[u].id != id)
    {
      assert TaskOk(c, s.tasks[u], s.rows, s.blobs, s.uploads);
    }
    assert id !in s.rows by {
      assert id in s.rows ==> RowBacked(c, s.rows[id], id, s.blobs, s.uploads);
    }
  }

  lemma PuttingKeeps(c: Crypto, s: System, t: nat, outcome: PutOutcome)
    requires Invariant(c, s)
    ensures var s1 := Putting(s, t, outcome); Invariant(c, s1) && RowsGrow(s, s1)
  {
    if t in s.tasks && s.tasks[t].Hashed? {
      var mine := s.tasks[t].id;
      forall id ensures id != mine ==> StorageKey(id) != StorageKey(mine) {
        if StorageKey(id) == StorageKey(mine) { StorageKeyIsInjective(id, mine); }
      }
    }
  }

  lemma InsertingKeeps(c: Crypto, s: System, t: nat, ok: bool, now: int)
    requires Invariant(c, s)
    ensures var s1 := Inserting(s, t, ok, now); Invariant(c, s1) && RowsGrow(s, s1)
  {
  }

  lemma UpdatingKeeps(c: Crypto, s: System, t: nat, id: Id, now: int)
    requires Invariant(c, s)
    ensures var s1 := Updating(s, t, id, now); Invariant(c, s1) && RowsGrow(s, s1)
  {
    if t !in s.tasks && IsUuid(id) {
      var rows := if id in s.rows then SetPublished(s.rows, id, now) else s.rows;
      var task := Publishing(id, id !in s.rows);
      if id in s.rows {
        SetPublishedKeeps(c, s, id, now);
      }
      PublisherAdded(c, s.tasks, t, task, rows, s.blobs, s.uploads);
      assert Updating(s, t, id, now) == s.(tasks := s.tasks[t := task], rows := rows);
    }
  }

  lemma PublisherAdded(c: Crypto, tasks: map<nat, Task>, t: nat, task: Task, rows: map<Id, Release>,
                       blobs: map<string, Bytes>, uploads: map<Id, Bytes>)
    requires TasksOk(c, tasks, rows, blobs, uploads) && t !in tasks
    requires !Creating(task) && TaskOk(c, task, rows, blobs, uploads)
    ensures TasksOk(c, tasks[t := task], rows, blobs, uploads)
  {
  }

  lemma SetPublishedKeeps(c: Crypto, s: System, id: Id, now: int)
    requires Invariant(c, s) && id in s.rows
    ensures var rows := SetPublished(s.rows, id, now);
            && RowsOk(c, rows, s.blobs, s.uploads) && TasksOk(c, s.tasks, rows, s.blobs, s.uploads)
            && ReturnedOk(s.published, rows) && RowsGrow(s, s.(rows := rows)) && rows[id].publishedAt.Some?
  {
    var rows := SetPublished(s.rows, id, now);
    assert RowBacked(c, s.rows[id], id, s.blobs, s.uploads);
    assert RowBacked(c, rows[id], id, s.blobs, s.uploads);
    forall t | t in s.tasks ensures TaskOk(c, s.tasks[t], rows, s.blobs, s.uploads) {
      assert TaskOk(c, s.tasks[t], s.rows, s.blobs, s.uploads);
    }
  }

  lemma TaskEnds(c: Crypto, tasks: map<nat, Task>, t: nat, rows: map<Id, Release>, blobs: map<string, Bytes>,
                 uploads: map<Id, Bytes>)
    requires TasksOk(c, tasks, rows, blobs, uploads)
    ensures TasksOk(c, tasks - {t}, rows, blobs, uploads)
  {
  }

  lemma TaskGoesOn(c: Crypto, tasks: map<nat, Task>, t: nat, task: Task, rows: map<Id, Release>,
                   blobs: map<string, Bytes>, uploads: map<Id, Bytes>)
    requires TasksOk(c, tasks, rows, blobs, uploads)
    requires !Creating(task) && TaskOk(c, task, rows, blobs, uploads)
    ensures TasksOk(c, tasks[t := task], rows, blobs, uploads)
  {
  }

  lemma CheckingKeeps(c: Crypto, s: System, t: nat)
    requires Invariant(c, s)
    ensures Invariant(c, Checking(s, t)) && Checking(s, t).rows == s.rows
  {
    TaskEnds(c, s.tasks, t, s.rows, s.blobs, s.uploads);
    if Checking(s, t) != s && s.tasks[t].id in s.rows {
      TaskGoesOn(c, s.tasks, t, Refetching(s.tasks[t].id), s.rows, s.blobs, s.uploads);
    }
  }

  lemma ReturningKeeps(c: Crypto, s: System, t: nat)
    requires Invariant(c, s)
    ensures Invariant(c, Returning(s, t)) && Returning(s, t).rows == s.rows
  {
    TaskEnds(c, s.tasks, t, s.rows, s.blobs, s.uploads);
    if t in s.tasks && !Creating(s.tasks[t]) && s.tasks[t].id in s.rows {
      var id := s.tasks[t].id;
      assert TaskOk(c, s.tasks[t], s.rows, s.blobs, s.uploads);
      assert RowBacked(c, s.rows[id], id, s.blobs, s.uploads);
    }
  }

  lemma FailingKeeps(c: Crypto, s: System, t: nat)
    requires Invariant(c, s)
    ensures Invariant(c, Failing(s, t)) && Failing(s, t).rows == s.rows
  {
    TaskEnds(c, s.tasks, t, s.rows, s.blobs, s.uploads);
  }

  lemma StepReturns(c: Crypto, s: System, e: Event)
    ensures s.published <= Step(c, s, e).published
  {
  }

  lemma StepKeeps(c: Crypto, s: System, e: Event)
    requires Invariant(c, s) && FreshId(s, e)
    ensures Invariant(c, Step(c, s, e)) && RowsGrow(s, Step(c, s, e))
    ensures s.published <= Step(c, s, e).published
  {
    StepReturns(c, s, e);
    match e
    case BeginCreate(t, input, bundle, id) => HashingKeeps(c, s, t, input, bundle, id);
    case PutBlob(t, outcome) => PuttingKeeps(c, s, t, outcome);
    case InsertRow(t, ok, now) => InsertingKeeps(c, s, t, ok, now);
    case BeginPublish(t, id, now) => UpdatingKeeps(c, s, t, id, now);
    case CheckMissed(t) => CheckingKeeps(c, s, t);
    case EndPublish(t) => ReturningKeeps(c, s, t);
    case FailPublish(t) => FailingKeeps(c, s, t);
  }

  lemma {:induction false} RunKeeps(c: Crypto, s: System, es: seq<Event>)
    requires Invariant(c, s) && FreshIds(c, s, es)
    ensures Invariant(c, Run(c, s, es)) && RowsGrow(s, Run(c, s, es))
    ensures s.published <= Run(c, s, es).published
    decreases |es|
  {
    if es != [] {
      StepKeeps(c, s, es[0]);
      RunKeeps(c, Step(c, s, es[0]), es[1..]);
    }
  }

  /** With fresh ids, under any interleaving of calls and any failure between hashing, storing and inserting:
      every row's blob exists, is what was uploaded for that id, and has the row's hash and size. */
  lemma EveryRowHasItsBundle(c: Crypto, es: seq<Event>, id: Id)
    requires FreshIds(c, EMPTY, es) && id in Run(c, EMPTY, es).rows
    ensures var s := Run(c, EMPTY, es);
            && s.rows[id].bundleStorageKey in s.blobs && id in s.uploads
            && s.blobs[s.rows[id].bundleStorageKey] == s.uploads[id]
            && Unhex(s.rows[id].bundleHash) == Some(c.sha256(s.uploads[id]))
            && s.rows[id].bundleSize == |s.uploads[id]|
  {
    RunKeeps(c, EMPTY, es);
    var s := Run(c, EMPTY, es);
    HexIff(s.rows[id].bundleHash, c.sha256(s.uploads[id]));
    assert RowBacked(c, s.rows[id], id, s.blobs, s.uploads);
  }

  /** Once published a row never changes again, whatever calls follow. */
  lemma PublishedRowsAreFinal(c: Crypto, s: System, es: seq<Event>, id: Id)
    requires Invariant(c, s) && FreshIds(c, s, es) && id in s.rows && s.rows[id].publishedAt.Some?
    ensures id in Run(c, s, es).rows && Run(c, s, es).rows[id] == s.rows[id]
  {
    RunKeeps(c, s, es);
  }

  /** Event e sets published_at of id's row, or finds it set. */
  predicate Publishes(s: System, e: Event, id: Id) {
    e.BeginPublish? && e.id == id && e.task !in s.tasks && IsUuid(id) && id in s.rows
  }

  ghost predicate PublishedIn(c: Crypto, s: System, es: seq<Event>, id: Id) {
    exists k :: 0 <= k < |es| && Publishes(Run(c, s, es[..k]), es[k], id)
  }

  /** Only an insert and an update of Publish touch the table. */
  lemma StepRows(c: Crypto, s: System, e: Event)
    ensures !e.InsertRow? && !e.BeginPublish? ==> Step(c, s, e).rows == s.rows
    ensures e.InsertRow? ==> forall id :: id in Step(c, s, e).rows ==>
              if id in s.rows then Step(c, s, e).rows[id] == s.rows[id]
              else Step(c, s, e).rows[id].publishedAt.None?
    ensures e.BeginPublish? ==>
              Step(c, s, e).rows == if Publishes(s, e, e.id) then SetPublished(s.rows, e.id, e.now) else s.rows
  {
  }

  lemma StepPublishes(c: Crypto, s: System, e: Event, id: Id)
    requires id in Step(c, s, e).rows
    ensures Step(c, s, e).rows[id].publishedAt.Some? <==>
            (id in s.rows && s.rows[id].publishedAt.Some?) || Publishes(s, e, id)
  {
    StepRows(c, s, e);
  }

  lemma PublishedInStep(c: Crypto, s: System, es: seq<Event>, id: Id)
    requires es != []
    ensures PublishedIn(c, s, es, id) <==> Publishes(s, es[0], id) || PublishedIn(c, Step(c, s, es[0]), es[1..], id)
  {
    assert es[..0] == [] && Run(c, s, []) == s;
    forall k | 0 < k < |es| ensures Run(c, s, es[..k]) == Run(c, Step(c, s, es[0]), es[1..][..k - 1]) {
      assert es[..k][0] == es[0] && es[..k][1..] == es[1..][..k - 1];
    }
    if PublishedIn(c, Step(c, s, es[0]), es[1..], id) {
      var j :| 0 <= j < |es[1..]| && Publishes(Run(c, Step(c, s, es[0]), es[1..][..j]), es[1..][j], id);
      assert es[j + 1] == es[1..][j] && es[1..][..j] == es[1..][..j + 1 - 1];
    }
    if k :| 0 < k < |es| && Publishes(Run(c, s, es[..k]), es[k], id) {
      assert es[1..][k - 1] == es[k];
    }
  }

  /** A row is published exactly when an update of Publish has met it. */
  lemma {:induction false} RowIsPublishedIff(c: Crypto, s: System, es: seq<Event>, id: Id)
    requires Invariant(c, s) && FreshIds(c, s, es) && id in Run(c, s, es).rows
    ensures Run(c, s, es).rows[id].publishedAt.Some? <==>
            (id in s.rows && s.rows[id].publishedAt.Some?) || PublishedIn(c, s, es, id)
    decreases |es|
  {
    if es != [] {
      var s1 := Step(c, s, es[0]);
      StepKeeps(c, s, es[0]);
      RowIsPublishedIff(c, s1, es[1..], id);
      PublishedInStep(c, s, es, id);
      if id in s1.rows {
        StepPublishes(c, s, es[0], id);
      }
    }
  }

  lemma {:induction false} RunSnoc(c: Crypto, s: System, es: seq<Event>, e: Event)
    ensures Run(c, s, es + [e]) == Step(c, Run(c, s, es), e)
    ensures FreshIds(c, s, es) && FreshId(Run(c, s, es), e) ==> FreshIds(c, s, es + [e])
    decreases |es|
  {
    if es == [] {
      assert es + [e] == [e] && [e][1..] == [];
    } else {
      assert (es + [e])[1..] == es[1..] + [e];
      RunSnoc(c, Step(c, s, es[0]), es[1..], e);
    }
  }

  lemma {:induction false} RunAppend(c: Crypto, s: System, a: seq<Event>, b: seq<Event>)
    ensures Run(c, s, a + b) == Run(c, Run(c, s, a), b)
    ensures FreshIds(c, s, a + b) <==> FreshIds(c, s, a) && FreshIds(c, Run(c, s, a), b)
    decreases |a|
  {
    if a == [] {
      assert a + b == b;
    } else {
      assert (a + b)[1..] == a[1..] + b;
      RunAppend(c, Step(c, s, a[0]), a[1..], b);
    }
  }

  /** In every run: the row that a call of Publish returns is published if and only if the update of some call,
      perhaps another one, met the row before. */
  lemma PublishReturnsPublishedIff(c: Crypto, es: seq<Event>, t: nat)
    requires FreshIds(c, EMPTY, es)
    requires |Run(c, EMPTY, es + [EndPublish(t)]).published| > |Run(c, EMPTY, es).published|
    ensures var s := Run(c, EMPTY, es + [EndPublish(t)]);
            var row := s.published[|s.published| - 1].row;
            row.publishedAt.Some? <==> PublishedIn(c, EMPTY, es, row.id)
  {
    var s := Run(c, EMPTY, es);
    RunSnoc(c, EMPTY, es, EndPublish(t));
    RunKeeps(c, EMPTY, es);
    var id := s.tasks[t].id;
    assert RowBacked(c, s.rows[id], id, s.blobs, s.uploads);
    RowIsPublishedIff(c, EMPTY, es, id);
  }

  /** Any two rows that calls of Publish returned for one id, repeated or concurrent, are the same row if and only if
      both are published or neither is. A call whose own update met the row always returns a published one. */
  lemma PublishReturnsOneRow(c: Crypto, es: seq<Event>, i: nat, j: nat)
    requires FreshIds(c, EMPTY, es)
    requires i < |Run(c, EMPTY, es).published| && j < |Run(c, EMPTY, es).published|
    ensures var a, b := Run(c, EMPTY, es).published[i], Run(c, EMPTY, es).published[j];
            && (a.row.id == b.row.id ==> (a.row == b.row <==> a.row.publishedAt.Some? == b.row.publishedAt.Some?))
            && (!a.missed ==> a.row.publishedAt.Some?)
  {
    RunKeeps(c, EMPTY, es);
  }

  /** A Publish whose update runs before the row is inserted. */
  lemma UpdatedTooEarly(c: Crypto, input: CreateInput, bundle: Bytes, id: Id, now: int, later: int)
    returns (es: seq<Event>, s: System)
    requires IsUuid(id) && Sha256Hex(c, bundle) == input.bundleHash
    requires RowAllowed(NewRelease(id, input, bundle, later))
    ensures FreshIds(c, EMPTY, es) && s == Run(c, EMPTY, es)
    ensures s.rows == map[id := NewRelease(id, input, bundle, later)] && s.published == []
    ensures s.tasks == map[1 := Publishing(id, true)]
  {
    es, s := Extend(c, [], EMPTY, BeginCreate(0, input, bundle, id));
    es, s := Extend(c, es, s, PutBlob(0, PutDone));
    assert s.tasks == map[0 := Stored(input, bundle, id)];
    es, s := Extend(c, es, s, BeginPublish(1, id, now));
    es, s := Extend(c, es, s, InsertRow(0, true, later));
  }

  /** From the empty service: a Publish whose update runs before the row is inserted and whose reads run after it
      returns a row that is not published, and another call for that id then returns a different row. */
  lemma EarlyPublishReturnsUnpublished(c: Crypto, input: CreateInput, bundle: Bytes, id: Id, now: int, later: int)
    returns (es: seq<Event>)
    requires IsUuid(id) && Sha256Hex(c, bundle) == input.bundleHash
    requires RowAllowed(NewRelease(id, input, bundle, later))
    ensures FreshIds(c, EMPTY, es)
    ensures var row := NewRelease(id, input, bundle, later);
            Run(c, EMPTY, es).published ==
            [Returned(row, true), Returned(row.(publishedAt := Some(now)), false)]
  {
    var row := NewRelease(id, input, bundle, later);
    var s: System;
    es, s := UpdatedTooEarly(c, input, bundle, id, now, later);
    es, s := Extend(c, es, s, CheckMissed(1));
    es, s := Extend(c, es, s, EndPublish(1));
    assert s.tasks == map[] && s.rows == map[id := row] && s.published == [Returned(row, true)];
    es, s := Extend(c, es, s, BeginPublish(2, id, now));
    assert s.rows[id] == row.(publishedAt := Some(now));
    es, s := Extend(c, es, s, EndPublish(2));
  }

  lemma Extend(c: Crypto, es: seq<Event>, s: System, e: Event) returns (es1: seq<Event>, s1: System)
    requires FreshIds(c, EMPTY, es) && s == Run(c, EMPTY, es) && FreshId(s, e)
    ensures FreshIds(c, EMPTY, es1) && s1 == Run(c, EMPTY, es1) == Step(c, s, e)
  {
    RunSnoc(c, EMPTY, es, e);
    es1, s1 := es + [e], Step(c, s, e);
  }

  lemma TwoSteps(c: Crypto, s: System, e1: Event, e2: Event) returns (s2: System)
    ensures s2 == Run(c, s, [e1, e2]) == Step(c, Step(c, s, e1), e2)
  {
    assert [e1, e2][1..] == [e2] && [e2][1..] == [];
    assert Run(c, Step(c, s, e1), [e2]) == Step(c, Step(c, s, e1), e2);
    s2 := Run(c, s, [e1, e2]);
  }

  /** Fresh ids are needed: a second upload under the id of a row overwrites that row's blob before its own
      insert fails. */
  lemma RepeatedIdBreaksTheRow(c: Crypto, s: System, t: nat, id: Id, input: CreateInput, other: Bytes)
    requires Invariant(c, s) && id in s.rows && t !in s.tasks
    requires Sha256Hex(c, other) == input.bundleHash && other != s.uploads[id]
    requires Sha256Hex(c, other) != s.rows[id].bundleHash
    ensures var s1 := Run(c, s, [BeginCreate(t, input, other, id), PutBlob(t, PutDone)]);
            && id in s1.rows && s1.rows[id] == s.rows[id] && s1.rows[id].bundleStorageKey in s1.blobs
            && Sha256Hex(c, s1.blobs[s1.rows[id].bundleStorageKey]) != s1.rows[id].bundleHash
  {
    assert RowBacked(c, s.rows[id], id, s.blobs, s.uploads);
    var s1 := TwoSteps(c, s, BeginCreate(t, input, other, id), PutBlob(t, PutDone));
  }

  // ---------- listings ----------

  predicate Matches(r: Release, f: Filter) {
    && r.publishedAt.Some?
    && r.channel == f.channel && r.platform == f.platform && r.runtimeVersion == f.runtimeVersion
    && r.rolloutPercentage > 0
  }

  ghost predicate Lists(out: seq<Release>, id: Id) {
    exists i :: 0 <= i < |out| && out[i].id == id
  }

  /** out holds each of the selected rows once, newest first; rows created at the same time come in any order. */
  ghost predicate IsListing(rows: map<Id, Release>, selected: set<Id>, out: seq<Release>)
    requires selected <= rows.Keys
  {
    && (forall i :: 0 <= i < |out| ==> out[i].id in selected && out[i] == rows[out[i].id])
    && (forall id :: id in selected ==> Lists(out, id))
    && (forall i, j :: 0 <= i < j < |out| ==> out[i].id != out[j].id && out[i].createdAt >= out[j].createdAt)
  }

  function Matching(rows: map<Id, Release>, f: Filter): set<Id> {
    set id | id in rows && Matches(rows[id], f)
  }

  /** A row is in the listing of a request if and only if it is published, has the channel, platform and runtime version
      of the request, and is rolled out. */
  lemma ListedIff(rows: map<Id, Release>, f: Filter, out: seq<Release>, id: Id)
    requires IsListing(rows, Matching(rows, f), out) && id in rows
    ensures (exists i :: 0 <= i < |out| && out[i].id == id) <==>
            && rows[id].publishedAt.Some? && rows[id].rolloutPercentage > 0
            && rows[id].channel == f.channel && rows[id].platform == f.platform
            && rows[id].runtimeVersion == f.runtimeVersion
  {
    assert Lists(out, id) <==> id in Matching(rows, f);
  }

  /** The first entry of a listing is a newest row among those; the listing is empty exactly when there is none. */
  lemma FirstIsNewest(rows: map<Id, Release>, f: Filter, out: seq<Release>)
    requires IsListing(rows, Matching(rows, f), out)
    ensures out == [] <==> forall id :: id in rows ==>
              !(&& rows[id].publishedAt.Some? && rows[id].rolloutPercentage > 0
                && rows[id].channel == f.channel && rows[id].platform == f.platform
                && rows[id].runtimeVersion == f.runtimeVersion)
    ensures out != [] ==>
              && out[0].id in rows && out[0] == rows[out[0].id]
              && out[0].publishedAt.Some? && out[0].rolloutPercentage > 0
              && out[0].channel == f.channel && out[0].platform == f.platform
              && out[0].runtimeVersion == f.runtimeVersion
    ensures out != [] ==>
              forall id :: id in rows
                && rows[id].publishedAt.Some? && rows[id].rolloutPercentage > 0
                && rows[id].channel == f.channel && rows[id].platform == f.platform
                && rows[id].runtimeVersion == f.runtimeVersion
                ==> rows[id].createdAt <= out[0].createdAt
  {
    if out != [] {
      assert out[0].id in Matching(rows, f);
      forall id | id in rows && Matches(rows[id], f) ensures rows[id].createdAt <= out[0].createdAt {
        assert id in Matching(rows, f) && Lists(out, id);
        var i :| 0 <= i < |out| && out[i].id == id;
      }
    } else {
      forall id | id in rows ensures !Matches(rows[id], f) {
        assert id in Matching(rows, f) ==> Lists(out, id);
      }
    }
  }

  /** A listing has one entry for each selected row. */
  lemma {:induction false} ListingLength(rows: map<Id, Release>, selected: set<Id>, out: seq<Release>)
    requires selected <= rows.Keys && IsListing(rows, selected, out)
    ensures |out| == |selected|
    decreases |out|
  {
    if out == [] {
      forall id ensures id !in selected {
        assert id in selected ==> Lists(out, id);
      }
      assert selected == {};
    } else {
      var n := |out| - 1;
      var rest := selected - {out[n].id};
      forall id | id in rest ensures Lists(out[..n], id) {
        assert Lists(out, id);
        var i :| 0 <= i < |out| && out[i].id == id;
        assert out[..n][i].id == id;
      }
      ListingLength(rows, rest, out[..n]);
    }
  }

  lemma ListingExtends(rows: map<Id, Release>, selected: set<Id>, out: seq<Release>, id: Id)
    requires selected <= rows.Keys && IsListing(rows, selected, out)
    requires id in rows && id !in selected && rows[id].id == id
    requires forall i :: 0 <= i < |out| ==> out[i].createdAt >= rows[id].createdAt
    ensures IsListing(rows, selected + {id}, out + [rows[id]])
  {
    var out1 := out + [rows[id]];
    forall x | x in selected + {id} ensures Lists(out1, x) {
      if x == id {
        assert out1[|out|].id == id;
      } else {
        assert Lists(out, x);
        var i :| 0 <= i < |out| && out[i].id == x;
        assert out1[i].id == x;
      }
    }
  }

  lemma {:induction false} NewestExists(rows: map<Id, Release>, ids: set<Id>)
    requires ids != {} && ids <= rows.Keys
    ensures exists id :: id in ids && forall x :: x in ids ==> rows[x].createdAt <= rows[id].createdAt
    decreases |ids|
  {
    var id :| id in ids;
    if ids != {id} {
      var rest := ids - {id};
      NewestExists(rows, rest);
      var m :| m in rest && forall x :: x in rest ==> rows[x].createdAt <= rows[m].createdAt;
      var best := if rows[m].createdAt >= rows[id].createdAt then m else id;
      assert forall x :: x in ids ==> x == id || x in rest;
      assert best in ids && forall x :: x in ids ==> rows[x].createdAt <= rows[best].createdAt;
    }
  }

  // ---------- the service ----------

  class Service {
    const crypto: Crypto
    var blobs: map<string, Bytes>
    var rows: map<Id, Release>
    ghost var system: System

    /** The stores are those of the step system, in a state that its runs can reach. */
    ghost predicate Valid()
      reads this
    {
      system.blobs == blobs && system.rows == rows && Invariant(crypto, system)
    }

    constructor (crypto: Crypto)
      ensures Valid() && this.crypto == crypto && system == EMPTY
    {
      this.crypto := crypto;
      blobs, rows, system := map[], map[], EMPTY;
    }

    ghost method Act(e: Event)
      requires Invariant(crypto, system) && FreshId(system, e)
      requires Step(crypto, system, e).blobs == blobs && Step(crypto, system, e).rows == rows
      modifies `system
      ensures Valid() && system == Step(crypto, old(system), e)
    {
      StepKeeps(crypto, system, e);
      system := Step(crypto, system, e);
    }

    /** id is the generated one; t names the call among those in flight. An insert that was committed without the
        client seeing it leaves the row behind a failed call. */
    method Create(t: nat, input: CreateInput, bundle: Bytes, id: Id, put: PutOutcome, insert: Outcome, now: int)
      returns (r: Result<Release, Error>)
      requires Valid() && t !in system.tasks && id !in system.uploads
      modifies this
      ensures Valid() && system.tasks == old(system).tasks && id !in old(rows)
      ensures r == Failure(HashMismatch) <==> Unhex(input.bundleHash) != Some(crypto.sha256(bundle))
      ensures var rel := Release(id, input.version, input.platform, input.channel, input.runtimeVersion,
                                 input.bundleHash, input.signature, |bundle|, "releases/" + id + "/bundle",
                                 input.rolloutPercentage, None, now);
              var allowed := (input.platform == "ios" || input.platform == "android")
                             && 0 <= input.rolloutPercentage <= 100;
              var stored := Unhex(input.bundleHash) == Some(crypto.sha256(bundle)) && put.PutDone?;
              && (r.Success? <==> stored && insert.Written? && allowed)
              && (r.Success? ==> r.value == rel)
              && (if stored && !insert.Refused? && allowed
                  then rows == old(rows)[id := rel] && rel.bundleStorageKey in blobs
                       && blobs[rel.bundleStorageKey] == bundle
                  else rows == old(rows))
    {
      HexIff(input.bundleHash, crypto.sha256(bundle));
      if Sha256Hex(crypto, bundle) != input.bundleHash {
        NewIdHasNoRow(id);
        return Failure(HashMismatch);
      }
      Begin(t, input, bundle, id);
      assert (old(system).tasks[t := Hashed(input, bundle, id)] - {t}) == old(system).tasks;
      r := Store(t, input, bundle, id, put, insert, now);
    }

    lemma NewIdHasNoRow(id: Id)
      requires Valid() && id !in system.uploads
      ensures id !in rows
    {
      assert id in rows ==> RowBacked(crypto, rows[id], id, blobs, system.uploads);
    }

    /** Create once the hash was checked: first the blob, then the row. */
    method Store(t: nat, input: CreateInput, bundle: Bytes, id: Id, put: PutOutcome, insert: Outcome, now: int)
      returns (r: Result<Release, Error>)
      requires Valid() && t in system.tasks && system.tasks[t] == Hashed(input, bundle, id)
      modifies this
      ensures Valid() && system.tasks == old(system).tasks - {t}
      ensures var rel := NewRelease(id, input, bundle, now);
              && r == (if !put.PutDone? then Failure(StoreFailed)
                       else if insert.Written? && RowAllowed(rel) then Success(rel) else Failure(InsertFailed))
              && (if put.PutDone? && !insert.Refused? && RowAllowed(rel)
                  then rows == old(rows)[id := rel] && StorageKey(id) in blobs && blobs[StorageKey(id)] == bundle
                  else rows == old(rows))
    {
      var stored := Put(t, id, bundle, put);
      if !stored {
        return Failure(StoreFailed);
      }
      assert (old(system).tasks[t := Stored(input, bundle, id)] - {t}) == old(system).tasks - {t};
      r := Insert(t, input, bundle, id, insert, now);
    }

    ghost method Begin(t: nat, input: CreateInput, bundle: Bytes, id: Id)
      requires Valid() && t !in system.tasks && id !in system.uploads && Sha256Hex(crypto, bundle) == input.bundleHash
      modifies `system
      ensures Valid() && system.tasks == old(system).tasks[t := Hashed(input, bundle, id)] && id !in rows
    {
      NewIdHasNoRow(id);
      Act(BeginCreate(t, input, bundle, id));
    }

    method Put(t: nat, id: Id, bundle: Bytes, put: PutOutcome) returns (ok: bool)
      requires Valid() && t in system.tasks && system.tasks[t].Hashed?
      requires system.tasks[t].id == id && system.tasks[t].bundle == bundle
      modifies this
      ensures Valid() && rows == old(rows) && ok == put.PutDone?
      ensures system.uploads == old(system).uploads
      ensures if ok then system.tasks == old(system).tasks[t := Stored(old(system).tasks[t].input, bundle, id)]
              else system.tasks == old(system).tasks - {t}
    {
      var storageKey := StorageKey(id);
      if put.PutTorn? {
        blobs := blobs[storageKey := bundle[..Min(put.k, |bundle|)]];
      } else if put.PutDone? {
        blobs := blobs[storageKey := bundle];
      }
      Act(PutBlob(t, put));
      ok := put.PutDone?;
    }

    method Insert(t: nat, input: CreateInput, bundle: Bytes, id: Id, insert: Outcome, now: int)
      returns (r: Result<Release, Error>)
      requires Valid() && t in system.tasks && system.tasks[t] == Stored(input, bundle, id)
      modifies this
      ensures Valid() && system.tasks == old(system).tasks - {t}
      ensures blobs == old(blobs) && StorageKey(id) in blobs && blobs[StorageKey(id)] == bundle
      ensures var rel := NewRelease(id, input, bundle, now);
              && r == (if insert.Written? && RowAllowed(rel) then Success(rel) else Failure(InsertFailed))
              && rows == if !insert.Refused? && RowAllowed(rel) then old(rows)[id := rel] else old(rows)
    {
      assert TaskOk(crypto, system.tasks[t], rows, blobs, system.uploads);
      var rel := NewRelease(id, input, bundle, now);
      var committed := !insert.Refused? && RowAllowed(rel) && id !in rows;
      if committed {
        rows := rows[id := rel];
      }
      Act(InsertRow(t, committed, now));
      r := if committed && insert.Written? then Success(rel) else Failure(InsertFailed);
    }

    /** answers is false when the query fails. */
    method Get(id: Id, answers: bool) returns (r: Result<Release, Error>)
      ensures !IsUuid(id) ==> r == Failure(InvalidId)
      ensures IsUuid(id) ==>
                r == if !answers then Failure(QueryFailed)
                     else if id in rows then Success(rows[id]) else Failure(NotFound)
    {
      if !IsUuid(id) {
        return Failure(InvalidId);
      }
      if !answers {
        return Failure(QueryFailed);
      }
      if id !in rows {
        return Failure(NotFound);
      }
      r := Success(rows[id]);
    }

    /** An id whose row exists is published unless the update is refused, even if the call fails: published_at is set
        if it was not, and nothing else changes. */
    method Publish(t: nat, id: Id, update: Outcome, answers1: bool, answers2: bool, now: int)
      returns (r: Result<Release, Error>)
      requires Valid() && t !in system.tasks
      modifies this
      ensures Valid() && blobs == old(blobs) && system.tasks == old(system).tasks
      ensures rows == if IsUuid(id) && id in old(rows) && !update.Refused? && old(rows)[id].publishedAt.None?
                      then old(rows)[id := old(rows)[id].(publishedAt := Some(now))] else old(rows)
      ensures var found := id in old(rows) && old(rows)[id].publishedAt.None?;
              r == if !IsUuid(id) then Failure(InvalidId)
                   else if !update.Written? then Failure(UpdateFailed)
                   else if (!found && !answers1) || (id in old(rows) && !answers2) then Failure(QueryFailed)
                   else if id !in old(rows) then Failure(NotFound)
                   else Success(rows[id])
      ensures r.Success? ==> r.value.publishedAt.Some?
      ensures system.published ==
              if r.Success? then old(system).published + [Returned(r.value, false)] else old(system).published
    {
      if !IsUuid(id) {
        return Failure(InvalidId);
      }
      if update.Refused? {
        return Failure(UpdateFailed);
      }
      var affected := Update(t, id, now);
      if update.Unseen? {
        EndCall(t, FailPublish(t));
        return Failure(UpdateFailed);
      }
      if !affected {
        r := Get(id, answers1);
        if r.Failure? {
          EndCall(t, if answers1 then CheckMissed(t) else FailPublish(t));
          return;
        }
      }
      r := Get(id, answers2);
      EndCall(t, if answers2 then EndPublish(t) else FailPublish(t));
    }

    /** UPDATE ... WHERE published_at IS NULL, and the number of rows that it affected. */
    method Update(t: nat, id: Id, now: int) returns (affected: bool)
      requires Valid() && t !in system.tasks && IsUuid(id)
      modifies this
      ensures Valid() && blobs == old(blobs)
      ensures rows == if id in old(rows) then SetPublished(old(rows), id, now) else old(rows)
      ensures affected == (id in old(rows) && old(rows)[id].publishedAt.None?)
      ensures system.tasks == old(system).tasks[t := Publishing(id, id !in old(rows))]
      ensures system.published == old(system).published
    {
      affected := id in rows && rows[id].publishedAt.None?;
      if affected {
        rows := rows[id := rows[id].(publishedAt := Some(now))];
      }
      Act(BeginPublish(t, id, now));
    }

    ghost method EndCall(t: nat, e: Event)
      requires Valid() && t in system.tasks && system.tasks[t].Publishing?
      requires e == FailPublish(t) || (e == CheckMissed(t) && system.tasks[t].missed && system.tasks[t].id !in rows)
               || (e == EndPublish(t) && !system.tasks[t].missed)
      modifies `system
      ensures Valid() && system.tasks == old(system).tasks - {t}
      ensures system.published ==
              if e.EndPublish? && old(system).tasks[t].id in rows
              then old(system).published + [Returned(rows[old(system).tasks[t].id], false)]
              else old(system).published
    {
      Act(e);
    }

    /** The result set of SELECT ... ORDER BY created_at DESC, in some order that SQL allows. */
    method Query(selected: set<Id>) returns (out: seq<Release>)
      requires selected <= rows.Keys && forall id :: id in rows ==> rows[id].id == id
      ensures IsListing(rows, selected, out)
    {
      out := [];
      var remaining := selected;
      while remaining != {}
        invariant remaining <= selected
        invariant IsListing(rows, selected - remaining, out)
        invariant forall i, id :: 0 <= i < |out| && id in remaining ==> out[i].createdAt >= rows[id].createdAt
        decreases |remaining|
      {
        NewestExists(rows, remaining);
        var id :| id in remaining && forall x :: x in remaining ==> rows[x].createdAt <= rows[id].createdAt;
        ListingExtends(rows, selected - remaining, out, id);
        assert (selected - remaining) + {id} == selected - (remaining - {id});
        out := out + [rows[id]];
        remaining := remaining - {id};
      }
      assert selected - {} == selected;
    }

    /** The rows of a result set; stop is where scanning a row, or after the last one the connection, fails. */
    method ScanReleases(result: seq<Release>, stop: Option<nat>) returns (out: Result<seq<Release>, Error>)
      ensures out == if stop.Some? && stop.value <= |result| then Failure(QueryFailed) else Success(result)
    {
      var scanned := [];
      for i := 0 to |result|
        invariant scanned == result[..i]
        invariant stop.Some? ==> stop.value >= i
      {
        if stop == Some(i) {
          return Failure(QueryFailed);
        }
        scanned := scanned + [result[i]];
      }
      assert result[..|result|] == result;
      out := if stop == Some(|result|) then Failure(QueryFailed) else Success(scanned);
    }

    /** A listing is whole or an error, never a part. */
    method List(answers: bool, stop: Option<nat>) returns (out: Result<seq<Release>, Error>)
      requires Valid()
      ensures out.Success? ==> IsListing(rows, rows.Keys, out.value)
      ensures out.Success? ==>
                && (forall i :: 0 <= i < |out.value| ==>
                      out.value[i].id in rows && out.value[i] == rows[out.value[i].id])
                && (forall i, j :: 0 <= i < j < |out.value| ==>
                      out.value[i].id != out.value[j].id && out.value[i].createdAt >= out.value[j].createdAt)
                && (forall id :: id in rows ==> exists i :: 0 <= i < |out.value| && out.value[i].id == id)
      ensures out.Failure? <==> !answers || (stop.Some? && stop.value <= |rows.Keys|)
      ensures out.Failure? ==> out.error == QueryFailed
    {
      assert forall id :: id in rows ==> RowBacked(crypto, rows[id], id, blobs, system.uploads);
      if !answers {
        return Failure(QueryFailed);
      }
      var result := Query(rows.Keys);
      ListingLength(rows, rows.Keys, result);
      assert forall id :: id in rows ==> Lists(result, id);
      out := ScanReleases(result, stop);
    }

    method ListUpdates(f: Filter, answers: bool, stop: Option<nat>) returns (out: Result<seq<Release>, Error>)
      requires Valid()
      ensures out.Success? ==> IsListing(rows, Matching(rows, f), out.value)
      ensures out.Success? ==>
                && (forall i :: 0 <= i < |out.value| ==>
                      out.value[i].id in rows && out.value[i] == rows[out.value[i].id])
                && (forall i, j :: 0 <= i < j < |out.value| ==>
                      out.value[i].id != out.value[j].id && out.value[i].createdAt >= out.value[j].createdAt)
      ensures out.Success? ==>
                forall id :: id in rows ==>
                  ((exists i :: 0 <= i < |out.value| && out.value[i].id == id) <==>
                   && rows[id].publishedAt.Some? && rows[id].rolloutPercentage > 0
                   && rows[id].channel == f.channel && rows[id].platform == f.platform
                   && rows[id].runtimeVersion == f.runtimeVersion)
      ensures out.Failure? <==> !answers || (stop.Some? && stop.value <= |Matching(rows, f)|)
      ensures out.Failure? ==> out.error == QueryFailed
    {
      assert forall id :: id in rows ==> RowBacked(crypto, rows[id], id, blobs, system.uploads);
      if !answers {
        return Failure(QueryFailed);
      }
      var result := Query(Matching(rows, f));
      ListingLength(rows, Matching(rows, f), result);
      forall id | id in rows
        ensures (exists i :: 0 <= i < |result| && result[i].id == id) <==>
                && rows[id].publishedAt.Some? && rows[id].rolloutPercentage > 0
                && rows[id].channel == f.channel && rows[id].platform == f.platform
                && rows[id].runtimeVersion == f.runtimeVersion
      {
        ListedIff(rows, f, result, id);
      }
      out := ScanReleases(result, stop);
    }

    /** For a known id: the row, and exactly the bytes that were uploaded for it, with the row's hash. The blob is
        always there; only the query or the store itself can fail. */
    method OpenBundle(id: Id, answers: bool, opens: bool) returns (r: Result<(Bytes, Release), Error>)
      requires Valid()
      ensures !IsUuid(id) ==> r == Failure(InvalidId)
      ensures IsUuid(id) && !answers ==> r == Failure(QueryFailed)
      ensures IsUuid(id) && answers && id !in rows ==> r == Failure(NotFound)
      ensures IsUuid(id) && answers && id in rows && !opens ==> r == Failure(StoreFailed)
      ensures IsUuid(id) && answers && id in rows && opens ==>
                && r.Success? && r.value.1 == rows[id] && id in system.uploads
                && r.value.0 == system.uploads[id] && Sha256Hex(crypto, r.value.0) == rows[id].bundleHash
    {
      var rel := Get(id, answers);
      if rel.Failure? {
        return Failure(rel.error);
      }
      if !opens {
        return Failure(StoreFailed);
      }
      assert RowBacked(crypto, rows[id], id, blobs, system.uploads);
      r := Success((blobs[rel.value.bundleStorageKey], rel.value));
    }
  }
}
