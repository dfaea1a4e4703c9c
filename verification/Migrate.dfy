/** Schema migrations applied by any number of server instances that share one database. */
module Migrate {
  import opened Common

  // ---------- the file set ----------

  datatype Entry = Entry(name: string, isDir: bool)

  predicate IsMigration(e: Entry) {
    !e.isDir && |e.name| >= 4 && e.name[|e.name| - 4..] == ".sql"
  }

  function MigrationNames(entries: seq<Entry>): seq<string> {
    if entries == [] then []
    else (if IsMigration(entries[0]) then [entries[0].name] else []) + MigrationNames(entries[1..])
  }

  /** Lexicographic order, as sort.Strings compares. */
  predicate Less(a: string, b: string) {
    b != [] && (a == [] || a[0] < b[0] || (a[0] == b[0] && Less(a[1..], b[1..])))
  }

  predicate Sorted(names: seq<string>) {
    forall i, j :: 0 <= i < j < |names| ==> !Less(names[j], names[i])
  }

  predicate Distinct(names: seq<string>) {
    forall i, j :: 0 <= i < j < |names| ==> names[i] != names[j]
  }

  lemma {:induction false} LessIsTransitive(a: string, b: string, c: string)
    requires !Less(b, a) && !Less(c, b)
    ensures !Less(c, a)
  {
    if a != [] && b != [] && c != [] && a[0] == b[0] == c[0] {
      LessIsTransitive(a[1..], b[1..], c[1..]);
    }
  }

  lemma {:induction false} LessIsAsymmetric(a: string, b: string)
    requires Less(a, b)
    ensures !Less(b, a)
  {
    if a != [] && a[0] == b[0] {
      LessIsAsymmetric(a[1..], b[1..]);
    }
  }

  function Insert(x: string, names: seq<string>): seq<string> {
    if names == [] || !Less(names[0], x) then [x] + names
    else [names[0]] + Insert(x, names[1..])
  }

  function Sort(names: seq<string>): seq<string> {
    if names == [] then [] else Insert(names[0], Sort(names[1..]))
  }

  lemma FrontSorted(x: string, rest: seq<string>)
    requires Sorted(rest) && forall y :: y in rest ==> !Less(y, x)
    ensures Sorted([x] + rest)
  {
    var r := [x] + rest;
    forall i, j | 0 <= i < j < |r| ensures !Less(r[j], r[i]) {
      assert r[j] == rest[j - 1];
    }
  }

  lemma {:induction false} InsertSorts(x: string, names: seq<string>)
    requires Sorted(names)
    ensures Sorted(Insert(x, names)) && multiset(Insert(x, names)) == multiset(names) + multiset{x}
  {
    if names == [] || !Less(names[0], x) {
      forall y | y in names ensures !Less(y, x) {
        var j :| 0 <= j < |names| && names[j] == y;
        if j > 0 {
          LessIsTransitive(x, names[0], y);
        }
      }
      FrontSorted(x, names);
    } else {
      var rest := Insert(x, names[1..]);
      InsertSorts(x, names[1..]);
      assert names == [names[0]] + names[1..];
      LessIsAsymmetric(names[0], x);
      forall y | y in rest ensures !Less(y, names[0]) {
        assert y in multiset(rest);
        assert y == x || y in names[1..];
      }
      FrontSorted(names[0], rest);
    }
  }

  lemma {:induction false} SortSorts(names: seq<string>)
    ensures Sorted(Sort(names)) && multiset(Sort(names)) == multiset(names)
  {
    if names != [] {
      SortSorts(names[1..]);
      InsertSorts(names[0], Sort(names[1..]));
      assert names == [names[0]] + names[1..];
    }
  }

  /** A directory has no two entries of the same name. */
  predicate DistinctEntries(entries: seq<Entry>) {
    forall i, j :: 0 <= i < j < |entries| ==> entries[i].name != entries[j].name
  }

  lemma {:induction false} NamesAreEntries(entries: seq<Entry>, x: string)
    ensures x in MigrationNames(entries) <==>
            exists i :: 0 <= i < |entries| && IsMigration(entries[i]) && entries[i].name == x
  {
    if entries != [] {
      NamesAreEntries(entries[1..], x);
      if x in MigrationNames(entries[1..]) {
        var i :| 0 <= i < |entries[1..]| && IsMigration(entries[1..][i]) && entries[1..][i].name == x;
        assert entries[i + 1] == entries[1..][i];
      }
      if i :| 0 <= i < |entries| && IsMigration(entries[i]) && entries[i].name == x {
        assert i > 0 ==> entries[1..][i - 1] == entries[i];
      }
    }
  }

  lemma {:induction false} NamesAreDistinct(entries: seq<Entry>)
    requires DistinctEntries(entries)
    ensures Distinct(MigrationNames(entries))
  {
    if entries != [] {
      NamesAreDistinct(entries[1..]);
      NamesAreEntries(entries[1..], entries[0].name);
    }
  }

  lemma {:induction false} DistinctCounts(names: seq<string>, x: string)
    requires Distinct(names)
    ensures multiset(names)[x] <= 1
    decreases |names|
  {
    if names != [] {
      DistinctCounts(names[1..], x);
      assert names == [names[0]] + names[1..];
      assert names[0] !in names[1..];
    }
  }

  lemma CountsDistinct(names: seq<string>)
    requires forall x :: multiset(names)[x] <= 1
    ensures Distinct(names)
  {
    forall i, j | 0 <= i < j < |names| ensures names[i] != names[j] {
      assert names == names[..j] + [names[j]] + names[j + 1..];
      assert multiset(names) == multiset(names[..j]) + multiset{names[j]} + multiset(names[j + 1..]);
      assert names[i] in names[..j];
      assert multiset(names)[names[j]] <= 1;
    }
  }

  /** a is a prefix of b, or has the smaller character at the first position where they differ. */
  ghost predicate InOrder(a: string, b: string) {
    exists k: nat :: k <= |a| && k <= |b| && a[..k] == b[..k] && (k == |a| || (k < |b| && a[k] < b[k]))
  }

  lemma {:induction false} NotLessIsInOrder(a: string, b: string)
    requires !Less(b, a)
    ensures InOrder(a, b)
  {
    if a == [] || b == [] || a[0] != b[0] {
      assert a[..0] == b[..0];
    } else {
      NotLessIsInOrder(a[1..], b[1..]);
      var j: nat :| j <= |a[1..]| && j <= |b[1..]| && a[1..][..j] == b[1..][..j]
                    && (j == |a[1..]| || (j < |b[1..]| && a[1..][j] < b[1..][j]));
      assert a[..j + 1] == [a[0]] + a[1..][..j] && b[..j + 1] == [b[0]] + b[1..][..j];
    }
  }

  lemma PrefixesAgree(a: string, b: string, j: nat, k: nat)
    requires k < j <= |a| && j <= |b| && a[..j] == b[..j]
    ensures a[k] == b[k]
  {
    assert a[..j][k] == a[k] && b[..j][k] == b[k];
  }

  /** The order is the usual one of characters, and goes one way only. */
  lemma OrderIsStrict(a: string, b: string, k: nat)
    requires k < |a| && k < |b| && a[..k] == b[..k] && a[k] < b[k]
    ensures InOrder(a, b) && !InOrder(b, a)
  {
    forall j: nat | j <= |a| && j <= |b| && b[..j] == a[..j]
      ensures j <= k && (j < k ==> b[j] == a[j])
    {
      if j > k {
        PrefixesAgree(a, b, j, k);
      } else if j < k {
        PrefixesAgree(a, b, k, j);
      }
    }
  }

  /** The names that end in ".sql" are those with some stem before it. */
  lemma HasStem(name: string)
    ensures (|name| >= 4 && name[|name| - 4..] == ".sql") <==> exists stem: string :: name == stem + ".sql"
  {
    if |name| >= 4 && name[|name| - 4..] == ".sql" {
      assert name == name[..|name| - 4] + ".sql";
    }
    if stem: string :| name == stem + ".sql" {
      assert name[|name| - 4..] == ".sql";
    }
  }

  lemma WalkedIff(entries: seq<Entry>, x: string)
    ensures x in Sort(MigrationNames(entries)) <==>
            (exists e :: e in entries && !e.isDir && e.name == x) && exists stem: string :: x == stem + ".sql"
  {
    var names := MigrationNames(entries);
    SortSorts(names);
    assert x in Sort(names) <==> x in multiset(Sort(names));
    assert x in names <==> x in multiset(names);
    NamesAreEntries(entries, x);
    HasStem(x);
    if e :| e in entries && !e.isDir && e.name == x {
      var i :| 0 <= i < |entries| && entries[i] == e;
      HasStem(e.name);
    }
  }

  /** The names that Migrate walks: exactly the files of the directory whose names end in ".sql", once each, in the
      order of their characters. */
  lemma SortedNames(entries: seq<Entry>)
    requires DistinctEntries(entries)
    ensures var names := Sort(MigrationNames(entries)); Sorted(names) && Distinct(names)
    ensures forall x :: x in Sort(MigrationNames(entries)) <==>
              (exists e :: e in entries && !e.isDir && e.name == x) && exists stem: string :: x == stem + ".sql"
    ensures var names := Sort(MigrationNames(entries));
            forall i, j :: 0 <= i < j < |names| ==> InOrder(names[i], names[j])
  {
    var names := MigrationNames(entries);
    NamesAreDistinct(entries);
    SortSorts(names);
    forall x ensures multiset(Sort(names))[x] <= 1 {
      DistinctCounts(names, x);
    }
    CountsDistinct(Sort(names));
    forall x ensures x in Sort(names) <==>
                     (exists e :: e in entries && !e.isDir && e.name == x) && exists stem: string :: x == stem + ".sql"
    {
      WalkedIff(entries, x);
    }
    forall i, j | 0 <= i < j < |Sort(names)| ensures InOrder(Sort(names)[i], Sort(names)[j]) {
      NotLessIsInOrder(Sort(names)[i], Sort(names)[j]);
    }
  }

  // ---------- the database and its clients ----------

  /** schema_migrations in insertion order, and the migrations whose SQL took effect, in commit order. */
  datatype Db = Db(table: bool, applied: seq<string>, effects: seq<string>)

  datatype Cause = Environment | Conflict  // Conflict: the insert hit a row that another instance made

  datatype Pc = Idle | Waiting | Locked | Loop(k: nat) | Apply(k: nat) | Succeeded | Failed(cause: Cause)

  predicate Holding(pc: Pc) {
    pc.Locked? || pc.Loop? || pc.Apply?
  }

  datatype System = System(db: Db, lock: Option<nat>, pcs: seq<Pc>)

  datatype Kind =
    | Begin           // a connection was obtained
    | Acquire         // pg_advisory_lock returned
    | CreateTable
    | Check           // SELECT EXISTS
    | Commit          // the migration and its row, in one transaction
    | CommitUnseen    // committed, but the client only sees an error
    | Fail            // any other error, or the connection or the process is gone
    | Finish          // return nil
    | Restart

  datatype Action = Action(who: nat, kind: Kind)

  function Release(s: System, i: nat): Option<nat> {
    if s.lock == Some(i) then None else s.lock
  }

  function Apply1(db: Db, name: string): Db {
    Db(db.table, db.applied + [name], db.effects + [name])
  }

  predicate Enabled(names: seq<string>, s: System, a: Action) {
    a.who < |s.pcs| &&
    var pc := s.pcs[a.who];
    match a.kind
    case Begin => pc.Idle?
    case Acquire => pc.Waiting? && s.lock.None?
    case CreateTable => pc.Locked?
    case Check => pc.Loop? && pc.k < |names|
    case Commit => pc.Apply? && pc.k < |names|
    case CommitUnseen => pc.Apply? && pc.k < |names| && names[pc.k] !in s.db.applied
    case Fail => !pc.Succeeded? && !pc.Failed?
    case Finish => pc.Loop? && pc.k >= |names|
    case Restart => pc.Succeeded? || pc.Failed?
  }

  function Next(names: seq<string>, s: System, a: Action): System
    requires Enabled(names, s, a)
  {
    var i, pc := a.who, s.pcs[a.who];
    match a.kind
    case Begin => s.(pcs := s.pcs[i := Waiting])
    case Acquire => s.(lock := Some(i), pcs := s.pcs[i := Locked])
    case CreateTable => s.(db := s.db.(table := true), pcs := s.pcs[i := Loop(0)])
    case Check => s.(pcs := s.pcs[i := if names[pc.k] in s.db.applied then Loop(pc.k + 1) else Apply(pc.k)])
    case Commit =>
      if names[pc.k] in s.db.applied then System(s.db, Release(s, i), s.pcs[i := Failed(Conflict)])
      else System(Apply1(s.db, names[pc.k]), s.lock, s.pcs[i := Loop(pc.k + 1)])
    case CommitUnseen =>
      System(Apply1(s.db, names[pc.k]), Release(s, i), s.pcs[i := Failed(Environment)])
    case Fail => System(s.db, Release(s, i), s.pcs[i := Failed(Environment)])
    case Finish => System(s.db, Release(s, i), s.pcs[i := Succeeded])
    case Restart => s.(pcs := s.pcs[i := Idle])
  }

  ghost predicate IsRun(names: seq<string>, s: System, actions: seq<Action>)
    decreases |actions|
  {
    actions == [] || (Enabled(names, s, actions[0]) && IsRun(names, Next(names, s, actions[0]), actions[1..]))
  }

  ghost function Play(names: seq<string>, s: System, actions: seq<Action>): System
    requires IsRun(names, s, actions)
    decreases |actions|
  {
    if actions == [] then s else Play(names, Next(names, s, actions[0]), actions[1..])
  }

  // ---------- safety over every run ----------

  /** One instance's place in the loop agrees with the table. */
  predicate Placed(names: seq<string>, db: Db, pc: Pc) {
    match pc
    case Loop(k) => db.table && k <= |db.applied|
    case Apply(k) => db.table && k == |db.applied| < |names|
    case Failed(cause) => cause.Environment?
    case _ => true
  }

  ghost predicate Safe(names: seq<string>, s: System) {
    && s.db.applied <= names && s.db.effects == s.db.applied
    && (forall i :: 0 <= i < |s.pcs| ==> Placed(names, s.db, s.pcs[i]))
    && (forall i :: 0 <= i < |s.pcs| && Holding(s.pcs[i]) ==> s.lock == Some(i))
    && (s.lock.Some? ==> s.lock.value < |s.pcs| && Holding(s.pcs[s.lock.value]))
    && (forall i :: 0 <= i < |s.pcs| && s.pcs[i].Succeeded? ==> s.db.applied == names)
  }

  lemma DistinctPrefix(names: seq<string>, n: nat, k: nat)
    requires Distinct(names) && n <= |names| && k < |names|
    ensures names[k] in names[..n] <==> k < n
  {
    if k < n {
      assert names[..n][k] == names[k];
    }
  }

  lemma NextIsSafe(names: seq<string>, s: System, a: Action)
    requires Distinct(names) && Safe(names, s) && Enabled(names, s, a)
    ensures Safe(names, Next(names, s, a))
    ensures s.db.applied <= Next(names, s, a).db.applied
  {
    var pc := s.pcs[a.who];
    var n := |s.db.applied|;
    assert s.db.applied == names[..n];
    if a.kind.Check? || a.kind.Commit? || a.kind.CommitUnseen? {
      DistinctPrefix(names, n, pc.k);
    }
    var s1 := Next(names, s, a);
    if a.kind.Commit? || a.kind.CommitUnseen? {
      assert s1.db.applied == names[..n + 1];
    }
    assert forall i :: 0 <= i < |s.pcs| && i != a.who ==> s1.pcs[i] == s.pcs[i];
  }

  /** An instance can always go on, unless it waits for a lock that another instance holds, and then that one can. */
  lemma NobodyIsStuck(names: seq<string>, s: System, i: nat)
    requires Safe(names, s) && i < |s.pcs|
    ensures (exists kind: Kind :: kind != Fail && Enabled(names, s, Action(i, kind))) <==>
            !(s.pcs[i].Waiting? && s.lock.Some?)
    ensures s.lock.Some? ==>
              s.lock.value < |s.pcs| && !s.pcs[s.lock.value].Waiting?
              && exists kind: Kind :: kind != Fail && Enabled(names, s, Action(s.lock.value, kind))
  {
    if !(s.pcs[i].Waiting? && s.lock.Some?) {
      CanGoOn(names, s, i);
    }
    if s.lock.Some? {
      CanGoOn(names, s, s.lock.value);
    }
  }

  lemma CanGoOn(names: seq<string>, s: System, i: nat)
    requires Safe(names, s) && i < |s.pcs| && !(s.pcs[i].Waiting? && s.lock.Some?)
    ensures exists kind: Kind :: kind != Fail && Enabled(names, s, Action(i, kind))
  {
    assert Placed(names, s.db, s.pcs[i]);
    var kind := match s.pcs[i]
                case Idle => Begin
                case Waiting => Acquire
                case Locked => CreateTable
                case Loop(k) => if k < |names| then Check else Finish
                case Apply(k) => Commit
                case Succeeded => Restart
                case Failed(_) => Restart;
    assert Enabled(names, s, Action(i, kind));
  }

  /** In every interleaving of any number of instances, with failures and restarts at any step: the applied
      migrations are a prefix of the sorted names, each one's SQL took effect exactly once, in that order, with
      its row; nobody fails because of another instance; and whoever returned success saw all of them applied. */
  lemma {:induction false} EveryRunIsSafe(names: seq<string>, s: System, actions: seq<Action>)
    requires Distinct(names) && Safe(names, s) && IsRun(names, s, actions)
    ensures Safe(names, Play(names, s, actions))
    ensures s.db.applied <= Play(names, s, actions).db.applied
    decreases |actions|
  {
    if actions != [] {
      NextIsSafe(names, s, actions[0]);
      EveryRunIsSafe(names, Next(names, s, actions[0]), actions[1..]);
    }
  }

  /** A database that nobody has migrated, and n instances that have not started. */
  function Fresh(n: nat): System {
    System(Db(false, [], []), None, seq(n, i => Idle))
  }

  lemma FreshRunsAreSafe(entries: seq<Entry>, n: nat, actions: seq<Action>)
    requires DistinctEntries(entries)
    requires IsRun(Sort(MigrationNames(entries)), Fresh(n), actions)
    ensures var names := Sort(MigrationNames(entries));
            var s := Play(names, Fresh(n), actions);
            && (forall x :: x in names <==>
                  (exists e :: e in entries && !e.isDir && e.name == x) && exists stem: string :: x == stem + ".sql")
            && (forall i, j :: 0 <= i < j < |names| ==> InOrder(names[i], names[j]))
            && s.db.applied <= names && s.db.effects == s.db.applied && Distinct(s.db.effects)
            && |s.pcs| == n
            && (forall i :: 0 <= i < n ==> s.pcs[i] != Failed(Conflict))
            && (forall i :: 0 <= i < n && s.pcs[i].Succeeded? ==> s.db.applied == names)
  {
    var names := Sort(MigrationNames(entries));
    SortedNames(entries);
    EveryRunIsSafe(names, Fresh(n), actions);
    InstancesStay(names, Fresh(n), actions);
  }

  lemma {:induction false} InstancesStay(names: seq<string>, s: System, actions: seq<Action>)
    requires IsRun(names, s, actions)
    ensures |Play(names, s, actions).pcs| == |s.pcs|
    decreases |actions|
  {
    if actions != [] {
      InstancesStay(names, Next(names, s, actions[0]), actions[1..]);
    }
  }

  // ---------- one instance's call ----------

  lemma {:induction false} RunAppend(names: seq<string>, s: System, actions: seq<Action>, a: Action)
    requires IsRun(names, s, actions) && Enabled(names, Play(names, s, actions), a)
    ensures IsRun(names, s, actions + [a])
    ensures Play(names, s, actions + [a]) == Next(names, Play(names, s, actions), a)
    decreases |actions|
  {
    if actions == [] {
      assert [] + [a] == [a] && [a][1..] == [];
    } else {
      assert (actions + [a])[1..] == actions[1..] + [a];
      RunAppend(names, Next(names, s, actions[0]), actions[1..], a);
    }
  }

  /** What other instances do leaves an instance where it is. */
  lemma {:induction false} OthersLeaveMe(names: seq<string>, s: System, others: seq<Action>, me: nat)
    requires IsRun(names, s, others) && me < |s.pcs| && forall a :: a in others ==> a.who != me
    ensures var s1 := Play(names, s, others); |s1.pcs| == |s.pcs| && s1.pcs[me] == s.pcs[me]
    decreases |others|
  {
    if others != [] {
      OthersLeaveMe(names, Next(names, s, others[0]), others[1..], me);
    }
  }

  lemma {:induction false} RunJoin(names: seq<string>, s: System, a: seq<Action>, b: seq<Action>)
    requires IsRun(names, s, a) && IsRun(names, Play(names, s, a), b)
    ensures IsRun(names, s, a + b) && Play(names, s, a + b) == Play(names, Play(names, s, a), b)
    decreases |a|
  {
    if a == [] {
      assert a + b == b;
    } else {
      assert (a + b)[1..] == a[1..] + b;
      RunJoin(names, Next(names, s, a[0]), a[1..], b);
    }
  }

  /** While `me` waits for the lock the others take these actions, and leave the tables as `found`. */
  ghost predicate Waits(names: seq<string>, s: System, me: nat, env: Env, others: seq<Action>, found: Db) {
    && me < |s.pcs| && s.pcs[me].Idle?
    && (forall a :: a in others ==> a.who != me)
    && var s1 := Next(names, s, Action(me, Begin));
       && IsRun(names, s1, others) && Play(names, s1, others).db == found
       && (env.locks ==> Play(names, s1, others).lock.None?)
  }

  datatype Outcome = Committed | RolledBack | CommittedUnseen

  /** How the connection and the database answer one call of Migrate. */
  datatype Env = Env(connects: bool, locks: bool, creates: bool, checks: string -> bool, commits: string -> Outcome)

  ghost predicate Healthy(env: Env, names: seq<string>) {
    && env.connects && env.locks && env.creates
    && forall x :: x in names ==> env.checks(x) && env.commits(x).Committed?
  }

  lemma NextName(entries: seq<Entry>, i: nat, found: seq<string>)
    requires i < |entries|
    ensures found + MigrationNames(entries[i..]) ==
            (if IsMigration(entries[i]) then found + [entries[i].name] else found) + MigrationNames(entries[i + 1..])
  {
    assert entries[i..][0] == entries[i] && entries[i..][1..] == entries[i + 1..];
  }

  class Database {
    const entries: seq<Entry>
    var table: bool
    var applied: seq<string>
    var effects: seq<string>
    ghost var origin: System
    ghost var trace: seq<Action>
    ghost var system: System

    ghost function Names(): seq<string> {
      Sort(MigrationNames(entries))
    }

    /** The tables are those of a run of the instances so far. */
    ghost predicate Valid()
      reads this
    {
      && DistinctEntries(entries)
      && Safe(Names(), system)
      && system.db == Db(table, applied, effects)
      && IsRun(Names(), origin, trace) && system == Play(Names(), origin, trace)
    }

    constructor (entries: seq<Entry>, instances: nat)
      requires DistinctEntries(entries)
      ensures Valid() && this.entries == entries && system == Fresh(instances) && trace == []
    {
      this.entries := entries;
      table, applied, effects := false, [], [];
      origin, trace, system := Fresh(instances), [], Fresh(instances);
    }

    /** Only `me` acted since the call began, apart from `others`, and nothing that was applied is gone. */
    twostate predicate Progress(me: nat, others: seq<Action>)
      reads this
    {
      && Valid() && origin == old(origin) && old(trace) <= trace
      && (forall a :: a in trace[|old(trace)|..] ==> a.who == me || a in others)
      && |system.pcs| == |old(system).pcs|
      && old(applied) <= applied
    }

    ghost method Act(who: nat, kind: Kind)
      requires DistinctEntries(entries) && Safe(Names(), system)
      requires IsRun(Names(), origin, trace) && system == Play(Names(), origin, trace)
      requires Enabled(Names(), system, Action(who, kind))
      requires Next(Names(), system, Action(who, kind)).db == Db(table, applied, effects)
      modifies `trace, `system
      ensures Valid() && system == Next(Names(), old(system), Action(who, kind))
      ensures trace == old(trace) + [Action(who, kind)]
    {
      SortedNames(entries);
      NextIsSafe(Names(), system, Action(who, kind));
      RunAppend(Names(), origin, trace, Action(who, kind));
      trace := trace + [Action(who, kind)];
      system := Next(Names(), system, Action(who, kind));
    }

    /** The .sql files of the directory, each once, in the order of their characters. */
    method CollectNames() returns (names: seq<string>)
      requires DistinctEntries(entries)
      ensures names == Names()
      ensures forall x :: x in names <==>
                (exists e :: e in entries && !e.isDir && e.name == x) && exists stem: string :: x == stem + ".sql"
      ensures forall i, j :: 0 <= i < j < |names| ==> names[i] != names[j] && InOrder(names[i], names[j])
    {
      var found := FilterNames();
      names := Sort(found);
      SortedNames(entries);
    }

    method FilterNames() returns (found: seq<string>)
      ensures found == MigrationNames(entries)
    {
      found := [];
      var i := 0;
      assert entries[0..] == entries;
      while i < |entries|
        invariant 0 <= i <= |entries|
        invariant found + MigrationNames(entries[i..]) == MigrationNames(entries)
      {
        NextName(entries, i, found);
        if IsMigration(entries[i]) {
          found := found + [entries[i].name];
        }
        i := i + 1;
      }
      assert entries[i..] == [] && found + [] == found;
    }

    /** What the others do while `me` waits, as the run sees it. */
    ghost method Observe(me: nat, others: seq<Action>)
      requires DistinctEntries(entries) && Safe(Names(), system)
      requires IsRun(Names(), origin, trace) && system == Play(Names(), origin, trace)
      requires IsRun(Names(), system, others) && Play(Names(), system, others).db == Db(table, applied, effects)
      requires me < |system.pcs| && forall a :: a in others ==> a.who != me
      modifies `trace, `system
      ensures Valid() && system == Play(Names(), old(system), others) && trace == old(trace) + others
      ensures |system.pcs| == |old(system).pcs| && system.pcs[me] == old(system).pcs[me]
      ensures old(system).db.applied <= applied
    {
      SortedNames(entries);
      EveryRunIsSafe(Names(), system, others);
      RunJoin(Names(), origin, trace, others);
      OthersLeaveMe(Names(), system, others, me);
      trace := trace + others;
      system := Play(Names(), system, others);
    }

    /** pg_advisory_lock, which returns when the lock is free. */
    method AwaitLock(me: nat, locks: bool, ghost others: seq<Action>, found: Db)
      requires Valid() && me < |system.pcs| && system.pcs[me].Waiting?
      requires IsRun(Names(), system, others) && Play(Names(), system, others).db == found
      requires forall a :: a in others ==> a.who != me
      requires locks ==> Play(Names(), system, others).lock.None?
      modifies this
      ensures Progress(me, others)
      ensures if locks then system.lock == Some(me) && system.pcs[me] == Locked
              else system.lock != Some(me) && system.pcs[me] == Failed(Environment)
    {
      table, applied, effects := found.table, found.applied, found.effects;
      Observe(me, others);
      Act(me, if locks then Acquire else Fail);
    }

    /** The connection, and the wait for the lock. */
    method Lock(me: nat, env: Env, ghost others: seq<Action>, found: Db) returns (ok: bool)
      requires Valid() && Waits(Names(), system, me, env, others, found)
      modifies this
      ensures Progress(me, others)
      ensures ok == (env.connects && env.locks)
      ensures if ok then system.lock == Some(me) && system.pcs[me] == Locked
              else system.lock != Some(me) && system.pcs[me] == Failed(Environment)
    {
      if !env.connects {
        Act(me, Fail);
        return false;
      }
      Act(me, Begin);
      AwaitLock(me, env.locks, others, found);
      ok := env.locks;
    }

    /** From the connection to the migrations table. */
    method Prepare(me: nat, env: Env, ghost others: seq<Action>, found: Db) returns (ok: bool)
      requires Valid() && Waits(Names(), system, me, env, others, found)
      modifies this
      ensures Progress(me, others)
      ensures ok == (env.connects && env.locks && env.creates)
      ensures if ok then system.lock == Some(me) && system.pcs[me] == Loop(0)
              else system.lock != Some(me) && system.pcs[me] == Failed(Environment)
    {
      ok := Lock(me, env, others, found);
      if !ok {
        return;
      }
      if !env.creates {
        Act(me, Fail);
        return false;
      }
      table := true;
      Act(me, CreateTable);
    }

    /** One turn of the loop: check, then the migration and its row in one transaction. */
    method Step(me: nat, env: Env, name: string) returns (ok: bool)
      requires Valid() && me < |system.pcs| && system.lock == Some(me)
      requires system.pcs[me].Loop? && system.pcs[me].k < |Names()| && Names()[system.pcs[me].k] == name
      modifies this
      ensures Progress(me, [])
      ensures env.checks(name) && env.commits(name).Committed? ==> ok
      ensures if ok then system.lock == Some(me) && system.pcs[me] == Loop(old(system).pcs[me].k + 1)
              else system.lock.None? && system.pcs[me] == Failed(Environment)
    {
      ghost var k := system.pcs[me].k;
      SortedNames(entries);
      DistinctPrefix(Names(), |applied|, k);
      assert applied == Names()[..|applied|];
      if !env.checks(name) {
        Act(me, Fail);
        return false;
      }
      Act(me, Check);
      if name in applied {
        return true;
      }
      ok := Transact(me, env.commits(name), name);
    }

    method Transact(me: nat, outcome: Outcome, name: string) returns (ok: bool)
      requires Valid() && me < |system.pcs| && system.lock == Some(me)
      requires system.pcs[me].Apply? && system.pcs[me].k < |Names()| && Names()[system.pcs[me].k] == name
      requires name !in applied
      modifies this
      ensures Progress(me, [])
      ensures ok == outcome.Committed?
      ensures if ok then system.lock == Some(me) && system.pcs[me] == Loop(old(system).pcs[me].k + 1)
              else system.lock.None? && system.pcs[me] == Failed(Environment)
    {
      ok := outcome.Committed?;
      if outcome.RolledBack? {
        Act(me, Fail);
        return;
      }
      applied, effects := applied + [name], effects + [name];
      Act(me, if ok then Commit else CommitUnseen);
    }

    /** Migrate, called by instance `me` at any moment. While it waits for the lock the others may do anything that
        they can; its own part of the run is a sequence of its actions in the system above. It returns without error
        only when every migration is applied, and returns without error when nothing of its own fails, whatever the
        others did, even after calls that stopped half way. */
    method Migrate(me: nat, env: Env, ghost others: seq<Action>, found: Db) returns (ok: bool)
      requires Valid() && Waits(Names(), system, me, env, others, found)
      modifies this
      ensures Progress(me, others)
      ensures system.lock != Some(me) && system.pcs[me] == if ok then Succeeded else Failed(Environment)
      ensures ok ==> applied == Names()
      ensures ok ==> forall x :: x in applied <==>
                (exists e :: e in entries && !e.isDir && e.name == x) && exists stem: string :: x == stem + ".sql"
      ensures forall i, j :: 0 <= i < j < |applied| ==> InOrder(applied[i], applied[j])
      ensures Healthy(env, Names()) ==> ok
      ensures applied <= Names() && effects == applied
    {
      ok := Prepare(me, env, others, found);
      if ok {
        ok := ApplyAll(me, env, others);
      }
      AppliedInOrder();
    }

    /** Migrate once the lock is held. */
    method ApplyAll(me: nat, env: Env, ghost others: seq<Action>) returns (ok: bool)
      requires Valid() && me < |system.pcs| && system.lock == Some(me) && system.pcs[me] == Loop(0)
      modifies this
      ensures Progress(me, others)
      ensures system.lock != Some(me) && system.pcs[me] == if ok then Succeeded else Failed(Environment)
      ensures ok ==> applied == Names()
      ensures ok ==> forall x :: x in applied <==>
                (exists e :: e in entries && !e.isDir && e.name == x) && exists stem: string :: x == stem + ".sql"
      ensures (forall x :: x in Names() ==> env.checks(x) && env.commits(x).Committed?) ==> ok
    {
      ok := true;
      var names := CollectNames();
      var k := 0;
      while k < |names|
        invariant 0 <= k <= |names| && names == Names() && ok
        invariant Progress(me, others)
        invariant system.lock == Some(me) && system.pcs[me] == Loop(k)
      {
        ok := Step(me, env, names[k]);
        if !ok {
          return;
        }
        k := k + 1;
      }
      Act(me, Finish);
    }

    /** What was applied, in order, whether or not everything was. */
    lemma AppliedInOrder()
      requires Valid()
      ensures forall i, j :: 0 <= i < j < |applied| ==> InOrder(applied[i], applied[j])
    {
      SortedNames(entries);
      forall i | 0 <= i < |applied| ensures applied[i] == Names()[i] {
        assert applied == Names()[..|applied|];
      }
    }
  }
}
