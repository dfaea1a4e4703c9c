/** The SDK facade: asynchronous calls that interleave at every await over three module variables. */
module SalvePush {
  import opened Common
  import opened Signing
  import opened Update

  /** A call that waits. `sync` says that the call belongs to sync(), which goes on to install. */
  datatype Task =
    | Checking                                                              // sync awaits fetchLatestUpdate
    | Downloading(config: Config, update: UpdateInfo, sync: bool)           // awaits the bundle
    | Verifying(config: Config, update: UpdateInfo, bytes: Bytes, sync: bool)  // awaits verifyRelease
    | Continuing                                                            // sync, before its installUpdate
    | Installing                                                            // awaits the native module

  /** The module variables, the waiting calls, and what was handed to the native installUpdate so far. */
  datatype State = State(
    config: Option<Config>,
    verifiedBundle: Option<Bytes>,
    verifiedBundleReleaseId: Option<Id>,
    tasks: map<nat, Task>,
    handed: seq<(Id, Bytes)>)

  const START := State(None, None, None, map[], [])

  /** One synchronous stretch of code, from a call or from the end of an await to the next await. */
  datatype Event =
    | Configure(config: Config)
    | DownloadUpdate(task: nat, update: UpdateInfo)
    | InstallUpdate(task: nat)
    | Sync(task: nat)
    | CheckReply(task: nat, releases: Response<seq<RawReleaseMetadata>>)
    | BundleReply(task: nat, bundle: Response<Bytes>)
    | VerifyReply(task: nat)
    | ContinueSync(task: nat)
    | NativeReply(task: nat, ok: bool)

  predicate Waits(s: State, t: nat) {
    t in s.tasks
  }

  function End(s: State, t: nat): State {
    s.(tasks := s.tasks - {t})
  }

  function Await(s: State, t: nat, task: Task): State {
    s.(tasks := s.tasks[t := task])
  }

  /** downloadUpdate up to its first await; without a configuration it throws. */
  function BeginDownload(s: State, t: nat, update: UpdateInfo, sync: bool): State {
    if s.config.None? then End(s, t) else Await(s, t, Downloading(s.config.value, update, sync))
  }

  /** installUpdate up to its await. An id that is missing or empty counts as nothing downloaded. */
  function BeginInstall(s: State, t: nat): State {
    if s.config.None? || s.verifiedBundle.None? || s.verifiedBundleReleaseId.None?
       || s.verifiedBundleReleaseId.value == []
    then End(s, t)
    else Await(s, t, Installing).(handed := s.handed + [(s.verifiedBundleReleaseId.value, s.verifiedBundle.value)])
  }

  function Step(c: Crypto, s: State, e: Event): State {
    match e
    case Configure(config) => s.(config := Some(config))
    case DownloadUpdate(t, update) => if Waits(s, t) then s else BeginDownload(s, t, update, false)
    case InstallUpdate(t) => if Waits(s, t) then s else BeginInstall(s, t)
    case Sync(t) => if Waits(s, t) || s.config.None? then s else Await(s, t, Checking)
    case CheckReply(t, releases) =>
      if !Waits(s, t) || !s.tasks[t].Checking? then s else
      (match FetchLatestUpdate(releases)
       case Success(Some(update)) => BeginDownload(s, t, update, true)
       case _ => End(s, t))
    case BundleReply(t, bundle) =>
      if !Waits(s, t) || !s.tasks[t].Downloading? then s else
      (match CheckHash(c, s.tasks[t].update, bundle)
       case Success(bytes) => Await(s, t, Verifying(s.tasks[t].config, s.tasks[t].update, bytes, s.tasks[t].sync))
       case Failure(_) => End(s, t))
    case VerifyReply(t) =>
      if !Waits(s, t) || !s.tasks[t].Verifying? then s else
      (match CheckSignature(c, s.tasks[t].config, s.tasks[t].update, s.tasks[t].bytes)
       case Success(bytes) =>
         var s1 := s.(verifiedBundle := Some(bytes), verifiedBundleReleaseId := Some(s.tasks[t].update.id));
         if s.tasks[t].sync then Await(s1, t, Continuing) else End(s1, t)
       case Failure(_) => End(s, t))
    case ContinueSync(t) => if !Waits(s, t) || !s.tasks[t].Continuing? then s else BeginInstall(s, t)
    case NativeReply(t, ok) =>
      if !Waits(s, t) || !s.tasks[t].Installing? then s
      else if ok then End(s, t).(verifiedBundle := None, verifiedBundleReleaseId := None)
      else End(s, t)
  }

  ghost function RunFrom(c: Crypto, s: State, es: seq<Event>): State
    decreases |es|
  {
    if es == [] then s else Step(c, RunFrom(c, s, es[..|es| - 1]), es[|es| - 1])
  }

  ghost function Run(c: Crypto, es: seq<Event>): State {
    RunFrom(c, START, es)
  }

  lemma RunSnoc(c: Crypto, s: State, es: seq<Event>, e: Event)
    ensures RunFrom(c, s, es + [e]) == Step(c, RunFrom(c, s, es), e)
  {
    assert (es + [e])[..|es|] == es;
  }

  lemma {:induction false} RunAppend(c: Crypto, s: State, a: seq<Event>, b: seq<Event>)
    ensures RunFrom(c, s, a + b) == RunFrom(c, RunFrom(c, s, a), b)
    decreases |b|
  {
    if b == [] {
      assert a + b == a;
    } else {
      var n := |b| - 1;
      assert a + b == (a + b[..n]) + [b[n]] && b == b[..n] + [b[n]];
      RunSnoc(c, s, a + b[..n], b[n]);
      RunAppend(c, s, a, b[..n]);
      RunSnoc(c, RunFrom(c, s, a), b[..n], b[n]);
    }
  }

  // ---------- where the handed bundles come from ----------

  /** The argument of the last configure call, if there was one. */
  function LastConfigured(es: seq<Event>): Option<Config> {
    if es == [] then None
    else if es[|es| - 1].Configure? then Some(es[|es| - 1].config) else LastConfigured(es[..|es| - 1])
  }

  lemma {:induction false} LastConfiguredIff(es: seq<Event>, config: Config)
    ensures LastConfigured(es) == Some(config) <==>
            exists k :: 0 <= k < |es| && es[k] == Configure(config) && forall j :: k < j < |es| ==> !es[j].Configure?
    ensures LastConfigured(es) == None <==> forall j :: 0 <= j < |es| ==> !es[j].Configure?
  {
    if es != [] && !es[|es| - 1].Configure? {
      var n := |es| - 1;
      LastConfiguredIff(es[..n], config);
      if k :| 0 <= k < |es| && es[k] == Configure(config) && forall j :: k < j < |es| ==> !es[j].Configure? {
        assert es[..n][k] == Configure(config);
      }
      if k :| 0 <= k < n && es[..n][k] == Configure(config) && forall j :: k < j < n ==> !es[..n][j].Configure? {
        assert es[k] == Configure(config);
        forall j | k < j < |es| ensures !es[j].Configure? {
          assert j < n ==> es[..n][j] == es[j];
        }
      }
      assert forall j :: 0 <= j < n ==> es[..n][j] == es[j];
    }
  }

  /** In every run the configuration in force is that of the last configure call. */
  lemma {:induction false} LastConfigureWins(c: Crypto, es: seq<Event>)
    ensures Run(c, es).config == LastConfigured(es)
    decreases |es|
  {
    if es != [] {
      var before, e := es[..|es| - 1], es[|es| - 1];
      LastConfigureWins(c, before);
      StepConfig(c, Run(c, before), e);
    }
  }

  lemma StepConfig(c: Crypto, s: State, e: Event)
    ensures Step(c, s, e).config == if e.Configure? then Some(e.config) else s.config
  {
  }

  /** Event k of the run starts the download of u, under the last configuration before it. */
  ghost predicate StartsDownload(c: Crypto, es: seq<Event>, k: nat, config: Config, u: UpdateInfo)
    requires k < |es|
  {
    var s := Run(c, es[..k]);
    LastConfigured(es[..k]) == Some(config) &&
    match es[k]
    case DownloadUpdate(t, update) => update == u && !Waits(s, t)
    case CheckReply(t, releases) =>
      Waits(s, t) && s.tasks[t].Checking? && FetchLatestUpdate(releases) == Success(Some(u))
    case _ => false
  }

  ghost predicate Started(c: Crypto, es: seq<Event>, config: Config, u: UpdateInfo) {
    exists k :: 0 <= k < |es| && StartsDownload(c, es, k, config, u)
  }

  /** One download of the run got these bytes for this id, and they passed both checks under the configuration
      in force when it started. */
  ghost predicate Verified(c: Crypto, es: seq<Event>, id: Id, bytes: Bytes) {
    exists config, u :: Started(c, es, config, u) && u.id == id && Passes(c, config, u, bytes)
  }

  ghost predicate TaskOk(c: Crypto, es: seq<Event>, task: Task) {
    match task
    case Downloading(config, u, _) => Started(c, es, config, u)
    case Verifying(config, u, bytes, _) => Started(c, es, config, u) && Sha256Hex(c, bytes) == u.bundleHash
    case _ => true
  }

  ghost predicate Invariant(c: Crypto, es: seq<Event>, s: State) {
    && (s.verifiedBundle.None? <==> s.verifiedBundleReleaseId.None?)
    && (s.verifiedBundle.Some? ==> Verified(c, es, s.verifiedBundleReleaseId.value, s.verifiedBundle.value))
    && (forall t :: t in s.tasks ==> TaskOk(c, es, s.tasks[t]))
    && (forall i :: 0 <= i < |s.handed| ==> Verified(c, es, s.handed[i].0, s.handed[i].1))
  }

  lemma StartedGrows(c: Crypto, es: seq<Event>, e: Event, config: Config, u: UpdateInfo)
    requires Started(c, es, config, u)
    ensures Started(c, es + [e], config, u)
  {
    var k :| 0 <= k < |es| && StartsDownload(c, es, k, config, u);
    assert (es + [e])[..k] == es[..k];
    assert StartsDownload(c, es + [e], k, config, u);
  }

  lemma InvariantGrows(c: Crypto, es: seq<Event>, e: Event, s: State)
    requires Invariant(c, es, s)
    ensures Invariant(c, es + [e], s)
  {
    forall config, u | Started(c, es, config, u) ensures Started(c, es + [e], config, u) {
      StartedGrows(c, es, e, config, u);
    }
    forall id, bytes | Verified(c, es, id, bytes) ensures Verified(c, es + [e], id, bytes) {
    }
    forall t | t in s.tasks ensures TaskOk(c, es + [e], s.tasks[t]) {
      assert TaskOk(c, es, s.tasks[t]);
    }
  }

  lemma StartsNow(c: Crypto, es: seq<Event>, e: Event, config: Config, u: UpdateInfo)
    requires StartsDownload(c, es + [e], |es|, config, u)
    ensures Started(c, es + [e], config, u)
  {
  }

  /** A download that begins now begins under the last configuration. */
  lemma InForceNow(c: Crypto, es: seq<Event>, e: Event)
    ensures LastConfigured((es + [e])[..|es|]) == Run(c, es).config && (es + [e])[..|es|] == es
  {
    LastConfigureWins(c, es);
    assert (es + [e])[..|es|] == es;
  }

  lemma BeginDownloadKeeps(c: Crypto, es: seq<Event>, s: State, t: nat, u: UpdateInfo, sync: bool)
    requires Invariant(c, es, s)
    requires s.config.Some? ==> Started(c, es, s.config.value, u)
    ensures Invariant(c, es, BeginDownload(s, t, u, sync))
  {
  }

  lemma BeginInstallKeeps(c: Crypto, es: seq<Event>, s: State, t: nat)
    requires Invariant(c, es, s)
    ensures Invariant(c, es, BeginInstall(s, t))
  {
  }

  lemma RepliesKeep(c: Crypto, es: seq<Event>, s: State, e: Event)
    requires Invariant(c, es, s) && (e.BundleReply? || e.VerifyReply?)
    ensures Invariant(c, es, Step(c, s, e))
  {
    if Waits(s, e.task) {
      assert TaskOk(c, es, s.tasks[e.task]);
      if e.VerifyReply? && s.tasks[e.task].Verifying? {
        var Verifying(config, u, bytes, _) := s.tasks[e.task];
        if Passes(c, config, u, bytes) {
          assert Verified(c, es, u.id, bytes);
        }
      }
    }
  }

  lemma CallKeeps(c: Crypto, es: seq<Event>, e: Event, s: State)
    requires Invariant(c, es + [e], s) && e.DownloadUpdate? && s == Run(c, es)
    ensures Invariant(c, es + [e], Step(c, s, e))
  {
    InForceNow(c, es, e);
    if !Waits(s, e.task) {
      if s.config.Some? { StartsNow(c, es, e, s.config.value, e.update); }
      BeginDownloadKeeps(c, es + [e], s, e.task, e.update, false);
    }
  }

  lemma CheckKeeps(c: Crypto, es: seq<Event>, e: Event, s: State)
    requires Invariant(c, es + [e], s) && e.CheckReply? && s == Run(c, es)
    ensures Invariant(c, es + [e], Step(c, s, e))
  {
    InForceNow(c, es, e);
    var latest := FetchLatestUpdate(e.releases);
    if Waits(s, e.task) && s.tasks[e.task].Checking? && latest.Success? && latest.value.Some? {
      if s.config.Some? { StartsNow(c, es, e, s.config.value, latest.value.value); }
      BeginDownloadKeeps(c, es + [e], s, e.task, latest.value.value, true);
    }
  }

  lemma NativeReplyKeeps(c: Crypto, es: seq<Event>, s: State, t: nat, ok: bool)
    requires Invariant(c, es, s)
    ensures Invariant(c, es, Step(c, s, NativeReply(t, ok)))
  {
    EndKeeps(c, es, s, t);
  }

  lemma EndKeeps(c: Crypto, es: seq<Event>, s: State, t: nat)
    requires Invariant(c, es, s)
    ensures Invariant(c, es, End(s, t))
  {
  }

  lemma CallsKeep(c: Crypto, es: seq<Event>, s: State, e: Event)
    requires Invariant(c, es, s) && (e.Configure? || e.Sync?)
    ensures Invariant(c, es, Step(c, s, e))
  {
  }

  lemma StepKeepsInvariant(c: Crypto, es: seq<Event>, e: Event)
    requires Invariant(c, es, Run(c, es))
    ensures Invariant(c, es + [e], Step(c, Run(c, es), e))
  {
    var es1, s := es + [e], Run(c, es);
    InvariantGrows(c, es, e, s);
    match e
    case DownloadUpdate(_, _) => CallKeeps(c, es, e, s);
    case CheckReply(_, _) => CheckKeeps(c, es, e, s);
    case BundleReply(_, _) => RepliesKeep(c, es1, s, e);
    case VerifyReply(_) => RepliesKeep(c, es1, s, e);
    case InstallUpdate(t) => BeginInstallKeeps(c, es1, s, t);
    case ContinueSync(t) => BeginInstallKeeps(c, es1, s, t);
    case NativeReply(t, ok) => NativeReplyKeeps(c, es1, s, t, ok);
    case _ => CallsKeep(c, es1, s, e);
  }

  lemma {:induction false} RunKeepsInvariant(c: Crypto, es: seq<Event>)
    ensures Invariant(c, es, Run(c, es))
    decreases |es|
  {
    if es != [] {
      var before := es[..|es| - 1];
      RunKeepsInvariant(c, before);
      StepKeepsInvariant(c, before, es[|es| - 1]);
      assert before + [es[|es| - 1]] == es;
      assert Run(c, es) == Step(c, Run(c, before), es[|es| - 1]);
    }
  }

  /** In every interleaving of configure, downloadUpdate, installUpdate and sync, against any server: each pair
      handed to the native module comes from one download that passed the hash and the signature check under the
      configuration in force when it started, and the two variables are null together at every await. */
  lemma OnlyVerifiedBundlesAreInstalled(c: Crypto, es: seq<Event>, i: nat)
    requires i < |Run(c, es).handed|
    ensures var (id, bytes) := Run(c, es).handed[i];
            exists k, config, u :: 0 <= k < |es| && StartsDownload(c, es, k, config, u)
                                   && u.id == id && Passes(c, config, u, bytes)
    ensures var s := Run(c, es); s.verifiedBundle.None? <==> s.verifiedBundleReleaseId.None?
  {
    RunKeepsInvariant(c, es);
    var (id, bytes) := Run(c, es).handed[i];
    assert Verified(c, es, id, bytes);
    var config, u :| Started(c, es, config, u) && u.id == id && Passes(c, config, u, bytes);
    var k :| 0 <= k < |es| && StartsDownload(c, es, k, config, u);
  }

  lemma NullTogether(c: Crypto, es: seq<Event>)
    ensures Run(c, es).verifiedBundle.None? <==> Run(c, es).verifiedBundleReleaseId.None?
  {
    RunKeepsInvariant(c, es);
  }

  // ---------- which download an install hands over ----------

  /** e ends a download whose bytes passed both checks. */
  ghost predicate Stores(c: Crypto, s: State, e: Event) {
    && e.VerifyReply? && Waits(s, e.task) && s.tasks[e.task].Verifying?
    && VerifyRelease(c, s.tasks[e.task].config.signingPublicKey, SigningInputOf(s.tasks[e.task].update),
                     s.tasks[e.task].update.signature)
  }

  ghost predicate StoresPair(c: Crypto, s: State, e: Event, id: Id, bytes: Bytes) {
    Stores(c, s, e) && s.tasks[e.task].update.id == id && s.tasks[e.task].bytes == bytes
  }

  /** e ends an install that the native module completed. */
  predicate Clears(s: State, e: Event) {
    e.NativeReply? && e.ok && Waits(s, e.task) && s.tasks[e.task].Installing?
  }

  /** e reaches the body of installUpdate, called by the app or by sync. */
  predicate CallsInstall(s: State, e: Event) {
    || (e.InstallUpdate? && !Waits(s, e.task))
    || (e.ContinueSync? && Waits(s, e.task) && s.tasks[e.task].Continuing?)
  }

  ghost predicate StoresAt(c: Crypto, s: State, es: seq<Event>, k: nat) {
    k < |es| && Stores(c, RunFrom(c, s, es[..k]), es[k])
  }

  ghost predicate StoresPairAt(c: Crypto, s: State, es: seq<Event>, k: nat, id: Id, bytes: Bytes) {
    k < |es| && StoresPair(c, RunFrom(c, s, es[..k]), es[k], id, bytes)
  }

  ghost predicate ClearsAt(c: Crypto, s: State, es: seq<Event>, k: nat) {
    k < |es| && Clears(RunFrom(c, s, es[..k]), es[k])
  }

  /** Event k ends an install, or a download of anything else. */
  ghost predicate DropsAt(c: Crypto, s: State, es: seq<Event>, k: nat, id: Id, bytes: Bytes) {
    ClearsAt(c, s, es, k) || (StoresAt(c, s, es, k) && !StoresPairAt(c, s, es, k, id, bytes))
  }

  ghost predicate EachFollowed(a: set<nat>, b: set<nat>) {
    forall j :: j in a ==> exists k :: k in b && j < k
  }

  ghost function DropsIn(c: Crypto, s: State, es: seq<Event>, id: Id, bytes: Bytes): set<nat> {
    set k: nat | k < |es| && DropsAt(c, s, es, k, id, bytes)
  }

  ghost function PairsIn(c: Crypto, s: State, es: seq<Event>, id: Id, bytes: Bytes): set<nat> {
    set k: nat | k < |es| && StoresPairAt(c, s, es, k, id, bytes)
  }

  /** Whatever drops the pair is followed by another download of it. */
  ghost predicate Kept(c: Crypto, s: State, es: seq<Event>, id: Id, bytes: Bytes) {
    EachFollowed(DropsIn(c, s, es, id, bytes), PairsIn(c, s, es, id, bytes))
  }

  predicate Holds(s: State, id: Id, bytes: Bytes) {
    s.verifiedBundle == Some(bytes) && s.verifiedBundleReleaseId == Some(id)
  }

  /** What an event does to the two variables. */
  lemma VariablesAfter(c: Crypto, s: State, e: Event)
    ensures Stores(c, s, e) ==> Holds(Step(c, s, e), s.tasks[e.task].update.id, s.tasks[e.task].bytes)
    ensures Clears(s, e) ==> Step(c, s, e).verifiedBundle.None? && Step(c, s, e).verifiedBundleReleaseId.None?
    ensures !Stores(c, s, e) && !Clears(s, e) ==>
              && Step(c, s, e).verifiedBundle == s.verifiedBundle
              && Step(c, s, e).verifiedBundleReleaseId == s.verifiedBundleReleaseId
    ensures s.config.Some? ==> Step(c, s, e).config.Some?
  {
  }

  lemma PrefixEvents(c: Crypto, s: State, es: seq<Event>, k: nat, id: Id, bytes: Bytes)
    requires k < |es| - 1
    ensures StoresAt(c, s, es[..|es| - 1], k) == StoresAt(c, s, es, k)
    ensures StoresPairAt(c, s, es[..|es| - 1], k, id, bytes) == StoresPairAt(c, s, es, k, id, bytes)
    ensures ClearsAt(c, s, es[..|es| - 1], k) == ClearsAt(c, s, es, k)
  {
    assert es[..|es| - 1][..k] == es[..k];
  }

  lemma DropsExtend(c: Crypto, s: State, es: seq<Event>, id: Id, bytes: Bytes)
    requires es != [] && !DropsAt(c, s, es, |es| - 1, id, bytes)
    ensures DropsIn(c, s, es, id, bytes) == DropsIn(c, s, es[..|es| - 1], id, bytes)
  {
    forall k: nat | k < |es| - 1
      ensures DropsAt(c, s, es[..|es| - 1], k, id, bytes) == DropsAt(c, s, es, k, id, bytes)
    {
      PrefixEvents(c, s, es, k, id, bytes);
    }
  }

  lemma PairsExtend(c: Crypto, s: State, es: seq<Event>, id: Id, bytes: Bytes)
    requires es != [] && !StoresPairAt(c, s, es, |es| - 1, id, bytes)
    ensures PairsIn(c, s, es, id, bytes) == PairsIn(c, s, es[..|es| - 1], id, bytes)
  {
    forall k: nat | k < |es| - 1
      ensures StoresPairAt(c, s, es[..|es| - 1], k, id, bytes) == StoresPairAt(c, s, es, k, id, bytes)
    {
      PrefixEvents(c, s, es, k, id, bytes);
    }
  }

  /** An event that neither stores nor clears changes nothing about what is kept. */
  lemma KeptExtends(c: Crypto, s: State, es: seq<Event>, id: Id, bytes: Bytes)
    requires es != [] && !StoresAt(c, s, es, |es| - 1) && !ClearsAt(c, s, es, |es| - 1)
    ensures Kept(c, s, es, id, bytes) == Kept(c, s, es[..|es| - 1], id, bytes)
  {
    DropsExtend(c, s, es, id, bytes);
    PairsExtend(c, s, es, id, bytes);
  }

  lemma LastDecides(a: set<nat>, b: set<nat>, n: nat)
    requires (forall k :: k in a ==> k <= n) && (forall k :: k in b ==> k <= n)
    requires n in a <==> n !in b
    ensures EachFollowed(a, b) == (n in b)
  {
    if n in b {
      forall j | j in a ensures exists k :: k in b && j < k {
        assert j < n;
      }
    }
  }

  lemma KeptAtWrite(c: Crypto, s: State, es: seq<Event>, id: Id, bytes: Bytes)
    requires es != [] && (StoresAt(c, s, es, |es| - 1) || ClearsAt(c, s, es, |es| - 1))
    ensures Kept(c, s, es, id, bytes) == StoresPairAt(c, s, es, |es| - 1, id, bytes)
  {
    LastDecides(DropsIn(c, s, es, id, bytes), PairsIn(c, s, es, id, bytes), |es| - 1);
  }

  lemma {:induction false} PairIsHeldIff(c: Crypto, s: State, es: seq<Event>, id: Id, bytes: Bytes)
    requires Holds(s, id, bytes) && s.config.Some?
    ensures Holds(RunFrom(c, s, es), id, bytes) <==> Kept(c, s, es, id, bytes)
    ensures RunFrom(c, s, es).config.Some?
    decreases |es|
  {
    if es != [] {
      var n := |es| - 1;
      var s1 := RunFrom(c, s, es[..n]);
      PairIsHeldIff(c, s, es[..n], id, bytes);
      VariablesAfter(c, s1, es[n]);
      if StoresAt(c, s, es, n) || ClearsAt(c, s, es, n) {
        KeptAtWrite(c, s, es, id, bytes);
      } else {
        KeptExtends(c, s, es, id, bytes);
      }
    }
  }

  lemma {:induction false} WaitingNeedsConfig(c: Crypto, es: seq<Event>)
    ensures Run(c, es).tasks != map[] ==> Run(c, es).config.Some?
    decreases |es|
  {
    if es != [] {
      var before := es[..|es| - 1];
      WaitingNeedsConfig(c, before);
      ConfigBeforeTasks(c, Run(c, before), es[|es| - 1]);
    }
  }

  lemma ConfigBeforeTasks(c: Crypto, s: State, e: Event)
    requires s.tasks != map[] ==> s.config.Some?
    ensures Step(c, s, e).tasks != map[] ==> Step(c, s, e).config.Some?
  {
    if s.tasks == map[] {
      assert s.tasks.Keys == {};
    }
  }

  /** In every run: once a download has stored its pair, a later installUpdate hands over exactly that pair if and
      only if its id is not empty and every install that completed in between, and every download of anything
      else, is followed by another download of this pair. */
  lemma DownloadIsHandedOverIff(c: Crypto, es: seq<Event>, stored: Event, later: seq<Event>, install: Event,
                                id: Id, bytes: Bytes)
    requires StoresPair(c, Run(c, es), stored, id, bytes)
    requires CallsInstall(Run(c, es + [stored] + later), install)
    ensures var s1, s2 := Run(c, es + [stored]), Run(c, es + [stored] + later);
            Step(c, s2, install).handed == s2.handed + [(id, bytes)] <==>
            id != [] && Kept(c, s1, later, id, bytes)
  {
    var s, s1, s2 := Run(c, es), Run(c, es + [stored]), Run(c, es + [stored] + later);
    RunSnoc(c, START, es, stored);
    RunAppend(c, START, es + [stored], later);
    WaitingNeedsConfig(c, es);
    assert stored.task in s.tasks.Keys;
    VariablesAfter(c, s, stored);
    PairIsHeldIff(c, s1, later, id, bytes);
    RunKeepsInvariant(c, es + [stored] + later);
    InstallHands(c, s2, install);
    if s2.verifiedBundle.Some? && s2.verifiedBundleReleaseId.value != [] {
      assert (s2.handed + [(s2.verifiedBundleReleaseId.value, s2.verifiedBundle.value)])[|s2.handed|]
             == (s2.verifiedBundleReleaseId.value, s2.verifiedBundle.value);
      assert (s2.handed + [(id, bytes)])[|s2.handed|] == (id, bytes);
    }
  }

  lemma InstallHands(c: Crypto, s: State, e: Event)
    requires CallsInstall(s, e) && s.config.Some? && (s.verifiedBundle.None? <==> s.verifiedBundleReleaseId.None?)
    ensures Step(c, s, e).handed ==
            if s.verifiedBundle.Some? && s.verifiedBundleReleaseId.value != []
            then s.handed + [(s.verifiedBundleReleaseId.value, s.verifiedBundle.value)] else s.handed
    ensures Step(c, s, e).handed == s.handed ==> e.task !in Step(c, s, e).tasks
  {
  }

  /** In particular it is handed over when no install completes and no download ends in between. */
  lemma UndisturbedDownloadIsHandedOver(c: Crypto, es: seq<Event>, stored: Event, later: seq<Event>, install: Event,
                                        id: Id, bytes: Bytes)
    requires StoresPair(c, Run(c, es), stored, id, bytes) && id != []
    requires CallsInstall(Run(c, es + [stored] + later), install)
    requires var s1 := Run(c, es + [stored]);
             forall k: nat :: !ClearsAt(c, s1, later, k) && !StoresAt(c, s1, later, k)
    ensures var s2 := Run(c, es + [stored] + later);
            Step(c, s2, install).handed == s2.handed + [(id, bytes)]
  {
    DownloadIsHandedOverIff(c, es, stored, later, install, id, bytes);
  }

  ghost function StoresIn(c: Crypto, es: seq<Event>): set<nat> {
    set k: nat | k < |es| && StoresAt(c, START, es, k)
  }

  ghost function ClearsIn(c: Crypto, es: seq<Event>): set<nat> {
    set k: nat | k < |es| && ClearsAt(c, START, es, k)
  }

  /** Every download so far was followed by the end of an install. */
  ghost predicate AllDropped(c: Crypto, es: seq<Event>) {
    EachFollowed(StoresIn(c, es), ClearsIn(c, es))
  }

  lemma DroppedAtWrite(c: Crypto, es: seq<Event>)
    requires es != [] && (StoresAt(c, START, es, |es| - 1) || ClearsAt(c, START, es, |es| - 1))
    ensures AllDropped(c, es) == ClearsAt(c, START, es, |es| - 1)
  {
    LastDecides(StoresIn(c, es), ClearsIn(c, es), |es| - 1);
  }

  lemma DroppedExtends(c: Crypto, es: seq<Event>)
    requires es != [] && !StoresAt(c, START, es, |es| - 1) && !ClearsAt(c, START, es, |es| - 1)
    ensures AllDropped(c, es) == AllDropped(c, es[..|es| - 1])
  {
    var n := |es| - 1;
    var before := es[..n];
    forall k: nat | k < n
      ensures StoresAt(c, START, before, k) == StoresAt(c, START, es, k)
      ensures ClearsAt(c, START, before, k) == ClearsAt(c, START, es, k)
    {
      PrefixEvents(c, START, es, k, [], []);
    }
    assert StoresIn(c, es) == StoresIn(c, before);
    assert ClearsIn(c, es) == ClearsIn(c, before);
  }

  lemma {:induction false} NothingIsHeldIff(c: Crypto, es: seq<Event>)
    ensures Run(c, es).verifiedBundle.None? <==> AllDropped(c, es)
    decreases |es|
  {
    if es != [] {
      var before := es[..|es| - 1];
      NothingIsHeldIff(c, before);
      VariablesAfter(c, Run(c, before), es[|es| - 1]);
      if StoresAt(c, START, es, |es| - 1) || ClearsAt(c, START, es, |es| - 1) {
        DroppedAtWrite(c, es);
      } else {
        DroppedExtends(c, es);
      }
    }
  }

  /** In every run: installUpdate ends with "no downloaded update to install", handing nothing over, if and only
      if every download so far was followed by the end of an install, or the last one has an empty id. */
  lemma InstallFindsNothingIff(c: Crypto, es: seq<Event>, install: Event)
    requires CallsInstall(Run(c, es), install) && Run(c, es).config.Some?
    ensures Step(c, Run(c, es), install).handed == Run(c, es).handed <==>
            AllDropped(c, es) || Run(c, es).verifiedBundleReleaseId == Some([])
    ensures Step(c, Run(c, es), install).handed == Run(c, es).handed ==>
              install.task !in Step(c, Run(c, es), install).tasks
  {
    NothingIsHeldIff(c, es);
    RunKeepsInvariant(c, es);
    InstallHands(c, Run(c, es), install);
    var s := Run(c, es);
    if s.verifiedBundle.Some? {
      assert |s.handed + [(s.verifiedBundleReleaseId.value, s.verifiedBundle.value)]| == |s.handed| + 1;
    }
  }

  // ---------- witness runs ----------

  lemma DownloadSteps(c: Crypto, s: State, t: nat, u: UpdateInfo, bytes: Bytes)
    requires t !in s.tasks && s.config.Some? && Passes(c, s.config.value, u, bytes)
    ensures Step(c, Step(c, Step(c, s, DownloadUpdate(t, u)), BundleReply(t, Ok(bytes))), VerifyReply(t)) ==
            s.(verifiedBundle := Some(bytes), verifiedBundleReleaseId := Some(u.id))
  {
    assert CheckHash(c, u, Ok(bytes)) == Success(bytes);
    assert CheckSignature(c, s.config.value, u, bytes) == Success(bytes);
    var s1 := Step(c, s, DownloadUpdate(t, u));
    assert s1 == Await(s, t, Downloading(s.config.value, u, false));
    var s2 := Step(c, s1, BundleReply(t, Ok(bytes)));
    assert s2 == Await(s, t, Verifying(s.config.value, u, bytes, false));
    assert Step(c, s2, VerifyReply(t)).tasks == s.tasks;
  }

  /** The events of one download that passes, appended to a run. */
  lemma Downloaded(c: Crypto, es: seq<Event>, t: nat, u: UpdateInfo, bytes: Bytes) returns (es1: seq<Event>)
    requires t !in Run(c, es).tasks && Run(c, es).config.Some? && Passes(c, Run(c, es).config.value, u, bytes)
    ensures Run(c, es1) ==
            Run(c, es).(verifiedBundle := Some(bytes), verifiedBundleReleaseId := Some(u.id))
  {
    DownloadSteps(c, Run(c, es), t, u, bytes);
    RunSnoc(c, START, es, DownloadUpdate(t, u));
    es1 := es + [DownloadUpdate(t, u)];
    RunSnoc(c, START, es1, BundleReply(t, Ok(bytes)));
    es1 := es1 + [BundleReply(t, Ok(bytes))];
    RunSnoc(c, START, es1, VerifyReply(t));
    es1 := es1 + [VerifyReply(t)];
  }

  lemma Configured(c: Crypto, config: Config) returns (es: seq<Event>)
    ensures Run(c, es) == START.(config := Some(config))
  {
    es := [Configure(config)];
    RunSnoc(c, START, [], Configure(config));
    assert [] + [Configure(config)] == es;
  }

  /** From the start: a second release that is downloaded while the first is being installed is dropped when that
      install ends; it is never handed over, and the next installUpdate finds nothing. */
  lemma DownloadDuringInstallIsDiscarded(
    c: Crypto, config: Config, u1: UpdateInfo, b1: Bytes, u2: UpdateInfo, b2: Bytes)
    returns (es: seq<Event>)
    requires Passes(c, config, u1, b1) && Passes(c, config, u2, b2) && u1.id != []
    ensures Holds(Run(c, es), u2.id, b2) && Run(c, es).handed == [(u1.id, b1)]
    ensures var es1 := es + [NativeReply(0, true)];
            && Clears(Run(c, es), NativeReply(0, true))
            && Run(c, es1).verifiedBundle.None? && Run(c, es1).handed == [(u1.id, b1)]
            && Run(c, es1 + [InstallUpdate(0)]) == Run(c, es1)
  {
    es := Configured(c, config);
    es := Downloaded(c, es, 0, u1, b1);
    RunSnoc(c, START, es, InstallUpdate(0));
    es := es + [InstallUpdate(0)];
    var s := State(Some(config), Some(b1), Some(u1.id), map[0 := Installing], [(u1.id, b1)]);
    assert Run(c, es) == s;
    es := Downloaded(c, es, 1, u2, b2);
    InstallEnds(c, es, s.(verifiedBundle := Some(b2), verifiedBundleReleaseId := Some(u2.id)));
  }

  lemma InstallEnds(c: Crypto, es: seq<Event>, s: State)
    requires Run(c, es) == s && s.tasks == map[0 := Installing]
    ensures var es1 := es + [NativeReply(0, true)];
            && Run(c, es1) == s.(verifiedBundle := None, verifiedBundleReleaseId := None, tasks := map[])
            && Run(c, es1 + [InstallUpdate(0)]) == Run(c, es1)
  {
    var es1 := es + [NativeReply(0, true)];
    RunSnoc(c, START, es, NativeReply(0, true));
    assert Run(c, es1).tasks == map[];
    RunSnoc(c, START, es1, InstallUpdate(0));
    assert Run(c, es1 + [InstallUpdate(0)]).tasks == map[];
  }

  /** Two syncs overlap: when the install of one ends between the download and the install of the other, the other
      ends with "no downloaded update to install", whatever was downloaded. */
  lemma OverlappingSyncFindsNothing(c: Crypto, s: State, a: nat, b: nat)
    requires a in s.tasks && s.tasks[a].Installing? && b in s.tasks && s.tasks[b].Verifying? && s.tasks[b].sync
    requires Stores(c, s, VerifyReply(b))
    ensures var s1 := RunFrom(c, s, [VerifyReply(b), NativeReply(a, true)]);
            && CallsInstall(s1, ContinueSync(b)) && Step(c, s1, ContinueSync(b)).handed == s.handed
            && b !in Step(c, s1, ContinueSync(b)).tasks
  {
    RunSnoc(c, s, [VerifyReply(b)], NativeReply(a, true));
    RunSnoc(c, s, [], VerifyReply(b));
    assert [] + [VerifyReply(b)] == [VerifyReply(b)];
    assert [VerifyReply(b)] + [NativeReply(a, true)] == [VerifyReply(b), NativeReply(a, true)];
  }

  /** The events of a sync up to the answer of its download. */
  lemma SyncVerifying(c: Crypto, es: seq<Event>, t: nat, raw: RawReleaseMetadata, bytes: Bytes)
    returns (es1: seq<Event>)
    requires t !in Run(c, es).tasks && Run(c, es).config.Some?
    requires ToUpdateInfo(raw).Success? && Sha256Hex(c, bytes) == raw.bundleHash
    ensures Run(c, es1) ==
            Await(Run(c, es), t, Verifying(Run(c, es).config.value, ToUpdateInfo(raw).value, bytes, true))
  {
    RunSnoc(c, START, es, Sync(t));
    es1 := es + [Sync(t)];
    RunSnoc(c, START, es1, CheckReply(t, Ok([raw])));
    es1 := es1 + [CheckReply(t, Ok([raw]))];
    RunSnoc(c, START, es1, BundleReply(t, Ok(bytes)));
    es1 := es1 + [BundleReply(t, Ok(bytes))];
  }

  lemma SyncInstallSteps(c: Crypto, s: State, t: nat)
    requires t in s.tasks && Stores(c, s, VerifyReply(t)) && s.tasks[t].sync
    requires s.tasks[t].update.id != [] && s.config.Some?
    ensures var Verifying(_, u, bytes, _) := s.tasks[t];
            Step(c, Step(c, s, VerifyReply(t)), ContinueSync(t)) == Await(s, t, Installing).(
              verifiedBundle := Some(bytes), verifiedBundleReleaseId := Some(u.id),
              handed := s.handed + [(u.id, bytes)])
  {
    var u, bytes := s.tasks[t].update, s.tasks[t].bytes;
    var s1 := Await(s, t, Continuing).(verifiedBundle := Some(bytes), verifiedBundleReleaseId := Some(u.id));
    assert Step(c, s, VerifyReply(t)) == s1;
    assert s1.tasks[t := Installing] == s.tasks[t := Installing];
  }

  lemma SyncInstalling(c: Crypto, es: seq<Event>, t: nat) returns (es1: seq<Event>)
    requires t in Run(c, es).tasks && Stores(c, Run(c, es), VerifyReply(t)) && Run(c, es).tasks[t].sync
    requires Run(c, es).tasks[t].update.id != [] && Run(c, es).config.Some?
    ensures Run(c, es1) == Step(c, Step(c, Run(c, es), VerifyReply(t)), ContinueSync(t))
  {
    RunSnoc(c, START, es, VerifyReply(t));
    RunSnoc(c, START, es + [VerifyReply(t)], ContinueSync(t));
    es1 := es + [VerifyReply(t)] + [ContinueSync(t)];
  }

  /** Such an overlap is reachable from the start. */
  lemma SyncsOverlap(c: Crypto, config: Config, raw: RawReleaseMetadata, bytes: Bytes) returns (es: seq<Event>)
    requires ToUpdateInfo(raw).Success? && raw.id != [] && Passes(c, config, ToUpdateInfo(raw).value, bytes)
    ensures var s := Run(c, es);
            && 0 in s.tasks && s.tasks[0].Installing? && 1 in s.tasks && s.tasks[1].Verifying? && s.tasks[1].sync
            && Stores(c, s, VerifyReply(1)) && s.handed == [(raw.id, bytes)]
  {
    es := Configured(c, config);
    es := SyncVerifying(c, es, 0, raw, bytes);
    SyncInstallSteps(c, Run(c, es), 0);
    es := SyncInstalling(c, es, 0);
    es := SyncVerifying(c, es, 1, raw, bytes);
  }

  // ---------- the facade ----------

  /** The module's variables and its code between awaits. `handed` stands for the native module. */
  class Facade {
    const crypto: Crypto
    var config: Option<Config>
    var verifiedBundle: Option<Bytes>
    var verifiedBundleReleaseId: Option<Id>
    var tasks: map<nat, Task>
    var handed: seq<(Id, Bytes)>
    ghost var events: seq<Event>

    ghost function View(): State
      reads this
    {
      State(config, verifiedBundle, verifiedBundleReleaseId, tasks, handed)
    }

    ghost predicate Valid()
      reads this
    {
      View() == Run(crypto, events)
    }

    /** Whatever was called in whatever order: each pair that reached the native module, and the pair that the next
        installUpdate would hand over, comes from one download that passed both checks under the configuration in
        force when it started. */
    lemma OnlyVerified()
      requires Valid()
      ensures forall i :: 0 <= i < |handed| ==> Verified(crypto, events, handed[i].0, handed[i].1)
      ensures verifiedBundle.Some? <==> verifiedBundleReleaseId.Some?
      ensures verifiedBundle.Some? ==> Verified(crypto, events, verifiedBundleReleaseId.value, verifiedBundle.value)
    {
      RunKeepsInvariant(crypto, events);
    }

    /** The code did what event e does. */
    twostate predicate Did(e: Event)
      reads this
    {
      Valid() && events == old(events) + [e] && View() == Step(crypto, old(View()), e)
    }

    constructor (crypto: Crypto)
      ensures Valid() && this.crypto == crypto && events == []
    {
      this.crypto := crypto;
      config, verifiedBundle, verifiedBundleReleaseId := None, None, None;
      tasks, handed, events := map[], [], [];
    }

    ghost method Record(e: Event)
      requires View() == Step(crypto, Run(crypto, events), e)
      modifies `events
      ensures Valid() && events == old(events) + [e]
    {
      RunSnoc(crypto, START, events, e);
      events := events + [e];
    }

    method Configure(next: Config)
      requires Valid()
      modifies this
      ensures Did(Event.Configure(next))
      ensures View() == old(View()).(config := Some(next))
    {
      config := Some(next);
      Record(Event.Configure(next));
    }

    /** ok is false when the call throws. */
    method DownloadUpdate(t: nat, update: UpdateInfo) returns (ok: bool)
      requires Valid() && t !in tasks
      modifies this
      ensures Did(Event.DownloadUpdate(t, update)) && ok == old(config).Some?
      ensures View() == if ok then old(View()).(tasks := old(tasks)[t := Downloading(old(config).value, update, false)])
                        else old(View())
      ensures config == LastConfigured(events)
    {
      ok := StartDownload(t, update, false);
      assert !ok ==> tasks == old(tasks);
      Record(Event.DownloadUpdate(t, update));
      LastConfigureWins(crypto, events);
    }

    method StartDownload(t: nat, update: UpdateInfo, sync: bool) returns (ok: bool)
      modifies this
      ensures View() == BeginDownload(old(View()), t, update, sync)
      ensures events == old(events) && ok == old(config).Some?
    {
      if config.None? {
        tasks := tasks - {t};
        return false;
      }
      tasks := tasks[t := Downloading(config.value, update, sync)];
      ok := true;
    }

    method BundleArrived(t: nat, response: Response<Bytes>)
      requires Valid() && t in tasks && tasks[t].Downloading?
      modifies this
      ensures Did(BundleReply(t, response))
      ensures var Downloading(start, update, sync) := old(tasks)[t];
              tasks == if response.Ok? && Unhex(update.bundleHash) == Some(crypto.sha256(response.body))
                       then old(tasks)[t := Verifying(start, update, response.body, sync)] else old(tasks) - {t}
    {
      var Downloading(startConfig, update, sync) := tasks[t];
      if response.Ok? {
        HexIff(update.bundleHash, crypto.sha256(response.body));
      }
      match CheckHash(crypto, update, response) {
        case Success(bytes) => tasks := tasks[t := Verifying(startConfig, update, bytes, sync)];
        case Failure(_) => tasks := tasks - {t};
      }
      Record(BundleReply(t, response));
    }

    /** The end of downloadUpdate: both variables are set in the same stretch. */
    method FinishDownload(t: nat)
      requires Valid() && t in tasks && tasks[t].Verifying?
      modifies this
      ensures Did(VerifyReply(t))
      ensures var Verifying(start, update, bytes, sync) := old(tasks)[t];
              if VerifyRelease(crypto, start.signingPublicKey, SigningInputOf(update), update.signature)
              then verifiedBundle == Some(bytes) && verifiedBundleReleaseId == Some(update.id)
                   && tasks == if sync then old(tasks)[t := Continuing] else old(tasks) - {t}
              else View() == old(View()).(tasks := old(tasks) - {t})
    {
      var Verifying(startConfig, update, bytes, sync) := tasks[t];
      if CheckSignature(crypto, startConfig, update, bytes).Failure? {
        tasks := tasks - {t};
      } else {
        verifiedBundle := Some(bytes);
        verifiedBundleReleaseId := Some(update.id);
        if sync {
          tasks := tasks[t := Continuing];
        } else {
          tasks := tasks - {t};
        }
      }
      Record(VerifyReply(t));
    }

    method InstallUpdate(t: nat) returns (ok: bool)
      requires Valid() && t !in tasks
      modifies this
      ensures Did(Event.InstallUpdate(t)) && ok == (t in tasks)
      ensures ok <==> old(config).Some? && old(verifiedBundle).Some? && old(verifiedBundleReleaseId) != Some("")
      ensures ok ==> handed == old(handed) + [(old(verifiedBundleReleaseId).value, old(verifiedBundle).value)]
      ensures ok ==> exists id, bytes ::
                handed == old(handed) + [(id, bytes)] && Verified(crypto, old(events), id, bytes)
      ensures !ok ==> handed == old(handed)
    {
      OnlyVerified();
      ok := StartInstall(t);
      Record(Event.InstallUpdate(t));
    }

    method StartInstall(t: nat) returns (ok: bool)
      modifies this
      ensures View() == BeginInstall(old(View()), t)
      ensures events == old(events) && ok == (t in tasks)
    {
      if config.None? || verifiedBundle.None? || verifiedBundleReleaseId.None? || verifiedBundleReleaseId.value == [] {
        tasks := tasks - {t};
        return false;
      }
      handed := handed + [(verifiedBundleReleaseId.value, verifiedBundle.value)];
      tasks := tasks[t := Installing];
      ok := true;
    }

    method FinishInstall(t: nat, nativeOk: bool)
      requires Valid() && t in tasks && tasks[t].Installing?
      modifies this
      ensures Did(NativeReply(t, nativeOk))
      ensures tasks == old(tasks) - {t} && handed == old(handed) && config == old(config)
      ensures if nativeOk then verifiedBundle.None? && verifiedBundleReleaseId.None?
              else verifiedBundle == old(verifiedBundle) && verifiedBundleReleaseId == old(verifiedBundleReleaseId)
    {
      tasks := tasks - {t};
      if nativeOk {
        verifiedBundle := None;
        verifiedBundleReleaseId := None;
      }
      Record(NativeReply(t, nativeOk));
    }

    method Sync(t: nat) returns (ok: bool)
      requires Valid() && t !in tasks
      modifies this
      ensures Did(Event.Sync(t)) && ok == config.Some?
      ensures View() == if ok then old(View()).(tasks := old(tasks)[t := Checking]) else old(View())
    {
      ok := config.Some?;
      if ok {
        tasks := tasks[t := Checking];
      }
      Record(Event.Sync(t));
    }

    method UpdatesArrived(t: nat, response: Response<seq<RawReleaseMetadata>>)
      requires Valid() && t in tasks && tasks[t].Checking?
      modifies this
      ensures Did(CheckReply(t, response))
      ensures handed == old(handed) && config == old(config)
              && verifiedBundle == old(verifiedBundle) && verifiedBundleReleaseId == old(verifiedBundleReleaseId)
      ensures var first := if response.Ok? && response.body != [] then ToUpdateInfo(response.body[0])
                           else Failure(NoSignature);
              tasks == if first.Success? && config.Some?
                       then old(tasks)[t := Downloading(config.value, first.value, true)] else old(tasks) - {t}
    {
      var latest := FetchLatestUpdate(response);
      if latest.Failure? || latest.value.None? {
        tasks := tasks - {t};
      } else {
        var _ := StartDownload(t, latest.value.value, true);
      }
      Record(CheckReply(t, response));
    }

    method ResumeSync(t: nat)
      requires Valid() && t in tasks && tasks[t].Continuing?
      modifies this
      ensures Did(ContinueSync(t))
      ensures handed == if config.Some? && verifiedBundle.Some? && verifiedBundleReleaseId.Some?
                           && verifiedBundleReleaseId != Some("")
                        then old(handed) + [(verifiedBundleReleaseId.value, verifiedBundle.value)] else old(handed)
      ensures config == old(config) && verifiedBundle == old(verifiedBundle)
              && verifiedBundleReleaseId == old(verifiedBundleReleaseId)
    {
      var _ := StartInstall(t);
      Record(ContinueSync(t));
    }
  }
}
