/** From the file that the CLI signs to the bundle that a device boots. */
module EndToEnd {
  import opened Common
  import opened Signing
  import opened Update
  import Releases
  import SalvePush
  import Disk
  import History
  import Recovery

  // ---------- the CLI ----------

  datatype ReleaseParams = ReleaseParams(
    version: string, platform: string, channel: string, runtimeVersion: string,
    bundle: Bytes, rolloutPercentage: Option<int>, privateKey: string)

  /** The upload form; None when the private key cannot be decoded. */
  function UploadForm(c: Crypto, p: ReleaseParams): Option<Releases.CreateInput> {
    var bundleHash := Sha256Hex(c, p.bundle);
    match SignRelease(c, p.privateKey, SigningInput(bundleHash, p.version, p.platform, p.channel, p.runtimeVersion))
    case None => None
    case Some(signature) =>
      Some(Releases.CreateInput(p.version, p.platform, p.channel, p.runtimeVersion, bundleHash, signature,
                                if p.rolloutPercentage.Some? then p.rolloutPercentage.value else 100))
  }

  /** The upload was made by the CLI with this key. */
  ghost predicate FromCli(c: Crypto, key: Bytes, input: Releases.CreateInput, bundle: Bytes) {
    exists p: ReleaseParams :: p.privateKey == Encode(key) && p.bundle == bundle && UploadForm(c, p) == Some(input)
  }

  ghost predicate CliUploads(c: Crypto, key: Bytes, es: seq<Releases.Event>) {
    forall e :: e in es && e.BeginCreate? ==> Releases.IsUuid(e.id) && FromCli(c, key, e.input, e.bundle)
  }

  /** The release is the one that the CLI made of these parameters, and `bundle` is the file it read. */
  ghost predicate ReadByCli(c: Crypto, key: Bytes, p: ReleaseParams, row: Releases.Release, bundle: Bytes) {
    && p.privateKey == Encode(key) && p.bundle == bundle
    && p.version == row.version && p.platform == row.platform && p.channel == row.channel
    && p.runtimeVersion == row.runtimeVersion && Unhex(row.bundleHash) == Some(c.sha256(p.bundle))
    && row.rolloutPercentage == (if p.rolloutPercentage.Some? then p.rolloutPercentage.value else 100)
  }

  // ---------- what the server holds ----------

  ghost predicate RowFromCli(c: Crypto, key: Bytes, id: Id, row: Releases.Release, bundle: Bytes) {
    Releases.IsUuid(id) &&
    exists input :: FromCli(c, key, input, bundle)
      && row == Releases.NewRelease(id, input, bundle, row.createdAt).(publishedAt := row.publishedAt)
  }

  ghost predicate TaskFromCli(c: Crypto, key: Bytes, task: Releases.Task) {
    (task.Hashed? || task.Stored?) ==> Releases.IsUuid(task.id) && FromCli(c, key, task.input, task.bundle)
  }

  ghost predicate RowsFromCli(c: Crypto, key: Bytes, rows: map<Id, Releases.Release>, uploads: map<Id, Bytes>) {
    forall id :: id in rows ==> id in uploads && RowFromCli(c, key, id, rows[id], uploads[id])
  }

  ghost predicate AllFromCli(c: Crypto, key: Bytes, s: Releases.System) {
    && RowsFromCli(c, key, s.rows, s.uploads)
    && (forall t :: t in s.tasks ==> TaskFromCli(c, key, s.tasks[t]))
  }

  lemma PublishingKeepsOrigin(c: Crypto, key: Bytes, id: Id, row: Releases.Release, bundle: Bytes, at: Option<int>)
    requires RowFromCli(c, key, id, row, bundle)
    ensures RowFromCli(c, key, id, row.(publishedAt := at), bundle)
  {
    var input :| FromCli(c, key, input, bundle)
                 && row == Releases.NewRelease(id, input, bundle, row.createdAt).(publishedAt := row.publishedAt);
    assert row.(publishedAt := at) ==
           Releases.NewRelease(id, input, bundle, row.createdAt).(publishedAt := at);
  }

  lemma InsertedFromCli(c: Crypto, key: Bytes, s: Releases.System, t: nat, ok: bool, now: int)
    requires Releases.Invariant(c, s) && AllFromCli(c, key, s)
    ensures AllFromCli(c, key, Releases.Inserting(s, t, ok, now))
  {
    if t in s.tasks && s.tasks[t].Stored? {
      assert TaskFromCli(c, key, s.tasks[t]);
      assert Releases.TaskOk(c, s.tasks[t], s.rows, s.blobs, s.uploads);
      var row := Releases.NewRelease(s.tasks[t].id, s.tasks[t].input, s.tasks[t].bundle, now);
      assert row == row.(publishedAt := row.publishedAt);
      assert RowFromCli(c, key, s.tasks[t].id, row, s.tasks[t].bundle);
    }
  }

  lemma PublishedFromCli(
    c: Crypto, key: Bytes, rows: map<Id, Releases.Release>, uploads: map<Id, Bytes>, id: Id, now: int)
    requires RowsFromCli(c, key, rows, uploads) && id in rows
    ensures RowsFromCli(c, key, Releases.SetPublished(rows, id, now), uploads)
  {
    var rows1 := Releases.SetPublished(rows, id, now);
    if rows1 != rows {
      PublishingKeepsOrigin(c, key, id, rows[id], uploads[id], Some(now));
      assert RowFromCli(c, key, id, rows1[id], uploads[id]);
      forall x | x in rows1 ensures x in uploads && RowFromCli(c, key, x, rows1[x], uploads[x]) {
        if x != id {
          assert rows1[x] == rows[x];
        }
      }
    }
  }

  lemma UpdatedFromCli(c: Crypto, key: Bytes, s: Releases.System, t: nat, id: Id, now: int)
    requires AllFromCli(c, key, s)
    ensures AllFromCli(c, key, Releases.Updating(s, t, id, now))
  {
    if id in s.rows {
      PublishedFromCli(c, key, s.rows, s.uploads, id, now);
    }
  }

  lemma HashedFromCli(c: Crypto, key: Bytes, s: Releases.System, t: nat,
                      input: Releases.CreateInput, bundle: Bytes, id: Id)
    requires AllFromCli(c, key, s) && id !in s.uploads && Releases.IsUuid(id) && FromCli(c, key, input, bundle)
    ensures AllFromCli(c, key, Releases.Hashing(c, s, t, input, bundle, id))
  {
  }

  lemma PutFromCli(c: Crypto, key: Bytes, s: Releases.System, t: nat, outcome: Releases.PutOutcome)
    requires AllFromCli(c, key, s)
    ensures AllFromCli(c, key, Releases.Putting(s, t, outcome))
  {
    if t in s.tasks {
      assert TaskFromCli(c, key, s.tasks[t]);
    }
  }

  lemma ReadsFromCli(c: Crypto, key: Bytes, s: Releases.System, t: nat)
    requires AllFromCli(c, key, s)
    ensures AllFromCli(c, key, Releases.Checking(s, t)) && AllFromCli(c, key, Releases.Returning(s, t))
    ensures AllFromCli(c, key, Releases.Failing(s, t))
  {
  }

  lemma StepFromCli(c: Crypto, key: Bytes, s: Releases.System, e: Releases.Event)
    requires Releases.Invariant(c, s) && Releases.FreshId(s, e) && AllFromCli(c, key, s)
    requires e.BeginCreate? ==> Releases.IsUuid(e.id) && FromCli(c, key, e.input, e.bundle)
    ensures AllFromCli(c, key, Releases.Step(c, s, e))
  {
    match e
    case InsertRow(t, ok, now) => InsertedFromCli(c, key, s, t, ok, now);
    case BeginPublish(t, id, now) => UpdatedFromCli(c, key, s, t, id, now);
    case BeginCreate(t, input, bundle, id) => HashedFromCli(c, key, s, t, input, bundle, id);
    case PutBlob(t, outcome) => PutFromCli(c, key, s, t, outcome);
    case CheckMissed(t) => ReadsFromCli(c, key, s, t);
    case EndPublish(t) => ReadsFromCli(c, key, s, t);
    case FailPublish(t) => ReadsFromCli(c, key, s, t);
  }

  lemma {:induction false} RunFromCli(c: Crypto, key: Bytes, s: Releases.System, es: seq<Releases.Event>)
    requires Releases.Invariant(c, s) && AllFromCli(c, key, s)
    requires Releases.FreshIds(c, s, es) && CliUploads(c, key, es)
    ensures AllFromCli(c, key, Releases.Run(c, s, es)) && Releases.Invariant(c, Releases.Run(c, s, es))
    decreases |es|
  {
    if es != [] {
      StepFromCli(c, key, s, es[0]);
      Releases.StepKeeps(c, s, es[0]);
      RunFromCli(c, key, Releases.Step(c, s, es[0]), es[1..]);
    }
  }

  // ---------- the answers of an honest server ----------

  function ToReleaseMetadata(r: Releases.Release): RawReleaseMetadata {
    RawReleaseMetadata(r.id, r.version, r.platform, r.channel, r.runtimeVersion, r.bundleHash, Some(r.signature),
                       r.bundleSize)
  }

  function UpdatesBody(listing: seq<Releases.Release>): seq<RawReleaseMetadata> {
    seq(|listing|, i requires 0 <= i < |listing| => ToReleaseMetadata(listing[i]))
  }

  /** The list endpoint refuses a request with an empty parameter. */
  function Answer(f: Releases.Filter, listing: seq<Releases.Release>): Response<seq<RawReleaseMetadata>> {
    if f.channel == [] || f.platform == [] || f.runtimeVersion == [] then HttpError(400) else Ok(UpdatesBody(listing))
  }

  function FilterOf(config: Config): Releases.Filter {
    Releases.Filter(config.channel, config.platform, config.runtimeVersion)
  }

  ghost predicate NonEmptySignatures(c: Crypto) {
    forall message: Bytes, key: Bytes :: c.sign(message, key) != []
  }

  lemma CliRow(c: Crypto, key: Bytes, id: Id, row: Releases.Release, bundle: Bytes) returns (p: ReleaseParams)
    requires RowFromCli(c, key, id, row, bundle)
    ensures ReadByCli(c, key, p, row, bundle) && row.id == id
    ensures SignRelease(c, Encode(key),
                        SigningInput(row.bundleHash, row.version, row.platform, row.channel, row.runtimeVersion))
            == Some(row.signature)
  {
    var input :| FromCli(c, key, input, bundle)
                 && row == Releases.NewRelease(id, input, bundle, row.createdAt).(publishedAt := row.publishedAt);
    p :| p.privateKey == Encode(key) && p.bundle == bundle && UploadForm(c, p) == Some(input);
    HexIff(row.bundleHash, c.sha256(bundle));
  }

  lemma SignaturesAreNotEmpty(c: Crypto, key: Bytes, i: SigningInput)
    requires NonEmptySignatures(c) && SignRelease(c, Encode(key), i).Some?
    ensures SignRelease(c, Encode(key), i).value != []
  {
    Base64RoundTrip(key);
    Base64RoundTrip(c.sign(c.utf8(CanonicalReleaseMessage(i)), key));
  }

  /** What the CLI uploaded is accepted by both checks of the SDK under the matching public key. */
  lemma CliReleaseIsAccepted(c: Crypto, key: Bytes, config: Config, id: Id, row: Releases.Release, bundle: Bytes)
    requires SignaturesVerify(c) && NonEmptySignatures(c) && config.signingPublicKey == Encode(c.publicKey(key))
    requires RowFromCli(c, key, id, row, bundle)
    ensures ToUpdateInfo(ToReleaseMetadata(row)).Success?
    ensures var u := ToUpdateInfo(ToReleaseMetadata(row)).value;
            u.id == id && DownloadAndVerifyBundle(c, config, u, Ok(bundle)) == Success(bundle)
  {
    var p := CliRow(c, key, id, row, bundle);
    var i := SigningInput(row.bundleHash, row.version, row.platform, row.channel, row.runtimeVersion);
    SignedReleaseVerifies(c, key, i);
    SignaturesAreNotEmpty(c, key, i);
    var u := ToUpdateInfo(ToReleaseMetadata(row)).value;
    assert SigningInputOf(u) == i;
    AcceptedIffPasses(c, config, u, Ok(bundle));
  }

  // ---------- sync, uninterrupted ----------

  /** The events of one sync call, from the call to the answer of the native module. */
  function SyncRun(c: Crypto, s: SalvePush.State, t: nat, body: seq<RawReleaseMetadata>, bundle: Bytes)
    : SalvePush.State
  {
    var s1 := SalvePush.Step(c, s, SalvePush.Sync(t));
    var s2 := SalvePush.Step(c, s1, SalvePush.CheckReply(t, Ok(body)));
    var s3 := SalvePush.Step(c, s2, SalvePush.BundleReply(t, Ok(bundle)));
    var s4 := SalvePush.Step(c, s3, SalvePush.VerifyReply(t));
    var s5 := SalvePush.Step(c, s4, SalvePush.ContinueSync(t));
    SalvePush.Step(c, s5, SalvePush.NativeReply(t, true))
  }

  lemma SyncDownloads(c: Crypto, s: SalvePush.State, t: nat, config: Config, body: seq<RawReleaseMetadata>)
    requires s.config == Some(config) && t !in s.tasks
    requires FetchLatestUpdate(Ok(body)).Success? && FetchLatestUpdate(Ok(body)).value.Some?
    ensures SalvePush.Step(c, SalvePush.Step(c, s, SalvePush.Sync(t)), SalvePush.CheckReply(t, Ok(body))) ==
            SalvePush.Await(s, t, SalvePush.Downloading(config, FetchLatestUpdate(Ok(body)).value.value, true))
  {
    assert SalvePush.Step(c, s, SalvePush.Sync(t)) == SalvePush.Await(s, t, SalvePush.Checking);
  }

  lemma SyncVerifies(c: Crypto, s: SalvePush.State, t: nat, config: Config, u: UpdateInfo, bundle: Bytes)
    requires DownloadAndVerifyBundle(c, config, u, Ok(bundle)) == Success(bundle)
    ensures var s2 := SalvePush.Await(s, t, SalvePush.Downloading(config, u, true));
            var s3 := SalvePush.Step(c, s2, SalvePush.BundleReply(t, Ok(bundle)));
            SalvePush.Step(c, s3, SalvePush.VerifyReply(t)) ==
            SalvePush.Await(s.(verifiedBundle := Some(bundle), verifiedBundleReleaseId := Some(u.id)),
                            t, SalvePush.Continuing)
  {
    var s2 := SalvePush.Await(s, t, SalvePush.Downloading(config, u, true));
    var s3 := SalvePush.Step(c, s2, SalvePush.BundleReply(t, Ok(bundle)));
    assert s3 == SalvePush.Await(s, t, SalvePush.Verifying(config, u, bundle, true));
  }

  lemma SyncInstalls(c: Crypto, s: SalvePush.State, t: nat, u: UpdateInfo, bundle: Bytes)
    requires s.config.Some? && t !in s.tasks && u.id != []
    ensures var s4 := SalvePush.Await(s.(verifiedBundle := Some(bundle), verifiedBundleReleaseId := Some(u.id)),
                                      t, SalvePush.Continuing);
            SalvePush.Step(c, SalvePush.Step(c, s4, SalvePush.ContinueSync(t)), SalvePush.NativeReply(t, true)) ==
            s.(verifiedBundle := None, verifiedBundleReleaseId := None, handed := s.handed + [(u.id, bundle)])
  {
    assert (s.tasks[t := SalvePush.Installing] - {t}) == s.tasks;
  }

  lemma SyncHandsOver(
    c: Crypto, s: SalvePush.State, t: nat, config: Config, body: seq<RawReleaseMetadata>, bundle: Bytes)
    requires s.config == Some(config) && t !in s.tasks
    requires FetchLatestUpdate(Ok(body)).Success? && FetchLatestUpdate(Ok(body)).value.Some?
    requires var u := FetchLatestUpdate(Ok(body)).value.value;
             u.id != [] && DownloadAndVerifyBundle(c, config, u, Ok(bundle)) == Success(bundle)
    ensures SyncRun(c, s, t, body, bundle) ==
            s.(verifiedBundle := None, verifiedBundleReleaseId := None,
               handed := s.handed + [(FetchLatestUpdate(Ok(body)).value.value.id, bundle)])
  {
    var u := FetchLatestUpdate(Ok(body)).value.value;
    SyncDownloads(c, s, t, config, body);
    SyncVerifies(c, s, t, config, u, bundle);
    SyncInstalls(c, s, t, u, bundle);
  }

  lemma NothingToSync(c: Crypto, s: SalvePush.State, t: nat, answer: Response<seq<RawReleaseMetadata>>)
    requires s.config.Some? && t !in s.tasks && (answer.HttpError? || answer.body == [])
    ensures SalvePush.Step(c, SalvePush.Step(c, s, SalvePush.Sync(t)), SalvePush.CheckReply(t, answer)) == s
  {
    assert (s.tasks[t := SalvePush.Checking] - {t}) == s.tasks;
  }

  // ---------- the device ----------

  lemma InstalledBundleBoots(d: Disk.Disk, id: Id, bundle: Bytes, listing: seq<Id>)
    requires d.crash.None?
    ensures var d1 := Disk.After(d, Disk.Complete(Disk.Install(id, bundle, listing)));
            var d2 := Disk.After(d1, Disk.Complete(Disk.Resolve));
            Disk.ReadState(d2).current == Some(id) && Disk.Booted(d2) == Some(bundle)
  {
    History.InstallEffect(d, id, bundle, listing);
    Recovery.ResolveEffect(Disk.After(d, Disk.Complete(Disk.Install(id, bundle, listing))));
  }

  // ---------- end to end ----------

  /** An honest server that was filled by the CLI with one key, through any interleaving of calls and failures,
      and a configuration with the matching public key. The server answers the listing after the events `es`, and the
      bundle after any `more` events. If no published release matches, or a field of the configuration is empty, sync
      changes nothing. Otherwise no check rejects, sync hands the newest matching release to the native module, and
      after a crash-free relaunch of any device the booted bundle is byte for byte the file that the CLI read for it. */
  lemma WhatWasSignedBoots(
    c: Crypto, key: Bytes, es: seq<Releases.Event>, more: seq<Releases.Event>, config: Config,
    listing: seq<Releases.Release>, s: SalvePush.State, t: nat, d: Disk.Disk, entries: seq<Id>)
    requires SignaturesVerify(c) && NonEmptySignatures(c) && config.signingPublicKey == Encode(c.publicKey(key))
    requires Releases.FreshIds(c, Releases.EMPTY, es + more) && CliUploads(c, key, es + more)
    requires var server := Releases.Run(c, Releases.EMPTY, es);
             Releases.IsListing(server.rows, Releases.Matching(server.rows, FilterOf(config)), listing)
    requires s.config == Some(config) && t !in s.tasks && d.crash.None?
    ensures Answer(FilterOf(config), listing) ==
            if config.channel == "" || config.platform == "" || config.runtimeVersion == "" then HttpError(400)
            else Ok(UpdatesBody(listing))
    ensures var server := Releases.Run(c, Releases.EMPTY, es);
            listing == [] <==> forall id :: id in server.rows ==>
              !(&& server.rows[id].publishedAt.Some? && server.rows[id].rolloutPercentage > 0
                && server.rows[id].channel == config.channel && server.rows[id].platform == config.platform
                && server.rows[id].runtimeVersion == config.runtimeVersion)
    ensures var answer := Answer(FilterOf(config), listing);
            answer.HttpError? || listing == [] ==>
              SalvePush.Step(c, SalvePush.Step(c, s, SalvePush.Sync(t)), SalvePush.CheckReply(t, answer)) == s
    ensures var server, later := Releases.Run(c, Releases.EMPTY, es), Releases.Run(c, Releases.EMPTY, es + more);
            var answer := Answer(FilterOf(config), listing);
            answer.Ok? && listing != [] ==>
              var id := listing[0].id;
              && id in server.rows && server.rows[id].publishedAt.Some? && server.rows[id].rolloutPercentage > 0
              && server.rows[id].channel == config.channel && server.rows[id].platform == config.platform
              && server.rows[id].runtimeVersion == config.runtimeVersion
              && (forall x :: x in server.rows
                    && server.rows[x].publishedAt.Some? && server.rows[x].rolloutPercentage > 0
                    && server.rows[x].channel == config.channel && server.rows[x].platform == config.platform
                    && server.rows[x].runtimeVersion == config.runtimeVersion
                    ==> server.rows[x].createdAt <= server.rows[id].createdAt)
              && id in later.rows && later.rows[id] == server.rows[id]
              && later.rows[id].bundleStorageKey in later.blobs
              && var bundle := later.blobs[later.rows[id].bundleStorageKey];
                 && (exists p :: ReadByCli(c, key, p, server.rows[id], bundle))
                 && SyncRun(c, s, t, answer.body, bundle).handed == s.handed + [(id, bundle)]
                 && var d1 := Disk.After(d, Disk.Complete(Disk.Install(id, bundle, entries)));
                    Disk.Booted(Disk.After(d1, Disk.Complete(Disk.Resolve))) == Some(bundle)
  {
    var server := Releases.Run(c, Releases.EMPTY, es);
    var answer := Answer(FilterOf(config), listing);
    Releases.FirstIsNewest(server.rows, FilterOf(config), listing);
    if answer.HttpError? || listing == [] {
      NothingToSync(c, s, t, answer);
    } else {
      var id := listing[0].id;
      var bundle := ServedBundle(c, key, es, more, id);
      assert answer.body[0] == ToReleaseMetadata(listing[0]);
      CliReleaseIsAccepted(c, key, config, id, server.rows[id], bundle);
      SyncHandsOver(c, s, t, config, answer.body, bundle);
      InstalledBundleBoots(d, id, bundle, entries);
    }
  }

  /** The blob of a published row, at any later time. */
  lemma ServedBundle(c: Crypto, key: Bytes, es: seq<Releases.Event>, more: seq<Releases.Event>, id: Id)
    returns (bundle: Bytes)
    requires Releases.FreshIds(c, Releases.EMPTY, es + more) && CliUploads(c, key, es + more)
    requires id in Releases.Run(c, Releases.EMPTY, es).rows
    requires Releases.Run(c, Releases.EMPTY, es).rows[id].publishedAt.Some?
    ensures var row := Releases.Run(c, Releases.EMPTY, es).rows[id];
            var later := Releases.Run(c, Releases.EMPTY, es + more);
            && id in later.rows && later.rows[id] == row
            && row.bundleStorageKey in later.blobs && bundle == later.blobs[row.bundleStorageKey]
            && RowFromCli(c, key, id, row, bundle)
            && exists p :: ReadByCli(c, key, p, row, bundle)
  {
    var later := Releases.Run(c, Releases.EMPTY, es + more);
    Releases.RunAppend(c, Releases.EMPTY, es, more);
    Releases.RunKeeps(c, Releases.EMPTY, es);
    Releases.PublishedRowsAreFinal(c, Releases.Run(c, Releases.EMPTY, es), more, id);
    RunFromCli(c, key, Releases.EMPTY, es + more);
    Releases.EveryRowHasItsBundle(c, es + more, id);
    bundle := later.uploads[id];
    var p := CliRow(c, key, id, later.rows[id], bundle);
  }
}
