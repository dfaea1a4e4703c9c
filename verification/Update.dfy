/** Update discovery, download and verification: what the SDK accepts from the server. */
module Update {
  import opened Common
  import opened Signing

  datatype Config = Config(
    serverUrl: string, channel: string, runtimeVersion: string, platform: string, signingPublicKey: string)

  datatype RawReleaseMetadata = RawReleaseMetadata(
    id: Id, version: string, platform: string, channel: string, runtimeVersion: string,
    bundleHash: string, signature: Option<string>, size: int)

  datatype UpdateInfo = UpdateInfo(
    id: Id, version: string, platform: string, channel: string, runtimeVersion: string,
    bundleHash: string, signature: string, size: int)

  datatype Response<+T> = Ok(body: T) | HttpError(status: int)

  datatype Error = NotConfigured | NoSignature | BadStatus(status: int) | HashMismatch | BadSignature

  /** An absent and an empty signature are both refused. */
  function ToUpdateInfo(raw: RawReleaseMetadata): Result<UpdateInfo, Error> {
    if raw.signature.None? || raw.signature.value == [] then Failure(NoSignature)
    else Success(UpdateInfo(raw.id, raw.version, raw.platform, raw.channel, raw.runtimeVersion,
                            raw.bundleHash, raw.signature.value, raw.size))
  }

  function FetchLatestUpdate(response: Response<seq<RawReleaseMetadata>>): Result<Option<UpdateInfo>, Error> {
    match response
    case HttpError(status) => Failure(BadStatus(status))
    case Ok(releases) =>
      if releases == [] then Success(None)
      else
        match ToUpdateInfo(releases[0])
        case Failure(error) => Failure(error)
        case Success(update) => Success(Some(update))
  }

  function SigningInputOf(u: UpdateInfo): SigningInput {
    SigningInput(u.bundleHash, u.version, u.platform, u.channel, u.runtimeVersion)
  }

  /** The download up to the hash check, which is done as soon as the bytes are there. */
  function CheckHash(c: Crypto, u: UpdateInfo, response: Response<Bytes>): Result<Bytes, Error> {
    match response
    case HttpError(status) => Failure(BadStatus(status))
    case Ok(bytes) => if Sha256Hex(c, bytes) != u.bundleHash then Failure(HashMismatch) else Success(bytes)
  }

  function CheckSignature(c: Crypto, config: Config, u: UpdateInfo, bytes: Bytes): Result<Bytes, Error> {
    if VerifyRelease(c, config.signingPublicKey, SigningInputOf(u), u.signature) then Success(bytes)
    else Failure(BadSignature)
  }

  function DownloadAndVerifyBundle(c: Crypto, config: Config, u: UpdateInfo, response: Response<Bytes>)
    : Result<Bytes, Error>
  {
    match CheckHash(c, u, response)
    case Failure(error) => Failure(error)
    case Success(bytes) => CheckSignature(c, config, u, bytes)
  }

  /** Both checks of the SDK hold of these bytes. */
  predicate Passes(c: Crypto, config: Config, u: UpdateInfo, bytes: Bytes) {
    && Sha256Hex(c, bytes) == u.bundleHash
    && VerifyRelease(c, config.signingPublicKey, SigningInputOf(u), u.signature)
  }

  /** A download is accepted exactly when the server answered with bytes whose digest is the announced one, and the
      signature of the announced hash and metadata verifies under the configured key; then those bytes are returned. */
  lemma AcceptedIffPasses(c: Crypto, config: Config, u: UpdateInfo, response: Response<Bytes>)
    ensures DownloadAndVerifyBundle(c, config, u, response).Success? <==>
            response.Ok? && Passes(c, config, u, response.body)
    ensures DownloadAndVerifyBundle(c, config, u, response).Success? <==>
            && response.Ok? && Unhex(u.bundleHash) == Some(c.sha256(response.body))
            && Decode(config.signingPublicKey).Some? && Decode(u.signature).Some?
            && c.verify(Decode(u.signature).value,
                        c.utf8(u.bundleHash + "\n" + u.version + "\n" + u.platform + "\n" + u.channel + "\n"
                               + u.runtimeVersion),
                        Decode(config.signingPublicKey).value)
    ensures DownloadAndVerifyBundle(c, config, u, response).Success? ==>
              DownloadAndVerifyBundle(c, config, u, response).value == response.body
  {
    if response.Ok? {
      HexIff(u.bundleHash, c.sha256(response.body));
    }
    VerifiesIff(c, config.signingPublicKey, SigningInputOf(u), u.signature);
  }

  /** Which check refused a download. */
  lemma RefusalNamesTheCheck(c: Crypto, config: Config, u: UpdateInfo, response: Response<Bytes>)
    requires DownloadAndVerifyBundle(c, config, u, response).Failure?
    ensures DownloadAndVerifyBundle(c, config, u, response).error ==
            if response.HttpError? then BadStatus(response.status)
            else if Unhex(u.bundleHash) != Some(c.sha256(response.body)) then HashMismatch else BadSignature
  {
    if response.Ok? {
      HexIff(u.bundleHash, c.sha256(response.body));
    }
  }

  /** The newest update is the first listed release, field by field. An error status and a first release without a
      signature are refused; only an empty list means that there is no update. */
  lemma FetchedIsTheFirst(response: Response<seq<RawReleaseMetadata>>)
    ensures response.HttpError? ==> FetchLatestUpdate(response) == Failure(BadStatus(response.status))
    ensures response.Ok? && response.body == [] ==> FetchLatestUpdate(response) == Success(None)
    ensures response.Ok? && response.body != [] ==>
              var raw := response.body[0];
              if raw.signature == None || raw.signature == Some("")
              then FetchLatestUpdate(response) == Failure(NoSignature)
              else FetchLatestUpdate(response) ==
                   Success(Some(UpdateInfo(raw.id, raw.version, raw.platform, raw.channel, raw.runtimeVersion,
                                           raw.bundleHash, raw.signature.value, raw.size)))
  {
  }

  /** Against any server: if the configured key signed nothing but `released`, then accepted bytes have the very digest
      of a release with the metadata of this update, if and only if no newline is in its version, platform or
      channel. (The hash text has none, since it is the hex form of a digest.) */
  lemma AcceptedBundleWasReleased(
    c: Crypto, config: Config, publicKey: Bytes, released: set<SigningInput>, u: UpdateInfo, response: Response<Bytes>)
    requires config.signingPublicKey == Encode(publicKey) && OnlyReleasedVerify(c, publicKey, released)
    requires DownloadAndVerifyBundle(c, config, u, response).Success?
    ensures (exists j :: && j in released && Unhex(j.bundleHash) == Some(c.sha256(response.body))
                         && j.version == u.version && j.platform == u.platform && j.channel == u.channel
                         && j.runtimeVersion == u.runtimeVersion)
            <==> '\n' !in u.version && '\n' !in u.platform && '\n' !in u.channel
  {
    var i := SigningInputOf(u);
    AcceptedIffPasses(c, config, u, response);
    HexHasNoNewline(c.sha256(response.body));
    VerifiedInputWasReleased(c, publicKey, released, i, u.signature);
    forall j | j in released && Unhex(j.bundleHash) == Some(c.sha256(response.body))
      ensures j.bundleHash == i.bundleHash
    {
      HexIff(j.bundleHash, c.sha256(response.body));
    }
    if i in released {
      assert Unhex(i.bundleHash) == Some(c.sha256(response.body));
    }
  }
}
