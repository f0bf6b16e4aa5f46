/**
 * The older updater (main.go): look through the compose services, in the
 * order the map is visited, for one whose local image hash differs from
 * the registry's manifest digest, stopping at the first; then take the
 * stack down, pull and bring it up again.
 *
 * As written the restart flag starts out true, so the restart runs on
 * every pass, and the local hash is compared untrimmed. The corrected
 * pass at the end of this module starts the flag false and trims the
 * local hash.
 */
module LegacyUpdater {
  import opened Basics
  import opened Text

  /** One entry of the compose file's `services` map. */
  datatype Service = Service(image: string)

  /** The docker host.
      currentHashes:  image reference -> stdout of `docker image inspect --format={{.Id}}`
      latestHashes:   image reference -> the `config.digest` field of the JSON that
                      `docker manifest inspect` prints (missing when the command fails
                      or its output does not decode)
      failing:        the command lines that exit with a non-zero status */
  datatype Host = Host(
    currentHashes: map<string, string>,
    latestHashes: map<string, string>,
    failing: set<seq<string>>)

  /** A command that was run, with whether it succeeded. */
  datatype Issued = Issued(argv: seq<string>, ok: bool)

  /** What inspecting one service found. */
  datatype Probe = CurrentHashFailed | LatestHashFailed | SameHash | NewImage

  const DownArgv: seq<string> := ["docker", "compose", "down"]
  const PullArgv: seq<string> := ["docker", "compose", "pull"]
  const UpArgv: seq<string> := ["docker", "compose", "up", "-d"]

  function Run(host: Host, argv: seq<string>): Issued {
    Issued(argv, argv !in host.failing)
  }

  /** The restart sequence, each step attempted whatever became of the
      one before. */
  function RestartSequence(host: Host): seq<Issued> {
    [Run(host, DownArgv), Run(host, PullArgv), Run(host, UpArgv)]
  }

  /** The local image hash: the raw inspect output, or with its white
      space trimmed in the corrected pass. */
  function CurrentHash(host: Host, image: string, trimCurrent: bool): (hash: Option<string>)
    ensures hash.Some? <==> image in host.currentHashes
    ensures hash.Some? && !trimCurrent ==> hash.value == host.currentHashes[image]
    ensures hash.Some? && trimCurrent ==> hash.value == TrimSpace(host.currentHashes[image])
    ensures hash.Some? && trimCurrent ==> NoOuterSpace(hash.value)
  {
    if image !in host.currentHashes then None
    else if trimCurrent then Some(TrimSpace(host.currentHashes[image]))
    else Some(host.currentHashes[image])
  }

  function LatestHash(host: Host, image: string): (hash: Option<string>)
    ensures hash.Some? <==> image in host.latestHashes
    ensures hash.Some? ==> hash.value == host.latestHashes[image]
  {
    if image in host.latestHashes then Some(host.latestHashes[image]) else None
  }

  /** Inspecting one service: the local hash first (on failure the
      registry is not asked), then the registry digest; the two are
      compared by exact string equality. */
  function ProbeService(host: Host, service: Service, trimCurrent: bool): (p: Probe)
    ensures p == CurrentHashFailed <==> service.image !in host.currentHashes
    ensures p == LatestHashFailed <==>
              service.image in host.currentHashes && service.image !in host.latestHashes
    ensures p == NewImage <==>
              && service.image in host.currentHashes && service.image in host.latestHashes
              && (if trimCurrent then TrimSpace(host.currentHashes[service.image])
                  else host.currentHashes[service.image]) != host.latestHashes[service.image]
  {
    match CurrentHash(host, service.image, trimCurrent)
    case None => CurrentHashFailed
    case Some(current) =>
      match LatestHash(host, service.image)
      case None => LatestHashFailed
      case Some(latest) => if current != latest then NewImage else SameHash
  }

  predicate HasNewImage(host: Host, compose: map<string, Service>, name: string, trimCurrent: bool) {
    name in compose && ProbeService(host, compose[name], trimCurrent) == NewImage
  }

  /** The comparison loop. Visits the services in an unspecified order,
      each at most once; a failed lookup skips just that service; the
      first service with a new image ends the loop, so no service after it
      is inspected. Returns the services inspected, in order, and whether
      the loop stopped at a new image. */
  method FindNewImage(compose: map<string, Service>, host: Host, trimCurrent: bool)
    returns (inspected: seq<string>, found: bool)
    ensures Distinct(inspected)
    ensures forall n :: n in inspected ==> n in compose
    ensures found ==> inspected != [] && HasNewImage(host, compose, inspected[|inspected| - 1], trimCurrent)
    ensures forall k :: 0 <= k < |inspected| && (k < |inspected| - 1 || !found) ==>
              !HasNewImage(host, compose, inspected[k], trimCurrent)
    ensures !found ==> forall n :: n in compose ==> n in inspected
    ensures found <==> exists n :: n in compose && HasNewImage(host, compose, n, trimCurrent)
  {
    inspected, found := [], false;
    var unvisited := compose.Keys;
    while unvisited != {}
      invariant unvisited <= compose.Keys
      invariant Distinct(inspected)
      invariant forall n :: n in inspected <==> n in compose && n !in unvisited
      invariant forall k :: 0 <= k < |inspected| ==> !HasNewImage(host, compose, inspected[k], trimCurrent)
      invariant !found
      decreases unvisited
    {
      var serviceName :| serviceName in unvisited;
      var service := compose[serviceName];
      unvisited := unvisited - {serviceName};
      inspected := inspected + [serviceName];

      var currentHash := CurrentHash(host, service.image, trimCurrent);
      if currentHash.None? {
        continue;
      }
      var latestHash := LatestHash(host, service.image);
      if latestHash.None? {
        continue;
      }
      if currentHash.value != latestHash.value {
        found := true;
        break;
      }
    }
  }

  /** One update pass as written: the flag is initialised to true and is
      only ever set to true, so `down`, `pull` and `up -d` run, in that
      order, on every pass, whatever the hash lookups return. */
  method UpdateImages(compose: map<string, Service>, host: Host)
    returns (inspected: seq<string>, issued: seq<Issued>)
    ensures Distinct(inspected) && forall n :: n in inspected ==> n in compose
    ensures forall k :: 0 <= k < |inspected| - 1 ==> !HasNewImage(host, compose, inspected[k], false)
    ensures (exists n :: n in compose && n !in inspected) ==>
              inspected != [] && HasNewImage(host, compose, inspected[|inspected| - 1], false)
    ensures issued == RestartSequence(host)
  {
    var updateServices := true;
    var found;
    inspected, found := FindNewImage(compose, host, false);
    if found {
      updateServices := true;
    }

    issued := [];
    if updateServices {
      issued := issued + [Run(host, DownArgv)];
      issued := issued + [Run(host, PullArgv)];
      issued := issued + [Run(host, UpArgv)];
    }
  }

  /** The local hash is printed with a trailing newline, so as written it
      never equals the registry digest it is compared with: any service
      whose two lookups succeed reads as having a new image. */
  lemma UntrimmedHashNeverMatches(host: Host, service: Service, digest: string)
    requires service.image in host.currentHashes && host.currentHashes[service.image] == digest + "\n"
    requires service.image in host.latestHashes && host.latestHashes[service.image] == digest
    ensures ProbeService(host, service, false) == NewImage
  {
    assert |digest + "\n"| != |digest|;
  }

  /** With the local hash trimmed, the same output matches the registry
      digest, and a real difference is still reported. */
  lemma TrimmedHashMatches(host: Host, service: Service, digest: string, q: string)
    requires NoOuterSpace(digest) && AllSpace(q)
    requires service.image in host.currentHashes && host.currentHashes[service.image] == digest + q
    requires service.image in host.latestHashes
    ensures ProbeService(host, service, true) == if host.latestHashes[service.image] == digest then SameHash else NewImage
  {
    assert [] + digest + q == digest + q;
    TrimSpaceDropsPadding([], digest, q);
  }

  /** The corrected pass: the flag starts out false and the local hash is
      trimmed, so the stack restarts exactly when some service has a new
      image, and not at all otherwise. */
  method UpdateImagesIntended(compose: map<string, Service>, host: Host)
    returns (inspected: seq<string>, issued: seq<Issued>)
    ensures Distinct(inspected) && forall n :: n in inspected ==> n in compose
    ensures forall k :: 0 <= k < |inspected| - 1 ==> !HasNewImage(host, compose, inspected[k], true)
    ensures (exists n :: n in compose && n !in inspected) ==>
              inspected != [] && HasNewImage(host, compose, inspected[|inspected| - 1], true)
    ensures issued == if exists n :: n in compose && HasNewImage(host, compose, n, true)
                      then RestartSequence(host) else []
  {
    var updateServices := false;
    var found;
    inspected, found := FindNewImage(compose, host, true);
    if found {
      updateServices := true;
    }

    issued := [];
    if updateServices {
      issued := issued + [Run(host, DownArgv)];
      issued := issued + [Run(host, PullArgv)];
      issued := issued + [Run(host, UpArgv)];
    }
  }
}
