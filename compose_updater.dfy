/**
 * The current updater (docker.go): pick the services of the compose file
 * that the include/exclude configuration lets through, pull their images,
 * compare each freshly pulled image with the image of the running
 * container, and restart the whole stack when any of them differs.
 *
 * Every docker invocation is an oracle: a `Host` value says what each
 * inspect command prints (a missing key means the command failed) and
 * which command lines exit with a non-zero status.
 */
module ComposeUpdater {
  import opened Basics
  import opened Text

  /** One entry of the compose file's `services` map. */
  datatype Service = Service(image: string)

  /** The selection configuration: names to include and names to exclude. */
  datatype Config = Config(included: seq<string>, excluded: seq<string>)

  /** The docker host as seen after the pull.
      imageIds:         image reference -> stdout of `docker image inspect --format={{.Id}}`
      containerNames:   service name -> stdout of `docker compose ps --format {{.Name}}`
      containerImages:  container name -> stdout of `docker container inspect --format={{.Image}}`
      failing:          the command lines that exit with a non-zero status */
  datatype Host = Host(
    imageIds: map<string, string>,
    containerNames: map<string, string>,
    containerImages: map<string, string>,
    failing: set<seq<string>>)

  /** A command that was run, with whether it succeeded. */
  datatype Issued = Issued(argv: seq<string>, ok: bool)

  /** Which of the three lookups of a service failed. */
  datatype Lookup = ImageDigest | ContainerName | ContainerDigest

  /** The outcome of comparing one service. */
  datatype Verdict = Skipped(failed: Lookup) | UpToDate | UpdateRequired

  const DownArgv: seq<string> := ["docker", "compose", "down"]
  const UpArgv: seq<string> := ["docker", "compose", "up", "-d"]

  function PullArgv(services: seq<string>): seq<string> {
    ["docker", "compose", "pull"] + services
  }

  function Run(host: Host, argv: seq<string>): Issued {
    Issued(argv, argv !in host.failing)
  }

  // ---------------------------------------------------------------------
  // Selection

  /** A linear search for `x` in `xs`, returning at the first match. */
  function Contains(xs: seq<string>, x: string): (found: bool)
    ensures found <==> x in xs
  {
    if xs == [] then false
    else if xs[0] == x then true
    else Contains(xs[1..], x)
  }

  /** Whether a service is processed under a configuration: exclusion is
      checked first and always wins; a non-empty include list admits only
      its members; an empty one admits everything. */
  function ShouldProcessService(name: string, config: Config): (process: bool)
    ensures name in config.excluded ==> !process
    ensures name !in config.excluded && config.included == [] ==> process
    ensures name !in config.excluded && config.included != [] ==> (process <==> name in config.included)
  {
    if |config.excluded| > 0 && Contains(config.excluded, name) then
      false
    else if |config.included| > 0 then
      Contains(config.included, name)
    else
      true
  }

  /** A nil configuration selects every service. */
  predicate Selected(config: Option<Config>, name: string) {
    config.None? || ShouldProcessService(name, config.value)
  }

  /** The names of the compose services that the configuration selects,
      each once, in the (unspecified) order in which the map is visited. */
  method ListServices(compose: map<string, Service>, config: Option<Config>) returns (services: seq<string>)
    ensures forall n :: n in services <==> n in compose && Selected(config, n)
    ensures config.None? ==> forall n :: n in compose ==> n in services
    ensures Distinct(services)
  {
    services := [];
    var unvisited := compose.Keys;
    while unvisited != {}
      invariant unvisited <= compose.Keys
      invariant forall n :: n in services <==> n in compose && n !in unvisited && Selected(config, n)
      invariant Distinct(services)
      decreases unvisited
    {
      var name :| name in unvisited;
      unvisited := unvisited - {name};
      if config.Some? && !ShouldProcessService(name, config.value) {
        continue;
      }
      services := services + [name];
    }
  }

  // ---------------------------------------------------------------------
  // Lookups: the oracle's output, with surrounding white space trimmed

  function GetImageDigest(host: Host, image: string): (digest: Option<string>)
    ensures digest.Some? <==> image in host.imageIds
    ensures digest.Some? ==> digest.value == TrimSpace(host.imageIds[image])
    ensures digest.Some? ==> NoOuterSpace(digest.value)
  {
    if image in host.imageIds then Some(TrimSpace(host.imageIds[image])) else None
  }

  function GetContainerName(host: Host, serviceName: string): (name: Option<string>)
    ensures name.Some? <==> serviceName in host.containerNames
    ensures name.Some? ==> name.value == TrimSpace(host.containerNames[serviceName])
    ensures name.Some? ==> NoOuterSpace(name.value)
  {
    if serviceName in host.containerNames then Some(TrimSpace(host.containerNames[serviceName])) else None
  }

  function GetContainerDigest(host: Host, containerName: string): (digest: Option<string>)
    ensures digest.Some? <==> containerName in host.containerImages
    ensures digest.Some? ==> digest.value == TrimSpace(host.containerImages[containerName])
    ensures digest.Some? ==> NoOuterSpace(digest.value)
  {
    if containerName in host.containerImages then Some(TrimSpace(host.containerImages[containerName])) else None
  }

  /** The verdict on one service: the three lookups in order, the first
      failure skips the service, otherwise the trimmed digests are
      compared by exact string equality. */
  function ServiceVerdict(host: Host, serviceName: string, service: Service): (v: Verdict)
    ensures v == Skipped(ImageDigest) <==> service.image !in host.imageIds
    ensures v == Skipped(ContainerName) <==>
              service.image in host.imageIds && serviceName !in host.containerNames
    ensures v == Skipped(ContainerDigest) <==>
              && service.image in host.imageIds && serviceName in host.containerNames
              && TrimSpace(host.containerNames[serviceName]) !in host.containerImages
    ensures !v.Skipped? ==>
              (v == UpdateRequired <==>
                 TrimSpace(host.containerImages[TrimSpace(host.containerNames[serviceName])])
                 != TrimSpace(host.imageIds[service.image]))
  {
    match GetImageDigest(host, service.image)
    case None => Skipped(ImageDigest)
    case Some(latest) =>
      match GetContainerName(host, serviceName)
      case None => Skipped(ContainerName)
      case Some(container) =>
        match GetContainerDigest(host, container)
        case None => Skipped(ContainerDigest)
        case Some(current) => if current != latest then UpdateRequired else UpToDate
  }

  /** Go's map index: a missing name reads as the zero Service. */
  function ServiceOf(compose: map<string, Service>, name: string): Service {
    if name in compose then compose[name] else Service("")
  }

  predicate Required(host: Host, compose: map<string, Service>, name: string) {
    ServiceVerdict(host, name, ServiceOf(compose, name)) == UpdateRequired
  }

  /** When all three lookups succeed, the verdict depends only on the
      digests with their white-space padding removed: equal digests are up
      to date, any difference requires an update. */
  lemma VerdictComparesTrimmedDigests(
    host: Host, serviceName: string, service: Service, container: string,
    latest: string, current: string, p1: string, q1: string, p2: string, q2: string)
    requires NoOuterSpace(latest) && NoOuterSpace(current)
    requires AllSpace(p1) && AllSpace(q1) && AllSpace(p2) && AllSpace(q2)
    requires service.image in host.imageIds && host.imageIds[service.image] == p1 + latest + q1
    requires serviceName in host.containerNames && TrimSpace(host.containerNames[serviceName]) == container
    requires container in host.containerImages && host.containerImages[container] == p2 + current + q2
    ensures ServiceVerdict(host, serviceName, service) == if latest == current then UpToDate else UpdateRequired
  {
    TrimSpaceDropsPadding(p1, latest, q1);
    TrimSpaceDropsPadding(p2, current, q2);
  }

  /** A service whose lookups fail is skipped, and a skipped service never
      requires an update: it neither triggers nor blocks the restart. */
  lemma FailedLookupSkips(host: Host, serviceName: string, service: Service)
    requires service.image !in host.imageIds
             || serviceName !in host.containerNames
             || TrimSpace(host.containerNames[serviceName]) !in host.containerImages
    ensures ServiceVerdict(host, serviceName, service).Skipped?
  {
  }

  // ---------------------------------------------------------------------
  // One update pass

  /** The comparison loop of an update pass: every listed service gets
      its verdict, a failed lookup skips just that service, and the flag
      is raised exactly when some listed service requires an update. The
      result does not depend on the order of `services`. */
  method CompareServices(compose: map<string, Service>, host: Host, services: seq<string>)
    returns (verdicts: map<string, Verdict>, updateServices: bool)
    ensures verdicts == (map n | n in services :: ServiceVerdict(host, n, ServiceOf(compose, n)))
    ensures updateServices <==> exists n :: n in services && Required(host, compose, n)
  {
    verdicts, updateServices := map[], false;
    for i := 0 to |services|
      invariant verdicts == (map n | n in services[..i] :: ServiceVerdict(host, n, ServiceOf(compose, n)))
      invariant updateServices <==> exists n :: n in services[..i] && Required(host, compose, n)
    {
      var serviceName := services[i];
      var service := ServiceOf(compose, serviceName);
      ExtendPrefix(compose, host, services, i);

      var latestDigest := GetImageDigest(host, service.image);
      if latestDigest.None? {
        verdicts := verdicts[serviceName := Skipped(ImageDigest)];
        continue;
      }
      var containerName := GetContainerName(host, serviceName);
      if containerName.None? {
        verdicts := verdicts[serviceName := Skipped(ContainerName)];
        continue;
      }
      var currentDigest := GetContainerDigest(host, containerName.value);
      if currentDigest.None? {
        verdicts := verdicts[serviceName := Skipped(ContainerDigest)];
        continue;
      }

      var updateThisService := false;
      if currentDigest.value != latestDigest.value {
        updateServices := true;
        updateThisService := true;
      }
      verdicts := verdicts[serviceName := if updateThisService then UpdateRequired else UpToDate];
    }
    assert services[..|services|] == services;
  }

  /** Taking one more service into the prefix adds exactly its verdict. */
  lemma ExtendPrefix(compose: map<string, Service>, host: Host, services: seq<string>, i: nat)
    requires i < |services|
    ensures (map n | n in services[..i + 1] :: ServiceVerdict(host, n, ServiceOf(compose, n)))
            == (map n | n in services[..i] :: ServiceVerdict(host, n, ServiceOf(compose, n)))
               [services[i] := ServiceVerdict(host, services[i], ServiceOf(compose, services[i]))]
    ensures (exists n :: n in services[..i + 1] && Required(host, compose, n))
            <==> (exists n :: n in services[..i] && Required(host, compose, n)) || Required(host, compose, services[i])
  {
    assert services[..i + 1] == services[..i] + [services[i]];
  }

  /** One update pass. Returns the selected services, the docker commands
      run in order, the verdict on each compared service and whether the
      stack was restarted.
      - nothing selected: no command at all;
      - otherwise `docker compose pull <services>` first; if it fails,
        nothing more;
      - otherwise every selected service gets its verdict, and the whole
        stack is taken down and brought up again exactly when some
        selected service requires an update; `up -d` is run whether or
        not `down` succeeded. */
  method UpdateImages(compose: map<string, Service>, config: Option<Config>, host: Host)
    returns (services: seq<string>, issued: seq<Issued>, verdicts: map<string, Verdict>, updateServices: bool)
    ensures forall n :: n in services <==> n in compose && Selected(config, n)
    ensures Distinct(services)
    ensures services == [] ==> issued == [] && verdicts == map[] && !updateServices
    ensures services != [] ==> |issued| > 0 && issued[0] == Run(host, PullArgv(services))
    ensures services != [] && PullArgv(services) in host.failing ==>
              issued == [Run(host, PullArgv(services))] && verdicts == map[] && !updateServices
    ensures services != [] && PullArgv(services) !in host.failing ==>
              && verdicts == (map n | n in services :: ServiceVerdict(host, n, ServiceOf(compose, n)))
              && (updateServices <==> exists n :: n in services && Required(host, compose, n))
              && issued == [Run(host, PullArgv(services))]
                           + (if updateServices then [Run(host, DownArgv), Run(host, UpArgv)] else [])
  {
    issued, verdicts, updateServices := [], map[], false;
    services := ListServices(compose, config);
    if |services| == 0 {
      return;
    }

    var pull := Run(host, PullArgv(services));
    issued := [pull];
    if !pull.ok {
      return;
    }

    verdicts, updateServices := CompareServices(compose, host, services);

    if updateServices {
      issued := issued + [Run(host, DownArgv)];
      issued := issued + [Run(host, UpArgv)];
    }
  }
}
