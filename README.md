# dcupdate: service selection and update decision, in Dafny

dcupdate is a small Docker Compose auto-updater. On each pass it reads the
compose file and decides whether the stack needs restarting because a
service's image has changed. If it does, it restarts the stack. The
repository has two variants of this pass, and each is its own Dafny
module here:

- `ComposeUpdater` (docker.go, the current variant).
  - It selects services with an include/exclude configuration.
  - It pulls the images of the selected services only.
  - It compares the trimmed digest of each freshly pulled image with the trimmed image digest of the service's running container. A service is skipped when any of its three lookups fails.
  - When any selected service differs, it runs `docker compose down` and then `docker compose up -d` for the whole stack.
- `LegacyUpdater` (main.go, the older variant).
  - It visits every compose service and compares the untrimmed local image id with the registry's manifest `config.digest`.
  - It stops at the first service whose hashes differ.
  - It always runs `down`, `pull` and `up -d`, because its restart flag starts out true.
- `Text` models Go's `strings.TrimSpace` over `unicode.IsSpace`, which docker.go applies to every inspect output.
- `Basics` holds the `Option` type and the `Distinct` predicate that both variants use.

Every docker invocation is an oracle held in a `Host` value:
- a map from a command's argument to what the command prints, where a missing key means the command failed;
- the set of command lines that exit with a non-zero status.

The commands a pass runs through `runCommandAndLogOutput` (`compose pull`, `compose down`, `compose up -d`) are recorded in order in `issued`, each as `Issued(argv, ok)`. The inspect queries (`docker image inspect`, `docker compose ps`, `docker container inspect`, `docker manifest inspect`) are not in `issued`. They are read from `Host`, and what they returned shows up in `verdicts` (docker.go) or in the order of `inspected` (main.go).

Go visits map entries in an unspecified order. Both loops over the compose map pick the next name with `:|` from the names not yet visited. The docker.go results are stated independently of that order. The main.go loop stops at the first difference, so its order matters: it returns the order in which it inspected services.

## Model

| member | source | states |
|---|---|---|
| `Text.SpanStart` | docker.go:49 | the forward scan stops at the first character that is not white space, or at the end, having passed only white space |
| `Text.SpanStop` | docker.go:49 | the backward scan stops just after the last character that is not white space, never below the start, having passed only white space |
| `Text.TrimSpace` | docker.go:49 | the result is a contiguous piece of the input with only white space cut from either end, and it neither starts nor ends with white space |
| `Text.TrimSpaceDropsPadding` | docker.go:61 | white space added around a value without outer white space disappears on trimming: `TrimSpace(p + t + q) == t` |
| `Text.TrimSpaceIdempotent` | docker.go:49 | a general property of the `strings.TrimSpace` that docker.go calls: trimming an already trimmed string changes nothing |
| `ComposeUpdater.Contains` | docker.go:93-97 | the linear search with early return finds `x` exactly when `x` is an element of the list |
| `ComposeUpdater.ShouldProcessService` | docker.go:91-111 | a name in `Exclude` is never processed, whatever `Include` holds; with an empty `Include` every other name is processed; with a non-empty `Include` a non-excluded name is processed exactly when it is listed there |
| `ComposeUpdater.ListServices` | docker.go:76-89 | returns exactly the compose keys that a nil configuration, or `shouldProcessService`, accepts, each exactly once and nothing outside the compose file; with a nil configuration that is every key |
| `ComposeUpdater.GetImageDigest` | docker.go:40-50 | the lookup succeeds exactly when the image inspect succeeds; its result is `TrimSpace` of the inspect output, so it has no white space at either end |
| `ComposeUpdater.GetContainerDigest` | docker.go:52-62 | the lookup succeeds exactly when the container inspect succeeds; its result is `TrimSpace` of the inspect output, so it has no white space at either end |
| `ComposeUpdater.GetContainerName` | docker.go:64-74 | the lookup succeeds exactly when `docker compose ps` succeeds; its result is `TrimSpace` of that output, so it has no white space at either end |
| `ComposeUpdater.ServiceVerdict` | docker.go:150-182 | the per-service decision: skipped at the image digest exactly when the image inspect fails, at the container name exactly when that succeeds and `compose ps` fails, at the container digest exactly when both succeed and the container inspect fails; otherwise "update required" exactly when the two trimmed digests differ |
| `ComposeUpdater.VerdictComparesTrimmedDigests` | docker.go:150-176 | when all three lookups succeed, the verdict depends only on the trimmed digests: equal means up to date, any difference means update required |
| `ComposeUpdater.FailedLookupSkips` | docker.go:150-166 | a failed image-digest, container-name or container-digest lookup makes the service skipped, never "update required" |
| `ComposeUpdater.CompareServices` | docker.go:139-183 | every listed service gets its verdict; a failed lookup skips only that service; the update flag is true exactly when some listed service requires an update, whatever the order |
| `ComposeUpdater.UpdateImages` | docker.go:113-198 | no selected service: no docker command at all; otherwise `docker compose pull` with exactly the selected names comes first; if the pull fails nothing follows; otherwise `compose down` and then `compose up -d`, both with no service argument, follow exactly when some selected service requires an update, and `up -d` runs even if `down` failed |
| `LegacyUpdater.CurrentHash` | main.go:65-75 | the lookup succeeds exactly when the image inspect succeeds; as written the hash is the untrimmed output, and in the corrected pass it is `TrimSpace` of it |
| `LegacyUpdater.LatestHash` | main.go:77-94 | the lookup succeeds exactly when the manifest inspect and its JSON decoding succeed, and the result is the `config.digest` field |
| `LegacyUpdater.ProbeService` | main.go:158-182 | the per-service decision: the current-hash failure exactly when the image inspect fails, the latest-hash failure exactly when that succeeds and the manifest lookup fails, and a new image exactly when both succeed and the hashes differ by exact string comparison |
| `LegacyUpdater.FindNewImage` | main.go:153-183 | each compose service is inspected at most once; a failed lookup only skips that service; the loop stops at the first service whose hashes differ, and no service after it is inspected; when it does not stop early, every service was inspected and none differs |
| `LegacyUpdater.UpdateImages` | main.go:140-203 | whatever the lookups return, the commands are exactly `compose down`, `compose pull`, `compose up -d`, in that order, each attempted even if the previous one failed; the inspected services obey the early-stop rule |
| `LegacyUpdater.UntrimmedHashNeverMatches` | main.go:74 | an inspect output ending in a newline never equals the registry digest it is compared with, so the service reads as having a new image |
| `LegacyUpdater.TrimmedHashMatches` | main.go:178 | with the local hash trimmed, the comparison finds equal digests equal and still reports a real difference |
| `LegacyUpdater.UpdateImagesIntended` | main.go:152-202 | corrected pass: the restart sequence runs exactly when some service has a new image, and no command runs otherwise |

## Left out

- `runCommandAndLogOutput` (main.go:96-138, utils.go:21-61) spawns a subprocess and has two goroutines stream its output. It is only an oracle here: a command fails exactly when its argument list is in `Host.failing`. The streamed output and the concurrency are not modelled.
- `readDockerCompose` and `readOneOf` (docker.go:21-38, main.go:38-63, utils.go:11-19) read a file and decode YAML with a library. The parsed `services` map is an input to each pass. The `log.Fatalf` on a read failure is not modelled.
- `getImageDigest`, `getContainerName`, `getContainerDigest`, `getCurrentImageHash` and `getLatestImageHash` run `exec.Command`, and main.go also decodes JSON. Each is a map in `Host` from its argument to the command's output. The trimming in docker.go is modelled; the JSON decoding is not. When the manifest has no `config.digest` field, Go decodes it as the empty string, and the oracle holds that empty string.
- The pull in docker.go changes what the image inspect then prints. `ComposeUpdater.Host` describes the host as it is after the pull; the change the pull makes is not modelled.
- Verbose logging, the `init` flag parsing and the `main` loop that sleeps five minutes (main.go:205-209) are side effects and timing.
- The per-service log lines ("update required", "up to date", the failure messages) are not modelled as text. Each is a `Verdict` value (docker.go) or a `Probe` value (main.go).
- Strings are sequences of characters. Go's `TrimSpace` works on UTF-8 bytes, and how it treats invalid UTF-8 is not modelled.
- The wider product has a debounced trigger coordinator and an HMAC webhook authenticator. Neither is in docker.go or main.go, so neither is part of this model.
- A service with no running container might be expected to need an update. docker.go instead skips the service when a lookup fails. This covers a stopped service: `compose ps` then prints nothing, and inspecting the container "" fails. The model follows the code.
- Restarting only the changed services is not what docker.go does. It restarts the whole stack (`down` and `up -d` with no service names), and the model follows that.
- `ComposeUpdater.CompareServices` reads a missing service name as Go's zero `Service` (empty image), as Go's map index does. `UpdateImages` only ever passes names taken from the compose map.

## Findings

| source | as written | input that shows it | evidently intended | confidence | as-written member | corrected member |
|---|---|---|---|---|---|---|
| main.go:152 | `updateServices` starts out `true` and is only ever set to `true`, so the stack restarts on every pass | a compose file with one service whose local hash equals the registry digest: `down`, `pull` and `up -d` still run | start with `false`, so the restart runs only when the loop finds a new image, as docker.go:141 does | medium, not executed | `LegacyUpdater.UpdateImages` | `LegacyUpdater.UpdateImagesIntended` |
| main.go:74 | the local hash is the raw inspect output, which docker prints with a trailing newline, and it is compared with the bare manifest digest | inspect prints "sha256:ab\n" and the manifest digest is "sha256:ab": the two never compare equal | trim the output, as docker.go:49 does | medium, not executed | `LegacyUpdater.UntrimmedHashNeverMatches` | `LegacyUpdater.TrimmedHashMatches` |
