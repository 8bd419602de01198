# Resources-Updater in Dafny

Resources-Updater is a server plugin that keeps the resource files of a game
server up to date, for example the mod jars in `server/mods`. For each resource
group the Modrinth handler does the following:

1. It scans the group's directory for candidate files. The scan is confined to
   the working directory. The files are filtered by whitelist, blacklist and
   name pattern.
2. It hashes the candidates and posts their digests to the Modrinth
   version-lookup endpoint.
3. It turns the answer into a change-set of `(url, filename, size, stale file)`
   entries.
4. It downloads each entry. The new file is written to a temporary file. The
   stale file is moved into the archive directory. The temporary file is then
   renamed onto the target.

This project models that core in Dafny and proves what each step promises.

- `wrappers.dfy` (`Wrappers`) holds `Option` and `Result`.
- `utils.dfy` (`Utils`) models `resources_updater/utils.py`:
  - the `ConjunctionPredicateBuilder` class, whose `Add` extends its list in
    place, whose `Holds` is the early-return loop `__pn`, and whose `Build` is
    the unrolled case selection;
  - `InsecurePathError`.
- `paths.dfy` (`Paths`) models the part of `pathlib` the core relies on:
  - paths as segment sequences under `/`;
  - lexical `resolve`, `name` and `with_suffix`;
  - the file system as a finite map from paths to nodes, with `replace`/`rename`.
- `config.dfy` (`Config`) models `resources_updater/config.py`:
  - `find_files_by_dir_path` as a pure specification and as the method that
    uses the builder;
  - the handler registry as a class with its two mutable collections;
  - `Resources.download`. The loop body is a method, and the whole run is
    proved equal to a left fold `Progress` over the change-set.
- `modrinth.dfy` (`Modrinth`) models `resources_updater/handler/modrinth.py`:
  - `fetch_from_url`, including its search loop;
  - the request body and the lookup result of `post`;
  - the digest map;
  - the change-set loop that pops digests from the map;
  - `ModrinthHandler.handle` over all resource groups. This is a method proved
    equal to the fold `HandlePrefix`.

The world outside the program is supplied as inputs:
- the names `iterdir` yields, per group;
- the hash function (`digest`);
- the outcome of each lookup POST (`Lookup`);
- the outcome of each download request (`Fetch`: raised, or a status, an
  optional content-length and a body that is complete or broken off).

Every operation that can raise returns the exception in its result rather than
assuming it away: `Result` for scanning, the `error` field of `Run`, `Diff` and
`HandleRun` for the loops.

As written, the code behaves as follows, and the model follows it:

- `raise_for_status` and `get_direct` sit outside the `try` in
  `Resources.download` (config.py:43-44). An HTTP error status or a failed
  request therefore ends the whole change-set, and with it `handle`. It does
  not just skip that file. `FailureOutsideTryAborts` and `RaisedEndsHandle`
  state this.
- Moving the stale file uses `Path.replace`, which raises `OSError`. That is
  not a `RequestException`, so the `except` at config.py:62 does not catch it.
  A stale file that has vanished ends the run, and the temporary file is left
  behind (`Step`, `DownloadItem`).
- `m.pop(key)` is evaluated only for response entries that carry an update.
  A response key that is not a local digest raises `KeyError` only in that
  case (`MissingKeyAborts`).
- Every non-200 answer to the lookup, whether a redirect, a client error or a
  server error, yields `{}` (`Post`).
- `modrinth.py` imports `working_dir` by name (modrinth.py:12). It therefore
  keeps the value the module saw when it was loaded, `Path('server')`
  (config.py:152). The plugin's `init` later rebinds `config.working_dir`.
  The containment check (config.py:156) and the archive directory
  (config.py:37-39) read the rebound value. `handle` builds each group's
  directory from the imported one (modrinth.py:54). The model keeps both:
  `Env.root` and `Env.importedRoot`. With a configured working directory other
  than `server`, a group such as the default `mods` is refused as insecure (`OutsideRootRejected`,
  `ConfiguredRootNotFollowed`).

## Model

| member | source | states |
|---|---|---|
| Utils.AllHold | resources_updater/utils.py:15-19 | The reference meaning of a builder: true iff every predicate in the list holds on the input. |
| Utils.FirstFailure | resources_updater/utils.py:15-19 | When the conjunction fails there is a first failing predicate, and all predicates before it hold. This is where the left-to-right scan stops. |
| Utils.ConjunctionPredicateBuilder.constructor | resources_updater/utils.py:8-9 | A new builder holds no predicates. |
| Utils.ConjunctionPredicateBuilder.Add | resources_updater/utils.py:11-13 | The predicate is appended iff the flag is true. Otherwise the list is unchanged. The builder itself is returned for chaining. |
| Utils.ConjunctionPredicateBuilder.Holds | resources_updater/utils.py:15-19 | The loop `__pn` answers true iff every predicate holds on the input. The loop invariant proves this. |
| Utils.ConjunctionPredicateBuilder.Build | resources_updater/utils.py:21-28 | For every list length, the built predicate agrees with the conjunction `AllHold`. This covers the empty case (accepts everything), the unrolled cases 1 to 4 and the general loop. |
| Utils.InsecurePathError.ToString | resources_updater/utils.py:32-36 | The string form of the error is exactly its message. |
| Paths.StepInto | resources_updater/config.py:156 | One segment of `resolve` keeps a path normal: no empty, `.` or `..` segments. |
| Paths.ResolveFrom | resources_updater/config.py:156 | Resolution from a normal prefix yields a normal path. |
| Paths.Resolve | resources_updater/config.py:156 | `resolve()` always yields a normal path. |
| Paths.ResolveFromNormal | resources_updater/config.py:156 | Resolving normal segments from a normal prefix just appends them. |
| Paths.ResolveIdempotent | resources_updater/config.py:156 | Resolving twice equals resolving once. A normal path resolves to itself. |
| Paths.ResolveFromAppend | resources_updater/config.py:156 | Resolution of a concatenation proceeds from the resolution of its first part. |
| Paths.ResolveSnoc | resources_updater/config.py:156 | Resolving `p / seg` is one resolution step applied to `resolve(p)`. |
| Paths.LastIndexOf | resources_updater/config.py:53 | The result is -1 or an index holding the character, and no later index holds it. |
| Paths.Stem | resources_updater/config.py:53 | The stem is a prefix of the name. |
| Paths.TempNameDiffers | resources_updater/config.py:52-53 | For a name ending in `.jar`, `with_suffix('.tmp')` replaces exactly that suffix, so the temporary name differs from the target name. |
| Config.FilesIn | resources_updater/config.py:170 | Every listed path is a regular file directly inside the directory. |
| Config.FilterByName | resources_updater/config.py:171 | Every kept path comes from the input and its name satisfies the predicate. |
| Config.Candidates | resources_updater/config.py:161-171 | Every candidate is a regular file directly inside the directory whose name passes whitelist, blacklist and pattern. |
| Config.ScopedCandidates | resources_updater/config.py:155-171 | `InsecurePathError` iff the resolved working dir is not a strict ancestor of the resolved target. `FileNotFoundError` iff it is, but the target is not a directory. Otherwise the candidates. |
| Config.FilterFilesIn | resources_updater/config.py:164-171 | Filtering the regular files by a predicate that agrees with the filter rule yields exactly the candidates. |
| Config.FindFilesByDirPath | resources_updater/config.py:155-171 | The method, with its builder of three conditional `add`s, returns exactly `ScopedCandidates`: same errors, same files, same order. |
| Config.CandidatesExactly | resources_updater/config.py:170-171 | Both directions. Candidates are regular files directly in the directory whose names pass. When the listing covers the directory, every such file is a candidate. |
| Config.CandidatesComplete | resources_updater/config.py:170-171 | A listed regular file whose name passes is a candidate. |
| Config.TrailingSegmentIgnored | resources_updater/config.py:155-159 | A trailing `/` or `.` in the target directory name changes neither the scan's outcome nor the files it finds, since the checks use the resolved path. |
| Config.WorkingDirRejected | resources_updater/config.py:156-157 | Scanning the working directory itself raises `InsecurePathError`. |
| Config.EscapeReportedBeforeMissing | resources_updater/config.py:156-159 | An escaping target raises `InsecurePathError`, whether or not it exists. Its message names the resolved target. |
| Config.Config.constructor | resources_updater/config.py:100-107 | The registry and the used set start empty, and every class is keyed by its own identifier. |
| Config.Config.RegisterHandler | resources_updater/config.py:109-117 | Returns true iff the identifier was new. The class is then added under it. Otherwise the registry is unchanged. Other entries and the used set never change. |
| Config.Config.RegUsedHandler | resources_updater/config.py:146-148 | The handler is added to the used set. The registry is unchanged. |
| Config.ProgressNext | resources_updater/config.py:42-64 | A run that has not raised advances by exactly one loop body. |
| Config.ProgressStops | resources_updater/config.py:42-44 | Once an exception ends the run, later items change nothing. |
| Config.ProgressDone | resources_updater/config.py:42-64 | Leaving the loop after the last item, or at the first exception, gives the run over the whole change-set. |
| Config.DownloadItem | resources_updater/config.py:42-64 | One loop body. Request, status check, size warning, archive mkdir, temp write, archive move and rename all equal `Step`, including each exception path. |
| Config.RunChangeSet | resources_updater/config.py:41-64 | The loop creates the directory and then equals `Progress` over the whole change-set. |
| Config.Download | resources_updater/config.py:36-64 | The archive dir is the working dir when `archive_dir` is None, otherwise working dir / `archive_dir`. The result is the run over the change-set with that archive. |
| Config.ItemPromoted | resources_updater/config.py:52-61 | For a streamed item the target holds the new bytes, even when the new name equals the stale one. The archive holds the old file, unless it is the target. The stale path and the temp path are gone. No other path changes except the archive dir. |
| Config.BrokenStreamSkipsItem | resources_updater/config.py:56-64 | A broken stream deletes the temp file, records the item as failed, and lets the run go on. Nothing else changes except the archive dir. |
| Config.SizeIsAdvisory | resources_updater/config.py:45-50 | The warning is issued iff the announced size is at least 0 and differs from the content-length, which defaults to 0. The write goes ahead exactly as without a mismatch. |
| Config.FailureOutsideTryAborts | resources_updater/config.py:43-44 | A failed `get_direct` or an error status ends the whole change-set. The file system and failures are those of the earlier items. |
| Config.StepWarned | resources_updater/config.py:45-50 | One loop body appends the item to the warnings iff it passes the status check with mismatched sizes. |
| Config.ProgressWarned | resources_updater/config.py:42-50 | The warnings after `k+1` items are those after `k`, plus item `k` iff the run reached it and it warns. |
| Config.WarnedExactly | resources_updater/config.py:42-50 | Item `i` is warned about iff the run reaches it and its sizes mismatch. |
| Config.WarnedBelow | resources_updater/config.py:42-50 | Warnings name only processed items, strictly increasing, so each item is warned about at most once. |
| Modrinth.FirstPrimary | resources_updater/handler/modrinth.py:82-85 | The index of the first file flagged primary, or the length when none is. |
| Modrinth.ChosenIndex | resources_updater/handler/modrinth.py:80-85 | With one file it is chosen whatever its flag says. With several, the first primary one is chosen, falling back to the first. |
| Modrinth.FetchFromUrl | resources_updater/handler/modrinth.py:76-86 | None iff the file list is null or empty, or the chosen file's sha1/sha512 equals the local digest. Otherwise the chosen file's `(url, filename, size)`. |
| Modrinth.RequestBody | resources_updater/handler/modrinth.py:33-40 | The body always holds `hashes`, `loaders` and `algorithm` with the given values. It holds `game_versions` exactly when that is configured. |
| Modrinth.Post | resources_updater/handler/modrinth.py:42-50 | A non-empty result only comes from a 200 answer, and a 200 answer yields its object. A request exception or any other status yields `{}`. |
| Modrinth.DigestMapSound | resources_updater/handler/modrinth.py:55 | Every candidate's digest is a key. Every key maps to a candidate file with that digest. |
| Modrinth.DigestMapLastWins | resources_updater/handler/modrinth.py:55 | Files sharing a digest collapse to the last one enumerated. |
| Modrinth.DigestKeysExact | resources_updater/handler/modrinth.py:55-56 | `list(m.keys())` holds exactly the map's keys, each once. |
| Modrinth.BuildDigestMap | resources_updater/handler/modrinth.py:55-56 | The comprehension's loop builds exactly the digest map and its key order. |
| Modrinth.DiffStops | resources_updater/handler/modrinth.py:59-62 | After a `KeyError`, later response entries change nothing. |
| Modrinth.ChangeSet | resources_updater/handler/modrinth.py:58-62 | The loop over the response, with `fetch_from_url` and `m.pop`, equals `DiffPrefix` over the whole response, including the `KeyError` exit. |
| Modrinth.DiffStaleFiles | resources_updater/handler/modrinth.py:59-62 | Every stale file comes from the digest map and is popped from it. No stale file appears twice. What is left of the map is unchanged. |
| Modrinth.ChangeSetFollowsResponse | resources_updater/handler/modrinth.py:58-62 | No `KeyError` iff every entry with an update names a local digest. Then the change-set has one item per such entry, in response order, paired with that digest's file. Exactly the other digests remain. |
| Modrinth.HitsKeys | resources_updater/handler/modrinth.py:59-61 | Every entry with an update comes from some key of the response. |
| Modrinth.HitsKeyIndex | resources_updater/handler/modrinth.py:59-61 | The index of the response entry behind a given hit. |
| Modrinth.HitsComplete | resources_updater/handler/modrinth.py:59-61 | Every response entry with an update is a hit. |
| Modrinth.MissingKeyKind | resources_updater/handler/modrinth.py:59-62 | The only exception the change-set loop raises is `KeyError`. |
| Modrinth.Update | resources_updater/handler/modrinth.py:57-64 | A non-empty answer appends one record for the group. On `KeyError` the file system is untouched and the error is raised. Otherwise the record carries the change-set, and the file system and error are those of `download` run on that change-set in the group's directory with the configured archive directory. |
| Modrinth.HandleGroup | resources_updater/handler/modrinth.py:54-65 | One group (scan, digest map, post, change-set, download) equals `GroupStep`. The group directory is built from the imported working directory. The containment check and the archive use the current one. |
| Modrinth.Handle | resources_updater/handler/modrinth.py:52-65 | The loop over the resource groups equals `HandlePrefix` over all of them. |
| Modrinth.HandleDone | resources_updater/handler/modrinth.py:53-65 | Leaving the loop after the last group, or at the first exception, gives the result over all groups. |
| Modrinth.HandleNext | resources_updater/handler/modrinth.py:53-65 | A run that has not raised advances by exactly one group. |
| Modrinth.FoldStops | resources_updater/handler/modrinth.py:53-65 | Once a group raises, later groups change nothing. |
| Modrinth.FoldKeeps | resources_updater/handler/modrinth.py:53-65 | A property every group keeps holds after any number of groups. |
| Modrinth.RaisedEndsHandle | resources_updater/handler/modrinth.py:53-65 | An exception in group `i` is the end of `handle`. No later group is scanned, posted or downloaded. |
| Modrinth.ScanFailureAborts | resources_updater/handler/modrinth.py:54-55 | An insecure or missing directory raises before anything is hashed, posted or downloaded. |
| Modrinth.OutsideRootRejected | resources_updater/handler/modrinth.py:54-55 | A group directory, built from the imported working directory, that is not strictly inside the current working directory raises `InsecurePathError`. Nothing is hashed, posted or downloaded, and the file system and records are unchanged. |
| Modrinth.ConfiguredRootNotFollowed | resources_updater/handler/modrinth.py:54 | With the working directory configured as `srv`, the group `mods` is still built under the imported `server` and is refused as insecure. |
| Modrinth.EmptyLookupSkipsDownload | resources_updater/handler/modrinth.py:56-57 | A failed, non-200 or empty lookup means no download. The file system is unchanged, nothing is raised and the next group follows. |
| Modrinth.GroupStepScoped | resources_updater/handler/modrinth.py:54-64 | One group appends at most one record, for its own resolved directory. Its change-set is scoped to that directory and has no duplicate stale files. |
| Modrinth.ScopedExtend | resources_updater/handler/modrinth.py:53-64 | Appending a scoped record to scoped records keeps them all scoped. |
| Modrinth.HandleScoped | resources_updater/handler/modrinth.py:53-64 | In every change-set `handle` hands to `download`, every stale file lies directly inside its group's resolved directory and appears once. |
| Modrinth.RequestCarriesLocalDigests | resources_updater/handler/modrinth.py:55-56 | The lookup request carries each candidate's digest exactly once, and nothing else. |
| Modrinth.MissingKeyAborts | resources_updater/handler/modrinth.py:59-62 | A response entry with an update for a non-local digest raises `KeyError`. Nothing is downloaded. |
| Modrinth.OldJarReplaced | resources_updater/handler/modrinth.py:52-65 | Worked example with the default handler. `old.jar` with an outdated digest is replaced by `new.jar` in `mods`, and `old.jar` is archived in the working directory. |
| Modrinth.ExampleScan | resources_updater/handler/modrinth.py:15-22 | In the example, the default `.jar` pattern selects `mods/old.jar`. |
| Modrinth.ExampleDigests | resources_updater/handler/modrinth.py:55-56 | In the example, the digest map is `{AAA: old.jar}` and the request carries `[AAA]`. |
| Modrinth.ExampleDiff | resources_updater/handler/modrinth.py:58-62 | In the example, the change-set is the single entry for `new.jar`, and the map is emptied. |
| Modrinth.ExampleDownload | resources_updater/config.py:52-61 | In the example, the download writes `new.jar` and moves `old.jar` to the archive. |

## Left out

- Content hashing (`calc_file_sha`, modrinth.py:68-73) is not modelled. The digest is the parameter `digest`, a function of the algorithm flag and the file bytes. As written, the sha512 branch binds `hashlib.sha512` itself rather than an instance, so with `hash_algorithm == 'sha512'` the first call on it (`update`, or `hexdigest` for an empty file) raises `AttributeError`. The model does not capture that failure.
- HTTP (`post_json`, `get_direct`, `iter_content`, `r.json()`): each request's outcome is an input. A lookup or download past the supplied outcomes counts as a raised request. Chunked writing is one write of the received bytes.
- The lookup answer is taken to be a well-formed object with distinct keys. A missing `files`, `primary`, `hashes`, `url`, `filename` or `size` field would raise `KeyError` in `fetch_from_url`, and that path is not modelled.
- A malformed `content-length` header, which would make `int()` raise, is not modelled.
- Paths are absolute segment sequences, and `resolve()` is lexical. Symbolic links, the process's current directory, permissions and other `OSError`s are not modelled. The model works on the resolved group directory, where the code passes the unresolved one to `is_dir()`, `iterdir()` (config.py:158, 170) and `download`. The operating system follows `..` physically, so for a group such as `x/../mods` with `x` missing the code raises `FileNotFoundError`, while the model scans `mods`. The model does not capture that difference.
- `Config.MakeDir`: `mkdir(parents=True)` is modelled for a directory whose parent exists. Missing parents are not created. A regular file at the path raises `FileExistsError`.
- Directory listing order is the input `listings`. A name `iterdir` yields is a single path segment, as it is in a real directory.
- Config.TargetPath: the remote `filename` is kept as one literal segment. The code joins it with pathlib's `/` (config.py:52-53) and checks nothing, so a name holding `/`, `..` or an absolute path would put the target and the `.tmp` file outside the group directory, or outside the working directory. The same holds for an absolute or escaping `archive_dir` (config.py:39) in `Config.ArchiveDirPath`, and for an absolute `dir_name` in `Modrinth.GroupDir` (modrinth.py:54), which pathlib would take as is where the model appends it to the working directory. The model does not capture these escapes.
- The regular expression engine is not modelled. The pattern is a predicate on names. The Modrinth default `^.*\.jar$` under `re.match` is written out exactly as `JarPattern`.
- Utils.ConjunctionPredicateBuilder.Build: the returned predicate captures the list at the time of `build`, whereas the Python lambdas read `self.s` when called. No caller changes the builder after `build`, so the two agree. Short-circuit order is not observable with the side-effect-free predicates used here.
- `Config.UsedHandlers` is a plain accessor with no contract.
- The `Lock` in `register_handler` is not modelled: registration is sequential.
- `Config.serialize`, `deserialize` and `copy` (config.py:119-140) are serialisation through the host library. As written, `deserialize` refers to `cls.__handlers`, which does not exist.
- The `Handler` singleton `__new__` and the identity `__eq__`/`__hash__` (config.py:75-91) are not modelled. Neither is `resources_updater/__init__.py`, which holds plugin lifecycle, prompting and thread-pool concurrency.
- Logging, the `StringIO` summary and `tr` produce text only and are not modelled.
