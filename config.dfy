/**
 * Model of `resources_updater/config.py`: path scoping and candidate filtering
 * (`find_files_by_dir_path`), the handler registry of `Config`, and
 * `Resources.download`, which runs a change-set against the file system.
 */
module Config {
  import opened Wrappers
  import opened Utils
  import opened Paths

  /** The exceptions the core raises. */
  datatype Error =
    | InsecurePath(cause: InsecurePathError)  // target escapes the working directory
    | FileNotFound(path: Path)                // missing directory, or a move whose source is gone
    | FileExists(path: Path)                  // `mkdir(exist_ok=True)` over a regular file
    | RequestFailed(url: string)              // `get_direct` raised
    | HttpError(status: int, url: string)     // `raise_for_status` raised
    | MissingKey(key: string)                 // `KeyError` from a dict lookup in a handler

  /** Filter settings and archive location of one resource group. The pattern
      stands for `re.match` of `regex_match_pattern`: true when the regular
      expression matches at the start of the name. */
  datatype Resources = Resources(
    archiveDir: Option<Path>,
    pattern: Option<string -> bool>,
    blacklist: seq<string>,
    whitelist: Option<seq<string>>)

  /** The filter rule: in the whitelist when there is one, not blacklisted, and
      accepted by the pattern when there is one. */
  predicate NamePasses(r: Resources, name: string) {
    && (r.whitelist.None? || name in r.whitelist.value)
    && name !in r.blacklist
    && (r.pattern.None? || r.pattern.value(name))
  }

  /** The message of the `InsecurePathError` for a resolved target. */
  function InsecureMessage(dir: Path): string {
    "Insecure path " + PathString(dir) + ", which is out of working directory"
  }

  // ---------------------------------------------------------------- scanning

  /** `[file for file in dir.iterdir() if file.is_file()]`, where `listing` is
      the order in which `iterdir` yields the directory's names. */
  function FilesIn(fs: FileSystem, dir: Path, listing: seq<string>): (files: seq<Path>)
    ensures forall i :: 0 <= i < |files| ==> IsFile(fs, files[i])
    ensures forall i :: 0 <= i < |files| ==> |files[i]| == |dir| + 1 && files[i][..|dir|] == dir
  {
    if listing == [] then []
    else
      var rest := FilesIn(fs, dir, listing[1..]);
      if IsFile(fs, dir + [listing[0]]) then [dir + [listing[0]]] + rest else rest
  }

  /** `filter(lambda file: predicate(file.name), files)`. */
  function FilterByName(p: string -> bool, files: seq<Path>): (r: seq<Path>)
    ensures forall i :: 0 <= i < |r| ==> r[i] in files && p(Name(r[i]))
  {
    if files == [] then []
    else
      var rest := FilterByName(p, files[1..]);
      if p(Name(files[0])) then [files[0]] + rest else rest
  }

  /** The regular files listed in `dir` whose names pass the filter rule, in
      listing order. */
  function Candidates(r: Resources, fs: FileSystem, dir: Path, listing: seq<string>): (c: seq<Path>)
    ensures forall i :: 0 <= i < |c| ==>
      && IsFile(fs, c[i]) && |c[i]| == |dir| + 1 && c[i][..|dir|] == dir && NamePasses(r, Name(c[i]))
  {
    if listing == [] then []
    else
      var rest := Candidates(r, fs, dir, listing[1..]);
      if IsFile(fs, dir + [listing[0]]) && NamePasses(r, listing[0]) then [dir + [listing[0]]] + rest else rest
  }

  /** What `find_files_by_dir_path(target, r)` returns or raises, with `root`
      the working directory. */
  function ScopedCandidates(root: Path, target: Path, r: Resources, fs: FileSystem, listing: seq<string>)
    : (res: Result<seq<Path>, Error>)
    ensures res.Failure? && res.error.InsecurePath? <==> !StrictAncestor(Resolve(root), Resolve(target))
    ensures res.Failure? && res.error.FileNotFound?
      <==> StrictAncestor(Resolve(root), Resolve(target)) && !IsDir(fs, Resolve(target))
    ensures res.Success? ==> res.value == Candidates(r, fs, Resolve(target), listing)
  {
    var dir := Resolve(target);
    if !StrictAncestor(Resolve(root), dir) then
      Failure(InsecurePath(InsecurePathError(InsecureMessage(dir))))
    else if !IsDir(fs, dir) then
      Failure(FileNotFound(dir))
    else
      Success(Candidates(r, fs, dir, listing))
  }

  lemma {:induction false} FilterFilesIn(p: string -> bool, r: Resources, fs: FileSystem, dir: Path, listing: seq<string>)
    requires forall n :: p(n) == NamePasses(r, n)
    ensures FilterByName(p, FilesIn(fs, dir, listing)) == Candidates(r, fs, dir, listing)
  {
    if listing != [] {
      FilterFilesIn(p, r, fs, dir, listing[1..]);
      var rest := FilesIn(fs, dir, listing[1..]);
      if IsFile(fs, dir + [listing[0]]) {
        assert FilesIn(fs, dir, listing) == [dir + [listing[0]]] + rest;
        assert ([dir + [listing[0]]] + rest)[1..] == rest;
      }
    }
  }

  /** `find_files_by_dir_path`: the containment check, then the existence
      check, then the filter built with a `ConjunctionPredicateBuilder`. */
  method FindFilesByDirPath(root: Path, target: Path, r: Resources, fs: FileSystem, listing: seq<string>)
    returns (res: Result<seq<Path>, Error>)
    ensures res == ScopedCandidates(root, target, r, fs, listing)
  {
    var dir := Resolve(target);
    if !StrictAncestor(Resolve(root), dir) {
      return Failure(InsecurePath(InsecurePathError(InsecureMessage(dir))));
    }
    if !IsDir(fs, dir) {
      return Failure(FileNotFound(dir));
    }
    var builder := new ConjunctionPredicateBuilder<string>();
    var b := builder.Add(r.whitelist.Some?, (s: string) => r.whitelist.Some? && s in r.whitelist.value);
    ghost var s1 := b.s;
    b := b.Add(|r.blacklist| > 0, (s: string) => s !in r.blacklist);
    ghost var s2 := b.s;
    b := b.Add(r.pattern.Some?, (s: string) => r.pattern.Some? && r.pattern.value(s));
    var accepts := b.Build();
    forall n: string ensures accepts(n) == NamePasses(r, n) {
      assert accepts(n) == AllHold(b.s, n);
    }
    var files := FilesIn(fs, dir, listing);
    FilterFilesIn(accepts, r, fs, dir, listing);
    return Success(FilterByName(accepts, files));
  }

  /** Every candidate is a regular file directly inside the scoped directory
      whose name passes the rule; when `listing` covers the directory, every
      such file is a candidate. */
  lemma {:induction false} CandidatesExactly(r: Resources, fs: FileSystem, dir: Path, listing: seq<string>)
    ensures forall p :: p in Candidates(r, fs, dir, listing) ==>
      |p| == |dir| + 1 && p[..|dir|] == dir && IsFile(fs, p) && NamePasses(r, Name(p))
    ensures (forall p :: p in fs && |p| == |dir| + 1 && p[..|dir|] == dir ==> Name(p) in listing) ==>
      forall p :: |p| == |dir| + 1 && p[..|dir|] == dir && IsFile(fs, p) && NamePasses(r, Name(p)) ==>
        p in Candidates(r, fs, dir, listing)
  {
    forall p | |p| == |dir| + 1 && p[..|dir|] == dir && Name(p) in listing && IsFile(fs, p) && NamePasses(r, Name(p))
      ensures p in Candidates(r, fs, dir, listing)
    {
      assert p == dir + [Name(p)];
      CandidatesComplete(r, fs, dir, listing, Name(p));
    }
  }

  lemma {:induction false} CandidatesComplete(r: Resources, fs: FileSystem, dir: Path, listing: seq<string>, n: string)
    requires n in listing && IsFile(fs, dir + [n]) && NamePasses(r, n)
    ensures dir + [n] in Candidates(r, fs, dir, listing)
  {
    if listing[0] != n {
      CandidatesComplete(r, fs, dir, listing[1..], n);
    }
  }

  /** The working directory itself is not a strict ancestor of itself, so
      scanning it is refused as insecure. */
  lemma WorkingDirRejected(root: Path, r: Resources, fs: FileSystem, listing: seq<string>)
    ensures ScopedCandidates(root, root, r, fs, listing)
      == Failure(InsecurePath(InsecurePathError(InsecureMessage(Resolve(root)))))
  {
  }

  /** The containment check comes first: an escaping target is reported as
      insecure whether or not it exists, and the error's string form names the
      resolved target. */
  lemma EscapeReportedBeforeMissing(root: Path, target: Path, r: Resources, fs: FileSystem, listing: seq<string>)
    requires !StrictAncestor(Resolve(root), Resolve(target))
    ensures ScopedCandidates(root, target, r, fs, listing).Failure?
    ensures ScopedCandidates(root, target, r, fs, listing).error.InsecurePath?
    ensures ScopedCandidates(root, target, r, fs, listing).error.cause.ToString()
      == "Insecure path " + PathString(Resolve(target)) + ", which is out of working directory"
  {
  }

  /** The scan works on the resolved target: a trailing `/` or `.` in the
      directory name changes neither the outcome nor the files found. */
  lemma TrailingSegmentIgnored(root: Path, target: Path, seg: string, r: Resources, fs: FileSystem, listing: seq<string>)
    requires seg == "" || seg == "."
    ensures ScopedCandidates(root, target + [seg], r, fs, listing) == ScopedCandidates(root, target, r, fs, listing)
  {
    ResolveSnoc(target, seg);
  }

  // ------------------------------------------------------------- registry

  /** A handler class, known by its static `identifier()` and by its own class
      name. */
  datatype HandlerKind = HandlerKind(identifier: string, className: string)

  /** The class-level state of `Config`: the registry of handler classes and
      the set of handlers in use. */
  class Config {
    var regHandlers: map<string, HandlerKind>
    var usedHandlers: set<HandlerKind>

    /** Every class is registered under its own identifier. */
    ghost predicate Valid()
      reads this
    {
      forall id :: id in regHandlers ==> regHandlers[id].identifier == id
    }

    constructor ()
      ensures Valid()
      ensures regHandlers == map[] && usedHandlers == {}
    {
      regHandlers := map[];
      usedHandlers := {};
    }

    /** `register_handler`: write-once per identifier. */
    method RegisterHandler(handler: HandlerKind) returns (added: bool)
      requires Valid()
      modifies this
      ensures Valid()
      ensures added <==> handler.identifier !in old(regHandlers)
      ensures added ==> regHandlers == old(regHandlers)[handler.identifier := handler]
      ensures !added ==> regHandlers == old(regHandlers)
      ensures usedHandlers == old(usedHandlers)
    {
      var name := handler.identifier;
      if name in regHandlers {
        return false;
      }
      regHandlers := regHandlers[handler.identifier := handler];
      return true;
    }

    /** `reg_used_handler`. */
    method RegUsedHandler(handler: HandlerKind)
      requires Valid()
      modifies this
      ensures Valid()
      ensures usedHandlers == old(usedHandlers) + {handler}
      ensures regHandlers == old(regHandlers)
    {
      usedHandlers := usedHandlers + {handler};
    }

    function UsedHandlers(): set<HandlerKind>
      reads this
    {
      usedHandlers
    }
  }

  // ------------------------------------------------------------- download

  /** One entry of a change-set: download url, new file name, size announced
      by the index (negative when unknown) and the stale local file. */
  datatype UpdateItem = UpdateItem(url: string, filename: string, size: int, stale: Path)

  /** How the streamed body ends: fully received, or broken off by a request
      exception. */
  datatype Stream = Complete(data: Bytes) | Broken

  datatype Response = Response(status: int, contentLength: Option<int>, body: Stream)

  /** What `get_direct` does for one item: raise, or answer. */
  datatype Fetch = GetRaised | Got(response: Response)

  /** What the `i`-th request of a download yields; a request beyond the
      supplied outcomes raises. */
  function FetchAt(net: seq<Fetch>, i: nat): Fetch {
    if i < |net| then net[i] else GetRaised
  }

  /** The state of a download run: the file system, the indices of the items
      that drew a size warning and of those whose stream failed, and the
      exception that ended the run, if any. */
  datatype Run = Run(fs: FileSystem, warned: seq<nat>, failed: seq<nat>, error: Option<Error>)

  /** `raise_for_status` raises for client and server errors. */
  predicate RaisesForStatus(status: int) {
    400 <= status < 600
  }

  /** `int(headers.get('content-length', 0))`. */
  function DeclaredSize(contentLength: Option<int>): int {
    match contentLength
    case Some(n) => n
    case None => 0
  }

  predicate SizeMismatch(item: UpdateItem, resp: Response) {
    DeclaredSize(resp.contentLength) != item.size && item.size >= 0
  }

  /** The archive directory: the working directory, or the configured
      sub-path of it. */
  function ArchiveDirPath(root: Path, archiveDir: Option<Path>): Path {
    match archiveDir
    case None => Resolve(root)
    case Some(a) => Resolve(root + a)
  }

  function TargetPath(dir: Path, item: UpdateItem): Path {
    dir + [item.filename]
  }

  function TempPath(dir: Path, item: UpdateItem): Path {
    dir + [WithSuffix(item.filename, ".tmp")]
  }

  function ArchivedPath(archive: Path, item: UpdateItem): Path {
    archive + [Name(item.stale)]
  }

  /** `mkdir(parents=True, exist_ok=True)` on an existing parent. */
  function MakeDir(fs: FileSystem, p: Path): Result<FileSystem, Error> {
    if IsFile(fs, p) then Failure(FileExists(p))
    else if p in fs then Success(fs)
    else Success(fs[p := Directory])
  }

  /** One pass of the loop body of `download` for item `i`, on a run that has
      not stopped. */
  function Step(run: Run, dir: Path, archive: Path, i: nat, item: UpdateItem, fetch: Fetch): Run
    requires run.error.None?
  {
    match fetch
    case GetRaised => run.(error := Some(RequestFailed(item.url)))
    case Got(resp) =>
      if RaisesForStatus(resp.status) then run.(error := Some(HttpError(resp.status, item.url)))
      else
        var warned := if SizeMismatch(item, resp) then run.warned + [i] else run.warned;
        var temp := TempPath(dir, item);
        match MakeDir(run.fs, archive)
        case Failure(e) => run.(warned := warned, error := Some(e))
        case Success(fs1) =>
          match resp.body
          case Broken => run.(fs := fs1 - {temp}, warned := warned, failed := run.failed + [i])
          case Complete(data) =>
            var fs2 := fs1[temp := File(data)];
            if item.stale !in fs2 then
              run.(fs := fs2, warned := warned, error := Some(FileNotFound(item.stale)))
            else
              var fs3 := Move(fs2, item.stale, ArchivedPath(archive, item));
              if temp !in fs3 then
                run.(fs := fs3, warned := warned, error := Some(FileNotFound(temp)))
              else
                run.(fs := Move(fs3, temp, TargetPath(dir, item)), warned := warned)
  }

  /** The run after the first `k` items of the change-set. */
  function Progress(fs: FileSystem, dir: Path, archive: Path, items: seq<UpdateItem>, net: seq<Fetch>, k: nat): Run
    requires k <= |items|
    decreases k
  {
    if k == 0 then
      match MakeDir(fs, dir)
      case Failure(e) => Run(fs, [], [], Some(e))
      case Success(fs1) => Run(fs1, [], [], None)
    else
      var prev := Progress(fs, dir, archive, items, net, k - 1);
      if prev.error.Some? then prev else Step(prev, dir, archive, k - 1, items[k - 1], FetchAt(net, k - 1))
  }

  lemma ProgressNext(fs: FileSystem, dir: Path, archive: Path, items: seq<UpdateItem>, net: seq<Fetch>, k: nat,
                     before: Run, after: Run)
    requires k < |items|
    requires Progress(fs, dir, archive, items, net, k) == before && before.error.None?
    requires after == Step(before, dir, archive, k, items[k], FetchAt(net, k))
    ensures Progress(fs, dir, archive, items, net, k + 1) == after
  {
  }

  /** Once an exception ends the run, the remaining items are skipped. */
  lemma {:induction false} ProgressStops(fs: FileSystem, dir: Path, archive: Path, items: seq<UpdateItem>, net: seq<Fetch>, k: nat, j: nat)
    requires k <= j <= |items|
    requires Progress(fs, dir, archive, items, net, k).error.Some?
    ensures Progress(fs, dir, archive, items, net, j) == Progress(fs, dir, archive, items, net, k)
    decreases j
  {
    if j > k {
      ProgressStops(fs, dir, archive, items, net, k, j - 1);
    }
  }

  /** The body of the loop of `download` for item `i`, on a run that has not
      stopped. */
  method DownloadItem(before: Run, dir: Path, archive: Path, i: nat, item: UpdateItem, fetch: Fetch)
    returns (run: Run)
    requires before.error.None?
    ensures run == Step(before, dir, archive, i, item, fetch)
  {
    var cur, warned, failed := before.fs, before.warned, before.failed;
    run := before;
    match fetch {
      case GetRaised =>
        run := run.(error := Some(RequestFailed(item.url)));
      case Got(resp) =>
        if RaisesForStatus(resp.status) {
          run := run.(error := Some(HttpError(resp.status, item.url)));
          return;
        }
        var size := if resp.contentLength.Some? then resp.contentLength.value else 0;
        if size != item.size && item.size >= 0 {
          run := run.(warned := warned + [i]);
        }
        var target := dir + [item.filename];
        var temp := dir + [WithSuffix(item.filename, ".tmp")];
        if IsFile(cur, archive) {
          run := run.(error := Some(FileExists(archive)));
          return;
        }
        var fs := cur;
        if archive !in fs {
          fs := fs[archive := Directory];
        }
        match resp.body {
          case Broken =>
            run := run.(fs := fs - {temp}, failed := failed + [i]);
          case Complete(data) =>
            fs := fs[temp := File(data)];
            if item.stale !in fs {
              run := run.(fs := fs, error := Some(FileNotFound(item.stale)));
              return;
            }
            fs := Move(fs, item.stale, archive + [Name(item.stale)]);
            if temp !in fs {
              run := run.(fs := fs, error := Some(FileNotFound(temp)));
              return;
            }
            fs := Move(fs, temp, target);
            run := run.(fs := fs);
        }
    }
  }

  /** `Resources.download(dir, update)`: `FetchAt(net, i)` is what the request for the
      `i`-th item yields. */
  method Download(r: Resources, root: Path, dir: Path, items: seq<UpdateItem>, net: seq<Fetch>, fs: FileSystem)
    returns (run: Run)
    ensures run == Progress(fs, dir, ArchiveDirPath(root, r.archiveDir), items, net, |items|)
  {
    var archive := if r.archiveDir.None? then Resolve(root) else Resolve(root + r.archiveDir.value);
    run := RunChangeSet(fs, dir, archive, items, net);
  }

  /** The loop of `download`: create the group directory, then handle the
      items in order until one raises. */
  method RunChangeSet(fs: FileSystem, dir: Path, archive: Path, items: seq<UpdateItem>, net: seq<Fetch>)
    returns (run: Run)
    ensures run == Progress(fs, dir, archive, items, net, |items|)
  {
    match MakeDir(fs, dir) {
      case Failure(e) => run := Run(fs, [], [], Some(e));
      case Success(made) => run := Run(made, [], [], None);
    }
    var i := 0;
    while i < |items| && run.error.None?
      invariant 0 <= i <= |items|
      invariant Progress(fs, dir, archive, items, net, i) == run
    {
      ghost var before := run;
      run := DownloadItem(run, dir, archive, i, items[i], FetchAt(net, i));
      ProgressNext(fs, dir, archive, items, net, i, before, run);
      i := i + 1;
    }
    ProgressDone(fs, dir, archive, items, net, i, run);
  }

  /** Where the loop over the change-set ends: after the last item, or at the
      first one that raised. */
  lemma ProgressDone(fs: FileSystem, dir: Path, archive: Path, items: seq<UpdateItem>, net: seq<Fetch>, i: nat, run: Run)
    requires i <= |items| && Progress(fs, dir, archive, items, net, i) == run
    requires i == |items| || run.error.Some?
    ensures run == Progress(fs, dir, archive, items, net, |items|)
  {
    if i < |items| {
      ProgressStops(fs, dir, archive, items, net, i, |items|);
    }
  }

  /** A streamed item is written to the temp path, the stale file is moved to
      the archive, and only then is the temp file renamed onto the target: the
      target ends up with the new bytes and the archive with the old file, even
      when the new name is the stale file's own name. Nothing else changes
      besides the archive directory coming into existence. */
  lemma ItemPromoted(run: Run, dir: Path, archive: Path, i: nat, item: UpdateItem, resp: Response, data: Bytes)
    requires run.error.None?
    requires !RaisesForStatus(resp.status) && resp.body == Complete(data)
    requires !IsFile(run.fs, archive) && IsFile(run.fs, item.stale)
    requires TempPath(dir, item) != item.stale && TempPath(dir, item) != ArchivedPath(archive, item)
    ensures var after := Step(run, dir, archive, i, item, Got(resp));
      && after.error.None?
      && after.failed == run.failed
      && after.fs[TargetPath(dir, item)] == File(data)
      && (ArchivedPath(archive, item) != TargetPath(dir, item) ==>
            after.fs[ArchivedPath(archive, item)] == run.fs[item.stale])
      && (item.stale != TargetPath(dir, item) && item.stale != ArchivedPath(archive, item) ==>
            item.stale !in after.fs)
      && (TempPath(dir, item) != TargetPath(dir, item) ==> TempPath(dir, item) !in after.fs)
      && forall p :: p !in {TempPath(dir, item), item.stale, ArchivedPath(archive, item), TargetPath(dir, item), archive} ==>
           (p in after.fs <==> p in run.fs) && (p in run.fs ==> after.fs[p] == run.fs[p])
  {
  }

  /** A stream that breaks off deletes the temp file and the run goes on with
      the next item. */
  lemma BrokenStreamSkipsItem(run: Run, dir: Path, archive: Path, i: nat, item: UpdateItem, resp: Response)
    requires run.error.None?
    requires !RaisesForStatus(resp.status) && resp.body == Broken && !IsFile(run.fs, archive)
    ensures var after := Step(run, dir, archive, i, item, Got(resp));
      && after.error.None?
      && after.failed == run.failed + [i]
      && TempPath(dir, item) !in after.fs
      && forall p :: p != TempPath(dir, item) && p != archive ==>
           (p in after.fs <==> p in run.fs) && (p in run.fs ==> after.fs[p] == run.fs[p])
  {
  }

  /** The announced size is advisory: a mismatch draws a warning for the item
      and nothing else, whatever the declared length. */
  lemma SizeIsAdvisory(run: Run, dir: Path, archive: Path, i: nat, item: UpdateItem, resp: Response, len: Option<int>)
    requires run.error.None? && !RaisesForStatus(resp.status)
    ensures var a := Step(run, dir, archive, i, item, Got(resp));
      var b := Step(run, dir, archive, i, item, Got(resp.(contentLength := len)));
      a.fs == b.fs && a.error == b.error && a.failed == b.failed
    ensures Step(run, dir, archive, i, item, Got(resp)).warned
      == if SizeMismatch(item, resp) then run.warned + [i] else run.warned
  {
  }

  /** A failure of `get_direct` or of `raise_for_status` lies outside the
      `try`: it ends the whole run, with the file system as the earlier items
      left it and no later item attempted. */
  lemma FailureOutsideTryAborts(fs: FileSystem, dir: Path, archive: Path, items: seq<UpdateItem>, net: seq<Fetch>, k: nat)
    requires k < |items|
    requires Progress(fs, dir, archive, items, net, k).error.None?
    requires FetchAt(net, k).GetRaised? || RaisesForStatus(FetchAt(net, k).response.status)
    ensures var before := Progress(fs, dir, archive, items, net, k);
      var after := Progress(fs, dir, archive, items, net, |items|);
      after.error.Some? && after.fs == before.fs && after.failed == before.failed
  {
    ProgressStops(fs, dir, archive, items, net, k + 1, |items|);
  }

  /** The item draws a size warning: it passed `raise_for_status` and its
      declared length differs from a known announced size. */
  predicate WarnsAbout(item: UpdateItem, fetch: Fetch) {
    fetch.Got? && !RaisesForStatus(fetch.response.status) && SizeMismatch(item, fetch.response)
  }

  lemma StepWarned(run: Run, dir: Path, archive: Path, i: nat, item: UpdateItem, fetch: Fetch)
    requires run.error.None?
    ensures Step(run, dir, archive, i, item, fetch).warned
      == if WarnsAbout(item, fetch) then run.warned + [i] else run.warned
  {
  }

  /** The warnings after `k + 1` items: those after `k` items, plus item `k`
      when the run reaches it and `WarnsAbout` holds for it. */
  lemma ProgressWarned(fs: FileSystem, dir: Path, archive: Path, items: seq<UpdateItem>, net: seq<Fetch>, k: nat)
    requires k < |items|
    ensures Progress(fs, dir, archive, items, net, k + 1).warned ==
      if Progress(fs, dir, archive, items, net, k).error.None? && WarnsAbout(items[k], FetchAt(net, k))
      then Progress(fs, dir, archive, items, net, k).warned + [k]
      else Progress(fs, dir, archive, items, net, k).warned
  {
    var prev := Progress(fs, dir, archive, items, net, k);
    if prev.error.None? {
      StepWarned(prev, dir, archive, k, items[k], FetchAt(net, k));
    }
  }

  /** Item `i` draws a size warning exactly when the run reaches it and
      `WarnsAbout` holds for it. */
  lemma {:induction false} WarnedExactly(fs: FileSystem, dir: Path, archive: Path, items: seq<UpdateItem>, net: seq<Fetch>,
                                         k: nat, i: nat)
    requires k <= |items|
    ensures i in Progress(fs, dir, archive, items, net, k).warned <==>
      i < k && Progress(fs, dir, archive, items, net, i).error.None? && WarnsAbout(items[i], FetchAt(net, i))
    decreases k
  {
    if k > 0 {
      WarnedExactly(fs, dir, archive, items, net, k - 1, i);
      ProgressWarned(fs, dir, archive, items, net, k - 1);
      if i == k - 1 {
        WarnedBelow(fs, dir, archive, items, net, k - 1);
      }
    }
  }

  /** Each item is warned about at most once, and the warnings come in item
      order. */
  lemma {:induction false} WarnedBelow(fs: FileSystem, dir: Path, archive: Path, items: seq<UpdateItem>, net: seq<Fetch>, k: nat)
    requires k <= |items|
    ensures forall a :: 0 <= a < |Progress(fs, dir, archive, items, net, k).warned| ==>
      Progress(fs, dir, archive, items, net, k).warned[a] < k
    ensures forall a, b :: 0 <= a < b < |Progress(fs, dir, archive, items, net, k).warned| ==>
      Progress(fs, dir, archive, items, net, k).warned[a] < Progress(fs, dir, archive, items, net, k).warned[b]
    decreases k
  {
    if k > 0 {
      WarnedBelow(fs, dir, archive, items, net, k - 1);
      var prev := Progress(fs, dir, archive, items, net, k - 1);
      var w := Progress(fs, dir, archive, items, net, k).warned;
      if prev.error.None? {
        StepWarned(prev, dir, archive, k - 1, items[k - 1], FetchAt(net, k - 1));
        assert w == prev.warned || w == prev.warned + [k - 1];
      } else {
        assert w == prev.warned;
      }
      forall a | 0 <= a < |w| ensures w[a] < k {
        if a < |prev.warned| { assert w[a] == prev.warned[a]; }
      }
      forall a, b | 0 <= a < b < |w| ensures w[a] < w[b] {
        if b < |prev.warned| { assert w[a] == prev.warned[a] && w[b] == prev.warned[b]; }
        else { assert w[a] == prev.warned[a]; }
      }
    }
  }
}
