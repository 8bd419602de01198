/**
 * Model of `resources_updater/handler/modrinth.py`: choosing the file of a
 * version, building the digest map and the lookup request, turning the lookup
 * response into a change-set, and `ModrinthHandler.handle` over all resource
 * groups.
 */
module Modrinth {
  import opened Wrappers
  import opened Paths
  import opened Config

  // ------------------------------------------------------------ settings

  /** `ModrinthResources`: the filter settings plus the loaders sent along with
      the lookup. */
  datatype ModrinthResources = ModrinthResources(base: Resources, loaders: seq<string>)

  /** `ModrinthHandler`: its resource groups as `(directory name, resources)`
      pairs in declaration order, the hash algorithm and the optional game
      versions. */
  datatype ModrinthHandler = ModrinthHandler(
    resourcesInfo: seq<(Path, ModrinthResources)>,
    hashAlgorithm: string,
    gameVersions: Option<seq<string>>)

  const Identifier: string := "modrinth"

  /** `re.match(r"^.*\.jar$", name)`: `.` stops at a line break and `$` also
      matches just before a final line break. */
  predicate JarPattern(name: string) {
    var body := if |name| > 0 && name[|name| - 1] == '\n' then name[..|name| - 1] else name;
    |body| >= 4 && body[|body| - 4..] == ".jar" && '\n' !in body[..|body| - 4]
  }

  function DefaultResources(): ModrinthResources {
    ModrinthResources(Resources(None, Some(JarPattern), [], None), ["fabric"])
  }

  function DefaultHandler(): ModrinthHandler {
    ModrinthHandler([(["mods"], DefaultResources())], "sha1", None)
  }

  // -------------------------------------------------------- one version

  datatype Hashes = Hashes(sha1: string, sha512: string)

  /** One entry of the `files` list of a version in the lookup response. */
  datatype VersionFile = VersionFile(url: string, filename: string, size: int, primary: bool, hashes: Hashes)

  /** The version the index returns for one digest; `files` may be null. */
  datatype VersionInfo = VersionInfo(files: Option<seq<VersionFile>>)

  /** What `fetch_from_url` returns for an update: `(url, filename, size)`. */
  datatype Candidate = Candidate(url: string, filename: string, size: int)

  /** The index of the first file flagged primary, or `|files|` when none is. */
  function FirstPrimary(files: seq<VersionFile>): (k: nat)
    ensures k <= |files|
    ensures k < |files| ==> files[k].primary
    ensures forall j :: 0 <= j < k ==> !files[j].primary
  {
    if files == [] then 0
    else if files[0].primary then 0
    else
      var k := FirstPrimary(files[1..]);
      assert forall j :: 1 <= j < k + 1 ==> files[j] == files[1..][j - 1];
      k + 1
  }

  /** The file `fetch_from_url` picks: the only one, else the first primary
      one, else the first one. */
  function ChosenIndex(files: seq<VersionFile>): (k: nat)
    requires |files| > 0
    ensures k < |files|
    ensures |files| == 1 ==> k == 0
    ensures |files| > 1 && (exists j :: 0 <= j < |files| && files[j].primary) ==>
      files[k].primary && forall j :: 0 <= j < k ==> !files[j].primary
    ensures |files| > 1 && (forall j :: 0 <= j < |files| ==> !files[j].primary) ==> k == 0
  {
    if |files| == 1 then 0
    else if FirstPrimary(files) < |files| then FirstPrimary(files)
    else 0
  }

  /** The digest of a file under the selected algorithm. */
  function HashUnder(sha512: bool, f: VersionFile): string {
    if sha512 then f.hashes.sha512 else f.hashes.sha1
  }

  /** The result of `fetch_from_url(sha512, hash1, obj)`. */
  function ChosenUpdate(sha512: bool, hash1: string, obj: VersionInfo): Option<Candidate> {
    match obj.files
    case None => None
    case Some(files) =>
      if |files| == 0 then None
      else
        var f := files[ChosenIndex(files)];
        if hash1 != HashUnder(sha512, f) then Some(Candidate(f.url, f.filename, f.size)) else None
  }

  /** `fetch_from_url`: no update when there is no file or when the chosen
      file's digest equals the local one; otherwise that file's url, name and
      size. */
  method FetchFromUrl(sha512: bool, hash1: string, obj: VersionInfo) returns (r: Option<Candidate>)
    ensures r == ChosenUpdate(sha512, hash1, obj)
    ensures r.None? <==>
      || obj.files.None? || |obj.files.value| == 0
      || HashUnder(sha512, obj.files.value[ChosenIndex(obj.files.value)]) == hash1
    ensures r.Some? ==>
      var f := obj.files.value[ChosenIndex(obj.files.value)];
      r.value == Candidate(f.url, f.filename, f.size)
  {
    if obj.files.None? || |obj.files.value| == 0 {
      return None;
    }
    var files := obj.files.value;
    var f := files[0];
    if |files| != 1 {
      var i := 0;
      while i < |files|
        invariant 0 <= i <= |files|
        invariant forall j :: 0 <= j < i ==> !files[j].primary
        invariant f == files[0]
      {
        if files[i].primary {
          f := files[i];
          break;
        }
        i := i + 1;
      }
      assert f == files[ChosenIndex(files)];
    }
    return if hash1 != HashUnder(sha512, f) then Some(Candidate(f.url, f.filename, f.size)) else None;
  }

  // ------------------------------------------------------- the request

  /** A JSON value of the request body. */
  datatype Json = JString(s: string) | JStrings(items: seq<string>)

  /** The body `post` sends: always `hashes`, `loaders` and `algorithm`, and
      `game_versions` only when it is configured. */
  function RequestBody(hashes: seq<string>, loaders: seq<string>, algorithm: string, gameVersions: Option<seq<string>>)
    : (d: map<string, Json>)
    ensures d.Keys == {"hashes", "loaders", "algorithm"} + (if gameVersions.Some? then {"game_versions"} else {})
    ensures d["hashes"] == JStrings(hashes) && d["loaders"] == JStrings(loaders)
    ensures d["algorithm"] == JString(algorithm)
    ensures gameVersions.Some? ==> d["game_versions"] == JStrings(gameVersions.value)
  {
    var data := map["hashes" := JStrings(hashes), "loaders" := JStrings(loaders), "algorithm" := JString(algorithm)];
    match gameVersions
    case Some(v) => data["game_versions" := JStrings(v)]
    case None => data
  }

  /** What the lookup POST does: raise a request exception (also when the
      answer is not JSON), or answer with a status and, for status 200, the
      response object as its `(digest, version)` entries in order. */
  datatype Lookup = PostRaised | Answered(status: int, json: seq<(string, VersionInfo)>)

  /** `post`: the response object on status 200, and `{}` on every failure. */
  function Post(l: Lookup): (r: seq<(string, VersionInfo)>)
    ensures r != [] ==> l.Answered? && l.status == 200 && r == l.json
    ensures l.Answered? && l.status == 200 ==> r == l.json
  {
    if l.Answered? && l.status == 200 then l.json else []
  }

  // --------------------------------------------------- the digest map

  /** The digest `calc_file_sha` computes for a file; `digest` stands for the
      hash function, selected by its first argument (SHA-512 or SHA-1). */
  function FileDigest(fs: FileSystem, sha512: bool, digest: (bool, Bytes) -> string, p: Path): string
    requires IsFile(fs, p)
  {
    digest(sha512, fs[p].data)
  }

  predicate AllFiles(fs: FileSystem, files: seq<Path>) {
    forall i :: 0 <= i < |files| ==> IsFile(fs, files[i])
  }

  /** `{calc_file_sha(file, sha512): file for file in files}`. */
  function DigestMap(fs: FileSystem, files: seq<Path>, sha512: bool, digest: (bool, Bytes) -> string)
    : map<string, Path>
    requires AllFiles(fs, files)
    decreases |files|
  {
    if files == [] then map[]
    else
      var init := files[..|files| - 1];
      var last := files[|files| - 1];
      assert forall i :: 0 <= i < |init| ==> init[i] == files[i];
      DigestMap(fs, init, sha512, digest)[FileDigest(fs, sha512, digest, last) := last]
  }

  /** Every file's digest is a key of the digest map, and every key maps to a
      file with that digest. */
  lemma {:induction false} DigestMapSound(fs: FileSystem, files: seq<Path>, sha512: bool, digest: (bool, Bytes) -> string)
    requires AllFiles(fs, files)
    ensures forall i :: 0 <= i < |files| ==> FileDigest(fs, sha512, digest, files[i]) in DigestMap(fs, files, sha512, digest)
    ensures forall d {:trigger DigestMap(fs, files, sha512, digest)[d]} :: d in DigestMap(fs, files, sha512, digest) ==>
      && DigestMap(fs, files, sha512, digest)[d] in files
      && IsFile(fs, DigestMap(fs, files, sha512, digest)[d])
      && FileDigest(fs, sha512, digest, DigestMap(fs, files, sha512, digest)[d]) == d
    decreases |files|
  {
    if files != [] {
      var init := files[..|files| - 1];
      assert forall i :: 0 <= i < |init| ==> init[i] == files[i];
      DigestMapSound(fs, init, sha512, digest);
    }
  }

  /** Files sharing a digest collapse to the last one enumerated: a file whose
      digest no later file shares is the one its digest maps to. */
  lemma {:induction false} DigestMapLastWins(fs: FileSystem, files: seq<Path>, sha512: bool, digest: (bool, Bytes) -> string, i: nat)
    requires AllFiles(fs, files) && i < |files|
    requires forall j :: i < j < |files| ==> FileDigest(fs, sha512, digest, files[j]) != FileDigest(fs, sha512, digest, files[i])
    ensures FileDigest(fs, sha512, digest, files[i]) in DigestMap(fs, files, sha512, digest)
    ensures DigestMap(fs, files, sha512, digest)[FileDigest(fs, sha512, digest, files[i])] == files[i]
    decreases |files|
  {
    DigestMapSound(fs, files, sha512, digest);
    var init := files[..|files| - 1];
    if i < |files| - 1 {
      assert forall j :: 0 <= j < |init| ==> init[j] == files[j];
      DigestMapSound(fs, init, sha512, digest);
      DigestMapLastWins(fs, init, sha512, digest, i);
    }
  }

  /** `list(m.keys())`: the digests in the order they were first inserted. */
  function DigestKeys(fs: FileSystem, files: seq<Path>, sha512: bool, digest: (bool, Bytes) -> string)
    : seq<string>
    requires AllFiles(fs, files)
    decreases |files|
  {
    if files == [] then []
    else
      var init := files[..|files| - 1];
      var last := files[|files| - 1];
      assert forall i :: 0 <= i < |init| ==> init[i] == files[i];
      var d := FileDigest(fs, sha512, digest, last);
      var prev := DigestKeys(fs, init, sha512, digest);
      if d in prev then prev else prev + [d]
  }

  /** The key list holds exactly the keys of the digest map, each once. */
  lemma {:induction false} DigestKeysExact(fs: FileSystem, files: seq<Path>, sha512: bool, digest: (bool, Bytes) -> string)
    requires AllFiles(fs, files)
    ensures forall d :: d in DigestKeys(fs, files, sha512, digest) <==> d in DigestMap(fs, files, sha512, digest)
    ensures forall a, b :: 0 <= a < b < |DigestKeys(fs, files, sha512, digest)| ==>
      DigestKeys(fs, files, sha512, digest)[a] != DigestKeys(fs, files, sha512, digest)[b]
    decreases |files|
  {
    if files != [] {
      var init := files[..|files| - 1];
      assert forall i :: 0 <= i < |init| ==> init[i] == files[i];
      DigestKeysExact(fs, init, sha512, digest);
    }
  }

  // ------------------------------------------------------ the change-set

  /** The change-set under construction, what is left of the digest map, and
      the `KeyError` that ended the loop, if any. */
  datatype Diff = Diff(update: seq<UpdateItem>, m: map<string, Path>, error: Option<Error>)

  /** The loop over the response after its first `k` entries: each entry with
      an update pops its digest from the map and appends the update with the
      popped file; a digest that is not (or no longer) in the map raises. */
  function DiffPrefix(sha512: bool, json: seq<(string, VersionInfo)>, m0: map<string, Path>, k: nat): Diff
    requires k <= |json|
    decreases k
  {
    if k == 0 then Diff([], m0, None)
    else
      var prev := DiffPrefix(sha512, json, m0, k - 1);
      var key := json[k - 1].0;
      if prev.error.Some? then prev
      else
        match ChosenUpdate(sha512, key, json[k - 1].1)
        case None => prev
        case Some(c) =>
          if key !in prev.m then prev.(error := Some(MissingKey(key)))
          else Diff(prev.update + [UpdateItem(c.url, c.filename, c.size, prev.m[key])], prev.m - {key}, None)
  }

  lemma {:induction false} DiffStops(sha512: bool, json: seq<(string, VersionInfo)>, m0: map<string, Path>, k: nat, j: nat)
    requires k <= j <= |json|
    requires DiffPrefix(sha512, json, m0, k).error.Some?
    ensures DiffPrefix(sha512, json, m0, j) == DiffPrefix(sha512, json, m0, k)
    decreases j
  {
    if j > k {
      DiffStops(sha512, json, m0, k, j - 1);
    }
  }

  /** The inner loop of `handle`: `fetch_from_url` for each response entry,
      and `m.pop(key)` for those with an update. */
  method ChangeSet(sha512: bool, json: seq<(string, VersionInfo)>, m0: map<string, Path>) returns (d: Diff)
    ensures d == DiffPrefix(sha512, json, m0, |json|)
  {
    var update: seq<UpdateItem> := [];
    var m := m0;
    var i := 0;
    while i < |json|
      invariant 0 <= i <= |json|
      invariant DiffPrefix(sha512, json, m0, i) == Diff(update, m, None)
    {
      var (key, value) := json[i];
      var t := FetchFromUrl(sha512, key, value);
      if t.Some? {
        if key !in m {
          d := Diff(update, m, Some(MissingKey(key)));
          DiffStops(sha512, json, m0, i + 1, |json|);
          return;
        }
        update := update + [UpdateItem(t.value.url, t.value.filename, t.value.size, m[key])];
        m := m - {key};
      }
      i := i + 1;
    }
    d := Diff(update, m, None);
  }

  /** Every stale file of the change-set comes from the digest map, is no
      longer in what is left of it, and, the map being injective, no stale
      file appears twice. */
  lemma {:induction false} DiffStaleFiles(sha512: bool, json: seq<(string, VersionInfo)>, m0: map<string, Path>, k: nat)
    requires k <= |json|
    requires forall d, e :: d in m0 && e in m0 && d != e ==> m0[d] != m0[e]
    ensures forall a :: 0 <= a < |DiffPrefix(sha512, json, m0, k).update| ==>
      DiffPrefix(sha512, json, m0, k).update[a].stale in m0.Values
      && DiffPrefix(sha512, json, m0, k).update[a].stale !in DiffPrefix(sha512, json, m0, k).m.Values
    ensures forall a, b :: 0 <= a < b < |DiffPrefix(sha512, json, m0, k).update| ==>
      DiffPrefix(sha512, json, m0, k).update[a].stale != DiffPrefix(sha512, json, m0, k).update[b].stale
    ensures forall d :: d in DiffPrefix(sha512, json, m0, k).m ==> d in m0 && DiffPrefix(sha512, json, m0, k).m[d] == m0[d]
    decreases k
  {
    if k > 0 {
      DiffStaleFiles(sha512, json, m0, k - 1);
      var prev := DiffPrefix(sha512, json, m0, k - 1);
      var cur := DiffPrefix(sha512, json, m0, k);
      var key := json[k - 1].0;
      if prev.error.None? && ChosenUpdate(sha512, key, json[k - 1].1).Some? && key in prev.m {
        var p := prev.m[key];
        assert cur.update == prev.update + [cur.update[|cur.update| - 1]];
        assert cur.update[|cur.update| - 1].stale == p;
        forall a | 0 <= a < |cur.update|
          ensures cur.update[a].stale in m0.Values && cur.update[a].stale !in cur.m.Values
        {
          if a < |prev.update| {
            assert cur.update[a] == prev.update[a];
          } else {
            assert m0[key] == p;
          }
        }
        forall a, b | 0 <= a < b < |cur.update| ensures cur.update[a].stale != cur.update[b].stale {
          assert cur.update[a] == prev.update[a];
          if b < |prev.update| { assert cur.update[b] == prev.update[b]; }
          else { assert prev.m[key] in prev.m.Values; }
        }
      }
    }
  }

  /** The entries of a response that carry an update, as `(digest, update)`
      pairs in response order. */
  function Hits(sha512: bool, json: seq<(string, VersionInfo)>): seq<(string, Candidate)>
    decreases |json|
  {
    if json == [] then []
    else
      var prev := Hits(sha512, json[..|json| - 1]);
      var last := json[|json| - 1];
      match ChosenUpdate(sha512, last.0, last.1)
      case None => prev
      case Some(c) => prev + [(last.0, c)]
  }

  /** A response object has distinct keys. */
  predicate DistinctKeys(json: seq<(string, VersionInfo)>) {
    forall a, b :: 0 <= a < b < |json| ==> json[a].0 != json[b].0
  }

  /** Every hit's digest is a key of the digest map. */
  predicate HitsLocal(hits: seq<(string, Candidate)>, m0: map<string, Path>) {
    forall h :: 0 <= h < |hits| ==> hits[h].0 in m0
  }

  /** The change-set is the hits, in order, each paired with its local file. */
  predicate UpdateMatches(update: seq<UpdateItem>, hits: seq<(string, Candidate)>, m0: map<string, Path>) {
    && |update| == |hits|
    && forall h :: 0 <= h < |hits| ==>
         hits[h].0 in m0 && update[h] == UpdateItem(hits[h].1.url, hits[h].1.filename, hits[h].1.size, m0[hits[h].0])
  }

  /** What is left of the digest map: the digests no hit named, unchanged. */
  ghost predicate RemainderMatches(m: map<string, Path>, hits: seq<(string, Candidate)>, m0: map<string, Path>) {
    forall d :: d in m <==> d in m0 && forall h :: 0 <= h < |hits| ==> hits[h].0 != d
  }

  /** For a response with distinct keys, the loop raises `KeyError` exactly
      when some entry with an update has a digest that is not local; otherwise
      the change-set has one entry per such response entry, in response order,
      each paired with the local file of that digest, and only the other
      digests are left in the map. */
  lemma {:induction false} ChangeSetFollowsResponse(sha512: bool, json: seq<(string, VersionInfo)>, m0: map<string, Path>, k: nat)
    requires k <= |json| && DistinctKeys(json)
    ensures DiffPrefix(sha512, json, m0, k).error.None? <==> HitsLocal(Hits(sha512, json[..k]), m0)
    ensures DiffPrefix(sha512, json, m0, k).error.None? ==>
      && UpdateMatches(DiffPrefix(sha512, json, m0, k).update, Hits(sha512, json[..k]), m0)
      && RemainderMatches(DiffPrefix(sha512, json, m0, k).m, Hits(sha512, json[..k]), m0)
      && forall d :: d in DiffPrefix(sha512, json, m0, k).m ==> DiffPrefix(sha512, json, m0, k).m[d] == m0[d]
    decreases k
  {
    if k == 0 {
      assert json[..0] == [];
    } else {
      ChangeSetFollowsResponse(sha512, json, m0, k - 1);
      var pre := json[..k - 1];
      assert json[..k][..k - 1] == pre;
      assert json[..k][k - 1] == json[k - 1];
      var prev := DiffPrefix(sha512, json, m0, k - 1);
      var cur := DiffPrefix(sha512, json, m0, k);
      var hits := Hits(sha512, pre);
      var all := Hits(sha512, json[..k]);
      var key := json[k - 1].0;
      var fetched := ChosenUpdate(sha512, key, json[k - 1].1);
      assert all == if fetched.Some? then hits + [(key, fetched.value)] else hits;
      if prev.error.Some? {
        var h :| 0 <= h < |hits| && hits[h].0 !in m0;
        assert all[h] == hits[h];
      } else if fetched.Some? {
        // `key` was not popped before, since the response keys are distinct.
        forall h | 0 <= h < |hits| ensures hits[h].0 != key {
          var a := HitsKeyIndex(sha512, pre, h);
          assert json[a].0 == pre[a].0;
        }
        if key in prev.m {
          assert cur.update == prev.update + [UpdateItem(fetched.value.url, fetched.value.filename, fetched.value.size, m0[key])];
          assert cur.m == prev.m - {key};
          forall d ensures d in cur.m <==> d in m0 && forall h :: 0 <= h < |all| ==> all[h].0 != d {
            assert forall h :: 0 <= h < |hits| ==> all[h] == hits[h];
            assert all[|hits|].0 == key;
          }
        } else {
          assert all[|hits|].0 == key;
        }
      }
    }
  }

  /** Every hit's digest is the key of some entry of the response. */
  lemma {:induction false} HitsKeys(sha512: bool, json: seq<(string, VersionInfo)>)
    ensures forall h :: 0 <= h < |Hits(sha512, json)| ==> exists a :: 0 <= a < |json| && json[a].0 == Hits(sha512, json)[h].0
    decreases |json|
  {
    if json != [] {
      var init := json[..|json| - 1];
      HitsKeys(sha512, init);
      var hits := Hits(sha512, init);
      forall h | 0 <= h < |Hits(sha512, json)|
        ensures exists a :: 0 <= a < |json| && json[a].0 == Hits(sha512, json)[h].0
      {
        if h < |hits| {
          assert Hits(sha512, json)[h] == hits[h];
          var a :| 0 <= a < |init| && init[a].0 == hits[h].0;
          assert json[a] == init[a];
        } else {
          assert json[|json| - 1].0 == Hits(sha512, json)[h].0;
        }
      }
    } else {
      assert Hits(sha512, json) == [];
    }
  }

  lemma HitsKeyIndex(sha512: bool, json: seq<(string, VersionInfo)>, h: nat) returns (a: nat)
    requires h < |Hits(sha512, json)|
    ensures a < |json| && json[a].0 == Hits(sha512, json)[h].0
  {
    HitsKeys(sha512, json);
    a :| 0 <= a < |json| && json[a].0 == Hits(sha512, json)[h].0;
  }

  // ------------------------------------------------------------- handle

  /** The dict comprehension that builds the digest map, together with the
      order of its keys. */
  method BuildDigestMap(fs: FileSystem, files: seq<Path>, sha512: bool, digest: (bool, Bytes) -> string)
    returns (m: map<string, Path>, keys: seq<string>)
    requires AllFiles(fs, files)
    ensures m == DigestMap(fs, files, sha512, digest)
    ensures keys == DigestKeys(fs, files, sha512, digest)
  {
    m := map[];
    keys := [];
    var i := 0;
    while i < |files|
      invariant 0 <= i <= |files|
      invariant AllFiles(fs, files[..i])
      invariant m == DigestMap(fs, files[..i], sha512, digest)
      invariant keys == DigestKeys(fs, files[..i], sha512, digest)
    {
      assert files[..i + 1][..i] == files[..i];
      DigestKeysExact(fs, files[..i], sha512, digest);
      var d := digest(sha512, fs[files[i]].data);
      if d !in m {
        keys := keys + [d];
      }
      m := m[d := files[i]];
      i := i + 1;
    }
    assert files[..i] == files;
  }

  /** What one resource group left behind: its resolved directory, the body
      of its lookup request and, when the lookup answered, its change-set. */
  datatype GroupRecord = GroupRecord(dir: Path, request: map<string, Json>, changeSet: Option<seq<UpdateItem>>)

  /** The state of `handle`: the file system, the groups handled so far and
      the exception that ended it, if any. */
  datatype HandleRun = HandleRun(fs: FileSystem, groups: seq<GroupRecord>, error: Option<Error>)

  function At<T>(xs: seq<T>, i: nat, default: T): T {
    if i < |xs| then xs[i] else default
  }

  /** The environment of one `handle` call. `root` is the working directory
      as `config` holds it when `handle` runs, which the containment check and
      the archive directory read; `importedRoot` is the `working_dir` this
      module imported when it was loaded, from which `handle` builds each
      group's directory. Per resource group in order: the names `iterdir`
      yields, the outcome of the lookup POST and the outcomes of the
      downloads; `digest` is the hash function. */
  datatype Env = Env(
    root: Path,
    importedRoot: Path,
    listings: seq<seq<string>>,
    digest: (bool, Bytes) -> string,
    lookups: seq<Lookup>,
    nets: seq<seq<Fetch>>)

  /** The resolved directory of group `i`. */
  function GroupDir(h: ModrinthHandler, env: Env, i: nat): Path
    requires i < |h.resourcesInfo|
  {
    Resolve(env.importedRoot + h.resourcesInfo[i].0)
  }

  /** The change-set computed from a non-empty response, and the download it
      starts. */
  function Update(h: ModrinthHandler, env: Env, i: nat, fs: FileSystem, groups: seq<GroupRecord>,
                  body: map<string, Json>, json: seq<(string, VersionInfo)>, m: map<string, Path>): (r: HandleRun)
    requires i < |h.resourcesInfo|
    ensures |r.groups| == |groups| + 1 && r.groups[..|groups|] == groups
    ensures r.groups[|groups|].dir == GroupDir(h, env, i) && r.groups[|groups|].request == body
    ensures r.groups[|groups|].changeSet.Some? ==>
      DiffPrefix(h.hashAlgorithm == "sha512", json, m, |json|).error.None?
      && r.groups[|groups|].changeSet.value == DiffPrefix(h.hashAlgorithm == "sha512", json, m, |json|).update
    ensures DiffPrefix(h.hashAlgorithm == "sha512", json, m, |json|).error.Some? ==>
      r.fs == fs && r.error == DiffPrefix(h.hashAlgorithm == "sha512", json, m, |json|).error
    ensures var diff := DiffPrefix(h.hashAlgorithm == "sha512", json, m, |json|);
      diff.error.None? ==>
        var run := Progress(fs, GroupDir(h, env, i), ArchiveDirPath(env.root, h.resourcesInfo[i].1.base.archiveDir),
                            diff.update, At(env.nets, i, []), |diff.update|);
        && r.groups[|groups|].changeSet == Some(diff.update)
        && r.fs == run.fs && r.error == run.error
  {
    var diff := DiffPrefix(h.hashAlgorithm == "sha512", json, m, |json|);
    if diff.error.Some? then HandleRun(fs, groups + [GroupRecord(GroupDir(h, env, i), body, None)], diff.error)
    else
      var r := h.resourcesInfo[i].1.base;
      var run := Progress(fs, GroupDir(h, env, i), ArchiveDirPath(env.root, r.archiveDir), diff.update,
                          At(env.nets, i, []), |diff.update|);
      HandleRun(run.fs, groups + [GroupRecord(GroupDir(h, env, i), body, Some(diff.update))], run.error)
  }

  /** One iteration of the loop over `resources_info`: scan the directory,
      hash its candidates, post their digests and, when the answer is not
      empty, compute the change-set and download it. */
  function GroupStep(h: ModrinthHandler, env: Env, i: nat, run: HandleRun): HandleRun
    requires i < |h.resourcesInfo|
  {
    var (dirName, res) := h.resourcesInfo[i];
    match ScopedCandidates(env.root, env.importedRoot + dirName, res.base, run.fs, At(env.listings, i, []))
    case Failure(e) => run.(error := Some(e))
    case Success(files) =>
      var sha512 := h.hashAlgorithm == "sha512";
      var body := RequestBody(DigestKeys(run.fs, files, sha512, env.digest), res.loaders, h.hashAlgorithm, h.gameVersions);
      var json := Post(At(env.lookups, i, PostRaised));
      if json == [] then run.(groups := run.groups + [GroupRecord(GroupDir(h, env, i), body, None)])
      else Update(h, env, i, run.fs, run.groups, body, json, DigestMap(run.fs, files, sha512, env.digest))
  }

  /** The loop over the groups as one step function; past the last group
      there is nothing left to do. */
  function StepOf(h: ModrinthHandler, env: Env): (nat, HandleRun) -> HandleRun {
    (i: nat, run: HandleRun) => if i < |h.resourcesInfo| then GroupStep(h, env, i, run) else run
  }

  /** `k` rounds of a loop whose step may raise: a raised exception ends it. */
  function Fold(step: (nat, HandleRun) -> HandleRun, init: HandleRun, k: nat): HandleRun
    decreases k
  {
    if k == 0 then init
    else
      var prev := Fold(step, init, k - 1);
      if prev.error.Some? then prev else step(k - 1, prev)
  }

  /** `handle` after its first `k` resource groups. */
  function HandlePrefix(h: ModrinthHandler, env: Env, fs: FileSystem, k: nat): HandleRun {
    Fold(StepOf(h, env), HandleRun(fs, [], None), k)
  }

  /** The body of the loop in `handle` for group `i`. */
  method HandleGroup(h: ModrinthHandler, env: Env, i: nat, before: HandleRun) returns (after: HandleRun)
    requires i < |h.resourcesInfo|
    ensures after == GroupStep(h, env, i, before)
  {
    var (dirName, res) := h.resourcesInfo[i];
    var found := FindFilesByDirPath(env.root, env.importedRoot + dirName, res.base, before.fs, At(env.listings, i, []));
    if found.Failure? {
      return before.(error := Some(found.error));
    }
    var sha512 := h.hashAlgorithm == "sha512";
    var m, keys := BuildDigestMap(before.fs, found.value, sha512, env.digest);
    var body := RequestBody(keys, res.loaders, h.hashAlgorithm, h.gameVersions);
    var json := Post(At(env.lookups, i, PostRaised));
    var record := GroupRecord(Resolve(env.importedRoot + dirName), body, None);
    if json == [] {
      return before.(groups := before.groups + [record]);
    }
    var diff := ChangeSet(sha512, json, m);
    if diff.error.Some? {
      return HandleRun(before.fs, before.groups + [record], diff.error);
    }
    var run := Download(res.base, env.root, Resolve(env.importedRoot + dirName), diff.update, At(env.nets, i, []), before.fs);
    return HandleRun(run.fs, before.groups + [record.(changeSet := Some(diff.update))], run.error);
  }

  /** `ModrinthHandler.handle`: the resource groups in declaration order, until
      one raises. */
  method Handle(h: ModrinthHandler, env: Env, fs: FileSystem) returns (run: HandleRun)
    ensures run == HandlePrefix(h, env, fs, |h.resourcesInfo|)
  {
    run := HandleRun(fs, [], None);
    var i := 0;
    while i < |h.resourcesInfo| && run.error.None?
      invariant 0 <= i <= |h.resourcesInfo|
      invariant run == HandlePrefix(h, env, fs, i)
    {
      ghost var before := run;
      run := HandleGroup(h, env, i, run);
      HandleNext(h, env, fs, i, before, run);
      i := i + 1;
    }
    HandleDone(h, env, fs, i, run);
  }

  lemma HandleDone(h: ModrinthHandler, env: Env, fs: FileSystem, i: nat, run: HandleRun)
    requires i <= |h.resourcesInfo| && run == HandlePrefix(h, env, fs, i)
    requires i == |h.resourcesInfo| || run.error.Some?
    ensures run == HandlePrefix(h, env, fs, |h.resourcesInfo|)
  {
    if i < |h.resourcesInfo| {
      FoldStops(StepOf(h, env), HandleRun(fs, [], None), i, |h.resourcesInfo|);
    }
  }

  lemma HandleNext(h: ModrinthHandler, env: Env, fs: FileSystem, k: nat, before: HandleRun, after: HandleRun)
    requires k < |h.resourcesInfo|
    requires HandlePrefix(h, env, fs, k) == before && before.error.None?
    requires after == GroupStep(h, env, k, before)
    ensures HandlePrefix(h, env, fs, k + 1) == after
  {
    assert StepOf(h, env)(k, before) == after;
  }

  /** Once a step raises, later steps do nothing: in `handle`, no later group
      is scanned, posted or downloaded. */
  lemma {:induction false} FoldStops(step: (nat, HandleRun) -> HandleRun, init: HandleRun, k: nat, j: nat)
    requires k <= j
    requires Fold(step, init, k).error.Some?
    ensures Fold(step, init, j) == Fold(step, init, k)
    decreases j
  {
    if j > k {
      FoldStops(step, init, k, j - 1);
    }
  }

  /** A property that every step keeps on a run that has not raised holds
      after any number of steps. */
  lemma {:induction false} FoldKeeps(step: (nat, HandleRun) -> HandleRun, keeps: HandleRun -> bool, init: HandleRun, k: nat)
    requires keeps(init)
    requires forall i: nat, run: HandleRun :: keeps(run) && run.error.None? ==> keeps(step(i, run))
    ensures keeps(Fold(step, init, k))
    decreases k
  {
    if k > 0 {
      FoldKeeps(step, keeps, init, k - 1);
    }
  }

  /** An exception in group `i` ends `handle`: the result is what group `i`
      left behind, and no later group is scanned, posted or downloaded. */
  lemma RaisedEndsHandle(h: ModrinthHandler, env: Env, fs: FileSystem, i: nat)
    requires i < |h.resourcesInfo| && HandlePrefix(h, env, fs, i).error.None?
    requires GroupStep(h, env, i, HandlePrefix(h, env, fs, i)).error.Some?
    ensures HandlePrefix(h, env, fs, |h.resourcesInfo|) == GroupStep(h, env, i, HandlePrefix(h, env, fs, i))
  {
    var before := HandlePrefix(h, env, fs, i);
    HandleNext(h, env, fs, i, before, GroupStep(h, env, i, before));
    FoldStops(StepOf(h, env), HandleRun(fs, [], None), i + 1, |h.resourcesInfo|);
  }

  /** A scanning error (an insecure or missing directory) is raised before
      anything is hashed, posted or downloaded. */
  lemma ScanFailureAborts(h: ModrinthHandler, env: Env, i: nat, run: HandleRun, e: Error)
    requires i < |h.resourcesInfo|
    requires ScopedCandidates(env.root, env.importedRoot + h.resourcesInfo[i].0, h.resourcesInfo[i].1.base, run.fs,
                              At(env.listings, i, [])) == Failure(e)
    ensures GroupStep(h, env, i, run) == HandleRun(run.fs, run.groups, Some(e))
  {
  }

  /** A group whose directory, built from the imported working directory,
      does not lie strictly inside the current one raises `InsecurePathError`
      before anything is hashed, posted or downloaded. */
  lemma OutsideRootRejected(h: ModrinthHandler, env: Env, i: nat, run: HandleRun)
    requires i < |h.resourcesInfo| && !StrictAncestor(Resolve(env.root), GroupDir(h, env, i))
    ensures GroupStep(h, env, i, run).fs == run.fs && GroupStep(h, env, i, run).groups == run.groups
    ensures GroupStep(h, env, i, run).error.Some? && GroupStep(h, env, i, run).error.value.InsecurePath?
  {
  }

  /** When the working directory is configured as `srv`, `handle` still
      builds the group `mods` under the imported `server`, so the group is
      refused as insecure. */
  lemma ConfiguredRootNotFollowed(h: ModrinthHandler, env: Env, i: nat, run: HandleRun)
    requires i < |h.resourcesInfo| && h.resourcesInfo[i].0 == ["mods"]
    requires env.root == ["srv"] && env.importedRoot == ["server"]
    ensures GroupStep(h, env, i, run).error.Some? && GroupStep(h, env, i, run).error.value.InsecurePath?
  {
    ResolveIdempotent(["srv"]);
    ResolveIdempotent(["server", "mods"]);
    assert env.importedRoot + h.resourcesInfo[i].0 == ["server", "mods"];
    OutsideRootRejected(h, env, i, run);
  }

  /** A failed or empty lookup leaves the group's directory alone: `download`
      is not called, nothing is raised and the next group is handled. */
  lemma EmptyLookupSkipsDownload(h: ModrinthHandler, env: Env, i: nat, run: HandleRun)
    requires i < |h.resourcesInfo|
    requires ScopedCandidates(env.root, env.importedRoot + h.resourcesInfo[i].0, h.resourcesInfo[i].1.base, run.fs,
                              At(env.listings, i, [])).Success?
    requires var l := At(env.lookups, i, PostRaised); l.PostRaised? || l.status != 200 || l.json == []
    ensures GroupStep(h, env, i, run).fs == run.fs
    ensures GroupStep(h, env, i, run).error == run.error
    ensures |GroupStep(h, env, i, run).groups| == |run.groups| + 1
    ensures GroupStep(h, env, i, run).groups[|run.groups|].changeSet.None?
  {
  }

  /** Every stale file of a change-set sits directly inside the group's
      resolved directory, and none appears twice. */
  ghost predicate Scoped(g: GroupRecord) {
    g.changeSet.Some? ==>
      && (forall a :: 0 <= a < |g.changeSet.value| ==>
            |g.changeSet.value[a].stale| == |g.dir| + 1 && g.changeSet.value[a].stale[..|g.dir|] == g.dir)
      && (forall a, b :: 0 <= a < b < |g.changeSet.value| ==> g.changeSet.value[a].stale != g.changeSet.value[b].stale)
  }

  /** One group appends at most one record, for its own directory, and that
      record is scoped; earlier records are kept. */
  lemma GroupStepScoped(h: ModrinthHandler, env: Env, i: nat, run: HandleRun)
    requires i < |h.resourcesInfo|
    requires forall g :: 0 <= g < |run.groups| ==> Scoped(run.groups[g])
    ensures |run.groups| <= |GroupStep(h, env, i, run).groups| <= |run.groups| + 1
    ensures GroupStep(h, env, i, run).groups[..|run.groups|] == run.groups
    ensures |GroupStep(h, env, i, run).groups| == |run.groups| + 1 ==>
      GroupStep(h, env, i, run).groups[|run.groups|].dir == GroupDir(h, env, i)
    ensures forall g :: 0 <= g < |GroupStep(h, env, i, run).groups| ==> Scoped(GroupStep(h, env, i, run).groups[g])
  {
    var (dirName, res) := h.resourcesInfo[i];
    var scan := ScopedCandidates(env.root, env.importedRoot + dirName, res.base, run.fs, At(env.listings, i, []));
    if scan.Success? {
      var sha512 := h.hashAlgorithm == "sha512";
      var json := Post(At(env.lookups, i, PostRaised));
      var m := DigestMap(run.fs, scan.value, sha512, env.digest);
      DigestMapSound(run.fs, scan.value, sha512, env.digest);
      if json != [] {
        DiffStaleFiles(sha512, json, m, |json|);
      }
    }
    ScopedExtend(run.groups, GroupStep(h, env, i, run).groups);
  }

  lemma ScopedExtend(before: seq<GroupRecord>, after: seq<GroupRecord>)
    requires |before| <= |after| <= |before| + 1 && after[..|before|] == before
    requires forall g :: 0 <= g < |before| ==> Scoped(before[g])
    requires |after| == |before| + 1 ==> Scoped(after[|before|])
    ensures forall g :: 0 <= g < |after| ==> Scoped(after[g])
  {
    forall g | 0 <= g < |after| ensures Scoped(after[g]) {
      if g < |before| {
        assert after[g] == after[..|before|][g];
      }
    }
  }

  ghost predicate AllScoped(run: HandleRun) {
    forall g :: 0 <= g < |run.groups| ==> Scoped(run.groups[g])
  }

  /** Every change-set `handle` hands to `download` references only files
      directly inside its group's scoped directory, each at most once. */
  lemma HandleScoped(h: ModrinthHandler, env: Env, fs: FileSystem, k: nat)
    ensures forall g :: 0 <= g < |HandlePrefix(h, env, fs, k).groups| ==>
      Scoped(HandlePrefix(h, env, fs, k).groups[g])
  {
    var step := StepOf(h, env);
    forall i: nat, run: HandleRun | AllScoped(run) && run.error.None? ensures AllScoped(step(i, run)) {
      if i < |h.resourcesInfo| {
        GroupStepScoped(h, env, i, run);
      }
    }
    FoldKeeps(step, AllScoped, HandleRun(fs, [], None), k);
  }

  /** The lookup request of a group carries each digest of its candidate
      files exactly once and no other. */
  lemma RequestCarriesLocalDigests(h: ModrinthHandler, env: Env, i: nat, run: HandleRun, files: seq<Path>)
    requires i < |h.resourcesInfo|
    requires ScopedCandidates(env.root, env.importedRoot + h.resourcesInfo[i].0, h.resourcesInfo[i].1.base, run.fs,
                              At(env.listings, i, [])) == Success(files)
    ensures |GroupStep(h, env, i, run).groups| == |run.groups| + 1
    ensures GroupStep(h, env, i, run).groups[|run.groups|].request["hashes"].JStrings?
    ensures var hashes := GroupStep(h, env, i, run).groups[|run.groups|].request["hashes"].items;
      && (forall j :: 0 <= j < |files| ==> FileDigest(run.fs, h.hashAlgorithm == "sha512", env.digest, files[j]) in hashes)
      && (forall d :: d in hashes ==> exists j :: 0 <= j < |files| && FileDigest(run.fs, h.hashAlgorithm == "sha512", env.digest, files[j]) == d)
      && (forall a, b :: 0 <= a < b < |hashes| ==> hashes[a] != hashes[b])
  {
    var m := DigestMap(run.fs, files, h.hashAlgorithm == "sha512", env.digest);
    DigestMapSound(run.fs, files, h.hashAlgorithm == "sha512", env.digest);
    DigestKeysExact(run.fs, files, h.hashAlgorithm == "sha512", env.digest);
    forall d | d in m ensures exists j :: 0 <= j < |files| && FileDigest(run.fs, h.hashAlgorithm == "sha512", env.digest, files[j]) == d {
      var j :| 0 <= j < |files| && files[j] == m[d];
    }
  }

  /** A response naming an update for a digest that is not local raises
      `KeyError`: nothing is downloaded and `handle` stops. */
  lemma MissingKeyAborts(h: ModrinthHandler, env: Env, i: nat, run: HandleRun, files: seq<Path>, json: seq<(string, VersionInfo)>, n: nat)
    requires i < |h.resourcesInfo|
    requires ScopedCandidates(env.root, env.importedRoot + h.resourcesInfo[i].0, h.resourcesInfo[i].1.base, run.fs,
                              At(env.listings, i, [])) == Success(files)
    requires At(env.lookups, i, PostRaised) == Answered(200, json) && DistinctKeys(json)
    requires n < |json| && ChosenUpdate(h.hashAlgorithm == "sha512", json[n].0, json[n].1).Some?
    requires forall j :: 0 <= j < |files| ==> FileDigest(run.fs, h.hashAlgorithm == "sha512", env.digest, files[j]) != json[n].0
    ensures GroupStep(h, env, i, run).error.Some? && GroupStep(h, env, i, run).error.value.MissingKey?
    ensures GroupStep(h, env, i, run).fs == run.fs
  {
    var sha512 := h.hashAlgorithm == "sha512";
    var m := DigestMap(run.fs, files, sha512, env.digest);
    DigestMapSound(run.fs, files, sha512, env.digest);
    assert json[n].0 !in m;
    ChangeSetFollowsResponse(sha512, json, m, |json|);
    HitsComplete(sha512, json, n);
    assert json[..|json|] == json;
    MissingKeyKind(sha512, json, m, |json|);
  }

  /** Every entry of the response that carries an update is a hit. */
  lemma {:induction false} HitsComplete(sha512: bool, json: seq<(string, VersionInfo)>, n: nat)
    requires n < |json| && ChosenUpdate(sha512, json[n].0, json[n].1).Some?
    ensures exists h :: 0 <= h < |Hits(sha512, json)| && Hits(sha512, json)[h].0 == json[n].0
    decreases |json|
  {
    var init := json[..|json| - 1];
    if n < |json| - 1 {
      assert init[n] == json[n];
      HitsComplete(sha512, init, n);
      var h :| 0 <= h < |Hits(sha512, init)| && Hits(sha512, init)[h].0 == json[n].0;
      assert Hits(sha512, json)[h] == Hits(sha512, init)[h];
    } else {
      assert Hits(sha512, json)[|Hits(sha512, init)|].0 == json[n].0;
    }
  }

  /** The only exception the change-set loop raises is `KeyError`. */
  lemma {:induction false} MissingKeyKind(sha512: bool, json: seq<(string, VersionInfo)>, m0: map<string, Path>, k: nat)
    requires k <= |json|
    ensures DiffPrefix(sha512, json, m0, k).error.Some? ==> DiffPrefix(sha512, json, m0, k).error.value.MissingKey?
    decreases k
  {
    if k > 0 {
      MissingKeyKind(sha512, json, m0, k - 1);
    }
  }

  /** A worked example: the working directory `server` holds
      `mods/old.jar` whose SHA-1 is `AAA`; the lookup answers that `new.jar`
      (SHA-1 `BBB`, 2048 bytes, primary) replaces it, and the download
      delivers those 2048 bytes. With the default handler, `handle` fetches
      `new.jar` into `mods`, moves `old.jar` into the working directory (the
      default archive directory) and raises nothing. */
  lemma OldJarReplaced(digest: (bool, Bytes) -> string, oldData: Bytes, newData: Bytes)
    requires digest(false, oldData) == "AAA"
    ensures var after := HandlePrefix(DefaultHandler(), ExampleEnv(digest, newData), ExampleFs(oldData), 1);
      && after.error.None?
      && after.groups == [GroupRecord(["server", "mods"], RequestBody(["AAA"], ["fabric"], "sha1", None),
                                      Some([ExampleItem()]))]
      && after.fs == map[["server"] := Directory, ["server", "mods"] := Directory,
                         ["server", "mods", "new.jar"] := File(newData), ["server", "old.jar"] := File(oldData)]
  {
    var h := DefaultHandler();
    var env := ExampleEnv(digest, newData);
    var fs := ExampleFs(oldData);
    var stale := ["server", "mods", "old.jar"];
    var init := HandleRun(fs, [], None);
    ExampleScan(oldData);
    ExampleDigests(digest, oldData);
    var m := map["AAA" := stale];
    ExampleDiff(m);
    ExampleDownload(oldData, newData);
    var body := RequestBody(["AAA"], ["fabric"], "sha1", None);
    assert GroupDir(h, env, 0) == ["server", "mods"] by { ResolveIdempotent(["server", "mods"]); }
    assert ArchiveDirPath(["server"], None) == ["server"] by { ResolveIdempotent(["server"]); }
    assert GroupStep(h, env, 0, init) == Update(h, env, 0, fs, [], body, ExampleJson(), m);
    assert StepOf(h, env)(0, init) == GroupStep(h, env, 0, init);
  }

  function ExampleFs(oldData: Bytes): FileSystem {
    map[["server"] := Directory, ["server", "mods"] := Directory, ["server", "mods", "old.jar"] := File(oldData)]
  }

  function ExampleJson(): seq<(string, VersionInfo)> {
    [("AAA", VersionInfo(Some([VersionFile("http://x/new.jar", "new.jar", 2048, true, Hashes("BBB", ""))])))]
  }

  function ExampleEnv(digest: (bool, Bytes) -> string, newData: Bytes): Env {
    Env(["server"], ["server"], [["old.jar"]], digest, [Answered(200, ExampleJson())],
        [[Got(Response(200, Some(2048), Complete(newData)))]])
  }

  function ExampleItem(): UpdateItem {
    UpdateItem("http://x/new.jar", "new.jar", 2048, ["server", "mods", "old.jar"])
  }

  lemma ExampleScan(oldData: Bytes)
    ensures ScopedCandidates(["server"], ["server"] + ["mods"], DefaultResources().base, ExampleFs(oldData), ["old.jar"])
      == Success([["server", "mods", "old.jar"]])
  {
    var dir := ["server", "mods"];
    ResolveIdempotent(["server"]);
    ResolveIdempotent(dir);
    assert ["server"] + ["mods"] == dir;
    assert JarPattern("old.jar");
    assert dir + ["old.jar"] == ["server", "mods", "old.jar"];
    assert Candidates(DefaultResources().base, ExampleFs(oldData), dir, ["old.jar"][1..]) == [];
    assert StrictAncestor(["server"], dir);
    assert IsDir(ExampleFs(oldData), dir);
    assert IsFile(ExampleFs(oldData), ["server", "mods", "old.jar"]);
    assert NamePasses(DefaultResources().base, "old.jar");
    assert Candidates(DefaultResources().base, ExampleFs(oldData), dir, ["old.jar"]) == [["server", "mods", "old.jar"]];
  }

  lemma ExampleDigests(digest: (bool, Bytes) -> string, oldData: Bytes)
    requires digest(false, oldData) == "AAA"
    ensures AllFiles(ExampleFs(oldData), [["server", "mods", "old.jar"]])
    ensures DigestMap(ExampleFs(oldData), [["server", "mods", "old.jar"]], false, digest) == map["AAA" := ["server", "mods", "old.jar"]]
    ensures DigestKeys(ExampleFs(oldData), [["server", "mods", "old.jar"]], false, digest) == ["AAA"]
  {
    var files := [["server", "mods", "old.jar"]];
    assert files[..0] == [];
  }

  lemma ExampleDiff(m: map<string, Path>)
    requires m == map["AAA" := ["server", "mods", "old.jar"]]
    ensures DiffPrefix(false, ExampleJson(), m, 1) == Diff([ExampleItem()], map[], None)
  {
    var files := ExampleJson()[0].1.files.value;
    assert ChosenIndex(files) == 0;
    assert ChosenUpdate(false, "AAA", ExampleJson()[0].1) == Some(Candidate("http://x/new.jar", "new.jar", 2048));
    assert m - {"AAA"} == map[];
  }

  lemma ExampleDownload(oldData: Bytes, newData: Bytes)
    ensures Progress(ExampleFs(oldData), ["server", "mods"], ["server"], [ExampleItem()],
                     [Got(Response(200, Some(2048), Complete(newData)))], 1)
      == Run(map[["server"] := Directory, ["server", "mods"] := Directory,
                 ["server", "mods", "new.jar"] := File(newData), ["server", "old.jar"] := File(oldData)], [], [], None)
  {
    var fs := ExampleFs(oldData);
    var dir := ["server", "mods"];
    assert "new.jar"[3] == '.';
    assert LastIndexOf("new.jar", '.') == 3;
    assert WithSuffix("new.jar", ".tmp") == "new.tmp";
    var temp := ["server", "mods", "new.tmp"];
    assert TempPath(dir, ExampleItem()) == temp;
    var written := fs[temp := File(newData)];
    var archived := Move(written, ["server", "mods", "old.jar"], ["server", "old.jar"]);
    assert archived == map[["server"] := Directory, ["server", "mods"] := Directory,
                           temp := File(newData), ["server", "old.jar"] := File(oldData)];
    var item := ExampleItem();
    var fetch := Got(Response(200, Some(2048), Complete(newData)));
    assert MakeDir(fs, dir) == Success(fs);
    assert MakeDir(fs, ["server"]) == Success(fs);
    assert !SizeMismatch(item, fetch.response);
    assert ArchivedPath(["server"], item) == ["server", "old.jar"];
    assert TargetPath(dir, item) == ["server", "mods", "new.jar"];
    assert IsFile(written, item.stale);
    var promoted := Move(archived, temp, ["server", "mods", "new.jar"]);
    assert Step(Run(fs, [], [], None), dir, ["server"], 0, item, fetch) == Run(promoted, [], [], None);
    assert promoted == map[["server"] := Directory, ["server", "mods"] := Directory,
                           ["server", "mods", "new.jar"] := File(newData), ["server", "old.jar"] := File(oldData)];
  }
}
