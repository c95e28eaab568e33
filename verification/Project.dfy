/** What a project is on disk: the roots discovery declares, the walk over
    them, and how far an absorbed change and a fresh load of one path agree. */
module Project {
  import opened Wrappers
  import opened Ordering
  import opened Vfs

  /** What stands at a path: a file that can be read, one that cannot, or a directory. */
  datatype Entry = File(bytes: Bytes) | Locked | Directory
  type Disk = map<Path, Entry>

  datatype Discovery = Discovery(
    projectWalkRoots: seq<Path>, vendorWalkRoots: seq<Path>, vendorRoot: Path, excludedRoots: seq<Path>,
    phpVersionRange: (nat, nat))
  {
    function WalkRoots(): seq<Path> { projectWalkRoots + vendorWalkRoots }

    predicate IsExcluded(path: Path) {
      exists root :: root in excludedRoots && path.StartsWith(root)
    }

    /** Reported, rather than only read for its symbols. */
    predicate IsProjects(path: Path) { !path.StartsWith(vendorRoot) }
  }

  // ----- paths

  function ComparePath(p: Path, q: Path): Cmp { CompareSeq(CompareString, p.components, q.components) }

  lemma ComparePathTotal()
    ensures TotalCompare(ComparePath)
  {
    CompareStringTotal();
    forall a, b ensures ComparePath(a, b) == Equal <==> a == b { CompareSeqEqual(CompareString, a.components, b.components); }
    forall a, b ensures ComparePath(b, a) == ComparePath(a, b).Flip() { CompareSeqFlip(CompareString, a.components, b.components); }
    forall a, b, c | ComparePath(a, b) != Greater && ComparePath(b, c) != Greater
      ensures ComparePath(a, c) != Greater
    {
      CompareSeqTransitive(CompareString, a.components, b.components, c.components);
    }
  }

  predicate IsLetter(c: char, lower: char, upper: char) { c == lower || c == upper }

  /** A `php` extension in any ASCII case, judged from the path alone. A name
      that only starts with its dot has no extension. */
  predicate IsPhp(path: Path) {
    path.components != [] &&
    var name := path.components[|path.components| - 1];
    |name| >= 5 &&
    var ext := name[|name| - 4..];
    ext[0] == '.' && IsLetter(ext[1], 'p', 'P') && IsLetter(ext[2], 'h', 'H') && IsLetter(ext[3], 'p', 'P')
  }

  // ----- reading and walking

  predicate IsFile(disk: Disk, path: Path) { path in disk && !disk[path].Directory? }

  /** `std::fs::read`. */
  function Read(disk: Disk, path: Path): Result<Bytes, string> {
    if path !in disk then Err("not found")
    else match disk[path]
      case File(bytes) => Ok(bytes)
      case Locked => Err("permission denied")
      case Directory => Err("is a directory")
  }

  /** A file the walk reaches: a root itself, whatever its extension, or a PHP
      file below one, in neither case excluded. */
  predicate Walkable(d: Discovery, disk: Disk, path: Path) {
    IsFile(disk, path) && !d.IsExcluded(path) && Declared(d, path)
  }

  predicate Declared(d: Discovery, path: Path) {
    path in d.WalkRoots() || (IsPhp(path) && exists root :: root in d.WalkRoots() && path.StartsWith(root))
  }

  /** What is walked: no directory, nothing under an excluded root, and either a
      declared root itself or a PHP file below one. */
  lemma WalkableExactly(d: Discovery, disk: Disk, path: Path)
    ensures Walkable(d, disk, path) <==>
              && path in disk && disk[path] != Directory
              && (forall root :: root in d.excludedRoots ==> !(root.components <= path.components))
              && (|| path in d.projectWalkRoots || path in d.vendorWalkRoots
                  || (IsPhp(path) && exists root :: (root in d.projectWalkRoots || root in d.vendorWalkRoots)
                                                    && root.components <= path.components))
  {
    if Walkable(d, disk, path) && !(path in d.WalkRoots()) {
      var root :| root in d.WalkRoots() && path.StartsWith(root);
      assert root in d.projectWalkRoots || root in d.vendorWalkRoots;
    }
    if exists root :: (root in d.projectWalkRoots || root in d.vendorWalkRoots) && root.components <= path.components {
      var root :| (root in d.projectWalkRoots || root in d.vendorWalkRoots) && root.components <= path.components;
      assert root in d.WalkRoots() && path.StartsWith(root);
    }
    forall root | root in d.excludedRoots ensures path.StartsWith(root) <==> root.components <= path.components {}
  }

  /** The eight spellings of the extension, after a name that is not empty. */
  lemma PhpExactly(path: Path)
    ensures IsPhp(path) <==>
              path.components != [] && var name := path.components[|path.components| - 1];
              |name| > 4 && name[|name| - 4..] in {".php", ".phP", ".pHp", ".pHP", ".Php", ".PhP", ".PHp", ".PHP"}
  {
    if path.components != [] {
      var name := path.components[|path.components| - 1];
      if |name| > 4 {
        var ext := name[|name| - 4..];
        assert ext == [ext[0], ext[1], ext[2], ext[3]];
      }
    }
  }

  /** The walk's list: each walkable file once, in path order. */
  ghost predicate IsWalk(files: seq<Path>, d: Discovery, disk: Disk) {
    StrictlySorted(ComparePath, files) && forall p :: p in files <==> Walkable(d, disk, p)
  }

  method EnumeratePhpFiles(d: Discovery, disk: Disk) returns (files: seq<Path>)
    ensures IsWalk(files, d, disk)
    ensures StrictlySorted(ComparePath, files) && forall p :: p in files <==> Walkable(d, disk, p)
    ensures forall p, root :: p in files && root in d.excludedRoots ==> !(root.components <= p.components)
  {
    var roots := d.WalkRoots();
    var found: set<Path> := {};
    for k := 0 to |roots|
      invariant forall p :: p in found ==> Walkable(d, disk, p)
      invariant forall j :: 0 <= j < k ==> Reached(found, d, disk, roots[j])
    {
      ghost var before := found;
      found := found + FilesUnder(d, disk, roots[k]);
      forall j | 0 <= j < k ensures Reached(found, d, disk, roots[j]) {
        assert Reached(before, d, disk, roots[j]);
      }
    }
    forall p | Walkable(d, disk, p) ensures p in found {
      var root :| root in roots && (p == root || (p.StartsWith(root) && IsPhp(p)));
      var j :| 0 <= j < |roots| && roots[j] == root;
      assert Reached(found, d, disk, roots[j]);
    }
    files := Listed(found);
    forall p, root | p in files && root in d.excludedRoots ensures !(root.components <= p.components) {
      WalkableExactly(d, disk, p);
    }
  }

  /** What one root contributes. An excluded one is pruned before it is opened. */
  function FilesUnder(d: Discovery, disk: Disk, root: Path): (r: set<Path>)
    ensures root in d.WalkRoots() ==> forall p :: p in r ==> Walkable(d, disk, p)
    ensures Reached(r, d, disk, root)
  {
    if d.IsExcluded(root) then
      ExcludedBelow(d, root);
      {}
    else if IsFile(disk, root) then {root} + PhpBelow(d, disk, root)
    else PhpBelow(d, disk, root)
  }

  lemma ExcludedBelow(d: Discovery, root: Path)
    requires d.IsExcluded(root)
    ensures forall p: Path :: p.StartsWith(root) ==> d.IsExcluded(p)
  {
    var above :| above in d.excludedRoots && root.StartsWith(above);
    forall p: Path | p.StartsWith(root) ensures d.IsExcluded(p) {
      assert p.StartsWith(above);
    }
  }

  function PhpBelow(d: Discovery, disk: Disk, root: Path): set<Path> {
    set p | p in disk && p.StartsWith(root) && IsPhp(p) && IsFile(disk, p) && !d.IsExcluded(p)
  }

  ghost predicate Reached(found: set<Path>, d: Discovery, disk: Disk, root: Path) {
    forall p :: Walkable(d, disk, p) && (p == root || (p.StartsWith(root) && IsPhp(p))) ==> p in found
  }

  /** A `BTreeSet` drained into a list. */
  method Listed(found: set<Path>) returns (files: seq<Path>)
    ensures StrictlySorted(ComparePath, files) && forall p :: p in files <==> p in found
  {
    files := [];
    var rest := found;
    while rest != {}
      invariant rest <= found && StrictlySorted(ComparePath, files)
      invariant forall p :: p in files <==> p in found - rest
    {
      var p :| p in rest;
      ComparePathTotal();
      InsertStrict(ComparePath, p, files);
      files := Insert(ComparePath, p, files);
      rest := rest - {p};
    }
  }

  // ----- one path, loaded or absorbed

  /** A load gives an unreadable file empty bytes. */
  function LoadView(d: Discovery, disk: Disk, path: Path): Option<Bytes> {
    if Walkable(d, disk, path) then Some(BytesOrEmpty(disk, path)) else None
  }

  function BytesOrEmpty(disk: Disk, path: Path): Bytes {
    var outcome := Read(disk, path);
    if outcome.Ok? then outcome.value else []
  }

  /** An absorbed path that cannot be read is a removal. */
  function AbsorbView(disk: Disk, path: Path): Option<Bytes> {
    var outcome := Read(disk, path);
    if outcome.Ok? then Some(outcome.value) else None
  }

  /** What the two ways to read a path give: a load lists what the walk
      reaches, what cannot be read as empty; an absorption keeps what it reads. */
  lemma ViewsExactly(d: Discovery, disk: Disk, path: Path, bytes: Bytes)
    ensures LoadView(d, disk, path) == Some(bytes)
       <==> Walkable(d, disk, path) && (disk[path] == File(bytes) || (disk[path] == Locked && bytes == []))
    ensures AbsorbView(disk, path) == Some(bytes) <==> path in disk && disk[path] == File(bytes)
  {
  }

  /** The paths an absorption acts on. */
  predicate Followed(d: Discovery, path: Path) { IsPhp(path) && !d.IsExcluded(path) }

  /** What a session holds after absorbing some paths. */
  function AbsorbedContents(m: map<Path, Bytes>, changed: seq<Path>, d: Discovery, disk: Disk): map<Path, Bytes> {
    if changed == [] then m
    else
      AbsorbedOne(AbsorbedContents(m, changed[..|changed| - 1], d, disk), changed[|changed| - 1], d, disk)
  }

  function AbsorbedOne(m: map<Path, Bytes>, path: Path, d: Discovery, disk: Disk): map<Path, Bytes> {
    if Followed(d, path) then Put(m, path, AbsorbView(disk, path)) else m
  }

  lemma AbsorbedNothing(m: map<Path, Bytes>, d: Discovery, disk: Disk)
    ensures AbsorbedContents(m, [], d, disk) == m
  {
  }

  lemma AbsorbedSnoc(m: map<Path, Bytes>, front: seq<Path>, last: Path, d: Discovery, disk: Disk)
    ensures AbsorbedContents(m, front + [last], d, disk) == AbsorbedOne(AbsorbedContents(m, front, d, disk), last, d, disk)
  {
    assert (front + [last])[..|front|] == front;
  }

  /** What a session holds after loading a walk. */
  function LoadedContents(files: seq<Path>, disk: Disk): map<Path, Bytes> {
    map p | p in files :: BytesOrEmpty(disk, p)
  }

  function Scratch(d: Discovery, disk: Disk): map<Path, Bytes> {
    map p | p in disk && Walkable(d, disk, p) :: BytesOrEmpty(disk, p)
  }

  lemma {:induction false} AbsorbedAt(m: map<Path, Bytes>, changed: seq<Path>, d: Discovery, disk: Disk, p: Path)
    ensures Get(AbsorbedContents(m, changed, d, disk), p)
         == if p in changed && Followed(d, p) then AbsorbView(disk, p) else Get(m, p)
  {
    if changed == [] {
    } else {
      var front, last := changed[..|changed| - 1], changed[|changed| - 1];
      assert changed == front + [last];
      AbsorbedAt(m, front, d, disk, p);
    }
  }

  // ----- what a session holds

  /** Only PHP files and explicit roots are ever analyzed, and nothing excluded. */
  predicate Placed(m: map<Path, Bytes>, d: Discovery) {
    forall p :: p in m ==> !d.IsExcluded(p) && (IsPhp(p) || p in d.WalkRoots())
  }

  /** What a session holds, and how it came by it: the paths absorbed since
      discovery last ran, and the disk it ran on. */
  datatype Picture = Picture(contents: map<Path, Bytes>, discovery: Discovery, since: set<Path>, base: Disk)

  /** A session just started, or just rediscovered. */
  function FromScratch(discover: Disk -> Discovery, disk: Disk): Picture {
    Picture(Scratch(discover(disk), disk), discover(disk), {}, disk)
  }

  /** Every entry was listed by a walk or absorbed since. */
  ghost predicate Kept(seen: Picture, discover: Disk -> Discovery) {
    && Placed(seen.contents, seen.discovery)
    && (forall p :: p in seen.contents ==> Declared(seen.discovery, p) || p in seen.since)
    && (forall p :: p in seen.since ==> Followed(seen.discovery, p))
    && seen.discovery == discover(seen.base)
  }

  /** The four files at the root whose change re-runs discovery. */
  predicate IsManifest(root: Path, path: Path) {
    path.components in {root.components + ["composer.json"], root.components + ["composer.lock"],
                        root.components + ["celerrate.toml"], root.components + ["celerrate-baseline.toml"]}
  }

  predicate HasManifest(root: Path, changed: seq<Path>) {
    exists p :: p in changed && IsManifest(root, p)
  }

  /** Which files these are, by name. */
  lemma ManifestsByName(root: Path, path: Path)
    ensures IsManifest(root, path) <==>
              exists name :: name in {"composer.json", "composer.lock", "celerrate.toml", "celerrate-baseline.toml"}
                             && path == Path(root.components + [name])
  {
    if IsManifest(root, path) {
      var name := path.components[|path.components| - 1];
      assert path.components == root.components + [name];
    }
  }

  function FollowedIn(d: Discovery, changed: seq<Path>): set<Path> {
    set p | p in changed && Followed(d, p)
  }

  function AbsorbedPicture(root: Path, discover: Disk -> Discovery, seen: Picture, changed: seq<Path>, disk: Disk): Picture {
    if HasManifest(root, changed) then FromScratch(discover, disk)
    else seen.(contents := AbsorbedContents(seen.contents, changed, seen.discovery, disk),
               since := seen.since + FollowedIn(seen.discovery, changed))
  }

  /** A burst with any of the four files at the root makes the session what a
      start on this disk would; any other leaves discovery alone. */
  lemma ManifestBurst(root: Path, discover: Disk -> Discovery, seen: Picture, changed: seq<Path>, disk: Disk)
    ensures (exists name :: name in {"composer.json", "composer.lock", "celerrate.toml", "celerrate-baseline.toml"}
                            && Path(root.components + [name]) in changed)
            ==> AbsorbedPicture(root, discover, seen, changed, disk) == FromScratch(discover, disk)
    ensures (forall name :: name in {"composer.json", "composer.lock", "celerrate.toml", "celerrate-baseline.toml"}
                            ==> Path(root.components + [name]) !in changed)
            ==> AbsorbedPicture(root, discover, seen, changed, disk).discovery == seen.discovery
                && AbsorbedPicture(root, discover, seen, changed, disk).base == seen.base
  {
    forall p { ManifestsByName(root, p); }
  }

  // ----- keeping up with the disk

  /** The session's entry is what whatever read the path last would make of it
      now: an absorption, if one did since discovery ran, and the load
      otherwise. A manifest is as discovery saw it. */
  predicate Tracks(root: Path, seen: Picture, disk: Disk, p: Path) {
    && Get(seen.contents, p) == (if p in seen.since then AbsorbView(disk, p) else LoadView(seen.discovery, disk, p))
    && (IsManifest(root, p) ==> Get(seen.base, p) == Get(disk, p))
  }

  /** A root that is walked as a file, but that no absorption follows. */
  predicate ForeignRoot(d: Discovery, p: Path) {
    !IsPhp(p) && !d.IsExcluded(p) && p in d.WalkRoots()
  }

  /** The absorbed paths nothing more is to be read of. */
  function ReadIn(d: Discovery, changed: seq<Path>): set<Path> {
    set p | p in changed && !ForeignRoot(d, p)
  }

  /** What is still to be read, of some paths, once a burst was absorbed. */
  function StillStale(root: Path, d: Discovery, changed: seq<Path>, stale: set<Path>): set<Path> {
    if HasManifest(root, changed) then {} else stale - ReadIn(d, changed)
  }

  /** What is left to read: nothing after a manifest; otherwise what was not in
      the burst, and the roots that no absorption follows. */
  lemma StillStaleExactly(root: Path, d: Discovery, changed: seq<Path>, stale: set<Path>, p: Path)
    ensures p in StillStale(root, d, changed, stale) <==>
              && p in stale && (forall q :: q in changed ==> !IsManifest(root, q))
              && (p in changed ==> !IsPhp(p) && !d.IsExcluded(p) && (p in d.projectWalkRoots || p in d.vendorWalkRoots))
  {
  }

  lemma LoadTracks(files: seq<Path>, d: Discovery, disk: Disk)
    requires IsWalk(files, d, disk)
    ensures LoadedContents(files, disk) == Scratch(d, disk)
    ensures Placed(Scratch(d, disk), d)
  {
  }

  lemma ScratchTracks(root: Path, discover: Disk -> Discovery, disk: Disk, p: Path)
    ensures Kept(FromScratch(discover, disk), discover)
    ensures Tracks(root, FromScratch(discover, disk), disk, p)
  {
  }

  lemma AbsorbedPlaced(m: map<Path, Bytes>, changed: seq<Path>, d: Discovery, disk: Disk)
    requires Placed(m, d)
    ensures Placed(AbsorbedContents(m, changed, d, disk), d)
  {
    var after := AbsorbedContents(m, changed, d, disk);
    forall p | p in after ensures !d.IsExcluded(p) && (IsPhp(p) || p in d.WalkRoots()) {
      AbsorbedAt(m, changed, d, disk, p);
      assert Get(after, p).Some?;
    }
  }

  /** After a burst without a manifest, a path is in step exactly when the
      burst read it or it was in step before. */
  lemma {:induction false} AbsorbTracksIff(root: Path, discover: Disk -> Discovery, seen: Picture, changed: seq<Path>, disk: Disk, p: Path)
    requires Kept(seen, discover) && !HasManifest(root, changed)
    ensures Tracks(root, AbsorbedPicture(root, discover, seen, changed, disk), disk, p)
       <==> p in ReadIn(seen.discovery, changed) || Tracks(root, seen, disk, p)
  {
    AbsorbedAt(seen.contents, changed, seen.discovery, disk, p);
  }

  lemma AbsorbKeeps(root: Path, discover: Disk -> Discovery, seen: Picture, changed: seq<Path>, disk: Disk)
    requires Kept(seen, discover)
    ensures Kept(AbsorbedPicture(root, discover, seen, changed, disk), discover)
  {
    if HasManifest(root, changed) {
      ScratchTracks(root, discover, disk, root);
    } else {
      AbsorbedPlaced(seen.contents, changed, seen.discovery, disk);
      var after := AbsorbedPicture(root, discover, seen, changed, disk);
      forall p | p in after.contents ensures Declared(after.discovery, p) || p in after.since {
        AbsorbedAt(seen.contents, changed, seen.discovery, disk, p);
        assert Get(after.contents, p).Some?;
      }
    }
  }

  /** A path a session can hold an entry of, or must see to discover. */
  predicate Concerns(root: Path, seen: Picture, p: Path) {
    IsManifest(root, p) || p in seen.since || (!seen.discovery.IsExcluded(p) && Declared(seen.discovery, p))
  }

  /** Every other path is in step whatever is written there. */
  lemma UnconcernedTracks(root: Path, discover: Disk -> Discovery, seen: Picture, disk: Disk, p: Path)
    requires Kept(seen, discover) && !Concerns(root, seen, p)
    ensures Tracks(root, seen, disk, p)
  {
  }

  /** Nothing that concerns the session is left to read. */
  predicate CaughtUp(root: Path, seen: Picture, stale: set<Path>) {
    forall p :: p in stale ==> !Concerns(root, seen, p)
  }

  /** What concerns a session: the manifests, what it absorbed since discovery
      ran, and what a walk could list. Nothing left to read is being caught up. */
  lemma ConcernsExactly(root: Path, seen: Picture, stale: set<Path>)
    ensures CaughtUp(root, seen, stale) <==> forall p :: p in stale ==> (
              && !IsManifest(root, p) && p !in seen.since
              && (|| (exists above :: above in seen.discovery.excludedRoots && above.components <= p.components)
                  || !Declared(seen.discovery, p)))
    ensures CaughtUp(root, seen, {})
  {
    forall p ensures seen.discovery.IsExcluded(p)
                <==> exists above :: above in seen.discovery.excludedRoots && above.components <= p.components
    {
      if above :| above in seen.discovery.excludedRoots && above.components <= p.components { assert p.StartsWith(above); }
    }
  }

  /** Writing one path leaves the session in step everywhere else. */
  lemma WriteTracks(root: Path, seen: Picture, disk: Disk, disk': Disk, p: Path)
    requires Get(disk, p) == Get(disk', p)
    ensures Tracks(root, seen, disk, p) <==> Tracks(root, seen, disk', p)
  {
    assert p in disk <==> p in disk';
  }

  /** One absorbed path agrees with a fresh load exactly when the walk lists it
      just if it can be read. The two ways to differ: an unreadable file, which
      a load keeps with empty bytes, and a readable one under no declared root. */
  lemma {:induction false} AbsorbAgreesIff(m: map<Path, Bytes>, changed: seq<Path>, d: Discovery, disk: Disk, p: Path)
    requires p in changed && Followed(d, p)
    ensures Get(AbsorbedContents(m, changed, d, disk), p) == LoadView(d, disk, p)
       <==> (Walkable(d, disk, p) <==> Read(disk, p).Ok?)
  {
    AbsorbedAt(m, changed, d, disk, p);
  }

  /** A root that is a file without a PHP extension is loaded but never
      followed: absorbing its path changes nothing. */
  lemma {:induction false} ForeignRootIsNeverFollowed(m: map<Path, Bytes>, d: Discovery, disk: Disk, root: Path)
    requires ForeignRoot(d, root)
    ensures AbsorbedContents(m, [root], d, disk) == m
    ensures IsFile(disk, root) ==> Walkable(d, disk, root)
  {
    assert AbsorbedContents(m, [root][..0], d, disk) == m;
  }

  lemma SameMap<K(!new), V>(m: map<K, V>, n: map<K, V>)
    requires forall k :: Get(m, k) == Get(n, k)
    ensures m == n
  {
    forall k ensures k in m <==> k in n { assert Get(m, k) == Get(n, k); }
    forall k | k in m ensures m[k] == n[k] { assert Get(m, k) == Get(n, k); }
  }

  // ----- whole runs

  datatype Move = Write(path: Path, entry: Option<Entry>) | Absorb(changed: seq<Path>)

  /** A session beside a disk, with the paths written since they were last read. */
  datatype Scene = Scene(seen: Picture, disk: Disk, stale: set<Path>)

  function Step(scene: Scene, root: Path, discover: Disk -> Discovery, move: Move): Scene {
    match move
    case Write(path, entry) => scene.(disk := Put(scene.disk, path, entry), stale := scene.stale + {path})
    case Absorb(changed) =>
      Scene(AbsorbedPicture(root, discover, scene.seen, changed, scene.disk), scene.disk,
            StillStale(root, scene.seen.discovery, changed, scene.stale))
  }

  function Run(root: Path, discover: Disk -> Discovery, disk: Disk, moves: seq<Move>): Scene {
    if moves == [] then Scene(FromScratch(discover, disk), disk, {})
    else Step(Run(root, discover, disk, moves[..|moves| - 1]), root, discover, moves[|moves| - 1])
  }

  /** Off the stale paths the session is in step. */
  ghost predicate InStep(root: Path, discover: Disk -> Discovery, scene: Scene) {
    Kept(scene.seen, discover) && forall p :: p in scene.stale || Tracks(root, scene.seen, scene.disk, p)
  }

  lemma StartedInStep(root: Path, discover: Disk -> Discovery, disk: Disk, stale: set<Path>)
    ensures InStep(root, discover, Scene(FromScratch(discover, disk), disk, stale))
  {
    forall p ensures Tracks(root, FromScratch(discover, disk), disk, p) { ScratchTracks(root, discover, disk, p); }
    ScratchTracks(root, discover, disk, root);
  }

  lemma StepKeepsInStep(scene: Scene, root: Path, discover: Disk -> Discovery, move: Move)
    requires InStep(root, discover, scene)
    ensures InStep(root, discover, Step(scene, root, discover, move))
  {
    hide Tracks, Kept;
    match move
    case Write(path, entry) =>
      forall p | p != path && p !in scene.stale ensures Tracks(root, scene.seen, Put(scene.disk, path, entry), p) {
        WriteTracks(root, scene.seen, scene.disk, Put(scene.disk, path, entry), p);
      }
    case Absorb(changed) =>
      if HasManifest(root, changed) {
        StartedInStep(root, discover, scene.disk, {});
      } else {
        AbsorbKeeps(root, discover, scene.seen, changed, scene.disk);
        forall p ensures Tracks(root, AbsorbedPicture(root, discover, scene.seen, changed, scene.disk), scene.disk, p)
                    <==> p in ReadIn(scene.seen.discovery, changed) || Tracks(root, scene.seen, scene.disk, p)
        {
          AbsorbTracksIff(root, discover, scene.seen, changed, scene.disk, p);
        }
      }
  }

  /** After any run of writes and absorptions the session is in step with the
      disk at every path read since it was last written. */
  lemma {:induction false} EveryRunInStep(root: Path, discover: Disk -> Discovery, disk: Disk, moves: seq<Move>)
    ensures InStep(root, discover, Run(root, discover, disk, moves))
  {
    if moves == [] {
      StartedInStep(root, discover, disk, {});
    } else {
      EveryRunInStep(root, discover, disk, moves[..|moves| - 1]);
      StepKeepsInStep(Run(root, discover, disk, moves[..|moves| - 1]), root, discover, moves[|moves| - 1]);
    }
  }

  predicate Rediscovers(root: Path, move: Move) { move.Absorb? && HasManifest(root, move.changed) }

  /** The moves after the last burst with a manifest. */
  function SinceDiscovery(root: Path, moves: seq<Move>): seq<Move> {
    if moves == [] || Rediscovers(root, moves[|moves| - 1]) then []
    else SinceDiscovery(root, moves[..|moves| - 1]) + [moves[|moves| - 1]]
  }

  ghost predicate AbsorbedAmong(moves: seq<Move>, p: Path) {
    exists move :: move in moves && move.Absorb? && p in move.changed
  }

  lemma AbsorbedSoFar(front: seq<Move>, last: Move, p: Path)
    ensures AbsorbedAmong(front + [last], p) <==> AbsorbedAmong(front, p) || (last.Absorb? && p in last.changed)
  {
    assert last in front + [last];
    if move :| move in front && move.Absorb? && p in move.changed { assert move in front + [last]; }
  }

  /** What a run remembers as absorbed is the followed paths of the bursts
      after the last manifest. */
  lemma {:induction false} SinceIsTheLastBursts(root: Path, discover: Disk -> Discovery, disk: Disk, moves: seq<Move>, p: Path)
    ensures var seen := Run(root, discover, disk, moves).seen;
            p in seen.since <==> (Followed(seen.discovery, p) && AbsorbedAmong(SinceDiscovery(root, moves), p))
  {
    if moves == [] {
    } else {
      var front, last := moves[..|moves| - 1], moves[|moves| - 1];
      SinceIsTheLastBursts(root, discover, disk, front, p);
      AbsorbedSoFar(SinceDiscovery(root, front), last, p);
      var before := Run(root, discover, disk, front);
      assert Run(root, discover, disk, moves) == Step(before, root, discover, last);
      hide Followed, Run, FromScratch, AbsorbedContents, StillStale;
      if Rediscovers(root, last) {
        SinceNothing(discover, before.disk);
      }
    }
  }

  lemma SinceNothing(discover: Disk -> Discovery, disk: Disk)
    ensures FromScratch(discover, disk).since == {}
  {
  }

  /** A followed path's entry in a fresh load is the one an absorption leaves. */
  predicate Settles(d: Discovery, disk: Disk, p: Path) {
    Walkable(d, disk, p) <==> Read(disk, p).Ok?
  }

  /** A path in step has the entry of a fresh load exactly when no absorption
      read it last, or the walk lists it just if it can be read. */
  lemma TracksAgreesIff(root: Path, seen: Picture, disk: Disk, p: Path)
    requires Tracks(root, seen, disk, p)
    ensures Get(seen.contents, p) == Get(Scratch(seen.discovery, disk), p)
       <==> (p in seen.since ==> Settles(seen.discovery, disk, p))
  {
  }

  /** A session with nothing left to read holds what a load under its
      discovery would, exactly when every path absorbed since discovery ran is
      listed by the walk just if it can be read. */
  lemma InStepIsScratchIff(root: Path, discover: Disk -> Discovery, scene: Scene)
    requires InStep(root, discover, scene) && CaughtUp(root, scene.seen, scene.stale)
    ensures scene.seen.contents == Scratch(scene.seen.discovery, scene.disk)
       <==> forall p :: p in scene.seen.since ==> Settles(scene.seen.discovery, scene.disk, p)
  {
    var seen, scratch := scene.seen, Scratch(scene.seen.discovery, scene.disk);
    forall p ensures Get(seen.contents, p) == Get(scratch, p) <==> (p in seen.since ==> Settles(seen.discovery, scene.disk, p)) {
      if p in scene.stale { UnconcernedTracks(root, discover, seen, scene.disk, p); }
      TracksAgreesIff(root, seen, scene.disk, p);
    }
    if forall p :: p in seen.since ==> Settles(seen.discovery, scene.disk, p) {
      SameMap(seen.contents, scratch);
    }
  }

  /** The list of installed packages. */
  function Index(vendorRoot: Path): Path { Path(vendorRoot.components + ["composer", "installed.json"]) }

  /** How discovery reads a disk: the dependencies' roots come from the index
      under the vendor root, and everything else from the four manifests. */
  ghost predicate DiscoversFrom(root: Path, discover: Disk -> Discovery, packages: (Path, Option<Entry>) -> seq<Path>) {
    && (forall disk :: var d := discover(disk); d.vendorWalkRoots == packages(d.vendorRoot, Get(disk, Index(d.vendorRoot))))
    && (forall disk, disk' :: (forall p :: IsManifest(root, p) ==> Get(disk, p) == Get(disk', p))
          ==> discover(disk).(vendorWalkRoots := []) == discover(disk').(vendorWalkRoots := []))
  }

  /** The index still lists packages with the roots it had when discovery read it. */
  predicate SamePackages(packages: (Path, Option<Entry>) -> seq<Path>, seen: Picture, disk: Disk) {
    var vendorRoot := seen.discovery.vendorRoot;
    packages(vendorRoot, Get(seen.base, Index(vendorRoot))) == packages(vendorRoot, Get(disk, Index(vendorRoot)))
  }

  /** A session with no manifest left to read has the discovery a fresh start
      would have exactly when the index gives the same roots as before. */
  lemma InStepDiscoveryIff(root: Path, discover: Disk -> Discovery, packages: (Path, Option<Entry>) -> seq<Path>, scene: Scene)
    requires InStep(root, discover, scene) && DiscoversFrom(root, discover, packages)
    requires forall p :: p in scene.stale ==> !IsManifest(root, p)
    ensures scene.seen.discovery == discover(scene.disk) <==> SamePackages(packages, scene.seen, scene.disk)
  {
    forall p | IsManifest(root, p) ensures Get(scene.seen.base, p) == Get(scene.disk, p) {
      assert Tracks(root, scene.seen, scene.disk, p);
    }
    var before, now := scene.seen.discovery, discover(scene.disk);
    assert before == discover(scene.seen.base);
    assert before.(vendorWalkRoots := []) == now.(vendorWalkRoots := []);
    assert before == now <==> before.vendorWalkRoots == now.vendorWalkRoots;
  }

  /** A path no move since the last discovery wrote is as discovery saw it. */
  lemma {:induction false} UnwrittenSinceDiscovery(root: Path, discover: Disk -> Discovery, disk: Disk, moves: seq<Move>, p: Path)
    requires forall move :: move in SinceDiscovery(root, moves) && move.Write? ==> move.path != p
    ensures var scene := Run(root, discover, disk, moves); Get(scene.seen.base, p) == Get(scene.disk, p)
  {
    if moves == [] {
    } else {
      var front, last := moves[..|moves| - 1], moves[|moves| - 1];
      if !Rediscovers(root, last) {
        var before, after := SinceDiscovery(root, front), SinceDiscovery(root, moves);
        assert last in after;
        forall move | move in before ensures move in after {}
        UnwrittenSinceDiscovery(root, discover, disk, front, p);
      }
    }
  }

  /** Once nothing written is left to read, the session holds what a load under
      its discovery would, exactly when no absorbed path is one a load and an
      absorption make different entries of. */
  lemma IncrementalIsScratch(root: Path, discover: Disk -> Discovery, disk: Disk, moves: seq<Move>)
    requires CaughtUp(root, Run(root, discover, disk, moves).seen, Run(root, discover, disk, moves).stale)
    ensures var scene := Run(root, discover, disk, moves);
            scene.seen.contents == Scratch(scene.seen.discovery, scene.disk)
            <==> forall p :: p in scene.seen.since ==> Settles(scene.seen.discovery, scene.disk, p)
  {
    EveryRunInStep(root, discover, disk, moves);
    InStepIsScratchIff(root, discover, Run(root, discover, disk, moves));
  }

  /** And it is what a session started on that disk would be: in its discovery
      exactly when the index gives the same roots as before, which it does
      unless it was written since discovery ran, and then in its contents
      exactly when every absorbed path settles. */
  lemma IncrementalIsFreshStart(root: Path, discover: Disk -> Discovery, packages: (Path, Option<Entry>) -> seq<Path>,
                                disk: Disk, moves: seq<Move>)
    requires DiscoversFrom(root, discover, packages)
    requires CaughtUp(root, Run(root, discover, disk, moves).seen, Run(root, discover, disk, moves).stale)
    ensures var scene := Run(root, discover, disk, moves);
            var started := FromScratch(discover, scene.disk);
            && (scene.seen.discovery == started.discovery <==> SamePackages(packages, scene.seen, scene.disk))
            && (SamePackages(packages, scene.seen, scene.disk) ==>
                  (scene.seen.contents == started.contents
                   <==> forall p :: p in scene.seen.since ==> Settles(started.discovery, scene.disk, p)))
            && ((forall move :: move in SinceDiscovery(root, moves) && move.Write?
                   ==> move.path != Index(scene.seen.discovery.vendorRoot))
                ==> SamePackages(packages, scene.seen, scene.disk))
  {
    var scene := Run(root, discover, disk, moves);
    EveryRunInStep(root, discover, disk, moves);
    InStepDiscoveryIff(root, discover, packages, scene);
    InStepIsScratchIff(root, discover, scene);
    var index := Index(scene.seen.discovery.vendorRoot);
    if forall move :: move in SinceDiscovery(root, moves) && move.Write? ==> move.path != index {
      UnwrittenSinceDiscovery(root, discover, disk, moves, index);
    }
  }

  // ----- the inputs that fail

  /** The run of one write and its absorption, with no manifest among them. */
  lemma OneEdit(root: Path, discover: Disk -> Discovery, disk: Disk, p: Path, entry: Option<Entry>)
    requires !HasManifest(root, [p])
    ensures var scene := Run(root, discover, disk, [Write(p, entry), Absorb([p])]);
            && scene.disk == Put(disk, p, entry)
            && scene.seen == AbsorbedPicture(root, discover, FromScratch(discover, disk), [p], scene.disk)
            && scene.stale == {p} - ReadIn(discover(disk), [p])
  {
    var moves := [Write(p, entry), Absorb([p])];
    assert moves[..1] == [moves[0]] && moves[..1][..0] == [];
    assert Run(root, discover, disk, moves[..1][..0]) == Scene(FromScratch(discover, disk), disk, {});
    assert Run(root, discover, disk, moves[..1]) == Step(Scene(FromScratch(discover, disk), disk, {}), root, discover, moves[0]);
    assert Run(root, discover, disk, moves) == Step(Run(root, discover, disk, moves[..1]), root, discover, moves[1]);
  }

  /** The fallback discovery: the project root is the one walk root. */
  function RootAlone(disk: Disk): Discovery {
    Discovery([Path([])], [], Path(["vendor"]), [], (0, 0))
  }

  /** One file, saved unreadable and absorbed, is gone from the session and
      still listed by a fresh load. */
  lemma LockedFileDiffers()
    ensures var file := Path(["a.php"]);
            var scene := Run(Path([]), RootAlone, map[file := File([])], [Write(file, Some(Locked)), Absorb([file])]);
            scene.stale == {} && file !in scene.seen.contents && file in Scratch(scene.seen.discovery, scene.disk)
  {
    var file := Path(["a.php"]);
    var before: Disk := map[file := File([])];
    var d := RootAlone(before);
    assert Declared(d, file) by {
      assert file.StartsWith(Path([])) && Path([]) in d.WalkRoots();
    }
    assert !HasManifest(Path([]), [file]) by { assert file.components[0] == "a.php"; }
    OneEdit(Path([]), RootAlone, before, file, Some(Locked));
    AbsorbedAt(Scratch(d, before), [file], d, Put(before, file, Some(Locked)), file);
  }

  const INSTALLED := Path(["vendor", "composer", "installed.json"])

  /** The one package an index lists. */
  function OnePackage(vendorRoot: Path, index: Option<Entry>): seq<Path> {
    if index.Some? then [Path(vendorRoot.components + ["a"])] else []
  }

  /** A discovery that walks the dependencies once they are installed. */
  function WithInstalled(disk: Disk): Discovery {
    Discovery([Path(["src"])], OnePackage(Path(["vendor"]), Get(disk, INSTALLED)), Path(["vendor"]), [], (0, 0))
  }

  lemma WithInstalledReads()
    ensures DiscoversFrom(Path([]), WithInstalled, OnePackage)
  {
    assert Index(Path(["vendor"])) == INSTALLED by {
      assert ["vendor"] + ["composer", "installed.json"] == ["vendor", "composer", "installed.json"];
    }
  }

  /** The index written after the last manifest was absorbed moves what a fresh
      start would discover, and nothing re-runs discovery: the session lacks a
      dependency's file that a fresh start reads. */
  lemma InstalledIsMissed()
    ensures var file := Path(["vendor", "a", "A.php"]);
            var scene := Run(Path([]), WithInstalled, map[file := File([])], [Write(INSTALLED, Some(File([]))), Absorb([INSTALLED])]);
            && DiscoversFrom(Path([]), WithInstalled, OnePackage) && !SamePackages(OnePackage, scene.seen, scene.disk)
            && scene.stale == {}
            && scene.seen.discovery != WithInstalled(scene.disk)
            && scene.seen.contents == map[] && file in FromScratch(WithInstalled, scene.disk).contents
  {
    var file := Path(["vendor", "a", "A.php"]);
    var before: Disk := map[file := File([])];
    var after := Put(before, INSTALLED, Some(File([])));
    WithInstalledReads();
    PackageAppears(before, after);
    assert !IsManifest(Path([]), INSTALLED) by { assert INSTALLED.components[0] == "vendor"; }
    OneEdit(Path([]), WithInstalled, before, INSTALLED, Some(File([])));
    NotUnderSrc(file, before);
    DependencyIsWalked(file, after);
    assert AbsorbedContents(map[], [INSTALLED][..0], WithInstalled(before), after) == map[];
  }

  lemma PackageAppears(before: Disk, after: Disk)
    requires INSTALLED !in before && INSTALLED in after
    ensures WithInstalled(before) != WithInstalled(after)
    ensures forall since, m :: !SamePackages(OnePackage, Picture(m, WithInstalled(before), since, before), after)
  {
    assert ["vendor"] + ["composer", "installed.json"] == ["vendor", "composer", "installed.json"];
    assert Index(Path(["vendor"])) == INSTALLED;
  }

  lemma DependencyIsWalked(file: Path, disk: Disk)
    requires file == Path(["vendor", "a", "A.php"]) && INSTALLED in disk && file in disk && disk[file].File?
    ensures Walkable(WithInstalled(disk), disk, file)
  {
    assert ["vendor"] + ["a"] == ["vendor", "a"];
    assert file.StartsWith(Path(["vendor", "a"])) && Path(["vendor", "a"]) in WithInstalled(disk).WalkRoots();
  }

  lemma NotUnderSrc(file: Path, disk: Disk)
    requires file == Path(["vendor", "a", "A.php"]) && disk == map[file := File([])]
    ensures Scratch(WithInstalled(disk), disk) == map[]
  {
    assert file.components[0] != "src";
    assert !Declared(WithInstalled(disk), file);
  }
}
