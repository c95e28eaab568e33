/** The file-set state of a session: the file system mirror, the analysis
    inputs, and the analyzed set, through loads, absorbed bursts and
    rediscoveries. */
module Session {
  import opened Wrappers
  import opened Vfs
  import opened Project
  import opened InputMutations

  datatype InternalError =
    | StubBlobUndecodable(reason: string)
    | FileUnreadable(path: Path, reason: string)
    | DirectoryUnreadable(path: Path, reason: string)
    | PathUnwatchable(path: Path, reason: string)
    | FilePanicked(file: FileId)
    | AnalysisPanicked
    | FixUnappliable(file: FileId, reason: string)
    | FixWriteFailed(path: Path, reason: string)
    | DiagnosticRenderFailed(identifier: string, location: string)

  /** One analysis input. Its handle is its place in the database. */
  datatype SourceFile = SourceFile(file: FileId, bytes: Bytes)
  type Handle = nat

  /** Everything an analysis reads, in the order it reads it. */
  datatype Inputs = Inputs(files: seq<SourceFile>, reported: set<FileId>, phpVersionRange: (nat, nat))

  // ----- errors a load decides

  predicate IsUnreadable(error: InternalError) { error.FileUnreadable? || error.DirectoryUnreadable? }

  /** A verdict about one pass's picture, not about the loaded session. */
  predicate IsPassVerdict(error: InternalError) {
    error.FilePanicked? || error.AnalysisPanicked? || error.DiagnosticRenderFailed?
  }

  function PanicsOf(panicked: seq<FileId>): seq<InternalError> {
    seq(|panicked|, i requires 0 <= i < |panicked| => FilePanicked(panicked[i]))
  }

  function Without(errors: seq<InternalError>, p: InternalError -> bool): seq<InternalError> {
    if errors == [] then []
    else
      var front, last := errors[..|errors| - 1], errors[|errors| - 1];
      Without(front, p) + if p(last) then [] else [last]
  }

  /** One entry per unreadable file, in walk order. */
  function Unreadable(files: seq<Path>, disk: Disk): seq<InternalError> {
    if files == [] then []
    else
      var front, last := files[..|files| - 1], files[|files| - 1];
      Unreadable(front, disk) + UnreadableOne(last, disk)
  }

  lemma UnreadableSnoc(files: seq<Path>, last: Path, disk: Disk)
    ensures Unreadable(files + [last], disk) == Unreadable(files, disk) + UnreadableOne(last, disk)
  {
    assert (files + [last])[..|files|] == files;
  }

  function UnreadableOne(path: Path, disk: Disk): seq<InternalError> {
    var outcome := Read(disk, path);
    if outcome.Err? then [FileUnreadable(path, outcome.error)] else []
  }

  /** The errors no load decides are the same ones. */
  ghost predicate SameOtherErrors(errors: seq<InternalError>, errors': seq<InternalError>) {
    forall e :: !IsUnreadable(e) ==> (e in errors <==> e in errors')
  }

  lemma {:induction false} WithoutElements(errors: seq<InternalError>, p: InternalError -> bool)
    ensures forall e :: e in Without(errors, p) <==> e in errors && !p(e)
  {
    if errors == [] {
    } else {
      var front, last := errors[..|errors| - 1], errors[|errors| - 1];
      WithoutElements(front, p);
      assert errors == front + [last];
    }
  }

  lemma {:induction false} UnreadableElements(files: seq<Path>, disk: Disk)
    ensures forall e :: e in Unreadable(files, disk) ==> IsUnreadable(e)
  {
    if files == [] {
    } else {
      UnreadableElements(files[..|files| - 1], disk);
    }
  }

  /** A load replaces what is said of unreadable files and directories, and
      says nothing else: one error for each file that cannot be read. */
  lemma {:induction false} LoadErrors(errors: seq<InternalError>, walk: seq<Path>, disk: Disk, e: InternalError)
    ensures e in Without(errors, IsUnreadable) + [] + Unreadable(walk, disk) <==>
              || (e in errors && !e.FileUnreadable? && !e.DirectoryUnreadable?)
              || (e.FileUnreadable? && e.path in walk && Read(disk, e.path) == Err(e.reason))
  {
    WithoutElements(errors, IsUnreadable);
    UnreadableExactly(walk, disk, e);
  }

  lemma {:induction false} UnreadableExactly(files: seq<Path>, disk: Disk, e: InternalError)
    ensures e in Unreadable(files, disk) <==> e.FileUnreadable? && e.path in files && Read(disk, e.path) == Err(e.reason)
  {
    if files == [] {
    } else {
      var front, last := files[..|files| - 1], files[|files| - 1];
      assert files == front + [last];
      UnreadableExactly(front, disk, e);
    }
  }

  /** Said of unreadable files: each one that is walked, and no other; nothing
      else is added or dropped. */
  ghost predicate ErrorsAfterLoad(before: seq<InternalError>, after: seq<InternalError>, d: Discovery, disk: Disk) {
    forall e :: e in after <==>
      || (e in before && !e.FileUnreadable? && !e.DirectoryUnreadable?)
      || (e.FileUnreadable? && Walkable(d, disk, e.path) && Read(disk, e.path) == Err(e.reason))
  }

  lemma WalkErrors(errors: seq<InternalError>, walk: seq<Path>, d: Discovery, disk: Disk)
    requires IsWalk(walk, d, disk)
    ensures ErrorsAfterLoad(errors, Without(errors, IsUnreadable) + [] + Unreadable(walk, disk), d, disk)
  {
    hide Walkable, Read;
    forall e { LoadErrors(errors, walk, disk, e); }
  }

  lemma OtherErrors(errors: seq<InternalError>, walk: seq<Path>, disk: Disk)
    ensures SameOtherErrors(errors, Without(errors, IsUnreadable) + [] + Unreadable(walk, disk))
  {
    WithoutElements(errors, IsUnreadable);
    UnreadableElements(walk, disk);
  }

  // ----- the analyzed set

  /** The set lists every source once, by ascending file. */
  ghost predicate Lists(files: seq<Handle>, sources: map<FileId, Handle>, database: seq<SourceFile>) {
    && (forall h :: h in files ==> h < |database| && Get(sources, database[h].file) == Some(h))
    && (forall f :: f in sources ==> sources[f] in files)
    && (forall i, j :: 0 <= i < j < |files| && files[i] < |database| && files[j] < |database|
          ==> database[files[i]].file < database[files[j]].file)
  }

  ghost predicate Backed(sources: map<FileId, Handle>, database: seq<SourceFile>) {
    forall f :: f in sources ==> sources[f] < |database| && database[sources[f]].file == f
  }

  /** The analyzed bytes by file. */
  ghost function BytesOf(sources: map<FileId, Handle>, database: seq<SourceFile>): map<FileId, Bytes>
    requires Backed(sources, database)
  {
    map f | f in sources :: database[sources[f]].bytes
  }

  function SourcesListed(files: seq<Handle>, database: seq<SourceFile>): seq<SourceFile>
    requires forall i :: 0 <= i < |files| ==> files[i] < |database|
  {
    seq(|files|, i requires 0 <= i < |files| => database[files[i]])
  }

  ghost predicate Interning(paths: seq<Path>, identifiers: map<Path, FileId>) {
    && (forall i :: 0 <= i < |paths| ==> paths[i] in identifiers && identifiers[paths[i]] == i)
    && (forall p :: p in identifiers ==> identifiers[p] < |paths| && paths[identifiers[p]] == p)
  }

  lemma ListedExactly(files: seq<Handle>, sources: map<FileId, Handle>, database: seq<SourceFile>,
                      paths: seq<Path>, identifiers: map<Path, FileId>)
    requires Lists(files, sources, database) && Backed(sources, database) && Interning(paths, identifiers)
    requires forall f :: f in sources ==> f < |paths|
    requires forall i :: 0 <= i < |files| ==> files[i] < |database|
    ensures var listed, held := SourcesListed(files, database), Analyzed(identifiers, sources, database);
            && (forall s :: s in listed ==> s.file in sources && s.file < |paths| && Get(held, paths[s.file]) == Some(s.bytes))
            && (forall f :: f in sources ==> exists s :: s in listed && s.file == f)
            && (forall p :: p in held ==> exists s :: s in listed && s.file < |paths| && paths[s.file] == p)
            && (forall i, j :: 0 <= i < j < |listed| ==> listed[i].file < listed[j].file)
  {
    var listed, held := SourcesListed(files, database), Analyzed(identifiers, sources, database);
    forall s | s in listed ensures s.file in sources && s.file < |paths| && Get(held, paths[s.file]) == Some(s.bytes) {
      var i :| 0 <= i < |files| && s == database[files[i]];
      assert files[i] in files;
    }
    forall f | f in sources ensures exists s :: s in listed && s.file == f {
      var i :| 0 <= i < |files| && files[i] == sources[f];
      assert listed[i] == database[sources[f]] && listed[i] in listed;
    }
    forall i, j | 0 <= i < j < |listed| ensures listed[i].file < listed[j].file {
      assert listed[i] == database[files[i]] && listed[j] == database[files[j]];
    }
    forall p | p in held ensures exists s :: s in listed && s.file < |paths| && paths[s.file] == p {
      assert identifiers[p] in sources;
    }
  }

  // ----- steps on the inputs

  /** Rewriting one input's bytes. Only its own file sees it. */
  lemma Overwrite(sources: map<FileId, Handle>, database: seq<SourceFile>, h: Handle, bytes: Bytes)
    requires Backed(sources, database) && h < |database|
    ensures var f := database[h].file;
            var database' := database[h := SourceFile(f, bytes)];
            Backed(sources, database')
            && BytesOf(sources, database') == (if f in sources && sources[f] == h then BytesOf(sources, database)[f := bytes]
                                               else BytesOf(sources, database))
  {
  }

  lemma OverwriteLists(files: seq<Handle>, sources: map<FileId, Handle>, database: seq<SourceFile>, h: Handle, bytes: Bytes)
    requires Lists(files, sources, database) && h < |database|
    ensures Lists(files, sources, database[h := SourceFile(database[h].file, bytes)])
  {
    hide BytesOf;
  }

  /** A new input, for a file that may have had another. */
  lemma Arrive(sources: map<FileId, Handle>, database: seq<SourceFile>, f: FileId, bytes: Bytes)
    requires Backed(sources, database)
    ensures var database' := database + [SourceFile(f, bytes)];
            && Backed(sources, database') && BytesOf(sources, database') == BytesOf(sources, database)
            && Backed(sources[f := |database|], database')
            && BytesOf(sources[f := |database|], database') == BytesOf(sources, database)[f := bytes]
  {
  }

  lemma Adopt(wanted: map<FileId, Handle>, database: seq<SourceFile>, f: FileId, h: Handle)
    requires Backed(wanted, database) && h < |database| && database[h].file == f
    ensures Backed(wanted[f := h], database)
    ensures BytesOf(wanted[f := h], database) == BytesOf(wanted, database)[f := database[h].bytes]
  {
  }

  // ----- steps of a load

  ghost predicate Below(ids: set<FileId>, n: nat) { forall f :: f in ids ==> f < n }

  ghost predicate Covers(done: seq<Path>, identifiers: map<Path, FileId>, wanted: set<FileId>) {
    forall p :: p in done <==> p in identifiers && identifiers[p] in wanted
  }

  ghost predicate Holds(bytes: map<FileId, Bytes>, paths: seq<Path>, disk: Disk) {
    forall f :: f in bytes ==> f < |paths| && bytes[f] == BytesOrEmpty(disk, paths[f])
  }

  lemma MergePut(m: map<FileId, Bytes>, n: map<FileId, Bytes>, f: FileId, bytes: Bytes)
    ensures (m + n)[f := bytes] == m + n[f := bytes]
  {
  }

  lemma CoversOne(done: seq<Path>, mirror: Mirror, wanted: set<FileId>, path: Path)
    requires Covers(done, mirror.identifiers, wanted) && Below(wanted, |mirror.paths|) && Names(mirror.paths, mirror.identifiers)
    ensures Covers(done + [path], mirror.identifiers[path := mirror.FileOf(path)], wanted + {mirror.FileOf(path)})
  {
  }

  lemma HoldsOne(bytes: map<FileId, Bytes>, paths: seq<Path>, paths': seq<Path>, disk: Disk,
                 path: Path, file: FileId, contents: Bytes)
    requires Holds(bytes, paths, disk) && paths <= paths' && file < |paths'| && paths'[file] == path
    requires contents == BytesOrEmpty(disk, path)
    ensures Holds(bytes[file := contents], paths', disk)
  {
  }

  ghost predicate Agree(wanted: map<FileId, Handle>, sources: map<FileId, Handle>) {
    forall f :: f in wanted && f in sources ==> wanted[f] == sources[f]
  }

  ghost predicate SameFiles(database: seq<SourceFile>, database': seq<SourceFile>) {
    |database| <= |database'| && forall h :: 0 <= h < |database| ==> database'[h].file == database[h].file
  }

  /** The interning and the disk state of the file system mirror. */
  datatype Mirror = Mirror(paths: seq<Path>, identifiers: map<Path, FileId>, disk: map<FileId, Bytes>) {
    function FileOf(path: Path): FileId { if path in identifiers then identifiers[path] else |paths| }

    function Set(path: Path, contents: Option<Bytes>): Mirror {
      Mirror(if path in identifiers then paths else paths + [path], identifiers[path := FileOf(path)],
             Put(disk, FileOf(path), contents))
    }
  }

  ghost predicate Names(paths: seq<Path>, identifiers: map<Path, FileId>) {
    forall p :: p in identifiers ==> identifiers[p] < |paths| && paths[identifiers[p]] == p
  }

  /** Mid-load: the paths done so far have their bytes in the mirror and a
      source holding them, the other files are as they were. */
  ghost predicate Loading(mirror: Mirror, sources: map<FileId, Handle>, database: seq<SourceFile>,
                          wanted: map<FileId, Handle>, done: seq<Path>, disk: Disk,
                          database0: seq<SourceFile>, mirror0: map<FileId, Bytes>)
  {
    && Backed(sources, database) && Backed(wanted, database)
    && Below(sources.Keys, |mirror.paths|)
    && Covers(done, mirror.identifiers, wanted.Keys)
    && Holds(BytesOf(wanted, database), mirror.paths, disk)
    && Agree(wanted, sources)
    && mirror.disk == mirror0 + BytesOf(wanted, database)
    && SameFiles(database0, database)
  }

  lemma LoadingNothing(mirror: Mirror, sources: map<FileId, Handle>, database: seq<SourceFile>, disk: Disk)
    requires Backed(sources, database) && Below(sources.Keys, |mirror.paths|)
    ensures Loading(mirror, sources, database, map[], [], disk, database, mirror.disk)
  {
  }

  lemma LoadingStep(mirror: Mirror, sources: map<FileId, Handle>, database: seq<SourceFile>, database': seq<SourceFile>,
                    wanted: map<FileId, Handle>, wanted': map<FileId, Handle>, done: seq<Path>, disk: Disk,
                    database0: seq<SourceFile>, mirror0: map<FileId, Bytes>, path: Path)
    requires Names(mirror.paths, mirror.identifiers) && Loading(mirror, sources, database, wanted, done, disk, database0, mirror0)
    requires InputSet(sources, database, database', wanted, wanted', mirror.FileOf(path), BytesOrEmpty(disk, path))
    ensures var mirror' := mirror.Set(path, Some(BytesOrEmpty(disk, path)));
            Loading(mirror', sources, database', wanted', done + [path], disk, database0, mirror0)
  {
    hide Covers, Holds, Agree, Backed, BytesOf, BytesOrEmpty;
    var bytes := BytesOf(wanted, database);
    var contents := BytesOrEmpty(disk, path);
    var mirror' := mirror.Set(path, Some(contents));
    LoadedKeys(wanted, database, wanted', database', mirror.paths, disk, mirror.FileOf(path), contents);
    CoversOne(done, mirror, wanted.Keys, path);
    HoldsOne(bytes, mirror.paths, mirror'.paths, disk, path, mirror.FileOf(path), contents);
    MergePut(mirror0, bytes, mirror.FileOf(path), contents);
  }

  /** One input written: the file's source holds the contents, no other file's bytes moved. */
  ghost predicate InputSet(sources: map<FileId, Handle>, database: seq<SourceFile>, database': seq<SourceFile>,
                           wanted: map<FileId, Handle>, wanted': map<FileId, Handle>, file: FileId, contents: Bytes)
    requires Backed(wanted, database)
  {
    && Backed(sources, database') && Backed(wanted', database') && Agree(wanted', sources)
    && BytesOf(wanted', database') == BytesOf(wanted, database)[file := contents]
    && SameFiles(database, database')
  }

  lemma LoadedKeys(wanted: map<FileId, Handle>, database: seq<SourceFile>, wanted': map<FileId, Handle>, database': seq<SourceFile>,
                   paths: seq<Path>, disk: Disk, file: FileId, contents: Bytes)
    requires Backed(wanted, database) && Backed(wanted', database')
    requires Holds(BytesOf(wanted, database), paths, disk)
    requires BytesOf(wanted', database') == BytesOf(wanted, database)[file := contents]
    ensures wanted'.Keys == wanted.Keys + {file} && Below(wanted.Keys, |paths|)
  {
    var bytes := BytesOf(wanted, database);
    assert bytes.Keys == wanted.Keys && BytesOf(wanted', database').Keys == wanted'.Keys;
    hide Backed, BytesOrEmpty;
  }

  lemma SameMembers(files: seq<Handle>, sources: map<FileId, Handle>, database: seq<SourceFile>,
                    sources': map<FileId, Handle>, database': seq<SourceFile>)
    requires Agree(sources', sources) && SameFiles(database, database') && Lists(files, sources, database)
    ensures sources'.Keys == sources.Keys ==> Lists(files, sources', database')
  {
    if sources'.Keys == sources.Keys { assert sources' == sources; }
  }

  lemma ContentsAre(paths: seq<Path>, identifiers: map<Path, FileId>, sources: map<FileId, Handle>,
                    database: seq<SourceFile>, walk: seq<Path>, disk: Disk)
    requires Backed(sources, database) && Names(paths, identifiers)
    requires Covers(walk, identifiers, sources.Keys) && Holds(BytesOf(sources, database), paths, disk)
    ensures Analyzed(identifiers, sources, database) == LoadedContents(walk, disk)
  {
    var bytes := BytesOf(sources, database);
    forall p ensures p in walk ==> database[sources[identifiers[p]]].bytes == BytesOrEmpty(disk, p) {
      if p in walk { assert bytes[identifiers[p]] == BytesOrEmpty(disk, p); }
    }
  }

  /** The analyzed bytes by path. */
  ghost function Analyzed(identifiers: map<Path, FileId>, sources: map<FileId, Handle>, database: seq<SourceFile>): map<Path, Bytes>
    requires Backed(sources, database)
  {
    map p | p in identifiers && identifiers[p] in sources :: database[sources[identifiers[p]]].bytes
  }

  function From(m: map<FileId, Bytes>, n: nat): map<FileId, Bytes> {
    map f | f in m && f >= n :: m[f]
  }

  lemma FromNext(m: map<FileId, Bytes>, n: nat, bytes: map<FileId, Bytes>)
    ensures n in m && n !in bytes ==> Put(From(m, n) + bytes, n, None) == From(m, n + 1) + bytes
    ensures n !in m || n in bytes ==> From(m, n) + bytes == From(m, n + 1) + bytes
  {
  }

  lemma FromEnds(wanted: map<FileId, Handle>, database: seq<SourceFile>, m: map<FileId, Bytes>, n: nat)
    requires Backed(wanted, database) && Below(m.Keys, n)
    ensures BytesOf(wanted, database).Keys == wanted.Keys
    ensures From(m, 0) == m && From(m, n) + BytesOf(wanted, database) == BytesOf(wanted, database)
  {
    assert From(m, n) == map[];
  }

  lemma ReconcileBelow(changes: seq<ChangedFile>, analyzed: set<FileId>, n: nat)
    requires forall c :: c in changes ==> c.file < n
    ensures forall m :: m in Reconcile(changes, analyzed) ==> m.file < n
  {
    ReconcileFiles(changes, analyzed);
  }

  /** The mirror's contents by path. */
  function ByPath(mirror: Mirror): map<Path, Bytes> {
    map p | p in mirror.identifiers && mirror.identifiers[p] in mirror.disk :: mirror.disk[mirror.identifiers[p]]
  }

  lemma ByPathSet(mirror: Mirror, path: Path, contents: Option<Bytes>)
    requires Names(mirror.paths, mirror.identifiers) && Below(mirror.disk.Keys, |mirror.paths|)
    ensures ByPath(mirror.Set(path, contents)) == Put(ByPath(mirror), path, contents)
  {
  }

  class Session {
    const vfs: Vfs
    const root: Path
    /** What discovery derives from the manifests on a disk. */
    const discover: Disk -> Discovery
    var discovery: Discovery
    var database: seq<SourceFile>
    var sources: map<FileId, Handle>
    var files: seq<Handle>
    var phpVersionRange: (nat, nat)
    var errors: seq<InternalError>
    /** How often the analyzed set itself was written. */
    ghost var setWrites: nat
    /** The paths absorbed so far, burst after burst. */
    ghost var absorbed: seq<Path>
    /** The followed paths absorbed since discovery ran, and the disk it ran on. */
    ghost var since: set<Path>
    ghost var base: Disk

    /** Discovers the project, walks what it declares, and loads it. */
    constructor (root: Path, disk: Disk, discover: Disk -> Discovery, startupErrors: seq<InternalError>)
      ensures Valid() && fresh(vfs) && absorbed == []
      ensures this.root == root && this.discover == discover
      ensures Seen() == FromScratch(discover, disk)
    {
      hide *;
      vfs := new Vfs();
      this.root, this.discover := root, discover;
      discovery := discover(disk);
      phpVersionRange := discover(disk).phpVersionRange;
      database, sources, files := [], map[], [];
      errors := startupErrors;
      setWrites, absorbed := 0, [];
      since, base := {}, disk;
      new;
      Empty();
      LoadDeclared(disk);
      SeenFromScratch(disk);
    }

    lemma SeenFromScratch(disk: Disk)
      requires Coherent() && Contents() == Scratch(discover(disk), disk)
      requires discovery == discover(disk) && since == {} && base == disk
      ensures Seen() == FromScratch(discover, disk)
    {
      hide Coherent, Contents, Scratch;
    }

    lemma Empty()
      requires vfs.Valid() && vfs.disk == map[] && vfs.overlays == map[]
      requires database == [] && sources == map[] && files == []
      ensures Coherent() && vfs.disk == BytesOf(sources, database)
    {
    }

    ghost predicate Coherent()
      reads this, vfs
    {
      && vfs.Valid() && vfs.overlays == map[]
      && Backed(sources, database)
      && Lists(files, sources, database)
      && (forall f :: f in sources ==> f < |vfs.paths|)
    }

    /** Between two operations nothing is pending, and the mirror holds
        exactly the analyzed files with the analyzed bytes. */
    ghost predicate Valid()
      reads this, vfs
      ensures Valid() ==> Coherent()
    {
      && Coherent() && vfs.changed == {}
      && vfs.disk == BytesOf(sources, database)
      && phpVersionRange == discovery.phpVersionRange
      && Placed(Contents(), discovery)
    }

    ghost function Contents(): map<Path, Bytes>
      requires Coherent()
      reads this, vfs
    {
      Analyzed(vfs.identifiers, sources, database)
    }

    ghost function Seen(): Picture
      requires Coherent()
      reads this, vfs
    {
      Picture(Contents(), discovery, since, base)
    }

    /** The members in file order: `sources.values()`. */
    method Members() returns (members: seq<Handle>)
      requires Backed(sources, database) && forall f :: f in sources ==> f < |vfs.paths|
      ensures Lists(members, sources, database)
    {
      members := [];
      for file := 0 to |vfs.paths|
        invariant forall h :: h in members ==> h < |database| && database[h].file < file && Get(sources, database[h].file) == Some(h)
        invariant forall f :: f in sources && f < file ==> sources[f] in members
        invariant forall i, j :: 0 <= i < j < |members| ==>
                    members[i] < |database| && members[j] < |database| && database[members[i]].file < database[members[j]].file
      {
        if file in sources {
          members := members + [sources[file]];
        }
      }
    }

    method ApplyOne(mutation: InputMutation) returns (moved: bool)
      requires Backed(sources, database)
      requires mutation.file < |vfs.paths| && forall f :: f in sources ==> f < |vfs.paths|
      modifies this`database, this`sources
      ensures Backed(sources, database)
      ensures forall f :: f in sources ==> f < |vfs.paths|
      ensures BytesOf(sources, database) == MutateOne(old(BytesOf(sources, database)), mutation)
      ensures moved <==> Moves(old(BytesOf(sources, database)), mutation)
      ensures !moved && old(Lists(files, sources, database)) ==> Lists(files, sources, database)
    {
      moved := false;
      match mutation
      case SetBytes(file, bytes) =>
        if file in sources {
          Overwrite(sources, database, sources[file], bytes);
          if Lists(files, sources, database) { OverwriteLists(files, sources, database, sources[file], bytes); }
          database := database[sources[file] := SourceFile(file, bytes)];
        }
      case AddFile(file, bytes) =>
        Arrive(sources, database, file, bytes);
        database := database + [SourceFile(file, bytes)];
        sources := sources[file := |database| - 1];
        moved := true;
      case RemoveFile(file) =>
        if file in sources {
          sources := sources - {file};
          moved := true;
        }
    }

    /** Mutates the inputs. The set input is written exactly when the
        membership was touched. */
    method Apply(mutations: seq<InputMutation>)
      requires Backed(sources, database) && Lists(files, sources, database)
      requires forall f :: f in sources ==> f < |vfs.paths|
      requires forall m :: m in mutations ==> m.file < |vfs.paths|
      modifies this`database, this`sources, this`files, this`setWrites
      ensures Backed(sources, database) && Lists(files, sources, database)
      ensures forall f :: f in sources ==> f < |vfs.paths|
      ensures BytesOf(sources, database) == Mutated(old(BytesOf(sources, database)), mutations)
      ensures setWrites == old(setWrites) + if MembershipMoves(old(BytesOf(sources, database)), mutations) then 1 else 0
    {
      var membershipChanged := false;
      for k := 0 to |mutations|
        invariant Backed(sources, database)
        invariant forall f :: f in sources ==> f < |vfs.paths|
        invariant BytesOf(sources, database) == Mutated(old(BytesOf(sources, database)), mutations[..k])
        invariant membershipChanged <==> MembershipMoves(old(BytesOf(sources, database)), mutations[..k])
        invariant !membershipChanged ==> Lists(files, sources, database)
        invariant setWrites == old(setWrites)
      {
        assert mutations[..k + 1] == mutations[..k] + [mutations[k]];
        MutatedSnoc(old(BytesOf(sources, database)), mutations[..k], mutations[k]);
        var moved := ApplyOne(mutations[k]);
        membershipChanged := membershipChanged || moved;
      }
      assert mutations[..|mutations|] == mutations;
      if membershipChanged {
        files := Members();
        setWrites := setWrites + 1;
      }
    }

    // ----- loading

    /** The file's source, its bytes set only if they differ, or a new one. */
    method SetInput(file: FileId, contents: Bytes, wanted: map<FileId, Handle>) returns (wanted': map<FileId, Handle>)
      requires Backed(sources, database) && Backed(wanted, database) && Agree(wanted, sources)
      modifies this`database
      ensures InputSet(sources, old(database), database, wanted, wanted', file, contents)
    {
      if file in sources {
        var source := sources[file];
        Adopt(wanted, database, file, source);
        Overwrite(sources, database, source, contents);
        Overwrite(wanted[file := source], database, source, contents);
        if database[source].bytes != contents {
          database := database[source := SourceFile(file, contents)];
        }
        wanted' := wanted[file := source];
      } else {
        Arrive(sources, database, file, contents);
        Arrive(wanted, database, file, contents);
        database := database + [SourceFile(file, contents)];
        wanted' := wanted[file := |database| - 1];
      }
    }

    ghost function MirrorNow(): Mirror
      reads vfs
    {
      Mirror(vfs.paths, vfs.identifiers, vfs.disk)
    }

    ghost predicate Plain()
      reads vfs
    {
      vfs.Valid() && vfs.overlays == map[]
    }

    /** A load, begun on the given inputs and mirror, has done these paths. */
    ghost predicate Midway(wanted: map<FileId, Handle>, done: seq<Path>, disk: Disk,
                           database0: seq<SourceFile>, mirror0: map<FileId, Bytes>)
      reads this, vfs
    {
      Plain() && Loading(MirrorNow(), sources, database, wanted, done, disk, database0, mirror0)
    }

    /** What an analysis started now would read. */
    function CurrentInputs(): Inputs
      requires Valid()
      reads this, vfs
    {
      assert forall i :: 0 <= i < |files| ==> files[i] in files;
      Inputs(SourcesListed(files, database), (set f | f in sources && IsReported(f)), phpVersionRange)
    }

    /** What an analysis reads is what the session holds: each file once, by
        ascending identifier, with the bytes held for its path; every path held
        is among them; those not under the vendor root are reported; and the
        version range is the discovery's. */
    lemma InputsAreContents()
      requires Valid()
      ensures var inputs := CurrentInputs();
              && inputs.phpVersionRange == discovery.phpVersionRange
              && (forall s :: s in inputs.files ==> s.file < |vfs.paths| && Get(Contents(), vfs.paths[s.file]) == Some(s.bytes))
              && (forall p :: p in Contents() ==> exists s :: s in inputs.files && s.file < |vfs.paths| && vfs.paths[s.file] == p)
              && (forall i, j :: 0 <= i < j < |inputs.files| ==> inputs.files[i].file < inputs.files[j].file)
              && (forall s :: s in inputs.files ==>
                    (s.file in inputs.reported <==> !(discovery.vendorRoot.components <= vfs.paths[s.file].components)))
              && (forall f :: f in inputs.reported ==> exists s :: s in inputs.files && s.file == f)
    {
      hide *;
      InputsAre();
      ListedExactly(files, sources, database, vfs.paths, vfs.identifiers);
    }

    lemma InputsAre()
      requires Valid()
      ensures Lists(files, sources, database) && Backed(sources, database) && Interning(vfs.paths, vfs.identifiers)
      ensures (forall f :: f in sources ==> f < |vfs.paths|) && forall i :: 0 <= i < |files| ==> files[i] < |database|
      ensures Contents() == Analyzed(vfs.identifiers, sources, database)
      ensures CurrentInputs().files == SourcesListed(files, database)
      ensures CurrentInputs().phpVersionRange == discovery.phpVersionRange
      ensures forall f :: f in CurrentInputs().reported <==> f in sources && !(discovery.vendorRoot.components <= vfs.paths[f].components)
    {
      assert forall i :: 0 <= i < |files| ==> files[i] in files;
      assert Interning(vfs.paths, vfs.identifiers) by { hide Lists, Backed, Placed; }
      hide Vfs.Valid, Placed, SourcesListed, Analyzed, Interning;
    }

    /** A file the mirror cannot name counts as the project's. */
    predicate IsReported(file: FileId)
      reads this, vfs
    {
      var path := vfs.PathOf(file);
      path.None? || discovery.IsProjects(path.value)
    }

    method ReadOrReport(path: Path, disk: Disk) returns (contents: Bytes)
      modifies this`errors
      ensures contents == BytesOrEmpty(disk, path)
      ensures errors == old(errors) + UnreadableOne(path, disk)
    {
      var outcome := Read(disk, path);
      match outcome
      case Ok(bytes) =>
        contents := bytes;
      case Err(reason) =>
        errors := errors + [FileUnreadable(path, reason)];
        contents := [];
    }

    method LoadFile(path: Path, disk: Disk, wanted: map<FileId, Handle>, ghost done: seq<Path>,
                    ghost database0: seq<SourceFile>, ghost mirror0: map<FileId, Bytes>)
      returns (wanted': map<FileId, Handle>)
      requires Midway(wanted, done, disk, database0, mirror0)
      modifies this`database, this`errors, vfs
      ensures Midway(wanted', done + [path], disk, database0, mirror0)
      ensures errors == old(errors) + UnreadableOne(path, disk)
    {
      var contents := ReadOrReport(path, disk);
      var file := MirrorSet(path, Some(contents));
      wanted' := SetInput(file, contents, wanted);
      LoadingStep(old(MirrorNow()), sources, old(database), database, wanted, wanted', done, disk, database0, mirror0, path);
      hide Loading, InputSet;
    }

    /** Makes the analyzed set exactly what the walk lists, with the bytes
        read for each file. A file that stays keeps its input, a file that left
        leaves the mirror too, and the set input is written exactly when the
        membership moved. */
    method Load(walk: seq<Path>, directories: seq<InternalError>, disk: Disk)
      requires Coherent() && vfs.disk == BytesOf(sources, database)
      requires phpVersionRange == discovery.phpVersionRange
      requires Placed(LoadedContents(walk, disk), discovery)
      modifies this`database, this`sources, this`files, this`errors, this`setWrites, vfs
      ensures Valid()
      ensures Contents() == LoadedContents(walk, disk)
      ensures errors == Without(old(errors), IsUnreadable) + directories + Unreadable(walk, disk)
      ensures Agree(sources, old(sources))
      ensures setWrites == old(setWrites) + if sources.Keys != old(sources.Keys) then 1 else 0
    {
      hide *;
      BeforeLoad();
      errors := Without(errors, IsUnreadable) + directories;
      ghost var database0, mirror0 := database, vfs.disk;
      var wanted := LoadFiles(walk, disk);
      MidwayFacts(wanted, walk, disk, database0, mirror0);
      Depart(wanted, mirror0);
      SameMembers(files, sources, database0, wanted, database);
      ContentsAre(vfs.paths, vfs.identifiers, wanted, database, walk, disk);
      Commit(wanted);
      AfterLoad(walk, disk);
    }

    lemma BeforeLoad()
      requires Coherent() && vfs.disk == BytesOf(sources, database)
      ensures Plain() && Backed(sources, database) && Below(sources.Keys, |vfs.paths|)
      ensures Lists(files, sources, database) && vfs.disk.Keys == sources.Keys
    {
      hide Vfs.Valid;
    }

    lemma MidwayFacts(wanted: map<FileId, Handle>, done: seq<Path>, disk: Disk,
                      database0: seq<SourceFile>, mirror0: map<FileId, Bytes>)
      requires Midway(wanted, done, disk, database0, mirror0)
      ensures Plain() && Backed(wanted, database) && Below(sources.Keys, |vfs.paths|) && Agree(wanted, sources)
      ensures vfs.disk == mirror0 + BytesOf(wanted, database) && SameFiles(database0, database)
      ensures Covers(done, vfs.identifiers, wanted.Keys) && Holds(BytesOf(wanted, database), vfs.paths, disk)
      ensures Below(wanted.Keys, |vfs.paths|) && Names(vfs.paths, vfs.identifiers)
    {
      assert BytesOf(wanted, database).Keys == wanted.Keys;
      assert Names(vfs.paths, vfs.identifiers) by { hide Holds, Covers, Agree, SameFiles, Backed; }
      hide Vfs.Valid, Covers, Agree, SameFiles;
    }

    lemma AfterLoad(walk: seq<Path>, disk: Disk)
      requires Coherent() && vfs.changed == {} && vfs.disk == BytesOf(sources, database)
      requires phpVersionRange == discovery.phpVersionRange && Placed(LoadedContents(walk, disk), discovery)
      requires Analyzed(vfs.identifiers, sources, database) == LoadedContents(walk, disk)
      ensures Valid() && Contents() == LoadedContents(walk, disk)
    {
      hide Vfs.Valid, Lists, Placed, LoadedContents, Analyzed;
    }

    lemma NothingLoaded(disk: Disk)
      requires Plain() && Backed(sources, database) && Below(sources.Keys, |vfs.paths|)
      ensures Midway(map[], [], disk, database, vfs.disk)
      ensures Unreadable([], disk) == []
    {
      LoadingNothing(MirrorNow(), sources, database, disk);
      hide Vfs.Valid, Loading;
    }

    method LoadFiles(walk: seq<Path>, disk: Disk) returns (wanted: map<FileId, Handle>)
      requires Plain() && Backed(sources, database) && Below(sources.Keys, |vfs.paths|)
      modifies this`database, this`errors, vfs
      ensures Midway(wanted, walk, disk, old(database), old(vfs.disk))
      ensures errors == old(errors) + Unreadable(walk, disk)
    {
      hide *;
      ghost var database0, mirror0, errors0 := database, vfs.disk, errors;
      wanted := map[];
      NothingLoaded(disk);
      assert walk[..0] == [];
      for k := 0 to |walk|
        invariant Midway(wanted, walk[..k], disk, database0, mirror0)
        invariant errors == errors0 + Unreadable(walk[..k], disk)
      {
        assert walk[..k + 1] == walk[..k] + [walk[k]];
        UnreadableSnoc(walk[..k], walk[k], disk);
        wanted := LoadFile(walk[k], disk, wanted, walk[..k], database0, mirror0);
      }
      assert walk[..|walk|] == walk;
    }

    /** The wanted sources become the sources, and the pending diff is dropped. */
    method Commit(wanted: map<FileId, Handle>)
      requires Plain() && Backed(wanted, database) && Below(wanted.Keys, |vfs.paths|)
      requires wanted.Keys == sources.Keys ==> Lists(files, wanted, database)
      modifies this`sources, this`files, this`setWrites, vfs`changed, vfs`reported
      ensures Coherent() && vfs.changed == {} && sources == wanted
      ensures setWrites == old(setWrites) + if wanted.Keys != old(sources.Keys) then 1 else 0
    {
      hide Vfs.Valid, Lists;
      var membershipChanged := wanted.Keys != sources.Keys;
      sources := wanted;
      if membershipChanged {
        files := Members();
        setWrites := setWrites + 1;
      }
      var _ := vfs.TakeChanges();
    }

    method Forget(file: FileId)
      requires Plain() && file < |vfs.paths|
      modifies vfs`paths, vfs`identifiers, vfs`disk, vfs`changed
      ensures Plain()
      ensures vfs.paths == old(vfs.paths) && vfs.identifiers == old(vfs.identifiers)
      ensures vfs.disk == Put(old(vfs.disk), file, None)
    {
      var _ := vfs.SetFileContents(vfs.paths[file], None);
    }

    /** The files that left the walk leave the mirror. */
    method Depart(wanted: map<FileId, Handle>, ghost mirror0: map<FileId, Bytes>)
      requires Plain() && Backed(wanted, database)
      requires Below(sources.Keys, |vfs.paths|) && mirror0.Keys == sources.Keys
      requires vfs.disk == mirror0 + BytesOf(wanted, database)
      modifies vfs`paths, vfs`identifiers, vfs`disk, vfs`changed
      ensures Plain()
      ensures vfs.paths == old(vfs.paths) && vfs.identifiers == old(vfs.identifiers)
      ensures vfs.disk == BytesOf(wanted, database)
    {
      hide *;
      ghost var bytes, paths, identifiers := BytesOf(wanted, database), vfs.paths, vfs.identifiers;
      FromEnds(wanted, database, mirror0, |vfs.paths|);
      for file := 0 to |vfs.paths|
        invariant Plain() && vfs.paths == paths && vfs.identifiers == identifiers
        invariant vfs.disk == From(mirror0, file) + bytes
      {
        FromNext(mirror0, file, bytes);
        if file in sources && file !in wanted {
          Forget(file);
        }
      }
    }

    // ----- absorbing

    /** Discovery re-runs on the disk as it stands, and everything it lists is
        read again: the session is what a fresh start would be. */
    method Rediscover(disk: Disk)
      requires Valid()
      modifies this`discovery, this`phpVersionRange, this`database, this`sources, this`files, this`errors,
               this`setWrites, this`since, this`base, vfs
      ensures Valid() && Seen() == FromScratch(discover, disk)
      ensures Agree(sources, old(sources)) && SameOtherErrors(old(errors), errors)
      ensures ErrorsAfterLoad(old(errors), errors, discovery, disk)
    {
      var found := discover(disk);
      if found.phpVersionRange != discovery.phpVersionRange {
        phpVersionRange := found.phpVersionRange;
      }
      discovery := found;
      since, base := {}, disk;
      hide Vfs.Valid, Lists, Backed, Placed, Scratch;
      LoadDeclared(disk);
    }

    /** Walks what discovery declares, and loads it. */
    method LoadDeclared(disk: Disk)
      requires Coherent() && vfs.disk == BytesOf(sources, database)
      requires phpVersionRange == discovery.phpVersionRange
      modifies this`database, this`sources, this`files, this`errors, this`setWrites, vfs
      ensures Valid() && Contents() == Scratch(discovery, disk)
      ensures Agree(sources, old(sources)) && SameOtherErrors(old(errors), errors)
      ensures ErrorsAfterLoad(old(errors), errors, discovery, disk)
    {
      hide *;
      var walk := EnumeratePhpFiles(discovery, disk);
      LoadTracks(walk, discovery, disk);
      OtherErrors(errors, walk, disk);
      WalkErrors(errors, walk, discovery, disk);
      Load(walk, [], disk);
    }

    /** Absorbs a burst of changed paths. A changed manifest re-runs discovery;
        otherwise each followed path is read again, and the analyzed bytes
        change at those paths alone. */
    method Absorb(changed: seq<Path>, disk: Disk)
      requires Valid()
      modifies this`discovery, this`phpVersionRange, this`database, this`sources, this`files, this`errors,
               this`setWrites, this`absorbed, this`since, this`base, vfs
      ensures Valid() && absorbed == old(absorbed) + changed
      ensures Seen() == AbsorbedPicture(root, discover, old(Seen()), changed, disk)
      ensures (exists name :: name in {"composer.json", "composer.lock", "celerrate.toml", "celerrate-baseline.toml"}
                              && Path(root.components + [name]) in changed) ==> Seen() == FromScratch(discover, disk)
      ensures SameOtherErrors(old(errors), errors)
      ensures if HasManifest(root, changed) then ErrorsAfterLoad(old(errors), errors, discovery, disk) else errors == old(errors)
      ensures forall e: InternalError :: !e.FileUnreadable? && !e.DirectoryUnreadable? ==> (e in errors <==> e in old(errors))
      ensures !HasManifest(root, changed) ==>
                setWrites == old(setWrites) + (if sources.Keys != old(sources.Keys) then 1 else 0)
    {
      hide Vfs.Valid, Lists, Backed, Placed, Scratch, AbsorbedContents, Analyzed;
      ManifestBurst(root, discover, Seen(), changed, disk);
      absorbed := absorbed + changed;
      if HasManifest(root, changed) {
        Rediscover(disk);
      } else {
        AbsorbFiles(changed, disk);
        since := since + FollowedIn(discovery, changed);
        assert Valid();
      }
    }

    method AbsorbFiles(changed: seq<Path>, disk: Disk)
      requires Valid()
      modifies this`database, this`sources, this`files, this`setWrites, vfs
      ensures Valid()
      ensures Contents() == AbsorbedContents(old(Contents()), changed, discovery, disk)
      ensures setWrites == old(setWrites) + if sources.Keys != old(sources.Keys) then 1 else 0
    {
      hide *;
      BeforeAbsorb();
      ghost var contents0 := Contents();
      ReadChanged(changed, disk);
      AbsorbedPlaced(contents0, changed, discovery, disk);
      var changes := Drain();
      var mutations := Reconcile(changes, sources.Keys);
      ReconcileOverwrites(BytesOf(sources, database), changes);
      ReconcileBelow(changes, sources.Keys, |vfs.paths|);
      Apply(mutations);
      AfterAbsorb();
    }

    method Drain() returns (changes: seq<ChangedFile>)
      requires Plain()
      modifies vfs`changed, vfs`reported
      ensures Plain() && vfs.changed == {} && IsDiff(changes)
      ensures forall c :: c in changes ==> c.file < |vfs.paths|
      ensures Applied(old(vfs.reported), changes) == vfs.disk
      ensures MirrorNow() == old(MirrorNow())
    {
      hide Vfs.Valid, Vfs.Effective, Plain, IsDiff, Applied;
      ChangedBelow();
      changes := vfs.TakeChanges();
      MirrorIs(Applied(old(vfs.reported), changes));
    }

    lemma BeforeAbsorb()
      requires Valid()
      ensures Coherent() && Plain() && Backed(sources, database) && Lists(files, sources, database)
      ensures forall f :: f in sources ==> f < |vfs.paths|
      ensures vfs.reported == BytesOf(sources, database) && Contents() == ByPath(MirrorNow())
      ensures BytesOf(sources, database).Keys == sources.Keys
      ensures phpVersionRange == discovery.phpVersionRange && Placed(Contents(), discovery)
    {
      SameMap(vfs.reported, vfs.disk);
      hide Lists, Placed;
    }

    lemma ChangedBelow()
      requires Plain()
      ensures (forall f :: f in vfs.changed ==> f < |vfs.paths|) && vfs.Valid() && vfs.overlays == map[]
    {
    }

    lemma MirrorIs(m: map<FileId, Bytes>)
      requires vfs.Valid() && vfs.overlays == map[] && forall f :: Get(m, f) == vfs.Effective(f)
      ensures Plain() && m == vfs.disk
    {
      hide Vfs.Valid;
      SameMap(m, vfs.disk);
    }

    lemma AfterAbsorb()
      requires Plain() && vfs.changed == {} && Backed(sources, database) && Lists(files, sources, database)
      requires forall f :: f in sources ==> f < |vfs.paths|
      requires vfs.disk == BytesOf(sources, database)
      requires phpVersionRange == discovery.phpVersionRange && Placed(ByPath(MirrorNow()), discovery)
      ensures Valid() && Contents() == ByPath(MirrorNow())
      ensures BytesOf(sources, database).Keys == sources.Keys
    {
      assert BytesOf(sources, database).Keys == sources.Keys;
      hide Lists, Placed, Vfs.Valid;
    }

    method ReadChanged(changed: seq<Path>, disk: Disk)
      requires Plain()
      modifies vfs`paths, vfs`identifiers, vfs`disk, vfs`changed
      ensures Plain() && old(vfs.paths) <= vfs.paths
      ensures ByPath(MirrorNow()) == AbsorbedContents(old(ByPath(MirrorNow())), changed, discovery, disk)
    {
      hide *;
      ghost var paths, contents := vfs.paths, ByPath(MirrorNow());
      AbsorbedNothing(contents, discovery, disk);
      assert changed[..0] == [];
      for k := 0 to |changed|
        invariant Plain() && paths <= vfs.paths
        invariant ByPath(MirrorNow()) == AbsorbedContents(contents, changed[..k], discovery, disk)
      {
        assert changed[..k + 1] == changed[..k] + [changed[k]];
        AbsorbedSnoc(contents, changed[..k], changed[k], discovery, disk);
        ReadOne(changed[k], disk);
      }
      assert changed[..|changed|] == changed;
    }

    lemma MirrorNames()
      requires Plain()
      ensures Names(MirrorNow().paths, MirrorNow().identifiers) && Below(MirrorNow().disk.Keys, |MirrorNow().paths|)
    {
    }

    method ReadOne(path: Path, disk: Disk)
      requires Plain()
      modifies vfs`paths, vfs`identifiers, vfs`disk, vfs`changed
      ensures Plain() && old(vfs.paths) <= vfs.paths
      ensures ByPath(MirrorNow()) == AbsorbedOne(old(ByPath(MirrorNow())), path, discovery, disk)
    {
      if !IsPhp(path) || discovery.IsExcluded(path) {
        return;
      }
      hide Vfs.Valid, Vfs.Interned, Plain, MirrorNow, Mirror.Set, ByPath, Names, IsPhp;
      var outcome := Read(disk, path);
      var contents := if outcome.Ok? then Some(outcome.value) else None;
      MirrorNames();
      ByPathSet(MirrorNow(), path, contents);
      var _ := MirrorSet(path, contents);
    }

    method MirrorSet(path: Path, contents: Option<Bytes>) returns (file: FileId)
      requires Plain()
      modifies vfs`paths, vfs`identifiers, vfs`disk, vfs`changed
      ensures Plain() && old(vfs.paths) <= vfs.paths
      ensures file == old(MirrorNow().FileOf(path)) && MirrorNow() == old(MirrorNow()).Set(path, contents)
    {
      hide Vfs.Valid;
      file := vfs.SetFileContents(path, contents);
    }

    // ----- the error list

    /** Drops the errors of one kind. The file-set state does not move. */
    method DropErrors(kind: InternalError -> bool)
      requires Valid()
      modifies this`errors
      ensures errors == Without(old(errors), kind)
      ensures Valid() && Contents() == old(Contents()) && CurrentInputs() == old(CurrentInputs())
    {
      errors := Without(errors, kind);
    }

    method PushErrors(more: seq<InternalError>)
      requires Valid()
      modifies this`errors
      ensures errors == old(errors) + more
      ensures Valid() && Contents() == old(Contents()) && CurrentInputs() == old(CurrentInputs())
    {
      errors := errors + more;
    }

    /** Drops what the last pass, and only it, concluded. */
    method ForgetAnalysisErrors()
      requires Valid()
      modifies this`errors
      ensures errors == Without(old(errors), IsPassVerdict)
      ensures forall e :: e in errors <==>
                e in old(errors) && !e.FilePanicked? && !e.AnalysisPanicked? && !e.DiagnosticRenderFailed?
      ensures Valid() && Contents() == old(Contents()) && CurrentInputs() == old(CurrentInputs())
    {
      WithoutElements(errors, IsPassVerdict);
      DropErrors(IsPassVerdict);
    }

    method AbsorbOutcome(panicked: seq<FileId>)
      requires Valid()
      modifies this`errors
      ensures errors == old(errors) + PanicsOf(panicked)
      ensures Valid() && Contents() == old(Contents()) && CurrentInputs() == old(CurrentInputs())
    {
      PushErrors(PanicsOf(panicked));
    }
  }
}
