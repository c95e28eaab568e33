/** The in-memory file state: interned paths, disk contents, overlays, and
    the set of files whose effective contents changed. */
module Vfs {
  import opened Wrappers
  import opened Ordering
  import opened Utf8

  /** A normalized path, by components. */
  datatype Path = Path(components: seq<string>) {
    /** Component-wise, as `Path::starts_with`. */
    predicate StartsWith(root: Path) { root.components <= components }
  }

  type FileId = nat
  type Bytes = seq<byte>

  datatype ChangedFile = ChangedFile(file: FileId, contents: Option<Bytes>)

  function Get<K, V>(m: map<K, V>, k: K): Option<V> {
    if k in m then Some(m[k]) else None
  }

  function Put<K, V>(m: map<K, V>, k: K, v: Option<V>): map<K, V> {
    if v.Some? then m[k := v.value] else m - {k}
  }

  /** One entry per file, in file order. */
  ghost predicate IsDiff(changes: seq<ChangedFile>) {
    forall i, j :: 0 <= i < j < |changes| ==> changes[i].file < changes[j].file
  }

  class Vfs {
    var paths: seq<Path>
    var identifiers: map<Path, FileId>
    var disk: map<FileId, Bytes>
    var overlays: map<FileId, Bytes>
    var changed: set<FileId>
    /** What the last drained diff left the reader believing. */
    ghost var reported: map<FileId, Bytes>

    ghost predicate Interned()
      reads this
    {
      && (forall i :: 0 <= i < |paths| ==> paths[i] in identifiers && identifiers[paths[i]] == i)
      && (forall p :: p in identifiers ==> identifiers[p] < |paths| && paths[identifiers[p]] == p)
    }

    /** Identifiers and paths correspond one to one, and whatever moved since
        the last diff is marked. */
    ghost predicate Valid()
      reads this
    {
      && Interned()
      && (forall f :: f in disk || f in overlays || f in changed || f in reported ==> f < |paths|)
      && (forall f :: f !in changed ==> Get(reported, f) == Effective(f))
    }

    function Effective(file: FileId): Option<Bytes>
      reads this
    {
      if file in overlays then Some(overlays[file]) else Get(disk, file)
    }

    constructor ()
      ensures Valid() && paths == [] && disk == map[] && overlays == map[] && changed == {}
    {
      paths, identifiers, disk, overlays, changed := [], map[], map[], map[], {};
      reported := map[];
    }

    /** Interning is stable: an identifier never moves. */
    method Intern(path: Path) returns (file: FileId)
      requires Valid()
      modifies this`paths, this`identifiers
      ensures Valid()
      ensures file == old(if path in identifiers then identifiers[path] else |paths|)
      ensures paths == old(if path in identifiers then paths else paths + [path])
      ensures identifiers == old(identifiers)[path := file]
    {
      if path in identifiers {
        return identifiers[path];
      }
      file := |paths|;
      paths := paths + [path];
      identifiers := identifiers[path := file];
    }

    function PathOf(file: FileId): Option<Path>
      reads this
    {
      if file < |paths| then Some(paths[file]) else None
    }

    method RecordIfChanged(file: FileId, before: Option<Bytes>)
      requires file < |paths|
      modifies this`changed
      ensures changed == if Effective(file) != before then old(changed) + {file} else old(changed)
    {
      if Effective(file) != before {
        changed := changed + {file};
      }
    }

    /** Sets or deletes the disk state of a file. The file is marked exactly
        when its effective contents moved. */
    method SetFileContents(path: Path, contents: Option<Bytes>) returns (file: FileId)
      requires Valid()
      modifies this`paths, this`identifiers, this`disk, this`changed
      ensures Valid()
      ensures file == old(if path in identifiers then identifiers[path] else |paths|)
      ensures paths == old(if path in identifiers then paths else paths + [path])
      ensures identifiers == old(identifiers)[path := file]
      ensures disk == Put(old(disk), file, contents)
      ensures Effective(file) == if file in overlays then Some(overlays[file]) else contents
      ensures changed == if Effective(file) != old(Effective(file)) then old(changed) + {file} else old(changed)
    {
      file := Intern(path);
      var before := Effective(file);
      disk := Put(disk, file, contents);
      RecordIfChanged(file, before);
    }

    method SetOverlay(path: Path, contents: Bytes) returns (file: FileId)
      requires Valid()
      modifies this`paths, this`identifiers, this`overlays, this`changed
      ensures Valid()
      ensures file == old(if path in identifiers then identifiers[path] else |paths|)
      ensures paths == old(if path in identifiers then paths else paths + [path])
      ensures identifiers == old(identifiers)[path := file]
      ensures overlays == old(overlays)[file := contents] && Effective(file) == Some(contents)
      ensures changed == if Effective(file) != old(Effective(file)) then old(changed) + {file} else old(changed)
    {
      file := Intern(path);
      var before := Effective(file);
      overlays := overlays[file := contents];
      RecordIfChanged(file, before);
    }

    /** Reveals the disk state again. */
    method ClearOverlay(file: FileId)
      requires Valid() && file < |paths|
      modifies this`overlays, this`changed
      ensures Valid() && overlays == old(overlays) - {file}
      ensures Effective(file) == Get(disk, file)
      ensures changed == if Effective(file) != old(Effective(file)) then old(changed) + {file} else old(changed)
    {
      var before := Effective(file);
      overlays := overlays - {file};
      RecordIfChanged(file, before);
    }

    /** Drains the diff: one entry per marked file, ascending, each with the
        contents in force now. A reader who applies it to what the previous
        diff left has the effective contents of every file. */
    method TakeChanges() returns (changes: seq<ChangedFile>)
      requires Valid()
      modifies this`changed, this`reported
      ensures Valid() && changed == {}
      ensures IsDiff(changes)
      ensures forall c :: c in changes <==> c.file in old(changed) && c.contents == Effective(c.file)
      ensures forall f :: Get(Applied(old(reported), changes), f) == Effective(f)
    {
      changes := [];
      for file := 0 to |paths|
        invariant IsDiff(changes)
        invariant forall c :: c in changes ==> c.file < file
        invariant forall c :: c in changes <==> c.file < file && c.file in changed && c.contents == Effective(c.file)
      {
        if file in changed {
          changes := Appended(changes, ChangedFile(file, Effective(file)));
        }
      }
      forall f ensures Get(Applied(reported, changes), f) == Effective(f) {
        if f in changed {
          var c := ChangedFile(f, Effective(f));
          assert c in changes;
          var k :| 0 <= k < |changes| && changes[k] == c;
          AppliedHit(reported, changes, k);
        } else {
          AppliedMiss(reported, changes, f);
        }
      }
      changed := {};
      reported := map f | f in disk.Keys + overlays.Keys :: Effective(f).value;
    }
  }

  function Appended(changes: seq<ChangedFile>, c: ChangedFile): (r: seq<ChangedFile>)
    requires IsDiff(changes) && forall b :: b in changes ==> b.file < c.file
    ensures IsDiff(r) && forall b :: b in r <==> b in changes || b == c
  {
    changes + [c]
  }

  /** Overwrites each file named by the diff. */
  function Applied(m: map<FileId, Bytes>, changes: seq<ChangedFile>): map<FileId, Bytes> {
    if changes == [] then m
    else
      var last := changes[|changes| - 1];
      Put(Applied(m, changes[..|changes| - 1]), last.file, last.contents)
  }

  lemma {:induction false} AppliedMiss(m: map<FileId, Bytes>, changes: seq<ChangedFile>, f: FileId)
    requires forall k :: 0 <= k < |changes| ==> changes[k].file != f
    ensures Get(Applied(m, changes), f) == Get(m, f)
  {
    if changes == [] {
    } else {
      AppliedMiss(m, changes[..|changes| - 1], f);
    }
  }

  lemma {:induction false} AppliedHit(m: map<FileId, Bytes>, changes: seq<ChangedFile>, k: nat)
    requires IsDiff(changes) && k < |changes|
    ensures Get(Applied(m, changes), changes[k].file) == changes[k].contents
  {
    if k == |changes| - 1 {
    } else {
      AppliedHit(m, changes[..|changes| - 1], k);
    }
  }
}
