/** From a file-state diff to mutations of the analysis inputs. */
module InputMutations {
  import opened Wrappers
  import opened Vfs

  datatype InputMutation =
    | SetBytes(file: FileId, bytes: Bytes)
    | AddFile(file: FileId, bytes: Bytes)
    | RemoveFile(file: FileId)

  function ReconcileOne(change: ChangedFile, analyzed: set<FileId>): seq<InputMutation> {
    match change.contents
    case Some(bytes) => if change.file in analyzed then [SetBytes(change.file, bytes)] else [AddFile(change.file, bytes)]
    case None => if change.file in analyzed then [RemoveFile(change.file)] else []
  }

  /** Every change is judged against the set as it stood before the first. */
  function Reconcile(changes: seq<ChangedFile>, analyzed: set<FileId>): seq<InputMutation> {
    if changes == [] then []
    else Reconcile(changes[..|changes| - 1], analyzed) + ReconcileOne(changes[|changes| - 1], analyzed)
  }

  lemma {:induction false} ReconcileFiles(changes: seq<ChangedFile>, analyzed: set<FileId>)
    ensures forall m :: m in Reconcile(changes, analyzed) ==> exists c :: c in changes && c.file == m.file
  {
    if changes == [] {
    } else {
      var front, last := changes[..|changes| - 1], changes[|changes| - 1];
      ReconcileFiles(front, analyzed);
      forall m | m in Reconcile(changes, analyzed) ensures exists c :: c in changes && c.file == m.file {
        if m in Reconcile(front, analyzed) {
          var c :| c in front && c.file == m.file;
          assert c in changes;
        } else {
          assert last in changes && m in ReconcileOne(last, analyzed);
        }
      }
    }
  }

  // ----- what mutations do to the analyzed bytes

  function MutateOne(m: map<FileId, Bytes>, mutation: InputMutation): map<FileId, Bytes> {
    match mutation
    case SetBytes(file, bytes) => if file in m then m[file := bytes] else m
    case AddFile(file, bytes) => m[file := bytes]
    case RemoveFile(file) => m - {file}
  }

  predicate Moves(m: map<FileId, Bytes>, mutation: InputMutation) {
    match mutation
    case SetBytes(_, _) => false
    case AddFile(_, _) => true
    case RemoveFile(file) => file in m
  }

  function Mutated(m: map<FileId, Bytes>, mutations: seq<InputMutation>): map<FileId, Bytes> {
    if mutations == [] then m
    else MutateOne(Mutated(m, mutations[..|mutations| - 1]), mutations[|mutations| - 1])
  }

  /** Some mutation on the way touched the membership. */
  predicate MembershipMoves(m: map<FileId, Bytes>, mutations: seq<InputMutation>) {
    mutations != [] &&
    (MembershipMoves(m, mutations[..|mutations| - 1])
     || Moves(Mutated(m, mutations[..|mutations| - 1]), mutations[|mutations| - 1]))
  }

  lemma MutatedSnoc(m: map<FileId, Bytes>, front: seq<InputMutation>, last: InputMutation)
    ensures Mutated(m, front + [last]) == MutateOne(Mutated(m, front), last)
    ensures MembershipMoves(m, front + [last]) <==> MembershipMoves(m, front) || Moves(Mutated(m, front), last)
  {
    assert (front + [last])[..|front|] == front;
  }

  /** One more change, reconciled against a set that agrees on its file. */
  lemma ReconcileSnoc(m: map<FileId, Bytes>, changes: seq<ChangedFile>, last: ChangedFile)
    requires last.file in m <==> last.file in Mutated(m, Reconcile(changes, m.Keys))
    ensures Mutated(m, Reconcile(changes, m.Keys) + ReconcileOne(last, m.Keys))
         == Put(Mutated(m, Reconcile(changes, m.Keys)), last.file, last.contents)
    ensures MembershipMoves(m, Reconcile(changes, m.Keys) + ReconcileOne(last, m.Keys))
       <==> MembershipMoves(m, Reconcile(changes, m.Keys)) || (last.contents.Some? <==> last.file !in m)
  {
    var front, one := Reconcile(changes, m.Keys), ReconcileOne(last, m.Keys);
    if one != [] {
      assert one == [one[0]];
      MutatedSnoc(m, front, one[0]);
    } else {
      assert front + [] == front;
    }
  }

  /** For a diff with one entry per file, reconciling against the set as it
      stood is the same as overwriting file by file, and the membership is
      touched exactly when it ends up different. */
  lemma {:induction false} ReconcileOverwrites(m: map<FileId, Bytes>, changes: seq<ChangedFile>)
    requires IsDiff(changes)
    ensures Mutated(m, Reconcile(changes, m.Keys)) == Applied(m, changes)
    ensures MembershipMoves(m, Reconcile(changes, m.Keys)) <==> Applied(m, changes).Keys != m.Keys
  {
    if changes == [] {
    } else {
      var front, last := changes[..|changes| - 1], changes[|changes| - 1];
      ReconcileOverwrites(m, front);
      AppliedMiss(m, front, last.file);
      assert Get(Applied(m, front), last.file) == Get(m, last.file);
      ReconcileSnoc(m, front, last);
      KeysMove(m, front, last);
      hide Mutated, MembershipMoves, ReconcileOne;
    }
  }

  lemma {:induction false} KeysMove(m: map<FileId, Bytes>, front: seq<ChangedFile>, last: ChangedFile)
    requires forall k :: 0 <= k < |front| ==> front[k].file != last.file
    ensures Put(Applied(m, front), last.file, last.contents).Keys == m.Keys
       <==> Applied(m, front).Keys == m.Keys && (last.contents.Some? <==> last.file in m)
  {
    var before := Applied(m, front);
    var after := Put(before, last.file, last.contents);
    AppliedMiss(m, front, last.file);
    if after.Keys == m.Keys {
      assert last.file in after <==> last.contents.Some?;
      forall f ensures f in before.Keys <==> f in m.Keys {
        if f == last.file { assert Get(before, f) == Get(m, f); } else { assert f in after <==> f in before; }
      }
    }
  }

  /** With two entries for one file the answer can differ: a removal after an
      arrival is judged against a set that never had the file, and is dropped. */
  lemma {:induction false} DuplicateEntriesLoseARemoval()
    ensures var changes := [ChangedFile(0, Some([])), ChangedFile(0, None)];
            Mutated(map[], Reconcile(changes, {})) != Applied(map[], changes)
  {
    var changes := [ChangedFile(0, Some([])), ChangedFile(0, None)];
    assert changes[..1] == [ChangedFile(0, Some([]))] && changes[..1][..0] == [];
    assert Reconcile(changes[..1], {}) == [AddFile(0, [])];
    assert Reconcile(changes, {}) == [AddFile(0, [])];
    assert [AddFile(0, [])][..0] == [];
    assert 0 in Mutated(map[], [AddFile(0, [])]);
  }
}
