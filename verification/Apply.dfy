/** `apply`: sorts the edits, refuses an ill-fitting set, splices the rest. */
module Apply {
  import opened Wrappers
  import opened Ordering
  import opened Utf8
  import opened Edits
  import opened Splice

  datatype ApplyError =
    | Conflict(conflict: EditConflict)
    | MultipleFiles(edit: TextEdit)
    | RangeOutOfBounds(edit: TextEdit, sourceLength: nat)
    | RangeNotOnCharacterBoundary(edit: TextEdit)

  function FirstForeign(edits: seq<TextEdit>, file: nat): (r: Option<TextEdit>)
    ensures r.None? <==> forall e :: e in edits ==> e.file == file
    ensures r.Some? ==> r.value in edits && r.value.file != file
  {
    if edits == [] then None
    else if edits[0].file != file then Some(edits[0])
    else FirstForeign(edits[1..], file)
  }

  predicate Fits(source: seq<byte>, edit: TextEdit) {
    edit.end <= |source| && IsCharBoundary(source, edit.start) && IsCharBoundary(source, edit.end)
  }

  function Misfit(source: seq<byte>, edit: TextEdit): ApplyError {
    if edit.end > |source| then RangeOutOfBounds(edit, |source|) else RangeNotOnCharacterBoundary(edit)
  }

  function FirstMisfit(source: seq<byte>, edits: seq<TextEdit>): (r: Option<ApplyError>)
    ensures r.None? <==> forall e :: e in edits ==> Fits(source, e)
  {
    if edits == [] then None
    else if !Fits(source, edits[0]) then Some(Misfit(source, edits[0]))
    else FirstMisfit(source, edits[1..])
  }

  /** Why a sorted set is refused: foreign files first, then conflicts, then ranges. */
  function Refusal(source: seq<byte>, sorted: seq<TextEdit>): (r: Option<ApplyError>)
    requires Sorted(CompareEdit, sorted)
    ensures r.None? ==> Ordered(Listed(sorted), 0, |source|)
  {
    var foreign := if sorted == [] then None else FirstForeign(sorted, sorted[0].file);
    if foreign.Some? then Some(MultipleFiles(foreign.value))
    else
      var conflict := FindConflict(sorted);
      if conflict.Some? then Some(ApplyError.Conflict(conflict.value))
      else
        AcceptedIsOrdered(source, sorted, 0);
        FirstMisfit(source, sorted)
  }

  lemma {:induction false} AcceptedIsOrdered(source: seq<byte>, sorted: seq<TextEdit>, cursor: nat)
    requires forall a, b :: a in sorted && b in sorted ==> a.file == b.file
    requires FindConflict(sorted).None?
    requires cursor <= |source| && (sorted != [] ==> cursor <= sorted[0].start)
    ensures (forall e :: e in sorted ==> Fits(source, e)) ==> Ordered(Listed(sorted), cursor, |source|)
  {
    if sorted == [] {
    } else if forall e :: e in sorted ==> Fits(source, e) {
      assert sorted[0] in sorted;
      if |sorted| > 1 {
        assert sorted[1] in sorted && !Clash(sorted[0], sorted[1]);
      }
      AcceptedIsOrdered(source, sorted[1..], sorted[0].end);
    }
  }

  /** The result: the set refused, or spliced one edit at a time from the back. */
  function Applied(source: seq<byte>, edits: seq<TextEdit>): Result<seq<byte>, ApplyError> {
    var sorted := SortedEdits(edits);
    match Refusal(source, sorted)
    case Some(error) => Err(error)
    case None => Ok(BackToFront(source, Listed(sorted), 0))
  }

  /** `str::get`: nothing unless the range is in order, in bounds and on boundaries. */
  function Get(source: seq<byte>, lo: nat, hi: nat): Option<seq<byte>> {
    if lo <= hi <= |source| && IsCharBoundary(source, lo) && IsCharBoundary(source, hi) then Some(source[lo..hi])
    else None
  }

  function UnwrapOrEmpty(text: Option<seq<byte>>): seq<byte> {
    if text.Some? then text.value else []
  }

  method Apply(source: seq<byte>, edits: seq<TextEdit>) returns (r: Result<seq<byte>, ApplyError>)
    ensures r == Applied(source, edits)
  {
    var sorted := SortedEdits(edits);
    if sorted != [] {
      var foreign := FirstForeign(sorted, sorted[0].file);
      if foreign.Some? {
        return Err(MultipleFiles(foreign.value));
      }
    }
    var conflict := FindConflict(sorted);
    if conflict.Some? {
      return Err(ApplyError.Conflict(conflict.value));
    }
    for k := 0 to |sorted|
      invariant FirstMisfit(source, sorted) == FirstMisfit(source, sorted[k..])
    {
      var edit := sorted[k];
      assert sorted[k..][0] == edit && sorted[k..][1..] == sorted[k + 1..];
      if edit.end > |source| {
        return Err(RangeOutOfBounds(edit, |source|));
      }
      if !IsCharBoundary(source, edit.start) || !IsCharBoundary(source, edit.end) {
        return Err(RangeNotOnCharacterBoundary(edit));
      }
    }
    assert Refusal(source, sorted).None?;
    var patched := Patch(source, sorted);
    ForwardIsBackToFront(source, Listed(sorted));
    r := Ok(patched);
  }

  /** The cursor pass. No slice it takes falls back to the empty text. */
  method Patch(source: seq<byte>, sorted: seq<TextEdit>) returns (patched: seq<byte>)
    requires Ordered(Listed(sorted), 0, |source|) && forall e :: e in sorted ==> Fits(source, e)
    ensures patched == Forward(source, Listed(sorted), 0)
  {
    patched := [];
    var cursor: nat := 0;
    for k := 0 to |sorted|
      invariant Ordered(Listed(sorted[k..]), cursor, |source|) && IsCharBoundary(source, cursor)
      invariant patched + Forward(source, Listed(sorted[k..]), cursor) == Forward(source, Listed(sorted), 0)
    {
      var edit := sorted[k];
      assert sorted[k..][0] == edit && sorted[k..][1..] == sorted[k + 1..];
      OrderedBounds(Listed(sorted[k..]), cursor, |source|);
      assert edit in sorted && edit in sorted[k..];
      var kept := Get(source, cursor, edit.start);
      assert kept.Some?;
      Appended(patched, kept.value, edit.replacement, Forward(source, Listed(sorted[k + 1..]), edit.end));
      patched := patched + UnwrapOrEmpty(kept);
      patched := patched + edit.replacement;
      cursor := edit.end;
    }
    assert Listed(sorted[|sorted|..]) == Nil;
    var tail := Get(source, cursor, |source|);
    assert source[cursor..|source|] == source[cursor..];
    patched := patched + UnwrapOrEmpty(tail);
  }

  lemma Appended(patched: seq<byte>, kept: seq<byte>, replacement: seq<byte>, rest: seq<byte>)
    ensures patched + (kept + replacement + rest) == patched + kept + replacement + rest
  {
  }

  // ----- what is accepted, in terms of the edits as given

  /** One file, no two edits in collision, every range in bounds and on boundaries. */
  ghost predicate Acceptable(source: seq<byte>, edits: seq<TextEdit>) {
    && (forall a, b :: a in edits && b in edits ==> a.file == b.file)
    && CollisionFree(edits)
    && forall e :: e in edits ==> Fits(source, e)
  }

  lemma AcceptsIff(source: seq<byte>, edits: seq<TextEdit>)
    ensures Applied(source, edits).Ok? <==> Acceptable(source, edits)
  {
    var sorted := SortedEdits(edits);
    FindConflictOfSorted(edits);
    forall e ensures e in sorted <==> e in edits {
      assert e in multiset(sorted) <==> e in multiset(edits);
    }
    if sorted != [] {
      assert sorted[0] in sorted;
    }
  }

  /** What each refusal says is so: a second file, a collision of two of the
      edits, a range past the end, or one within the text that cuts a character. */
  lemma RefusalSays(source: seq<byte>, edits: seq<TextEdit>)
    requires Applied(source, edits).Err?
    ensures match Applied(source, edits).error
            case MultipleFiles(edit) => edit in edits && exists e :: e in edits && e.file != edit.file
            case Conflict(c) => c.first in edits && c.second in edits && Collide(c.first, c.second)
                                && forall a, b :: a in edits && b in edits ==> a.file == b.file
            case RangeOutOfBounds(edit, length) => edit in edits && length == |source| && edit.end > |source| && CollisionFree(edits)
            case RangeNotOnCharacterBoundary(edit) =>
              && edit in edits && edit.end <= |source| && CollisionFree(edits)
              && !(IsCharBoundary(source, edit.start) && IsCharBoundary(source, edit.end))
  {
    var sorted := SortedEdits(edits);
    forall e ensures e in sorted <==> e in edits {
      assert e in multiset(sorted) <==> e in multiset(edits);
    }
    if sorted != [] { assert sorted[0] in sorted; }
    FindConflictOfSorted(edits);
    var foreign := if sorted == [] then None else FirstForeign(sorted, sorted[0].file);
    if foreign.None? {
      if FindConflict(sorted).Some? {
        var _ := FoundConflictIsFirst(sorted);
      } else {
        MisfitSays(source, sorted);
      }
    }
  }

  lemma {:induction false} MisfitSays(source: seq<byte>, edits: seq<TextEdit>)
    requires FirstMisfit(source, edits).Some?
    ensures match FirstMisfit(source, edits).value
            case MultipleFiles(_) => false
            case Conflict(_) => false
            case RangeOutOfBounds(edit, length) => edit in edits && length == |source| && edit.end > |source|
            case RangeNotOnCharacterBoundary(edit) =>
              && edit in edits && edit.end <= |source|
              && !(IsCharBoundary(source, edit.start) && IsCharBoundary(source, edit.end))
  {
    if !Fits(source, edits[0]) {
    } else {
      MisfitSays(source, edits[1..]);
    }
  }

  /** Neither the text nor the error depends on the order the edits come in. */
  lemma {:induction false} OrderFree(source: seq<byte>, edits: seq<TextEdit>, edits': seq<TextEdit>)
    requires multiset(edits) == multiset(edits')
    ensures Applied(source, edits) == Applied(source, edits')
  {
    CompareEditTotal();
    SortedUnique(CompareEdit, SortedEdits(edits), SortedEdits(edits'));
  }

  /** Valid text in, valid text out. */
  lemma StaysValid(source: seq<byte>, edits: seq<TextEdit>)
    requires Valid(source) && forall e :: e in edits ==> Valid(e.replacement)
    requires Applied(source, edits).Ok?
    ensures Valid(Applied(source, edits).value)
  {
    var sorted := SortedEdits(edits);
    forall e | e in sorted ensures e in edits { assert e in multiset(sorted); }
    AllOnCharacters(source, Listed(sorted));
    ForwardValid(source, Listed(sorted), 0);
    ForwardIsBackToFront(source, Listed(sorted));
  }

  lemma {:induction false} AllOnCharacters(source: seq<byte>, edits: EditList)
    ensures OnCharacters(source, edits) <==> forall e :: e in edits.Elements() ==>
              IsCharBoundary(source, e.start) && IsCharBoundary(source, e.end) && Valid(e.replacement)
  {
    match edits
    case Nil =>
    case Cons(e, rest) =>
      AllOnCharacters(source, rest);
      assert edits.Elements() == [e] + rest.Elements();
  }

  // ----- one part, then the other

  /** No two neighbours insert at one point. */
  predicate RaceFree(edits: EditList) {
    match edits
    case Nil => true
    case Cons(e, rest) =>
      (rest.Cons? ==> !(e.start == e.end == rest.head.start == rest.head.end)) && RaceFree(rest)
  }

  predicate OneFile(edits: EditList, file: nat) {
    match edits
    case Nil => true
    case Cons(e, rest) => e.file == file && OneFile(rest, file)
  }

  /** An ordered set of one file is free of conflict unless two insertions
      race for one point. */
  lemma {:induction false} ConflictFreeIffRaceFree(edits: EditList, cursor: nat, length: nat, file: nat)
    requires Ordered(edits, cursor, length) && OneFile(edits, file)
    ensures FindConflict(edits.Elements()).None? <==> RaceFree(edits)
  {
    match edits
    case Nil =>
    case Cons(e, rest) =>
      ConflictFreeIffRaceFree(rest, e.end, length, file);
      assert edits.Elements()[1..] == rest.Elements();
      if rest.Cons? { assert rest.Elements()[0] == rest.head; }
  }

  /** And it is sorted already. */
  lemma {:induction false} OrderedIsSorted(edits: EditList, cursor: nat, length: nat, file: nat)
    requires Ordered(edits, cursor, length) && OneFile(edits, file) && RaceFree(edits)
    ensures Sorted(CompareEdit, edits.Elements())
  {
    match edits
    case Nil =>
    case Cons(e, rest) =>
      OrderedIsSorted(rest, e.end, length, file);
      if rest.Cons? {
        var elements := rest.Elements();
        CompareEditTotal();
        assert CompareEdit(e, rest.head) == Less;
        assert elements[0] == rest.head;
        forall j | 0 <= j < |elements| ensures CompareEdit(e, elements[j]) != Greater {
          assert j > 0 ==> CompareEdit(elements[0], elements[j]) != Greater;
        }
      }
  }

  lemma {:induction false} OneFileElements(edits: EditList, file: nat)
    ensures OneFile(edits, file) <==> forall e :: e in edits.Elements() ==> e.file == file
  {
    match edits
    case Nil =>
    case Cons(e, rest) =>
      OneFileElements(rest, file);
      assert edits.Elements() == [e] + rest.Elements();
  }

  lemma {:induction false} ListedBack(edits: EditList)
    ensures Listed(edits.Elements()) == edits
  {
    match edits
    case Nil =>
    case Cons(e, rest) =>
      ListedBack(rest);
      assert edits.Elements()[1..] == rest.Elements();
  }

  /** Applying a list that is in order, on one file and on characters. */
  lemma {:induction false} AppliedInOrder(source: seq<byte>, edits: EditList, file: nat)
    requires Ordered(edits, 0, |source|) && OneFile(edits, file) && OnCharacters(source, edits)
    ensures Applied(source, edits.Elements()).Ok? <==> RaceFree(edits)
    ensures RaceFree(edits) ==> Applied(source, edits.Elements()) == Ok(Forward(source, edits, 0))
  {
    var elements := edits.Elements();
    OrderedBounds(edits, 0, |source|);
    OneFileElements(edits, file);
    AllOnCharacters(source, edits);
    AcceptsIff(source, elements);
    FindConflictOfSorted(elements);
    if RaceFree(edits) {
      OrderedIsSorted(edits, 0, |source|, file);
      ConflictFreeIffRaceFree(edits, 0, |source|, file);
      AdjacentPairsSuffice(elements);
      CompareEditTotal();
      SortedUnique(CompareEdit, SortedEdits(elements), elements);
      ListedBack(edits);
      ForwardIsBackToFront(source, edits);
    } else {
      RaceIsCollision(edits);
    }
  }

  lemma {:induction false} RaceIsCollision(edits: EditList)
    requires !RaceFree(edits) && exists file :: OneFile(edits, file)
    ensures !CollisionFree(edits.Elements())
  {
    var file :| OneFile(edits, file);
    var e, rest := edits.head, edits.tail;
    var elements := edits.Elements();
    assert elements[1..] == rest.Elements();
    if RaceFree(rest) {
      assert elements[1] == rest.Elements()[0] == rest.head;
      assert Collide(elements[0], elements[1]);
    } else {
      assert OneFile(rest, file);
      RaceIsCollision(rest);
      var i, j :| 0 <= i < j < |rest.Elements()| && Collide(rest.Elements()[i], rest.Elements()[j]);
      assert Collide(elements[i + 1], elements[j + 1]);
    }
  }

  lemma {:induction false} PartsOneFile(marked: Marked, cursor: nat, shift: int, length: nat, file: nat)
    requires Ordered(marked.All(), cursor, length) && cursor + shift >= 0 && OneFile(marked.All(), file)
    ensures OneFile(marked.First(), file) && OneFile(Rebased(marked, cursor, shift, length), file)
  {
    match marked
    case Unmarked =>
    case Mark(e, first, rest) =>
      PartsOneFile(rest, e.end, if first then Shifted(e, shift) else shift, length, file);
  }

  /** The first part deletes everything from `at` to the next edit of the
      rest, and puts nothing there; and that edit is an insertion. */
  predicate ClosesUp(marked: Marked, at: nat) {
    match marked
    case Unmarked => false
    case Mark(e, first, rest) =>
      if first then e.start == at && e.replacement == [] && ClosesUp(rest, e.end)
      else e.start == e.end == at
  }

  /** Two insertions of the rest have nothing between them but what the first
      part deletes. */
  predicate BringsTogether(marked: Marked) {
    match marked
    case Unmarked => false
    case Mark(e, first, rest) =>
      (!first && e.start == e.end && ClosesUp(rest, e.end)) || BringsTogether(rest)
  }

  lemma {:induction false} ClosesUpIff(marked: Marked, cursor: nat, shift: int, length: nat)
    requires Ordered(marked.All(), cursor, length) && cursor + shift >= 0
    ensures var second := Rebased(marked, cursor, shift, length);
            && (second.Cons? ==> second.head.start >= cursor + shift)
            && (ClosesUp(marked, cursor) <==> second.Cons? && second.head.start == second.head.end == cursor + shift)
  {
    match marked
    case Unmarked =>
    case Mark(e, first, rest) =>
      ClosesUpIff(rest, e.end, if first then Shifted(e, shift) else shift, length);
  }

  /** The rest races exactly when the first part brings two of its insertions
      together, by deleting all there is between them. */
  lemma {:induction false} RebasedRacesIff(marked: Marked, cursor: nat, shift: int, length: nat)
    requires Ordered(marked.All(), cursor, length) && cursor + shift >= 0
    ensures !RaceFree(Rebased(marked, cursor, shift, length)) <==> BringsTogether(marked)
  {
    match marked
    case Unmarked =>
    case Mark(e, first, rest) =>
      var shift' := if first then Shifted(e, shift) else shift;
      RebasedRacesIff(rest, e.end, shift', length);
      if !first { ClosesUpIff(rest, e.end, shift, length); }
  }

  /** Applying any part of an accepted set and then the rest, rebased,
      gives the text of the whole, except that `apply` refuses the rest
      exactly when the first part deletes all there is between two insertions
      of it, which the rebasing then brings together. */
  lemma {:induction false} SplitThroughApply(source: seq<byte>, edits: seq<TextEdit>, marked: Marked)
    requires Valid(source) && forall e :: e in edits ==> Valid(e.replacement)
    requires Applied(source, edits).Ok? && marked.All() == Listed(SortedEdits(edits))
    ensures Ordered(marked.All(), 0, |source|)
    ensures var first := Applied(source, marked.First().Elements());
            var second := Rebased(marked, 0, 0, |source|);
            && first.Ok?
            && (Applied(first.value, second.Elements()).Ok? <==> !BringsTogether(marked))
            && (!BringsTogether(marked) ==> Applied(first.value, second.Elements()) == Applied(source, edits))
  {
    var sorted := SortedEdits(edits);
    var all := marked.All();
    AcceptsIff(source, edits);
    forall e | e in sorted ensures e in edits { assert e in multiset(sorted); }
    var file := if sorted == [] then 0 else sorted[0].file;
    assert sorted != [] ==> sorted[0] in sorted;
    OneFileElements(all, file);
    AllOnCharacters(source, all);
    ConflictFreeIffRaceFree(all, 0, |source|, file);
    FirstPart(source, marked, file);
    SecondPart(source, marked, file);
    RebasedRacesIff(marked, 0, 0, |source|);
    ForwardIsBackToFront(source, all);
  }

  /** One file, in order, on characters, no two insertions together. */
  ghost predicate Clean(source: seq<byte>, edits: EditList, file: nat) {
    Ordered(edits, 0, |source|) && OneFile(edits, file) && OnCharacters(source, edits) && RaceFree(edits)
  }

  lemma FirstPart(source: seq<byte>, marked: Marked, file: nat)
    requires Clean(source, marked.All(), file)
    ensures Ordered(marked.First(), 0, |source|)
    ensures Applied(source, marked.First().Elements()) == Ok(Forward(source, marked.First(), 0))
  {
    PartsOneFile(marked, 0, 0, |source|, file);
    FirstOrdered(marked, 0, |source|);
    FirstOnCharacters(source, marked);
    FirstRaceFree(marked, 0, |source|, file);
    AppliedInOrder(source, marked.First(), file);
  }

  lemma {:induction false} SecondPart(source: seq<byte>, marked: Marked, file: nat)
    requires Valid(source) && Clean(source, marked.All(), file) && Ordered(marked.First(), 0, |source|)
    ensures var patched := Forward(source, marked.First(), 0);
            var second := Rebased(marked, 0, 0, |source|);
            (Applied(patched, second.Elements()).Ok? <==> RaceFree(second)) &&
            (RaceFree(second) ==> Applied(patched, second.Elements()) == Ok(Forward(source, marked.All(), 0)))
  {
    var patched := Forward(source, marked.First(), 0);
    assert patched[0..] == patched;
    assert InStep(source, marked.First(), 0, patched, 0);
    PartsOneFile(marked, 0, 0, |source|, file);
    SplitForward(source, marked, 0, patched, 0);
    RebasedOnCharacters(source, marked, 0, patched, 0);
    AppliedInOrder(patched, Rebased(marked, 0, 0, |source|), file);
  }

  /** A part of a race-free set is race-free: its members only drift apart. */
  lemma {:induction false} FirstRaceFree(marked: Marked, cursor: nat, length: nat, file: nat)
    requires Ordered(marked.All(), cursor, length) && RaceFree(marked.All())
    ensures RaceFree(marked.First())
    ensures marked.All().Cons? && marked.First().Cons? ==>
      !(cursor == marked.First().head.start == marked.First().head.end) || marked.First().head == marked.All().head
  {
    match marked
    case Unmarked =>
    case Mark(e, first, rest) =>
      FirstRaceFree(rest, e.end, length, file);
      FirstOrdered(rest, e.end, length);
  }

  /** Three characters, the middle one deleted in the first part. */
  function Abc(): seq<byte> { [97, 98, 99] }

  function DeletionBetweenInsertions(): Marked {
    Mark(Edit(0, 1, 1, [88]), false, Mark(Edit(0, 1, 2, []), true, Mark(Edit(0, 2, 2, [89]), false, Unmarked)))
  }

  /** The second part can be refused: deleting what lies between two
      insertions of an accepted set brings them together. */
  lemma {:induction false} RebasingCanRace()
    ensures Ordered(DeletionBetweenInsertions().All(), 0, |Abc()|)
    ensures var whole := DeletionBetweenInsertions();
            var first := Applied(Abc(), whole.First().Elements());
            && Valid(Abc())
            && Applied(Abc(), whole.All().Elements()) == Ok([97, 88, 89, 99])
            && first == Ok([97, 99])
            && Applied(first.value, Rebased(whole, 0, 0, |Abc()|).Elements()).Err?
  {
    hide Applied, Forward, Ordered, OnCharacters, Rebased, Marked.All, Marked.First, Valid;
    AbcValid();
    InOrder();
    OnItsCharacters();
    ForwardSteps();
    RacesAndNot();
    var whole := DeletionBetweenInsertions();
    AppliedInOrder(Abc(), whole.All(), 0);
    AppliedInOrder(Abc(), whole.First(), 0);
    AppliedInOrder([97, 99], Rebased(whole, 0, 0, 3), 0);
  }

  lemma AbcValid()
    ensures Valid(Abc())
  {
    AsciiIsValid(97);
    AsciiIsValid(98);
    AsciiIsValid(99);
    ValidConcat([97], [98]);
    ValidConcat([97, 98], [99]);
  }

  lemma RacesAndNot()
    ensures OneFile(DeletionBetweenInsertions().All(), 0) && RaceFree(DeletionBetweenInsertions().All())
    ensures OneFile(DeletionBetweenInsertions().First(), 0) && RaceFree(DeletionBetweenInsertions().First())
    ensures var raced := Cons(Edit(0, 1, 1, [88]), Cons(Edit(0, 1, 1, [89]), Nil)); OneFile(raced, 0) && !RaceFree(raced)
  {
  }

  lemma ForwardSteps()
    ensures Ordered(DeletionBetweenInsertions().All(), 0, 3) && Ordered(DeletionBetweenInsertions().First(), 0, 3)
    ensures Forward(Abc(), DeletionBetweenInsertions().All(), 0) == [97, 88, 89, 99]
    ensures Forward(Abc(), DeletionBetweenInsertions().First(), 0) == [97, 99]
  {
    InOrder();
    assert Forward(Abc(), Cons(Edit(0, 2, 2, [89]), Nil), 2) == [89, 99];
    assert Forward(Abc(), Cons(Edit(0, 1, 2, []), Cons(Edit(0, 2, 2, [89]), Nil)), 1) == [89, 99];
  }

  lemma AsciiIsValid(b: byte)
    requires b < 0x80
    ensures Valid([b]) && Valid([])
  {
    var c := b as char;
    assert [c][1..] == [] && Encode([]) == [];
    assert Encode([c]) == EncodeChar(c) + [] == [b];
  }

  lemma InOrder()
    ensures Ordered(DeletionBetweenInsertions().All(), 0, 3)
    ensures Ordered(DeletionBetweenInsertions().First(), 0, 3)
    ensures Rebased(DeletionBetweenInsertions(), 0, 0, 3) == Cons(Edit(0, 1, 1, [88]), Cons(Edit(0, 1, 1, [89]), Nil))
    ensures Ordered(Rebased(DeletionBetweenInsertions(), 0, 0, 3), 0, 2)
  {
    assert Ordered(Cons(Edit(0, 1, 1, [89]), Nil), 1, 2);
    assert DeletionBetweenInsertions().All()
        == Cons(Edit(0, 1, 1, [88]), Cons(Edit(0, 1, 2, []), Cons(Edit(0, 2, 2, [89]), Nil)));
    assert DeletionBetweenInsertions().First() == Cons(Edit(0, 1, 2, []), Nil);
    assert Ordered(Cons(Edit(0, 1, 2, []), Cons(Edit(0, 2, 2, [89]), Nil)), 1, 3);
  }

  lemma OnItsCharacters()
    ensures OnCharacters(Abc(), DeletionBetweenInsertions().All())
    ensures OnCharacters(Abc(), DeletionBetweenInsertions().First())
    ensures OnCharacters([97, 99], Cons(Edit(0, 1, 1, [88]), Cons(Edit(0, 1, 1, [89]), Nil)))
  {
    AsciiIsValid(88);
    AsciiIsValid(89);
    assert OnCharacters(Abc(), Cons(Edit(0, 2, 2, [89]), Nil));
    assert OnCharacters([97, 99], Cons(Edit(0, 1, 1, [89]), Nil));
    hide Valid;
    assert DeletionBetweenInsertions().All()
        == Cons(Edit(0, 1, 1, [88]), Cons(Edit(0, 1, 2, []), Cons(Edit(0, 2, 2, [89]), Nil)));
    assert DeletionBetweenInsertions().First() == Cons(Edit(0, 1, 2, []), Nil);
    assert OnCharacters(Abc(), Cons(Edit(0, 1, 2, []), Cons(Edit(0, 2, 2, [89]), Nil)));
  }
}
