/** Text edits: their total order, what makes two of them conflict, and
    the one-pass application of an edit set to a source text. */
module Edits {
  import opened Wrappers
  import opened Ordering
  import opened Utf8

  datatype Edit = Edit(file: nat, start: nat, end: nat, replacement: seq<byte>)

  /** A range never ends before it starts: `TextRange::new` refuses one that does. */
  type TextEdit = e: Edit | e.start <= e.end witness Edit(0, 0, 0, [])

  // ----- the total order

  function CompareByte(x: byte, y: byte): Cmp {
    if x < y then Less else if x == y then Equal else Greater
  }

  function CompareEdit(a: TextEdit, b: TextEdit): Cmp {
    CompareNat(a.file, b.file)
      .Then(CompareNat(a.start, b.start))
      .Then(CompareNat(a.end, b.end))
      .Then(CompareSeq(CompareByte, a.replacement, b.replacement))
  }

  lemma CompareEditTotal()
    ensures TotalCompare(CompareEdit)
  {
    forall a: TextEdit, b: TextEdit
      ensures CompareEdit(a, b) == Equal <==> a == b
      ensures CompareEdit(b, a) == CompareEdit(a, b).Flip()
    {
      CompareSeqEqual(CompareByte, a.replacement, b.replacement);
      CompareSeqFlip(CompareByte, a.replacement, b.replacement);
    }
    forall a: TextEdit, b: TextEdit, c: TextEdit | CompareEdit(a, b) != Greater && CompareEdit(b, c) != Greater
      ensures CompareEdit(a, c) != Greater
    {
      if a.(replacement := []) == b.(replacement := []) == c.(replacement := []) {
        CompareSeqTransitive(CompareByte, a.replacement, b.replacement, c.replacement);
      }
    }
  }

  /** By file, then start, then end, then the replacement's bytes. */
  lemma EditBefore(a: TextEdit, b: TextEdit)
    ensures CompareEdit(a, b) == Less <==>
              || a.file < b.file
              || (a.file == b.file && (
                  || a.start < b.start
                  || (a.start == b.start && (
                      || a.end < b.end
                      || (a.end == b.end && CompareSeq(CompareByte, a.replacement, b.replacement) == Less)))))
    ensures forall x, y :: CompareByte(x, y) == Less <==> x < y
  {
  }

  function SortedEdits(edits: seq<TextEdit>): (r: seq<TextEdit>)
    ensures Sorted(CompareEdit, r) && multiset(r) == multiset(edits)
  {
    CompareEditTotal();
    SortSorted(CompareEdit, edits);
    SortPermutes(CompareEdit, edits);
    Sort(CompareEdit, edits)
  }

  // ----- conflicts

  datatype EditConflict = EditConflict(first: TextEdit, second: TextEdit)

  /** The test made on an adjacent pair of a sorted slice. */
  predicate Clash(first: TextEdit, second: TextEdit) {
    first.file == second.file &&
    (first.end > second.start || (first.start == second.start && first.end == second.end && first.start == first.end))
  }

  function FindConflict(sorted: seq<TextEdit>): Option<EditConflict> {
    if |sorted| < 2 then None
    else if Clash(sorted[0], sorted[1]) then Some(EditConflict(sorted[0], sorted[1]))
    else FindConflict(sorted[1..])
  }

  /** What a conflict is, whatever the order of the two edits: they claim a
      common byte, one inserts strictly inside the other's range, or both
      insert at one point. Touching at a boundary is none of these. */
  predicate Collide(a: TextEdit, b: TextEdit) {
    a.file == b.file &&
    ((a.start < b.end && b.start < a.end && a.start < a.end && b.start < b.end)
     || (a.start < b.start == b.end < a.end)
     || (b.start < a.start == a.end < b.end)
     || (a.start == a.end == b.start == b.end))
  }

  ghost predicate CollisionFree(edits: seq<TextEdit>) {
    forall i, j :: 0 <= i < j < |edits| ==> !Collide(edits[i], edits[j])
  }

  lemma ClashIffCollide(a: TextEdit, b: TextEdit)
    requires CompareEdit(a, b) != Greater
    ensures Clash(a, b) <==> Collide(a, b)
  {
  }

  lemma {:induction false} FindConflictAdjacent(s: seq<TextEdit>)
    ensures FindConflict(s).None? <==> forall i :: 0 <= i < |s| - 1 ==> !Clash(s[i], s[i + 1])
  {
    if |s| < 2 {
    } else {
      FindConflictAdjacent(s[1..]);
      if FindConflict(s[1..]).None? {
        forall i | 1 <= i < |s| - 1 ensures !Clash(s[i], s[i + 1]) {
          assert s[1..][i - 1] == s[i] && s[1..][i] == s[i + 1];
        }
      } else {
        var i :| 0 <= i < |s[1..]| - 1 && Clash(s[1..][i], s[1..][i + 1]);
        assert Clash(s[i + 1], s[i + 1 + 1]);
      }
    }
  }

  /** Without an adjacent clash, a later edit of the same file starts at or
      after every earlier end, and repeats no insertion point. */
  lemma {:induction false} NoClashBetween(s: seq<TextEdit>, i: nat, j: nat)
    requires Sorted(CompareEdit, s) && i < j < |s| && s[i].file == s[j].file
    requires forall k :: 0 <= k < |s| - 1 ==> !Clash(s[k], s[k + 1])
    ensures s[i].end <= s[j].start && !Collide(s[i], s[j])
    decreases j - i
  {
    if j == i + 1 {
      assert !Clash(s[i], s[i + 1]);
      ClashIffCollide(s[i], s[j]);
    } else {
      assert CompareEdit(s[i], s[j - 1]) != Greater && CompareEdit(s[j - 1], s[j]) != Greater;
      assert s[j - 1].file == s[i].file;
      NoClashBetween(s, i, j - 1);
      assert !Clash(s[j - 1], s[j - 1 + 1]);
      ClashIffCollide(s[i], s[j - 1]);
      ClashIffCollide(s[j - 1], s[j]);
    }
  }

  /** Adjacent pairs suffice. */
  lemma {:induction false} AdjacentPairsSuffice(s: seq<TextEdit>)
    requires Sorted(CompareEdit, s)
    ensures FindConflict(s).None? <==> CollisionFree(s)
  {
    FindConflictAdjacent(s);
    hide FindConflict;
    if FindConflict(s).None? {
      forall i, j | 0 <= i < j < |s| ensures !Collide(s[i], s[j]) {
        if s[i].file == s[j].file { NoClashBetween(s, i, j); }
      }
    } else {
      var k :| 0 <= k < |s| - 1 && Clash(s[k], s[k + 1]);
      ClashIffCollide(s[k], s[k + 1]);
    }
  }

  lemma {:induction false} FirstClash(s: seq<TextEdit>) returns (i: nat)
    requires FindConflict(s).Some?
    ensures i + 1 < |s| && FindConflict(s).value == EditConflict(s[i], s[i + 1]) && Clash(s[i], s[i + 1])
    ensures forall k :: 0 <= k < i ==> !Clash(s[k], s[k + 1])
  {
    hide Clash;
    if Clash(s[0], s[1]) {
      i := 0;
    } else {
      var j := FirstClash(s[1..]);
      i := j + 1;
      forall k | 0 <= k < i ensures !Clash(s[k], s[k + 1]) {
        if k > 0 { assert !Clash(s[1..][k - 1], s[1..][k - 1 + 1]); }
      }
    }
  }

  /** What is reported is a colliding pair of the slice, and the first: all
      edits up to the earlier of the two get along. */
  lemma {:induction false} FoundConflictIsFirst(s: seq<TextEdit>) returns (i: nat)
    requires Sorted(CompareEdit, s) && FindConflict(s).Some?
    ensures i + 1 < |s| && FindConflict(s).value == EditConflict(s[i], s[i + 1])
    ensures Collide(s[i], s[i + 1]) && CollisionFree(s[..i + 1])
  {
    i := FirstClash(s);
    ClashIffCollide(s[i], s[i + 1]);
    hide FindConflict, Clash, Collide, CompareEdit;
    FindConflictAdjacent(s[..i + 1]);
    AdjacentPairsSuffice(s[..i + 1]);
  }

  // ----- collisions do not depend on the order of the list

  lemma {:induction false} TwoPlaces<T>(t: seq<T>, x: T) returns (i: nat, j: nat)
    requires multiset(t)[x] >= 2
    ensures i < j < |t| && t[i] == x && t[j] == x
  {
    assert t == [t[0]] + t[1..];
    if t[0] == x {
      assert x in t[1..];
      var k :| 0 <= k < |t[1..]| && t[1..][k] == x;
      i, j := 0, k + 1;
    } else {
      i, j := TwoPlaces(t[1..], x);
      i, j := i + 1, j + 1;
    }
  }

  /** A pair of positions of one arrangement is a pair of the other. */
  lemma PairTransfers<T>(s: seq<T>, t: seq<T>, i: nat, j: nat) returns (i': nat, j': nat)
    requires multiset(s) == multiset(t) && i < j < |s|
    ensures i' < j' < |t|
    ensures (t[i'] == s[i] && t[j'] == s[j]) || (t[i'] == s[j] && t[j'] == s[i])
  {
    if s[i] == s[j] {
      CountedTwice(s, i, j);
      i', j' := TwoPlaces(t, s[i]);
    } else {
      assert s[i] in multiset(t) && s[j] in multiset(t);
      i' :| 0 <= i' < |t| && t[i'] == s[i];
      j' :| 0 <= j' < |t| && t[j'] == s[j];
      if j' < i' { i', j' := j', i'; }
    }
  }

  lemma CollisionFreePermutes(s: seq<TextEdit>, t: seq<TextEdit>)
    requires multiset(s) == multiset(t) && CollisionFree(s)
    ensures CollisionFree(t)
  {
    forall i, j | 0 <= i < j < |t| ensures !Collide(t[i], t[j]) {
      var i', j' := PairTransfers(t, s, i, j);
    }
  }

  lemma FindConflictOfSorted(edits: seq<TextEdit>)
    ensures FindConflict(SortedEdits(edits)).None? <==> CollisionFree(edits)
  {
    var sorted := SortedEdits(edits);
    AdjacentPairsSuffice(sorted);
    if CollisionFree(sorted) { CollisionFreePermutes(sorted, edits); }
    if CollisionFree(edits) { CollisionFreePermutes(edits, sorted); }
  }
}
