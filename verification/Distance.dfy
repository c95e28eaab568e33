/** Optimal string alignment distance: the recurrence, its meaning as the
    least cost of an edit script, and the three-row, early-abandoning
    computation that the did-you-mean search runs for every candidate. */
module Distance {
  import opened Wrappers

  function Min(x: nat, y: nat): nat { if x < y then x else y }

  // ----- the recurrence

  /** The least of the ways to reach a cell; a transposition is not always one. */
  function Cheapest(substitution: nat, insertion: nat, deletion: nat, transposition: Option<nat>): nat {
    var best := Min(Min(substitution, insertion), deletion);
    if transposition.Some? then Min(best, transposition.value) else best
  }

  /** Swapping the two characters before `i` in `a` gives the two before `j` in `b`. */
  predicate Swapped(a: string, b: string, i: nat, j: nat)
    requires i <= |a| && j <= |b|
  {
    i >= 2 && j >= 2 && a[i - 2] == b[j - 1] && a[i - 1] == b[j - 2]
  }

  /** Full-matrix cell (i, j): the distance between the first `i`
      characters of `a` and the first `j` of `b`. */
  function Cell(a: string, b: string, i: nat, j: nat): nat
    requires i <= |a| && j <= |b|
    decreases i + j
  {
    if i == 0 then j
    else if j == 0 then i
    else
      Cheapest(Cell(a, b, i - 1, j - 1) + (if a[i - 1] == b[j - 1] then 0 else 1),
               Cell(a, b, i, j - 1) + 1,
               Cell(a, b, i - 1, j) + 1,
               if Swapped(a, b, i, j) then Some(Cell(a, b, i - 2, j - 2) + 1) else None)
  }

  /** The recurrence over values already known for the neighbouring cells.
      Proofs go through here, so that they never unfold a whole matrix. */
  lemma CellFrom(a: string, b: string, i: nat, j: nat, cell: nat, diagonal: nat, left: nat, up: nat, far: nat)
    requires 0 < i <= |a| && 0 < j <= |b|
    requires cell == Cell(a, b, i, j) && diagonal == Cell(a, b, i - 1, j - 1)
    requires left == Cell(a, b, i, j - 1) && up == Cell(a, b, i - 1, j)
    requires Swapped(a, b, i, j) ==> far == Cell(a, b, i - 2, j - 2)
    ensures cell == Cheapest(diagonal + (if a[i - 1] == b[j - 1] then 0 else 1), left + 1, up + 1,
                             if Swapped(a, b, i, j) then Some(far + 1) else None)
  {
  }

  lemma CellEdge(a: string, b: string)
    ensures forall j {:trigger Cell(a, b, 0, j)} :: 0 <= j <= |b| ==> Cell(a, b, 0, j) == j
    ensures forall i {:trigger Cell(a, b, i, 0)} :: 0 <= i <= |a| ==> Cell(a, b, i, 0) == i
  {
  }

  datatype Origin = Diagonal | Insertion | Deletion | Transposition

  lemma CheapestOrigin(substitution: nat, insertion: nat, deletion: nat, transposition: Option<nat>)
    returns (origin: Origin)
    ensures var best := Cheapest(substitution, insertion, deletion, transposition);
            best <= substitution && best <= insertion && best <= deletion &&
            (transposition.Some? ==> best <= transposition.value)
    ensures origin.Transposition? ==> transposition.Some?
    ensures Cheapest(substitution, insertion, deletion, transposition) ==
            match origin
            case Diagonal => substitution
            case Insertion => insertion
            case Deletion => deletion
            case Transposition => transposition.value
  {
    var best := Cheapest(substitution, insertion, deletion, transposition);
    origin := if best == substitution then Diagonal
              else if best == insertion then Insertion
              else if best == deletion then Deletion
              else Transposition;
  }

  function OsaDistance(a: string, b: string): nat {
    Cell(a, b, |a|, |b|)
  }

  // ----- edit scripts

  /** One step of an alignment, carrying what it reads and what it writes. */
  datatype Step =
    | Keep(c: char)
    | Substitute(from: char, to: char)
    | Insert(c: char)
    | Delete(c: char)
    | Transpose(first: char, second: char)
  {
    function Reads(): string {
      match this
      case Keep(c) => [c]
      case Substitute(x, _) => [x]
      case Insert(_) => []
      case Delete(c) => [c]
      case Transpose(x, y) => [x, y]
    }

    function Writes(): string {
      match this
      case Keep(c) => [c]
      case Substitute(_, y) => [y]
      case Insert(c) => [c]
      case Delete(_) => []
      case Transpose(x, y) => [y, x]
    }

    function Cost(): nat { if Keep? then 0 else 1 }

    function Inverse(): Step {
      match this
      case Keep(c) => Keep(c)
      case Substitute(x, y) => Substitute(y, x)
      case Insert(c) => Delete(c)
      case Delete(c) => Insert(c)
      case Transpose(x, y) => Transpose(y, x)
    }
  }

  /** Steps in the order they are taken, the last one outermost. */
  datatype Script = Start | Then(front: Script, step: Step)

  function ReadBy(script: Script): string {
    match script
    case Start => []
    case Then(front, step) => ReadBy(front) + step.Reads()
  }

  function WrittenBy(script: Script): string {
    match script
    case Start => []
    case Then(front, step) => WrittenBy(front) + step.Writes()
  }

  function CostOf(script: Script): nat {
    match script
    case Start => 0
    case Then(front, step) => CostOf(front) + step.Cost()
  }

  function InverseOf(script: Script): Script {
    match script
    case Start => Start
    case Then(front, step) => Then(InverseOf(front), step.Inverse())
  }

  /** `script` rewrites `a` into `b`, no character touched twice. */
  predicate Rewrites(script: Script, a: string, b: string) {
    ReadBy(script) == a && WrittenBy(script) == b
  }

  // ----- the recurrence is the least script cost

  /** `step` reads a[i0..i] and writes b[j0..j]. */
  predicate Spans(a: string, b: string, step: Step, i0: nat, j0: nat, i: nat, j: nat)
    requires i <= |a| && j <= |b|
  {
    match step
    case Keep(c) => i == i0 + 1 && j == j0 + 1 && a[i0] == c == b[j0]
    case Substitute(x, y) => i == i0 + 1 && j == j0 + 1 && a[i0] == x && b[j0] == y
    case Insert(c) => i == i0 && j == j0 + 1 && b[j0] == c
    case Delete(c) => i == i0 + 1 && j == j0 && a[i0] == c
    case Transpose(x, y) =>
      i == i0 + 2 && j == j0 + 2 && a[i0] == x == b[j0 + 1] && a[i0 + 1] == y == b[j0]
  }

  lemma SpansExtends(a: string, b: string, step: Step, i0: nat, j0: nat, i: nat, j: nat)
    requires i <= |a| && j <= |b| && Spans(a, b, step, i0, j0, i, j)
    ensures a[..i] == a[..i0] + step.Reads() && b[..j] == b[..j0] + step.Writes()
  {
  }

  lemma ExtendsSpans(a: string, b: string, step: Step, read: string, written: string, i: nat, j: nat)
    requires i <= |a| && j <= |b|
    requires a[..i] == read + step.Reads() && b[..j] == written + step.Writes()
    ensures Spans(a, b, step, |read|, |written|, i, j)
    ensures a[..|read|] == read && b[..|written|] == written
  {
    var left, right := a[..i], b[..j];
    assert forall k :: 0 <= k < i ==> a[k] == left[k];
    assert forall k :: 0 <= k < j ==> b[k] == right[k];
  }

  /** One step from cell (i0, j0) reaches (i, j) at the step's own cost, or better. */
  lemma {:induction false} CellStep(a: string, b: string, step: Step, i0: nat, j0: nat, i: nat, j: nat)
    requires i <= |a| && j <= |b| && Spans(a, b, step, i0, j0, i, j)
    ensures Cell(a, b, i, j) <= Cell(a, b, i0, j0) + step.Cost()
  {
    hide Cell, Cheapest;
    CellEdge(a, b);
    if i > 0 && j > 0 {
      var diagonal, left, up := Cell(a, b, i - 1, j - 1), Cell(a, b, i, j - 1), Cell(a, b, i - 1, j);
      var far := if Swapped(a, b, i, j) then Cell(a, b, i - 2, j - 2) else 0;
      CellFrom(a, b, i, j, Cell(a, b, i, j), diagonal, left, up, far);
      var _ := CheapestOrigin(diagonal + (if a[i - 1] == b[j - 1] then 0 else 1), left + 1, up + 1,
        if Swapped(a, b, i, j) then Some(far + 1) else None);
    }
  }

  /** No script is cheaper than the distance. */
  lemma {:induction false} NoScriptIsCheaper(script: Script, a: string, b: string, i: nat, j: nat)
    requires i <= |a| && j <= |b|
    requires Rewrites(script, a[..i], b[..j])
    ensures Cell(a, b, i, j) <= CostOf(script)
  {
    match script
    case Start =>
    case Then(front, step) =>
      var i0, j0 := |ReadBy(front)|, |WrittenBy(front)|;
      ExtendsSpans(a, b, step, ReadBy(front), WrittenBy(front), i, j);
      NoScriptIsCheaper(front, a, b, i0, j0);
      CellStep(a, b, step, i0, j0, i, j);
  }

  /** The step the recurrence took to reach its least value at (i, j). */
  lemma BestLastStep(a: string, b: string, i: nat, j: nat) returns (step: Step, i0: nat, j0: nat)
    requires i <= |a| && j <= |b| && i + j > 0
    ensures i0 <= i && j0 <= j && i0 + j0 < i + j
    ensures Spans(a, b, step, i0, j0, i, j)
    ensures Cell(a, b, i, j) == Cell(a, b, i0, j0) + step.Cost()
  {
    hide Cell, Cheapest;
    CellEdge(a, b);
    if i == 0 {
      return Insert(b[j - 1]), 0, j - 1;
    } else if j == 0 {
      return Delete(a[i - 1]), i - 1, 0;
    }
    var change := if a[i - 1] == b[j - 1] then 0 else 1;
    var diagonal, left, up := Cell(a, b, i - 1, j - 1), Cell(a, b, i, j - 1), Cell(a, b, i - 1, j);
    var far := if Swapped(a, b, i, j) then Cell(a, b, i - 2, j - 2) else 0;
    CellFrom(a, b, i, j, Cell(a, b, i, j), diagonal, left, up, far);
    var origin := CheapestOrigin(diagonal + change, left + 1, up + 1,
      if Swapped(a, b, i, j) then Some(far + 1) else None);
    match origin
    case Insertion => return Insert(b[j - 1]), i, j - 1;
    case Deletion => return Delete(a[i - 1]), i - 1, j;
    case Transposition => return Transpose(a[i - 2], a[i - 1]), i - 2, j - 2;
    case Diagonal =>
      step := if change == 0 then Keep(a[i - 1]) else Substitute(a[i - 1], b[j - 1]);
      i0, j0 := i - 1, j - 1;
  }

  /** Some script attains the distance. */
  lemma {:induction false} SomeScriptAttains(a: string, b: string, i: nat, j: nat) returns (script: Script)
    requires i <= |a| && j <= |b|
    ensures Rewrites(script, a[..i], b[..j]) && CostOf(script) == Cell(a, b, i, j)
    decreases i + j
  {
    if i == 0 && j == 0 {
      return Start;
    }
    var step, i0, j0 := BestLastStep(a, b, i, j);
    var front := SomeScriptAttains(a, b, i0, j0);
    SpansExtends(a, b, step, i0, j0, i, j);
    script := Then(front, step);
  }

  /** The distance is exactly the least cost of a script between the two texts. */
  lemma DistanceIsLeastScriptCost(a: string, b: string)
    ensures forall script :: Rewrites(script, a, b) ==> OsaDistance(a, b) <= CostOf(script)
    ensures exists script :: Rewrites(script, a, b) && CostOf(script) == OsaDistance(a, b)
  {
    assert a[..|a|] == a && b[..|b|] == b;
    forall script | Rewrites(script, a, b) ensures OsaDistance(a, b) <= CostOf(script) {
      NoScriptIsCheaper(script, a, b, |a|, |b|);
    }
    var script := SomeScriptAttains(a, b, |a|, |b|);
  }

  // ----- what follows for the distance

  lemma {:induction false} InverseScript(script: Script)
    ensures Rewrites(InverseOf(script), WrittenBy(script), ReadBy(script))
    ensures CostOf(InverseOf(script)) == CostOf(script)
  {
    match script
    case Start =>
    case Then(front, step) => InverseScript(front);
  }

  lemma DistanceSymmetric(a: string, b: string)
    ensures OsaDistance(a, b) == OsaDistance(b, a)
  {
    DistanceAtMostReverse(a, b);
    DistanceAtMostReverse(b, a);
  }

  lemma DistanceAtMostReverse(a: string, b: string)
    ensures OsaDistance(b, a) <= OsaDistance(a, b)
  {
    var script := SomeScriptAttains(a, b, |a|, |b|);
    assert a[..|a|] == a && b[..|b|] == b;
    InverseScript(script);
    NoScriptIsCheaper(InverseOf(script), b, a, |b|, |a|);
  }

  lemma {:induction false} CostBoundsLengths(script: Script)
    ensures |ReadBy(script)| <= |WrittenBy(script)| + CostOf(script)
    ensures |WrittenBy(script)| <= |ReadBy(script)| + CostOf(script)
    ensures CostOf(script) == 0 ==> ReadBy(script) == WrittenBy(script)
  {
    match script
    case Start =>
    case Then(front, step) => CostBoundsLengths(front);
  }

  lemma {:induction false} SelfDistance(a: string, i: nat)
    requires i <= |a|
    ensures Cell(a, a, i, i) == 0
  {
    if i == 0 {
    } else {
      SelfDistance(a, i - 1);
    }
  }

  /** Zero exactly on equal texts, and never below the length difference:
      what makes the up-front length rejection sound. */
  lemma DistanceLaws(a: string, b: string)
    ensures OsaDistance(a, b) == 0 <==> a == b
    ensures |a| <= |b| + OsaDistance(a, b) && |b| <= |a| + OsaDistance(a, b)
  {
    var script := SomeScriptAttains(a, b, |a|, |b|);
    assert a[..|a|] == a && b[..|b|] == b;
    CostBoundsLengths(script);
    if a == b { SelfDistance(a, |a|); }
  }

  /** The distance is not a metric: each of the two legs is one edit, the
      whole is three, because no character may be edited twice. */
  lemma TriangleInequalityFails()
    ensures OsaDistance("CA", "AC") == 1 && OsaDistance("AC", "ABC") == 1
    ensures OsaDistance("CA", "ABC") == 3
  {
    ShortLegs();
    LongWay("CA", "ABC");
  }

  lemma ShortLegs()
    ensures OsaDistance("CA", "AC") == 1 && OsaDistance("AC", "ABC") == 1
  {
  }

  lemma {:induction false} LongWay(a: string, b: string)
    requires a == "CA" && b == "ABC"
    ensures OsaDistance(a, b) == 3
  {
    CellEdge(a, b);
    assert Cell(a, b, 1, 1) == 1;
    assert Cell(a, b, 1, 2) == 2;
    assert Cell(a, b, 1, 3) == 2;
    assert Cell(a, b, 2, 1) == 1;
    assert Cell(a, b, 2, 2) == 2;
  }

  // ----- early abandonment

  ghost predicate RowAbove(a: string, b: string, i: nat, bound: nat)
    requires i <= |a|
  {
    forall j {:trigger Cell(a, b, i, j)} :: 0 <= j <= |b| ==> Cell(a, b, i, j) > bound
  }

  /** The next row's minimum is no lower, although a transposition reads
      the row before this one: that cell plus one is at least the cell a
      deletion away from it, which is in this row. */
  lemma {:induction false} NextCellAbove(a: string, b: string, i: nat, j: nat, bound: nat)
    requires i < |a| && j <= |b| && RowAbove(a, b, i, bound)
    ensures Cell(a, b, i + 1, j) > bound
  {
    hide Cell;
    CellEdge(a, b);
    if j == 0 {
      assert Cell(a, b, i, 0) > bound;
    } else {
      NextCellAbove(a, b, i, j - 1, bound);
      assert Cell(a, b, i, j) > bound && Cell(a, b, i, j - 1) > bound;
      var far := 0;
      if Swapped(a, b, i + 1, j) {
        assert Cell(a, b, i, j - 2) > bound;
        far := Cell(a, b, i - 1, j - 2);
        CellStep(a, b, Delete(a[i - 1]), i - 1, j - 2, i, j - 2);
      }
      CellFrom(a, b, i + 1, j, Cell(a, b, i + 1, j), Cell(a, b, i, j - 1), Cell(a, b, i + 1, j - 1), Cell(a, b, i, j), far);
    }
  }

  lemma {:induction false} AbandonedForGood(a: string, b: string, i: nat, bound: nat)
    requires i <= |a| && RowAbove(a, b, i, bound)
    ensures OsaDistance(a, b) > bound
    decreases |a| - i
  {
    if i == |a| {
      assert Cell(a, b, i, |b|) > bound;
    } else {
      forall j {:trigger Cell(a, b, i + 1, j)} | 0 <= j <= |b| ensures Cell(a, b, i + 1, j) > bound {
        NextCellAbove(a, b, i, j, bound);
      }
      AbandonedForGood(a, b, i + 1, bound);
    }
  }

  // ----- the pooled computation

  /** Row `i` of the full matrix. */
  function Row(a: string, b: string, i: nat): (r: seq<nat>)
    requires i <= |a|
    ensures |r| == |b| + 1
    ensures forall j :: 0 <= j <= |b| ==> r[j] == Cell(a, b, i, j)
  {
    seq(|b| + 1, j requires 0 <= j <= |b| => Cell(a, b, i, j))
  }

  method Counting(n: nat) returns (row: seq<nat>)
    ensures |row| == n + 1 && forall j :: 0 <= j <= n ==> row[j] == j
  {
    row := [];
    for k := 0 to n + 1
      invariant |row| == k && forall j :: 0 <= j < k ==> row[j] == j
    {
      row := row + [k];
    }
  }

  method LeastOf(row: seq<nat>) returns (least: nat)
    requires row != []
    ensures least in row && forall x :: x in row ==> least <= x
  {
    least := row[0];
    for k := 1 to |row|
      invariant least in row && forall j :: 0 <= j < k ==> least <= row[j]
    {
      if row[k] < least { least := row[k]; }
    }
  }

  /** The three matrix rows, owned outside the call and reused by every candidate. */
  class DistanceScratch {
    var beforePrevious: seq<nat>
    var previous: seq<nat>
    var current: seq<nat>

    constructor ()
      ensures beforePrevious == [] && previous == [] && current == []
    {
      beforePrevious, previous, current := [], [], [];
    }

    /** One matrix row, from the two rows above it and whatever `current` held. */
    method FillRow(written: string, candidate: string, row: nat)
      requires row < |written|
      requires previous == Row(written, candidate, row)
      requires row > 0 ==> beforePrevious == Row(written, candidate, row - 1)
      modifies this`current
      ensures current == Row(written, candidate, row + 1)
    {
      hide Cell;
      CellEdge(written, candidate);
      current := [row + 1];
      for column := 0 to |candidate|
        invariant |current| == column + 1
        invariant forall j :: 0 <= j <= column ==> current[j] == Cell(written, candidate, row + 1, j)
      {
        var substitution := previous[column] + if written[row] != candidate[column] then 1 else 0;
        var insertion := current[column] + 1;
        var deletion := previous[column + 1] + 1;
        var best := Min(Min(substitution, insertion), deletion);
        if row > 0 && column > 0 {
          if written[row - 1] == candidate[column] && candidate[column - 1] == written[row] {
            var transposition := beforePrevious[column - 1] + 1;
            best := Min(best, transposition);
          }
        }
        CellFrom(written, candidate, row + 1, column + 1, Cell(written, candidate, row + 1, column + 1),
          previous[column], current[column], previous[column + 1],
          if Swapped(written, candidate, row + 1, column + 1) then beforePrevious[column - 1] else 0);
        current := current + [best];
      }
    }

    /** The distance when it is within `bound`, nothing otherwise: for
        every bound, and whatever the rows held before the call. */
    method BoundedDistance(written: string, candidate: string, bound: nat) returns (r: Option<nat>)
      modifies this
      ensures r == if OsaDistance(written, candidate) <= bound
                   then Some(OsaDistance(written, candidate)) else None
    {
      DistanceLaws(written, candidate);
      if |written| > |candidate| + bound || |candidate| > |written| + bound {
        return None;
      }
      beforePrevious := Counting(|candidate|);
      previous := Counting(|candidate|);
      assert previous == Row(written, candidate, 0);
      for row := 0 to |written|
        invariant previous == Row(written, candidate, row)
        invariant row > 0 ==> beforePrevious == Row(written, candidate, row - 1)
      {
        FillRow(written, candidate, row);
        var least := LeastOf(current);
        if least > bound {
          forall j {:trigger Cell(written, candidate, row + 1, j)} | 0 <= j <= |candidate|
            ensures Cell(written, candidate, row + 1, j) > bound {
            assert current[j] in current;
          }
          AbandonedForGood(written, candidate, row + 1, bound);
          return None;
        }
        beforePrevious, previous := previous, beforePrevious;
        previous, current := current, previous;
      }
      var distance := previous[|previous| - 1];
      r := if distance <= bound then Some(distance) else None;
    }
  }
}
