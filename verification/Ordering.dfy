/** Three-way comparisons in the shape of Rust's `Ord`, the lexicographic
    orders built from them, and sorting under a total order.

    Every `sort()` of the program is over a total order whose `Equal` is
    equality, so its result is determined by the elements alone. That is
    what `SortCanonical` states, and what the modules importing this one
    use to show that a result does not depend on input order. */
module Ordering {

  datatype Cmp = Less | Equal | Greater {
    function Flip(): Cmp {
      match this
      case Less => Greater
      case Equal => Equal
      case Greater => Less
    }

    /** Tuple comparison: the later component only breaks a tie. */
    function Then(next: Cmp): Cmp {
      if this == Equal then next else this
    }
  }

  ghost predicate TotalCompare<T(!new)>(cmp: (T, T) -> Cmp) {
    && (forall x, y :: cmp(x, y) == Equal <==> x == y)
    && (forall x, y :: cmp(y, x) == cmp(x, y).Flip())
    && (forall x, y, z :: cmp(x, y) != Greater && cmp(y, z) != Greater ==> cmp(x, z) != Greater)
  }

  /** The three comparisons of a chain x, y, z fit together: no step up is
      lost, and a tie end to end is a tie at both steps. */
  predicate Fit(xy: Cmp, yz: Cmp, xz: Cmp) {
    xy != Greater && yz != Greater ==> xz != Greater && (xz == Equal ==> xy == Equal && yz == Equal)
  }

  lemma TotalFit<T(!new)>(cmp: (T, T) -> Cmp, x: T, y: T, z: T)
    requires TotalCompare(cmp)
    ensures Fit(cmp(x, y), cmp(y, z), cmp(x, z))
  {
    if cmp(x, y) != Greater && cmp(y, z) != Greater && cmp(x, z) == Equal {
      assert cmp(y, x) == cmp(x, y).Flip();
    }
  }

  /** Breaking ties keeps comparisons fitting together. */
  lemma ThenFit(xy: Cmp, yz: Cmp, xz: Cmp, xy': Cmp, yz': Cmp, xz': Cmp)
    requires Fit(xy, yz, xz) && Fit(xy', yz', xz')
    requires xy == Equal && yz == Equal ==> xz == Equal
    ensures Fit(xy.Then(xy'), yz.Then(yz'), xz.Then(xz'))
  {
  }

  // ----- base orders

  function CompareNat(x: nat, y: nat): Cmp {
    if x < y then Less else if x == y then Equal else Greater
  }

  function CompareChar(x: char, y: char): Cmp {
    if x < y then Less else if x == y then Equal else Greater
  }

  /** Lexicographic comparison, a proper prefix first: Rust's order on
      strings and vectors. */
  function CompareSeq<T>(cmp: (T, T) -> Cmp, a: seq<T>, b: seq<T>): Cmp {
    if a == [] then (if b == [] then Equal else Less)
    else if b == [] then Greater
    else cmp(a[0], b[0]).Then(CompareSeq(cmp, a[1..], b[1..]))
  }

  function CompareString(a: string, b: string): Cmp {
    CompareSeq(CompareChar, a, b)
  }

  lemma {:induction false} CompareSeqEqual<T(!new)>(cmp: (T, T) -> Cmp, a: seq<T>, b: seq<T>)
    requires TotalCompare(cmp)
    ensures CompareSeq(cmp, a, b) == Equal <==> a == b
  {
    if a == [] || b == [] {
    } else {
      CompareSeqEqual(cmp, a[1..], b[1..]);
      assert a == [a[0]] + a[1..] && b == [b[0]] + b[1..];
    }
  }

  lemma {:induction false} CompareSeqFlip<T(!new)>(cmp: (T, T) -> Cmp, a: seq<T>, b: seq<T>)
    requires TotalCompare(cmp)
    ensures CompareSeq(cmp, b, a) == CompareSeq(cmp, a, b).Flip()
  {
    if a == [] || b == [] {
    } else {
      CompareSeqFlip(cmp, a[1..], b[1..]);
    }
  }

  lemma {:induction false} CompareSeqTransitive<T(!new)>(cmp: (T, T) -> Cmp, a: seq<T>, b: seq<T>, c: seq<T>)
    requires TotalCompare(cmp)
    requires CompareSeq(cmp, a, b) != Greater && CompareSeq(cmp, b, c) != Greater
    ensures CompareSeq(cmp, a, c) != Greater
  {
    if a == [] || b == [] || c == [] {
    } else {
      assert cmp(a[0], b[0]) != Greater && cmp(b[0], c[0]) != Greater;
      if cmp(a[0], c[0]) == Equal {
        assert cmp(b[0], a[0]) != Greater;
        assert cmp(a[0], b[0]) == Equal && cmp(b[0], c[0]) == Equal;
        CompareSeqTransitive(cmp, a[1..], b[1..], c[1..]);
      }
    }
  }

  /** Which way the base orders go. */
  lemma BaseOrders(m: nat, n: nat, c: char, d: char)
    ensures CompareNat(m, n) == (if m < n then Less else if m == n then Equal else Greater)
    ensures CompareChar(c, d) == (if c < d then Less else if c == d then Equal else Greater)
  {
  }

  /** A list comes before another when it is a proper prefix of it, or has the
      smaller element where the two first differ. */
  lemma {:induction false} FirstDifference<T(!new)>(cmp: (T, T) -> Cmp, a: seq<T>, b: seq<T>)
    requires TotalCompare(cmp)
    ensures CompareSeq(cmp, a, b) == Less <==>
              exists k :: 0 <= k <= |a| && k < |b| && a[..k] == b[..k] && (k == |a| || cmp(a[k], b[k]) == Less)
  {
    if a == [] || b == [] {
      if b != [] { assert a[..0] == b[..0]; }
    } else {
      var a', b' := a[1..], b[1..];
      FirstDifference(cmp, a', b');
      if a[0] == b[0] {
        forall k | 0 <= k < |b'| && k <= |a'|
          ensures (a'[..k] == b'[..k] && (k == |a'| || cmp(a'[k], b'[k]) == Less))
             <==> (a[..k + 1] == b[..k + 1] && (k + 1 == |a| || cmp(a[k + 1], b[k + 1]) == Less))
        {
          assert a[..k + 1] == [a[0]] + a'[..k] && b[..k + 1] == [b[0]] + b'[..k];
        }
        if k :| 0 <= k <= |a| && k < |b| && a[..k] == b[..k] && (k == |a| || cmp(a[k], b[k]) == Less) {
          assert cmp(a[0], b[0]) == Equal;
          assert k > 0;
          assert a'[..k - 1] == b'[..k - 1];
        }
        if k :| 0 <= k <= |a'| && k < |b'| && a'[..k] == b'[..k] && (k == |a'| || cmp(a'[k], b'[k]) == Less) {
          assert a[..k + 1] == b[..k + 1];
        }
      } else {
        forall k | 0 < k <= |a| && k < |b| ensures a[..k] != b[..k] { assert a[..k][0] != b[..k][0]; }
        assert a[..0] == b[..0];
      }
    }
  }

  lemma CompareStringTotal()
    ensures TotalCompare(CompareString)
  {
    forall a, b ensures CompareString(a, b) == Equal <==> a == b { CompareSeqEqual(CompareChar, a, b); }
    forall a, b ensures CompareString(b, a) == CompareString(a, b).Flip() { CompareSeqFlip(CompareChar, a, b); }
    forall a, b, c | CompareString(a, b) != Greater && CompareString(b, c) != Greater
      ensures CompareString(a, c) != Greater
    {
      CompareSeqTransitive(CompareChar, a, b, c);
    }
  }

  lemma CompareNatTotal()
    ensures TotalCompare(CompareNat)
  {
  }

  // ----- sorting

  ghost predicate Sorted<T>(cmp: (T, T) -> Cmp, s: seq<T>) {
    forall i, j :: 0 <= i < j < |s| ==> cmp(s[i], s[j]) != Greater
  }

  function Insert<T>(cmp: (T, T) -> Cmp, x: T, s: seq<T>): seq<T> {
    if s == [] then [x]
    else if cmp(x, s[0]) == Greater then [s[0]] + Insert(cmp, x, s[1..])
    else [x] + s
  }

  /** `slice::sort`. */
  function Sort<T>(cmp: (T, T) -> Cmp, s: seq<T>): seq<T> {
    if s == [] then [] else Insert(cmp, s[0], Sort(cmp, s[1..]))
  }

  lemma {:induction false} InsertPermutes<T>(cmp: (T, T) -> Cmp, x: T, s: seq<T>)
    ensures multiset(Insert(cmp, x, s)) == multiset{x} + multiset(s)
  {
    if s == [] {
    } else {
      assert s == [s[0]] + s[1..];
      InsertPermutes(cmp, x, s[1..]);
    }
  }

  lemma SortedCons<T>(cmp: (T, T) -> Cmp, x: T, s: seq<T>)
    ensures Sorted(cmp, [x] + s) <==> Sorted(cmp, s) && forall y :: y in s ==> cmp(x, y) != Greater
  {
    var all := [x] + s;
    if Sorted(cmp, all) {
      forall i, j | 0 <= i < j < |s| ensures cmp(s[i], s[j]) != Greater {
        assert s[i] == all[i + 1] && s[j] == all[j + 1];
      }
      forall y | y in s ensures cmp(x, y) != Greater {
        var j :| 0 <= j < |s| && s[j] == y;
        assert all[0] == x && all[j + 1] == y;
      }
    }
  }

  lemma {:induction false} InsertSorted<T(!new)>(cmp: (T, T) -> Cmp, x: T, s: seq<T>)
    requires TotalCompare(cmp) && Sorted(cmp, s)
    ensures Sorted(cmp, Insert(cmp, x, s))
  {
    if s == [] {
    } else {
      var head, tail := s[0], s[1..];
      assert s == [head] + tail;
      SortedCons(cmp, head, tail);
      if cmp(x, head) == Greater {
        assert cmp(head, x) == cmp(x, head).Flip();
        InsertSorted(cmp, x, tail);
        var rest := Insert(cmp, x, tail);
        InsertPermutes(cmp, x, tail);
        forall y | y in rest ensures cmp(head, y) != Greater {
          assert y in multiset(rest);
        }
        SortedCons(cmp, head, rest);
      } else {
        SortedCons(cmp, x, s);
      }
    }
  }

  lemma {:induction false} SortPermutes<T>(cmp: (T, T) -> Cmp, s: seq<T>)
    ensures multiset(Sort(cmp, s)) == multiset(s)
    ensures |Sort(cmp, s)| == |s|
  {
    if s == [] {
    } else {
      assert s == [s[0]] + s[1..];
      SortPermutes(cmp, s[1..]);
      InsertPermutes(cmp, s[0], Sort(cmp, s[1..]));
    }
    assert |multiset(Sort(cmp, s))| == |Sort(cmp, s)| && |multiset(s)| == |s|;
  }

  lemma {:induction false} SortSorted<T(!new)>(cmp: (T, T) -> Cmp, s: seq<T>)
    requires TotalCompare(cmp)
    ensures Sorted(cmp, Sort(cmp, s))
  {
    if s == [] {
    } else {
      SortSorted(cmp, s[1..]);
      InsertSorted(cmp, s[0], Sort(cmp, s[1..]));
    }
  }

  /** Membership survives sorting. */
  lemma SortElements<T>(cmp: (T, T) -> Cmp, s: seq<T>)
    ensures forall x :: x in Sort(cmp, s) <==> x in s
  {
    SortPermutes(cmp, s);
    forall x ensures x in Sort(cmp, s) <==> x in s {
      assert x in Sort(cmp, s) <==> x in multiset(Sort(cmp, s));
      assert x in s <==> x in multiset(s);
    }
  }

  /** `dedup` on a sorted list: each run of equal elements becomes one. */
  function Dedup<T(==)>(s: seq<T>): seq<T> {
    if |s| < 2 then s
    else if s[0] == s[1] then Dedup(s[1..])
    else [s[0]] + Dedup(s[1..])
  }

  ghost predicate StrictlySorted<T>(cmp: (T, T) -> Cmp, s: seq<T>) {
    forall i, j :: 0 <= i < j < |s| ==> cmp(s[i], s[j]) == Less
  }

  lemma {:induction false} DedupElements<T>(s: seq<T>)
    ensures forall x :: x in Dedup(s) <==> x in s
  {
    if |s| < 2 {
    } else {
      assert s == [s[0]] + s[1..];
      DedupElements(s[1..]);
    }
  }

  /** Sorting and deduplicating leaves each element once, in order. */
  lemma {:induction false} DedupSorted<T(!new)>(cmp: (T, T) -> Cmp, s: seq<T>)
    requires TotalCompare(cmp) && Sorted(cmp, s)
    ensures StrictlySorted(cmp, Dedup(s))
  {
    if |s| < 2 {
    } else {
      var rest := Dedup(s[1..]);
      DedupSorted(cmp, s[1..]);
      DedupElements(s[1..]);
      if s[0] != s[1] {
        forall j | 0 <= j < |rest| ensures cmp(s[0], rest[j]) == Less {
          assert rest[j] in s[1..];
          TotalFit(cmp, s[0], s[1], rest[j]);
        }
      }
    }
  }

  lemma {:induction false} InsertStrict<T(!new)>(cmp: (T, T) -> Cmp, x: T, s: seq<T>)
    requires TotalCompare(cmp) && StrictlySorted(cmp, s) && x !in s
    ensures StrictlySorted(cmp, Insert(cmp, x, s))
    ensures forall y :: y in Insert(cmp, x, s) <==> y == x || y in s
  {
    if s == [] {
    } else {
      var head, tail := s[0], s[1..];
      assert s == [head] + tail;
      InsertStrict(cmp, x, tail);
      if cmp(x, head) == Greater {
        assert cmp(head, x) == Less;
        var rest := Insert(cmp, x, tail);
        forall j | 0 <= j < |rest| ensures cmp(head, rest[j]) == Less {
          assert rest[j] in rest;
          if rest[j] != x {
            var i :| 0 <= i < |tail| && tail[i] == rest[j];
            assert s[i + 1] == rest[j];
          }
        }
        assert Insert(cmp, x, s) == [head] + rest;
      } else {
        forall j | 0 <= j < |s| ensures cmp(x, s[j]) == Less {
          TotalFit(cmp, x, head, s[j]);
        }
      }
    }
  }

  lemma CountedTwice<T>(s: seq<T>, i: nat, j: nat)
    requires i < j < |s| && s[i] == s[j]
    ensures multiset(s)[s[i]] >= 2
  {
    assert s == s[..j] + [s[j]] + s[j + 1..];
    assert s[i] in s[..j];
  }

  lemma SortedHead<T(!new)>(cmp: (T, T) -> Cmp, s: seq<T>, t: seq<T>)
    requires TotalCompare(cmp)
    requires Sorted(cmp, s) && Sorted(cmp, t) && multiset(s) == multiset(t)
    requires s != [] && t != []
    ensures s[0] == t[0]
  {
    assert s[0] in multiset(t) && t[0] in multiset(s);
    var i :| 0 <= i < |t| && t[i] == s[0];
    var j :| 0 <= j < |s| && s[j] == t[0];
    if i > 0 && j > 0 {
      assert cmp(s[0], s[j]) != Greater && cmp(t[0], t[i]) != Greater;
      assert cmp(s[0], t[0]) == cmp(t[0], s[0]).Flip();
    }
  }

  /** A sorted arrangement of given elements is unique. */
  lemma {:induction false} SortedUnique<T(!new)>(cmp: (T, T) -> Cmp, s: seq<T>, t: seq<T>)
    requires TotalCompare(cmp)
    requires Sorted(cmp, s) && Sorted(cmp, t) && multiset(s) == multiset(t)
    ensures s == t
  {
    assert |multiset(t)| == |t| && |multiset(s)| == |s|;
    if s == [] {
    } else {
      SortedHead(cmp, s, t);
      assert s == [s[0]] + s[1..] && t == [t[0]] + t[1..];
      assert multiset(s[1..]) == multiset(s) - multiset{s[0]};
      assert multiset(t[1..]) == multiset(t) - multiset{t[0]};
      SortedUnique(cmp, s[1..], t[1..]);
    }
  }

  /** Sorting forgets the input order. */
  lemma {:induction false} SortCanonical<T(!new)>(cmp: (T, T) -> Cmp, s: seq<T>, t: seq<T>)
    requires TotalCompare(cmp) && multiset(s) == multiset(t)
    ensures Sort(cmp, s) == Sort(cmp, t)
  {
    SortPermutes(cmp, s);
    SortPermutes(cmp, t);
    SortSorted(cmp, s);
    SortSorted(cmp, t);
    SortedUnique(cmp, Sort(cmp, s), Sort(cmp, t));
  }

  /** Sorting leaves a sorted list alone. */
  lemma {:induction false} SortFixed<T(!new)>(cmp: (T, T) -> Cmp, s: seq<T>)
    requires TotalCompare(cmp) && Sorted(cmp, s)
    ensures Sort(cmp, s) == s
  {
    SortPermutes(cmp, s);
    SortSorted(cmp, s);
    SortedUnique(cmp, Sort(cmp, s), s);
  }

  /** The members below n, in ascending order. */
  function Ascending(n: nat, member: nat -> bool): (r: seq<nat>)
    ensures forall i :: i in r <==> 0 <= i < n && member(i)
    ensures Sorted(CompareNat, r)
  {
    if n == 0 then []
    else
      var front := Ascending(n - 1, member);
      assert forall i :: 0 <= i < |front| ==> front[i] in front;
      front + if member(n - 1) then [n - 1] else []
  }

  /** The first element of one arrangement, found in the other. */
  lemma PullOut<T>(a: seq<T>, b: seq<T>) returns (before: seq<T>, after: seq<T>)
    requires a != [] && multiset(a) == multiset(b)
    ensures b == before + ([a[0]] + after) && multiset(a[1..]) == multiset(before + after)
  {
    assert a[0] in multiset(b);
    var i :| 0 <= i < |b| && b[i] == a[0];
    before, after := b[..i], b[i + 1..];
    assert a == [a[0]] + a[1..];
    assert b == before + ([a[0]] + after);
    assert multiset(a[1..]) == multiset(a) - multiset{a[0]};
    assert multiset(before + after) == multiset(b) - multiset{a[0]};
  }
}
