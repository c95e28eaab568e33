/** Suppression directives, what they admit, and the filter and severity
    remap that both halves of a file's diagnostics go through. */
module Suppression {
  import opened Wrappers
  import opened Ordering
  import opened Diagnostics

  datatype SuppressionFilter = All | Only(codes: seq<string>)

  datatype Directive = Directive(
    anchor: TextRange, scope: TextRange, filter: SuppressionFilter,
    identifiers: seq<string>, widenedBy: seq<string>, native: bool)

  // ----- membership by bisection

  /** `slice::binary_search(..).is_ok()` over s[lo..hi]. */
  predicate Bisect<T>(cmp: (T, T) -> Cmp, s: seq<T>, x: T, lo: nat, hi: nat)
    requires lo <= hi <= |s|
    decreases hi - lo
  {
    if lo == hi then false
    else
      var mid := lo + (hi - lo) / 2;
      match cmp(s[mid], x)
      case Equal => true
      case Less => Bisect(cmp, s, x, mid + 1, hi)
      case Greater => Bisect(cmp, s, x, lo, mid)
  }

  predicate Found<T>(cmp: (T, T) -> Cmp, s: seq<T>, x: T) {
    Bisect(cmp, s, x, 0, |s|)
  }

  /** On a sorted list bisection is membership. */
  lemma {:induction false} BisectExact<T(!new)>(cmp: (T, T) -> Cmp, s: seq<T>, x: T, lo: nat, hi: nat)
    requires TotalCompare(cmp) && Sorted(cmp, s) && lo <= hi <= |s|
    ensures Bisect(cmp, s, x, lo, hi) <==> exists i :: lo <= i < hi && s[i] == x
    decreases hi - lo
  {
    if lo == hi {
    } else {
      var mid := lo + (hi - lo) / 2;
      match cmp(s[mid], x)
      case Equal => assert s[mid] == x;
      case Less =>
        BisectExact(cmp, s, x, mid + 1, hi);
        forall i | lo <= i < mid ensures s[i] != x {
          assert cmp(s[i], s[mid]) != Greater;
          assert cmp(x, s[mid]) == cmp(s[mid], x).Flip();
        }
        assert s[mid] != x;
      case Greater =>
        BisectExact(cmp, s, x, lo, mid);
        forall i | mid < i < hi ensures s[i] != x {
          assert cmp(s[mid], s[i]) != Greater;
        }
        assert s[mid] != x;
    }
  }

  lemma FoundIffMember<T(!new)>(cmp: (T, T) -> Cmp, s: seq<T>, x: T)
    requires TotalCompare(cmp) && Sorted(cmp, s)
    ensures Found(cmp, s, x) <==> x in s
  {
    BisectExact(cmp, s, x, 0, |s|);
  }

  // ----- what a directive admits

  /** By the diagnostic's start, end-exclusive, except at the very end of the file. */
  predicate InScope(d: Directive, offset: nat, textEnd: nat) {
    offset >= d.scope.start && (offset < d.scope.end || (offset == d.scope.end && d.scope.end == textEnd))
  }

  predicate Admits(d: Directive, id: string, offset: nat, textEnd: nat) {
    InScope(d, offset, textEnd) &&
    match d.filter
    case All => true
    case Only(codes) => Found(CompareString, codes, id)
  }

  /** Project findings have no span, and no directive reaches them. */
  predicate Suppresses(d: Directive, diagnostic: Diagnostic, textEnd: nat) {
    diagnostic.anchor.Span? && Admits(d, diagnostic.id, diagnostic.anchor.range.start, textEnd)
  }

  predicate Suppressed(directives: seq<Directive>, diagnostic: Diagnostic, textEnd: nat) {
    exists d :: d in directives && Suppresses(d, diagnostic, textEnd)
  }

  predicate Used(d: Directive, diagnostics: seq<Diagnostic>, textEnd: nat) {
    exists diagnostic :: diagnostic in diagnostics && Suppresses(d, diagnostic, textEnd)
  }

  function Survivors(directives: seq<Directive>, diagnostics: seq<Diagnostic>, textEnd: nat): seq<Diagnostic> {
    if diagnostics == [] then []
    else
      var front, last := diagnostics[..|diagnostics| - 1], diagnostics[|diagnostics| - 1];
      Survivors(directives, front, textEnd) + if Suppressed(directives, last, textEnd) then [] else [last]
  }

  /** The codes of each directive are sorted, as the parser leaves them. */
  ghost predicate CodesSorted(directives: seq<Directive>) {
    forall d :: d in directives && d.filter.Only? ==> Sorted(CompareString, d.filter.codes)
  }

  /** A directive reaches a diagnostic with a span that starts in its scope,
      the scope's end counting at the end of the text only, and whose
      identifier it names, or any if it names none. */
  lemma SuppressesExactly(d: Directive, x: Diagnostic, textEnd: nat)
    requires d.filter.Only? ==> Sorted(CompareString, d.filter.codes)
    ensures Suppresses(d, x, textEnd) <==>
              && x.anchor.Span? && d.scope.start <= x.anchor.range.start
              && (x.anchor.range.start < d.scope.end || (x.anchor.range.start == d.scope.end && textEnd == d.scope.end))
              && (d.filter.All? || x.id in d.filter.codes)
  {
    if d.filter.Only? {
      CompareStringTotal();
      FoundIffMember(CompareString, d.filter.codes, x.id);
    }
  }

  lemma {:induction false} KeptExactly(directives: seq<Directive>, diagnostics: seq<Diagnostic>, textEnd: nat)
    requires CodesSorted(directives)
    ensures forall x :: x in Survivors(directives, diagnostics, textEnd) <==>
              x in diagnostics && !(x.anchor.Span? && exists d :: (
                && d in directives && d.scope.start <= x.anchor.range.start
                && (x.anchor.range.start < d.scope.end || (x.anchor.range.start == d.scope.end && textEnd == d.scope.end))
                && (d.filter.All? || x.id in d.filter.codes)))
  {
    SurvivorsExact(directives, diagnostics, textEnd);
    hide Suppresses;
    forall x, d | d in directives { SuppressesExactly(d, x, textEnd); }
  }

  lemma MatchedExactly(directives: seq<Directive>, diagnostics: seq<Diagnostic>, textEnd: nat)
    requires CodesSorted(directives)
    ensures forall i :: i in Matched(directives, diagnostics, textEnd) <==>
              0 <= i < |directives| && var d := directives[i];
              exists x :: (
                && x in diagnostics && x.anchor.Span? && d.scope.start <= x.anchor.range.start
                && (x.anchor.range.start < d.scope.end || (x.anchor.range.start == d.scope.end && textEnd == d.scope.end))
                && (d.filter.All? || x.id in d.filter.codes))
  {
    hide Suppresses;
    forall x, d | d in directives { SuppressesExactly(d, x, textEnd); }
  }

  /** The indexes of the directives that admitted something, ascending. */
  function Matched(directives: seq<Directive>, diagnostics: seq<Diagnostic>, textEnd: nat): (r: seq<nat>)
    ensures Sorted(CompareNat, r)
    ensures forall i :: i in r <==> 0 <= i < |directives| && Used(directives[i], diagnostics, textEnd)
  {
    Ascending(|directives|, i => 0 <= i < |directives| && Used(directives[i], diagnostics, textEnd))
  }

  /** Drops what a directive admits, and answers which directives did: any
      match counts, so one diagnostic can mark several. */
  method RetainUnsuppressed(directives: seq<Directive>, diagnostics: seq<Diagnostic>, textEnd: nat)
    returns (kept: seq<Diagnostic>, matched: seq<nat>)
    ensures kept == Survivors(directives, diagnostics, textEnd)
    ensures matched == Matched(directives, diagnostics, textEnd)
    ensures (forall d :: d in directives && d.filter.Only? ==> Sorted(CompareString, d.filter.codes)) ==> forall x :: x in kept <==>
              x in diagnostics && !(x.anchor.Span? && exists d :: (
                && d in directives && d.scope.start <= x.anchor.range.start
                && (x.anchor.range.start < d.scope.end || (x.anchor.range.start == d.scope.end && textEnd == d.scope.end))
                && (d.filter.All? || x.id in d.filter.codes)))
    ensures (forall d :: d in directives && d.filter.Only? ==> Sorted(CompareString, d.filter.codes)) ==> forall i :: i in matched <==>
              0 <= i < |directives| && var d := directives[i];
              exists x :: (
                && x in diagnostics && x.anchor.Span? && d.scope.start <= x.anchor.range.start
                && (x.anchor.range.start < d.scope.end || (x.anchor.range.start == d.scope.end && textEnd == d.scope.end))
                && (d.filter.All? || x.id in d.filter.codes))
  {
    kept, matched := Retain(directives, diagnostics, textEnd);
    if CodesSorted(directives) {
      KeptExactly(directives, diagnostics, textEnd);
      MatchedExactly(directives, diagnostics, textEnd);
    }
  }

  /** The two loops. */
  method Retain(directives: seq<Directive>, diagnostics: seq<Diagnostic>, textEnd: nat)
    returns (kept: seq<Diagnostic>, matched: seq<nat>)
    ensures kept == Survivors(directives, diagnostics, textEnd)
    ensures matched == Matched(directives, diagnostics, textEnd)
  {
    kept := [];
    var indexes: set<nat> := {};
    for k := 0 to |diagnostics|
      invariant kept == Survivors(directives, diagnostics[..k], textEnd)
      invariant forall i :: i in indexes <==> 0 <= i < |directives| && Used(directives[i], diagnostics[..k], textEnd)
    {
      var diagnostic := diagnostics[k];
      ghost var before := indexes;
      assert diagnostics[..k + 1][..k] == diagnostics[..k];
      UsedNext(directives, diagnostics, k, textEnd);
      if diagnostic.anchor.Project? {
        kept := kept + [diagnostic];
        continue;
      }
      var suppressed := false;
      for index := 0 to |directives|
        invariant suppressed <==> exists i :: 0 <= i < index && Suppresses(directives[i], diagnostic, textEnd)
        invariant forall i :: i in indexes <==> i in before || (0 <= i < index && Suppresses(directives[i], diagnostic, textEnd))
      {
        if Admits(directives[index], diagnostic.id, diagnostic.anchor.range.start, textEnd) {
          suppressed := true;
          indexes := indexes + {index};
        }
      }
      assert suppressed <==> Suppressed(directives, diagnostic, textEnd);
      if !suppressed {
        kept := kept + [diagnostic];
      }
    }
    assert diagnostics[..|diagnostics|] == diagnostics;
    matched := Ascending(|directives|, i => i in indexes);
    AscendingSame(matched, Matched(directives, diagnostics, textEnd), |directives|,
      i => i in indexes, i => 0 <= i < |directives| && Used(directives[i], diagnostics, textEnd));
  }

  lemma UsedNext(directives: seq<Directive>, diagnostics: seq<Diagnostic>, k: nat, textEnd: nat)
    requires k < |diagnostics|
    ensures forall i :: 0 <= i < |directives| ==>
      (Used(directives[i], diagnostics[..k + 1], textEnd) <==>
       Used(directives[i], diagnostics[..k], textEnd) || Suppresses(directives[i], diagnostics[k], textEnd))
  {
    assert diagnostics[..k + 1] == diagnostics[..k] + [diagnostics[k]];
    forall i | 0 <= i < |directives|
      ensures Used(directives[i], diagnostics[..k + 1], textEnd) <==>
       Used(directives[i], diagnostics[..k], textEnd) || Suppresses(directives[i], diagnostics[k], textEnd)
    {
      UsedConcat(directives[i], diagnostics[..k], [diagnostics[k]], textEnd);
    }
  }

  lemma {:induction false} AscendingSame(s: seq<nat>, t: seq<nat>, n: nat, p: nat -> bool, q: nat -> bool)
    requires s == Ascending(n, p) && t == Ascending(n, q)
    requires forall i :: 0 <= i < n ==> p(i) == q(i)
    ensures s == t
    decreases n
  {
    if n == 0 {
    } else {
      AscendingSame(Ascending(n - 1, p), Ascending(n - 1, q), n - 1, p, q);
    }
  }

  // ----- the filter over two halves

  lemma UsedConcat(d: Directive, a: seq<Diagnostic>, b: seq<Diagnostic>, textEnd: nat)
    ensures Used(d, a + b, textEnd) <==> Used(d, a, textEnd) || Used(d, b, textEnd)
  {
    if Used(d, a, textEnd) {
      var x :| x in a && Suppresses(d, x, textEnd);
      assert x in a + b;
    }
    if Used(d, b, textEnd) {
      var x :| x in b && Suppresses(d, x, textEnd);
      assert x in a + b;
    }
  }

  /** Filtering two halves apart is filtering them together. */
  lemma {:induction false} SurvivorsConcat(directives: seq<Directive>, a: seq<Diagnostic>, b: seq<Diagnostic>, textEnd: nat)
    ensures Survivors(directives, a + b, textEnd) == Survivors(directives, a, textEnd) + Survivors(directives, b, textEnd)
  {
    if b == [] {
      assert a + b == a;
    } else {
      assert (a + b)[..|a + b| - 1] == a + b[..|b| - 1];
      SurvivorsConcat(directives, a, b[..|b| - 1], textEnd);
    }
  }

  /** What survives is exactly what no directive admits. */
  lemma {:induction false} SurvivorsExact(directives: seq<Directive>, diagnostics: seq<Diagnostic>, textEnd: nat)
    ensures forall x :: x in Survivors(directives, diagnostics, textEnd)
                   <==> x in diagnostics && !Suppressed(directives, x, textEnd)
    ensures multiset(Survivors(directives, diagnostics, textEnd)) <= multiset(diagnostics)
  {
    if diagnostics == [] {
    } else {
      var front, last := diagnostics[..|diagnostics| - 1], diagnostics[|diagnostics| - 1];
      assert diagnostics == front + [last];
      SurvivorsExact(directives, front, textEnd);
    }
  }

  /** The union of the two halves' indexes is the indexes of the whole. */
  lemma {:induction false} MatchedUnion(directives: seq<Directive>, a: seq<Diagnostic>, b: seq<Diagnostic>, textEnd: nat, i: nat)
    ensures i in Matched(directives, a + b, textEnd)
       <==> i in Matched(directives, a, textEnd) || i in Matched(directives, b, textEnd)
  {
    if i < |directives| { UsedConcat(directives[i], a, b, textEnd); }
  }

  // ----- the severity remap

  function RemapOne(remap: map<string, Severity>, d: Diagnostic): Diagnostic {
    if d.id in remap then d.(severity := remap[d.id]) else d
  }

  function Remapped(remap: map<string, Severity>, diagnostics: seq<Diagnostic>): (r: seq<Diagnostic>)
    ensures |r| == |diagnostics|
    ensures forall i :: 0 <= i < |r| ==> r[i] == RemapOne(remap, diagnostics[i])
  {
    seq(|diagnostics|, i requires 0 <= i < |diagnostics| => RemapOne(remap, diagnostics[i]))
  }

  method ApplySeverityRemap(remap: map<string, Severity>, diagnostics: array<Diagnostic>)
    modifies diagnostics
    ensures diagnostics[..] == Remapped(remap, old(diagnostics[..]))
    ensures forall i :: 0 <= i < diagnostics.Length ==>
              var d := old(diagnostics[i]);
              diagnostics[i] == Diagnostic(d.id, if d.id in remap then remap[d.id] else d.severity, d.anchor, d.message,
                                           d.labels, d.notes, d.suggestions)
  {
    if remap == map[] {
      return;
    }
    for k := 0 to diagnostics.Length
      invariant forall i :: 0 <= i < k ==> diagnostics[i] == RemapOne(remap, old(diagnostics[i]))
      invariant forall i :: k <= i < diagnostics.Length ==> diagnostics[i] == old(diagnostics[i])
    {
      var diagnostic := diagnostics[k];
      if diagnostic.id in remap {
        diagnostics[k] := diagnostic.(severity := remap[diagnostic.id]);
      }
    }
  }

  lemma RemappedConcat(remap: map<string, Severity>, a: seq<Diagnostic>, b: seq<Diagnostic>)
    ensures Remapped(remap, a + b) == Remapped(remap, a) + Remapped(remap, b)
  {
  }

  /** A directive looks at identifier and place only, so remapping before
      the filter or after it is the same. */
  lemma {:induction false} RemapCommutes(remap: map<string, Severity>, directives: seq<Directive>,
                                         diagnostics: seq<Diagnostic>, textEnd: nat)
    ensures Survivors(directives, Remapped(remap, diagnostics), textEnd)
         == Remapped(remap, Survivors(directives, diagnostics, textEnd))
    ensures Matched(directives, Remapped(remap, diagnostics), textEnd) == Matched(directives, diagnostics, textEnd)
  {
    RemapKeepsUse(remap, directives, diagnostics, textEnd);
    AscendingSame(Matched(directives, Remapped(remap, diagnostics), textEnd), Matched(directives, diagnostics, textEnd), |directives|,
      i => 0 <= i < |directives| && Used(directives[i], Remapped(remap, diagnostics), textEnd),
      i => 0 <= i < |directives| && Used(directives[i], diagnostics, textEnd));
    RemapCommutesSurvivors(remap, directives, diagnostics, textEnd);
  }

  lemma RemapKeepsUse(remap: map<string, Severity>, directives: seq<Directive>, diagnostics: seq<Diagnostic>, textEnd: nat)
    ensures forall i :: 0 <= i < |directives| ==>
      (Used(directives[i], Remapped(remap, diagnostics), textEnd) <==> Used(directives[i], diagnostics, textEnd))
  {
    var remapped := Remapped(remap, diagnostics);
    forall i | 0 <= i < |directives|
      ensures Used(directives[i], remapped, textEnd) <==> Used(directives[i], diagnostics, textEnd)
    {
      if Used(directives[i], diagnostics, textEnd) {
        var k :| 0 <= k < |diagnostics| && Suppresses(directives[i], diagnostics[k], textEnd);
        assert remapped[k] in remapped && Suppresses(directives[i], remapped[k], textEnd);
      }
      if Used(directives[i], remapped, textEnd) {
        var k :| 0 <= k < |remapped| && Suppresses(directives[i], remapped[k], textEnd);
        assert diagnostics[k] in diagnostics && Suppresses(directives[i], diagnostics[k], textEnd);
      }
    }
  }

  lemma {:induction false} RemapCommutesSurvivors(remap: map<string, Severity>, directives: seq<Directive>,
                                                  diagnostics: seq<Diagnostic>, textEnd: nat)
    ensures Survivors(directives, Remapped(remap, diagnostics), textEnd)
         == Remapped(remap, Survivors(directives, diagnostics, textEnd))
  {
    if diagnostics == [] {
    } else {
      var front, last := diagnostics[..|diagnostics| - 1], diagnostics[|diagnostics| - 1];
      RemapCommutesSurvivors(remap, directives, front, textEnd);
      assert Remapped(remap, diagnostics)[..|diagnostics| - 1] == Remapped(remap, front);
      RemapKeepsSuppressed(remap, directives, last, textEnd);
      RemappedConcat(remap, Survivors(directives, front, textEnd), [last]);
    }
  }

  lemma RemapKeepsSuppressed(remap: map<string, Severity>, directives: seq<Directive>, d: Diagnostic, textEnd: nat)
    ensures Suppressed(directives, RemapOne(remap, d), textEnd) <==> Suppressed(directives, d, textEnd)
  {
    if Suppressed(directives, d, textEnd) {
      var directive :| directive in directives && Suppresses(directive, d, textEnd);
      assert Suppresses(directive, RemapOne(remap, d), textEnd);
    }
    if Suppressed(directives, RemapOne(remap, d), textEnd) {
      var directive :| directive in directives && Suppresses(directive, RemapOne(remap, d), textEnd);
      assert Suppresses(directive, d, textEnd);
    }
  }
}
