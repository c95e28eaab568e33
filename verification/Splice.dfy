/** Applying an accepted edit set: the forward cursor pass, its agreement
    with splicing one edit at a time from the back, and what it preserves. */
module Splice {
  import opened Utf8
  import opened Edits

  /** An edit set in order. */
  datatype EditList = Nil | Cons(head: TextEdit, tail: EditList) {
    function Elements(): seq<TextEdit> {
      match this
      case Nil => []
      case Cons(e, rest) => [e] + rest.Elements()
    }
  }

  function Listed(edits: seq<TextEdit>): (r: EditList)
    ensures r.Elements() == edits
  {
    if edits == [] then Nil else Cons(edits[0], Listed(edits[1..]))
  }

  /** The edits follow one another from `cursor` on, inside a text of that length. */
  predicate Ordered(edits: EditList, cursor: nat, length: nat) {
    match edits
    case Nil => cursor <= length
    case Cons(e, rest) => cursor <= e.start && Ordered(rest, e.end, length)
  }

  lemma {:induction false} OrderedBounds(edits: EditList, cursor: nat, length: nat)
    requires Ordered(edits, cursor, length)
    ensures cursor <= length && forall e :: e in edits.Elements() ==> cursor <= e.start && e.end <= length
  {
    match edits
    case Nil =>
    case Cons(e, rest) => OrderedBounds(rest, e.end, length);
  }

  lemma OrderedEarlier(edits: EditList, cursor: nat, cursor': nat, length: nat)
    requires Ordered(edits, cursor, length) && cursor' <= cursor
    ensures Ordered(edits, cursor', length)
  {
  }

  /** What the cursor pass appends from `cursor` on. */
  function Forward(source: seq<byte>, edits: EditList, cursor: nat): seq<byte>
    requires Ordered(edits, cursor, |source|)
  {
    OrderedBounds(edits, cursor, |source|);
    match edits
    case Nil => source[cursor..]
    case Cons(e, rest) => source[cursor..e.start] + e.replacement + Forward(source, rest, e.end)
  }

  /** One edit alone. */
  function SpliceOne(source: seq<byte>, edit: TextEdit): seq<byte>
    requires edit.end <= |source|
  {
    source[..edit.start] + edit.replacement + source[edit.end..]
  }

  /** One edit at a time, the last first, so that offsets never move. */
  function BackToFront(source: seq<byte>, edits: EditList, cursor: nat): (r: seq<byte>)
    requires Ordered(edits, cursor, |source|)
    ensures cursor <= |source| && r == source[..cursor] + Forward(source, edits, cursor)
  {
    OrderedBounds(edits, cursor, |source|);
    match edits
    case Nil =>
      Rejoin(source, cursor);
      source
    case Cons(e, rest) =>
      var later := BackToFront(source, rest, e.end);
      SpliceBeforeRest(source, e, Forward(source, rest, e.end), cursor);
      SpliceOne(later, e)
  }

  lemma Rejoin(source: seq<byte>, at: nat)
    requires at <= |source|
    ensures source == source[..at] + source[at..]
  {
  }

  lemma SpliceBeforeRest(source: seq<byte>, e: TextEdit, rest: seq<byte>, cursor: nat)
    requires cursor <= e.start && e.end <= |source|
    ensures SpliceOne(source[..e.end] + rest, e) == source[..cursor] + (source[cursor..e.start] + e.replacement + rest)
  {
  }

  /** The single forward pass equals splicing one edit at a time. */
  lemma {:induction false} ForwardIsBackToFront(source: seq<byte>, edits: EditList)
    requires Ordered(edits, 0, |source|)
    ensures Forward(source, edits, 0) == BackToFront(source, edits, 0)
  {
    assert source[..0] == [];
  }

  // ----- what survives

  /** The net growth of an edit set. */
  function Growth(edits: EditList): int {
    match edits
    case Nil => 0
    case Cons(e, rest) => |e.replacement| - (e.end - e.start) + Growth(rest)
  }

  lemma {:induction false} ForwardLength(source: seq<byte>, edits: EditList, cursor: nat)
    requires Ordered(edits, cursor, |source|)
    ensures |Forward(source, edits, cursor)| == |source| - cursor + Growth(edits)
  {
    OrderedBounds(edits, cursor, |source|);
    match edits
    case Nil =>
    case Cons(e, rest) => ForwardLength(source, rest, e.end);
  }

  /** The edits that end at or before byte `p`. */
  function Before(edits: EditList, p: nat): EditList {
    match edits
    case Nil => Nil
    case Cons(e, rest) => if e.end <= p then Cons(e, Before(rest, p)) else Before(rest, p)
  }

  lemma {:induction false} BeforeNothing(edits: EditList, cursor: nat, length: nat, p: nat)
    requires Ordered(edits, cursor, length) && p < cursor
    ensures Before(edits, p) == Nil
  {
    match edits
    case Nil =>
    case Cons(e, rest) => BeforeNothing(rest, e.end, length, p);
  }

  /** Every byte no range claims survives, moved by the growth of the edits before it. */
  lemma {:induction false} UnclaimedByteSurvives(source: seq<byte>, edits: EditList, cursor: nat, p: nat)
    requires Ordered(edits, cursor, |source|) && cursor <= p < |source|
    requires forall e :: e in edits.Elements() ==> !(e.start <= p < e.end)
    ensures var q := p - cursor + Growth(Before(edits, p));
            0 <= q < |Forward(source, edits, cursor)| && Forward(source, edits, cursor)[q] == source[p]
  {
    OrderedBounds(edits, cursor, |source|);
    match edits
    case Nil =>
    case Cons(e, rest) =>
      assert edits.Elements() == [e] + rest.Elements();
      if e.end <= p {
        UnclaimedByteSurvives(source, rest, e.end, p);
        AtAfter(source[cursor..e.start] + e.replacement, Forward(source, rest, e.end), p - e.end + Growth(Before(rest, p)));
      } else {
        BeforeNothing(rest, e.end, |source|, p);
      }
  }

  lemma AtAfter(front: seq<byte>, rest: seq<byte>, q: nat)
    requires q < |rest|
    ensures (front + rest)[|front| + q] == rest[q]
  {
  }

  function Append(front: EditList, back: EditList): EditList {
    match front
    case Nil => back
    case Cons(e, rest) => Cons(e, Append(rest, back))
  }

  /** Every replacement appears, at its range's start moved by the growth before it. */
  lemma {:induction false} ReplacementAppears(source: seq<byte>, front: EditList, e: TextEdit, back: EditList, cursor: nat)
    requires Ordered(Append(front, Cons(e, back)), cursor, |source|)
    ensures var q := e.start - cursor + Growth(front);
            var patched := Forward(source, Append(front, Cons(e, back)), cursor);
            0 <= q && q + |e.replacement| <= |patched| && patched[q..q + |e.replacement|] == e.replacement
  {
    OrderedBounds(Append(front, Cons(e, back)), cursor, |source|);
    match front
    case Nil =>
      AppearsFirst(source[cursor..e.start], e.replacement, Forward(source, back, e.end));
    case Cons(first, rest) =>
      ReplacementAppears(source, rest, e, back, first.end);
      AppearsLater(source[cursor..first.start] + first.replacement, Forward(source, Append(rest, Cons(e, back)), first.end),
        e.start - first.end + Growth(rest), e.replacement);
  }

  lemma AppearsFirst(front: seq<byte>, part: seq<byte>, rest: seq<byte>)
    ensures (front + part + rest)[|front|..|front| + |part|] == part
  {
  }

  lemma AppearsLater(front: seq<byte>, rest: seq<byte>, q: nat, part: seq<byte>)
    requires q + |part| <= |rest| && rest[q..q + |part|] == part
    ensures (front + rest)[|front| + q..|front| + q + |part|] == part
  {
    assert (front + rest)[|front| + q..|front| + q + |part|] == rest[q..q + |part|];
  }

  /** The edit lies on character boundaries and brings valid text. */
  ghost predicate OnCharacters(source: seq<byte>, edits: EditList) {
    match edits
    case Nil => true
    case Cons(e, rest) =>
      IsCharBoundary(source, e.start) && IsCharBoundary(source, e.end) && Valid(e.replacement) && OnCharacters(source, rest)
  }

  lemma {:induction false} ForwardValid(source: seq<byte>, edits: EditList, cursor: nat)
    requires Ordered(edits, cursor, |source|) && Valid(source)
    requires IsCharBoundary(source, cursor) && OnCharacters(source, edits)
    ensures Valid(Forward(source, edits, cursor))
  {
    OrderedBounds(edits, cursor, |source|);
    match edits
    case Nil =>
      ValidSlice(source, cursor, |source|);
      assert source[cursor..|source|] == source[cursor..];
    case Cons(e, rest) =>
      ValidSlice(source, cursor, e.start);
      ForwardValid(source, rest, e.end);
      ValidConcat(source[cursor..e.start], e.replacement);
      ValidConcat(source[cursor..e.start] + e.replacement, Forward(source, rest, e.end));
  }

  // ----- two parts, one after the other

  /** An edit set in order, each edit marked as belonging to the part made
      first, or to the part made after it. */
  datatype Marked = Unmarked | Mark(edit: TextEdit, first: bool, rest: Marked) {
    function All(): EditList {
      match this
      case Unmarked => Nil
      case Mark(e, _, rest) => Cons(e, rest.All())
    }

    function First(): EditList {
      match this
      case Unmarked => Nil
      case Mark(e, first, rest) => if first then Cons(e, rest.First()) else rest.First()
    }
  }

  /** The part made after, each offset moved by the growth of the edits of
      the first part ordered before it (on top of `shift`). */
  function Rebased(marked: Marked, cursor: nat, shift: int, length: nat): EditList
    requires Ordered(marked.All(), cursor, length) && cursor + shift >= 0
  {
    match marked
    case Unmarked => Nil
    case Mark(e, first, rest) =>
      if first then Rebased(rest, e.end, Shifted(e, shift), length)
      else Cons(Moved(e, shift), Rebased(rest, e.end, shift, length))
  }

  function Shifted(e: TextEdit, shift: int): int {
    shift + |e.replacement| - (e.end - e.start)
  }

  function Moved(e: TextEdit, shift: int): TextEdit
    requires e.start + shift >= 0
  {
    Edit(e.file, e.start + shift, e.end + shift, e.replacement)
  }

  lemma {:induction false} FirstOrdered(marked: Marked, cursor: nat, length: nat)
    requires Ordered(marked.All(), cursor, length)
    ensures Ordered(marked.First(), cursor, length)
  {
    match marked
    case Unmarked =>
    case Mark(e, first, rest) =>
      FirstOrdered(rest, e.end, length);
      OrderedEarlier(rest.First(), e.end, cursor, length);
  }

  /** Starting the pass earlier only prepends the source in between. */
  lemma ForwardEarlier(source: seq<byte>, edits: EditList, cursor: nat, cursor': nat)
    requires Ordered(edits, cursor, |source|) && cursor' <= cursor
    ensures Ordered(edits, cursor', |source|) && cursor <= |source|
    ensures Forward(source, edits, cursor') == source[cursor'..cursor] + Forward(source, edits, cursor)
  {
    OrderedBounds(edits, cursor, |source|);
    match edits
    case Nil => assert source[cursor'..] == source[cursor'..cursor] + source[cursor..];
    case Cons(e, rest) =>
      Regroup(source, cursor', cursor, e.start, e.replacement, Forward(source, rest, e.end));
  }

  lemma Regroup(source: seq<byte>, lo: nat, mid: nat, hi: nat, c: seq<byte>, d: seq<byte>)
    requires lo <= mid <= hi <= |source|
    ensures source[lo..hi] + c + d == source[lo..mid] + (source[mid..hi] + c + d)
  {
    assert source[lo..hi] == source[lo..mid] + source[mid..hi];
  }

  /** `patched` is `source` from byte `cursor` on with the first part made,
      `shift` bytes further along. */
  ghost predicate InStep(source: seq<byte>, first: EditList, cursor: nat, patched: seq<byte>, shift: int) {
    && 0 <= cursor + shift <= |patched| && Ordered(first, cursor, |source|)
    && patched[cursor + shift..] == Forward(source, first, cursor)
  }

  /** Where a text's tail is known to fall into a front and a rest. */
  lemma TailSplits(text: seq<byte>, at: nat, front: seq<byte>, rest: seq<byte>)
    requires at <= |text| && text[at..] == front + rest
    ensures at + |front| <= |text| && text[at..at + |front|] == front && text[at + |front|..] == rest
  {
    var tail := text[at..];
    assert text[at..at + |front|] == tail[..|front|] == front;
    assert text[at + |front|..] == tail[|front|..] == rest;
  }

  lemma StepOverFirst(source: seq<byte>, e: TextEdit, rest: EditList, cursor: nat, patched: seq<byte>, shift: int)
    requires InStep(source, Cons(e, rest), cursor, patched, shift)
    ensures cursor <= e.start && e.end <= |source| && 0 <= cursor + shift <= e.end + Shifted(e, shift) <= |patched|
    ensures InStep(source, rest, e.end, patched, Shifted(e, shift))
    ensures patched[cursor + shift..e.end + Shifted(e, shift)] == source[cursor..e.start] + e.replacement
  {
    OrderedBounds(Cons(e, rest), cursor, |source|);
    OrderedBounds(rest, e.end, |source|);
    TailSplits(patched, cursor + shift, source[cursor..e.start] + e.replacement, Forward(source, rest, e.end));
  }

  lemma StepTo(source: seq<byte>, first: EditList, cursor: nat, to: nat, patched: seq<byte>, shift: int)
    requires InStep(source, first, cursor, patched, shift)
    requires cursor <= to && Ordered(first, to, |source|)
    ensures InStep(source, first, to, patched, shift) && to <= |source| && 0 <= cursor + shift <= to + shift <= |patched|
    ensures patched[cursor + shift..to + shift] == source[cursor..to]
  {
    ForwardEarlier(source, first, to, cursor);
    TailSplits(patched, cursor + shift, source[cursor..to], Forward(source, first, to));
  }

  /** Making the first part and then the rest, rebased, is making them all at once. */
  lemma {:induction false} SplitForward(source: seq<byte>, marked: Marked, cursor: nat, patched: seq<byte>, shift: int)
    requires Ordered(marked.All(), cursor, |source|)
    requires InStep(source, marked.First(), cursor, patched, shift)
    ensures var second := Rebased(marked, cursor, shift, |source|);
            Ordered(second, cursor + shift, |patched|) &&
            Forward(patched, second, cursor + shift) == Forward(source, marked.All(), cursor)
  {
    hide Forward, InStep;
    match marked
    case Unmarked => SplitNothing(source, cursor, patched, shift);
    case Mark(e, first, rest) =>
      FirstOrdered(rest, e.end, |source|);
      if first {
        StepOverFirst(source, e, rest.First(), cursor, patched, shift);
        SplitForward(source, rest, e.end, patched, Shifted(e, shift));
        JoinFirst(source, e, rest.All(), cursor, patched, Rebased(rest, e.end, Shifted(e, shift), |source|), shift);
      } else {
        OrderedEarlier(rest.First(), e.end, e.start, |source|);
        StepTo(source, rest.First(), cursor, e.start, patched, shift);
        StepTo(source, rest.First(), cursor, e.end, patched, shift);
        SplitForward(source, rest, e.end, patched, shift);
        JoinMoved(source, e, rest.All(), cursor, patched, Rebased(rest, e.end, shift, |source|), shift);
      }
  }

  lemma SplitNothing(source: seq<byte>, cursor: nat, patched: seq<byte>, shift: int)
    requires InStep(source, Nil, cursor, patched, shift)
    ensures Ordered(Nil, cursor + shift, |patched|)
    ensures Forward(patched, Nil, cursor + shift) == Forward(source, Nil, cursor)
  {
  }

  /** Past an edit of the first part, the second pass only copies it. */
  lemma {:induction false} JoinFirst(source: seq<byte>, e: TextEdit, rest: EditList, cursor: nat,
                                              patched: seq<byte>, second: EditList, shift: int)
    requires Ordered(Cons(e, rest), cursor, |source|) && e.end <= |source|
    requires 0 <= cursor + shift <= e.end + Shifted(e, shift) <= |patched|
    requires patched[cursor + shift..e.end + Shifted(e, shift)] == source[cursor..e.start] + e.replacement
    requires Ordered(second, e.end + Shifted(e, shift), |patched|)
    requires Forward(patched, second, e.end + Shifted(e, shift)) == Forward(source, rest, e.end)
    ensures Ordered(second, cursor + shift, |patched|)
    ensures Forward(patched, second, cursor + shift) == Forward(source, Cons(e, rest), cursor)
  {
    ForwardEarlier(patched, second, e.end + Shifted(e, shift), cursor + shift);
  }

  /** An edit of the second part finds the source it was written against. */
  lemma JoinMoved(source: seq<byte>, e: TextEdit, rest: EditList, cursor: nat, patched: seq<byte>, second: EditList, shift: int)
    requires Ordered(Cons(e, rest), cursor, |source|) && e.end <= |source|
    requires 0 <= cursor + shift && e.start + shift <= |patched|
    requires patched[cursor + shift..e.start + shift] == source[cursor..e.start]
    requires Ordered(second, e.end + shift, |patched|)
    requires Forward(patched, second, e.end + shift) == Forward(source, rest, e.end)
    ensures Ordered(Cons(Moved(e, shift), second), cursor + shift, |patched|)
    ensures Forward(patched, Cons(Moved(e, shift), second), cursor + shift) == Forward(source, Cons(e, rest), cursor)
  {
  }

  lemma StepOnBoundary(source: seq<byte>, first: EditList, cursor: nat, to: nat, patched: seq<byte>, shift: int)
    requires Valid(source) && OnCharacters(source, first) && IsCharBoundary(source, to)
    requires InStep(source, first, cursor, patched, shift)
    requires cursor <= to && Ordered(first, to, |source|)
    ensures InStep(source, first, to, patched, shift) && IsCharBoundary(patched, to + shift)
  {
    StepTo(source, first, cursor, to, patched, shift);
    ForwardValid(source, first, to);
    ValidSuffixBoundary(patched, to + shift);
  }

  lemma {:induction false} FirstOnCharacters(source: seq<byte>, marked: Marked)
    requires OnCharacters(source, marked.All())
    ensures OnCharacters(source, marked.First())
  {
    match marked
    case Unmarked =>
    case Mark(e, first, rest) => FirstOnCharacters(source, rest);
  }

  /** Rebased ranges stay on character boundaries. */
  lemma {:induction false} RebasedOnCharacters(source: seq<byte>, marked: Marked, cursor: nat, patched: seq<byte>, shift: int)
    requires Ordered(marked.All(), cursor, |source|) && Valid(source) && OnCharacters(source, marked.All())
    requires InStep(source, marked.First(), cursor, patched, shift)
    ensures OnCharacters(patched, Rebased(marked, cursor, shift, |source|))
  {
    match marked
    case Unmarked =>
    case Mark(e, first, rest) =>
      FirstOrdered(rest, e.end, |source|);
      FirstOnCharacters(source, rest);
      if first {
        StepOverFirst(source, e, rest.First(), cursor, patched, shift);
        RebasedOnCharacters(source, rest, e.end, patched, Shifted(e, shift));
      } else {
        StepOnBoundary(source, rest.First(), cursor, e.end, patched, shift);
        OrderedEarlier(rest.First(), e.end, e.start, |source|);
        StepOnBoundary(source, rest.First(), cursor, e.start, patched, shift);
        RebasedOnCharacters(source, rest, e.end, patched, shift);
      }
  }
}
