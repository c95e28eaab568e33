/** The diagnostics model and its total order, under which a report is
    sorted and compared byte for byte. */
module Diagnostics {
  import opened Wrappers
  import opened Ordering
  import opened Edits

  datatype Range = Range(start: nat, end: nat)
  type TextRange = r: Range | r.start <= r.end witness Range(0, 0)

  datatype Severity = Warning | Error
  datatype Confidence = Safe | NeedsReview

  /** A finding points at a span, or honestly at the whole project. */
  datatype Anchor = Project | Span(file: nat, range: TextRange)

  datatype LabelTarget = Local(range: TextRange) | Symbolic(symbol: string)
  datatype Label = Label(target: LabelTarget, message: string)
  datatype Suggestion = Suggestion(message: string, confidence: Confidence, edits: seq<TextEdit>)

  datatype Diagnostic = Diagnostic(
    id: string, severity: Severity, anchor: Anchor, message: string,
    labels: seq<Label>, notes: seq<string>, suggestions: seq<Suggestion>)

  // ----- the order

  function SeverityRank(s: Severity): nat { if s.Warning? then 0 else 1 }
  function ConfidenceRank(c: Confidence): nat { if c.Safe? then 0 else 1 }

  /** Project findings first, then spans by file, start and end. */
  function AnchorKey(a: Anchor): seq<nat> {
    match a
    case Project => [0, 0, 0, 0]
    case Span(file, range) => [1, file, range.start, range.end]
  }

  function CompareAnchor(a: Anchor, b: Anchor): Cmp {
    CompareSeq(CompareNat, AnchorKey(a), AnchorKey(b))
  }

  /** Labels in the file itself come before symbolic ones. */
  function CompareTarget(a: LabelTarget, b: LabelTarget): Cmp {
    match (a, b)
    case (Local(r), Local(q)) => CompareNat(r.start, q.start).Then(CompareNat(r.end, q.end))
    case (Local(_), Symbolic(_)) => Less
    case (Symbolic(_), Local(_)) => Greater
    case (Symbolic(x), Symbolic(y)) => CompareString(x, y)
  }

  function CompareLabel(a: Label, b: Label): Cmp {
    CompareTarget(a.target, b.target).Then(CompareString(a.message, b.message))
  }

  function CompareSuggestion(a: Suggestion, b: Suggestion): Cmp {
    CompareString(a.message, b.message)
      .Then(CompareNat(ConfidenceRank(a.confidence), ConfidenceRank(b.confidence)))
      .Then(CompareSeq(CompareEdit, a.edits, b.edits))
  }

  /** Where, what, how serious. */
  function CompareHead(a: Diagnostic, b: Diagnostic): Cmp {
    CompareAnchor(a.anchor, b.anchor)
      .Then(CompareString(a.id, b.id))
      .Then(CompareNat(SeverityRank(a.severity), SeverityRank(b.severity)))
      .Then(CompareString(a.message, b.message))
  }

  /** The anatomy, which only breaks ties. */
  function CompareAnatomy(a: Diagnostic, b: Diagnostic): Cmp {
    CompareSeq(CompareLabel, a.labels, b.labels)
      .Then(CompareSeq(CompareString, a.notes, b.notes))
      .Then(CompareSeq(CompareSuggestion, a.suggestions, b.suggestions))
  }

  function CompareDiagnostic(a: Diagnostic, b: Diagnostic): Cmp {
    CompareHead(a, b).Then(CompareAnatomy(a, b))
  }

  // ----- which way it goes

  /** Project findings before spans, and spans by file, start and end. */
  lemma AnchorBefore(a: Anchor, b: Anchor)
    ensures CompareAnchor(a, b) == Less <==>
              b.Span? && (a.Project? || (
                || a.file < b.file
                || (a.file == b.file && (
                    || a.range.start < b.range.start
                    || (a.range.start == b.range.start && a.range.end < b.range.end)))))
    ensures CompareAnchor(a, b) == Equal <==> a == b
  {
    var x, y := AnchorKey(a), AnchorKey(b);
    FourNats(x, y);
  }

  lemma FourNats(x: seq<nat>, y: seq<nat>)
    requires |x| == |y| == 4
    ensures CompareSeq(CompareNat, x, y)
         == CompareNat(x[0], y[0]).Then(CompareNat(x[1], y[1])).Then(CompareNat(x[2], y[2])).Then(CompareNat(x[3], y[3]))
  {
    assert x[1..][1..] == x[2..] && x[2..][1..] == x[3..] && x[3..][1..] == [];
    assert y[1..][1..] == y[2..] && y[2..][1..] == y[3..] && y[3..][1..] == [];
    assert CompareSeq(CompareNat, x[3..], y[3..]) == CompareNat(x[3], y[3]).Then(CompareSeq(CompareNat, [], []));
    assert CompareSeq(CompareNat, x[2..], y[2..]) == CompareNat(x[2], y[2]).Then(CompareSeq(CompareNat, x[3..], y[3..]));
    assert CompareSeq(CompareNat, x[1..], y[1..]) == CompareNat(x[1], y[1]).Then(CompareSeq(CompareNat, x[2..], y[2..]));
    assert CompareSeq(CompareNat, x, y) == CompareNat(x[0], y[0]).Then(CompareSeq(CompareNat, x[1..], y[1..]));
  }

  /** One finding before another: by anchor, identifier, severity with warnings
      first, message, labels, notes and suggestions, each only where the ones
      before tie. */
  lemma {:induction false} DiagnosticBefore(a: Diagnostic, b: Diagnostic)
    ensures CompareDiagnostic(a, b) == Less <==>
              || CompareAnchor(a.anchor, b.anchor) == Less
              || (a.anchor == b.anchor && (
                  || CompareString(a.id, b.id) == Less
                  || (a.id == b.id && (
                      || (a.severity == Warning && b.severity == Error)
                      || (a.severity == b.severity && (
                          || CompareString(a.message, b.message) == Less
                          || (a.message == b.message && AnatomyBefore(a, b))))))))
  {
    CompareStringTotal();
    CompareLabelTotal();
    CompareSuggestionTotal();
    AnchorBefore(a.anchor, b.anchor);
    SeqTotal(CompareLabel, a.labels, b.labels, a.labels);
    SeqTotal(CompareString, a.notes, b.notes, a.notes);
    hide CompareAnchor, CompareSeq, CompareString, CompareLabel, CompareSuggestion;
  }

  ghost predicate AnatomyBefore(a: Diagnostic, b: Diagnostic) {
    || CompareSeq(CompareLabel, a.labels, b.labels) == Less
    || (a.labels == b.labels && (
        || CompareSeq(CompareString, a.notes, b.notes) == Less
        || (a.notes == b.notes && CompareSeq(CompareSuggestion, a.suggestions, b.suggestions) == Less)))
  }

  /** Labels in the file by start and end, before symbolic ones by symbol; then
      by message. Suggestions by message, safe ones first, then edits. */
  lemma PartBefore(a: Label, b: Label, s: Suggestion, t: Suggestion)
    ensures CompareLabel(a, b) == Less <==>
              || (a.target.Local? && b.target.Symbolic?)
              || (a.target.Local? && b.target.Local? && (
                  || a.target.range.start < b.target.range.start
                  || (a.target.range.start == b.target.range.start && a.target.range.end < b.target.range.end)))
              || (a.target.Symbolic? && b.target.Symbolic? && CompareString(a.target.symbol, b.target.symbol) == Less)
              || (a.target == b.target && CompareString(a.message, b.message) == Less)
    ensures CompareSuggestion(s, t) == Less <==>
              || CompareString(s.message, t.message) == Less
              || (s.message == t.message && (
                  || (s.confidence == Safe && t.confidence == NeedsReview)
                  || (s.confidence == t.confidence && CompareSeq(CompareEdit, s.edits, t.edits) == Less)))
  {
    CompareStringTotal();
  }

  /** A sorted report lists project findings first, then spans by file, start and end. */
  lemma ReportOrder(findings: seq<Diagnostic>, i: nat, j: nat)
    requires i < j < |findings|
    ensures var s := Sort(CompareDiagnostic, findings);
            && |s| == |findings|
            && (s[j].anchor.Project? ==> s[i].anchor.Project?)
            && (s[i].anchor.Span? ==>
                  || s[i].anchor.file < s[j].anchor.file
                  || (s[i].anchor.file == s[j].anchor.file && (
                      || s[i].anchor.range.start < s[j].anchor.range.start
                      || (s[i].anchor.range.start == s[j].anchor.range.start && s[i].anchor.range.end <= s[j].anchor.range.end))))
  {
    CompareDiagnosticTotal();
    SortSorted(CompareDiagnostic, findings);
    SortPermutes(CompareDiagnostic, findings);
    var s := Sort(CompareDiagnostic, findings);
    DiagnosticBefore(s[i], s[j]);
    AnchorBefore(s[i].anchor, s[j].anchor);
    hide CompareDiagnostic, CompareAnchor, TotalCompare;
    assert CompareDiagnostic(s[i], s[j]) != Greater;
  }

  // ----- it is total, and equal only on equal findings

  lemma SeqTotal<T(!new)>(cmp: (T, T) -> Cmp, x: seq<T>, y: seq<T>, z: seq<T>)
    requires TotalCompare(cmp)
    ensures CompareSeq(cmp, x, y) == Equal <==> x == y
    ensures CompareSeq(cmp, y, x) == CompareSeq(cmp, x, y).Flip()
    ensures Fit(CompareSeq(cmp, x, y), CompareSeq(cmp, y, z), CompareSeq(cmp, x, z))
  {
    CompareSeqEqual(cmp, x, y);
    CompareSeqEqual(cmp, y, x);
    CompareSeqFlip(cmp, x, y);
    if CompareSeq(cmp, x, y) != Greater && CompareSeq(cmp, y, z) != Greater {
      CompareSeqTransitive(cmp, x, y, z);
      CompareSeqEqual(cmp, x, z);
    }
  }

  lemma CompareLabelTotal()
    ensures TotalCompare(CompareLabel)
  {
    CompareStringTotal();
    forall a: Label, b: Label
      ensures CompareLabel(a, b) == Equal <==> a == b
      ensures CompareLabel(b, a) == CompareLabel(a, b).Flip()
    {
    }
    forall a: Label, b: Label, c: Label | CompareLabel(a, b) != Greater && CompareLabel(b, c) != Greater
      ensures CompareLabel(a, c) != Greater
    {
      var ab, bc, ac := CompareTarget(a.target, b.target), CompareTarget(b.target, c.target), CompareTarget(a.target, c.target);
      if a.target.Symbolic? && b.target.Symbolic? && c.target.Symbolic? {
        TotalFit(CompareString, a.target.symbol, b.target.symbol, c.target.symbol);
      }
      TotalFit(CompareString, a.message, b.message, c.message);
      ThenFit(ab, bc, ac, CompareString(a.message, b.message), CompareString(b.message, c.message),
              CompareString(a.message, c.message));
    }
  }

  lemma CompareSuggestionTotal()
    ensures TotalCompare(CompareSuggestion)
  {
    CompareStringTotal();
    CompareEditTotal();
    forall a: Suggestion, b: Suggestion
      ensures CompareSuggestion(a, b) == Equal <==> a == b
      ensures CompareSuggestion(b, a) == CompareSuggestion(a, b).Flip()
    {
      SeqTotal(CompareEdit, a.edits, b.edits, a.edits);
    }
    forall a: Suggestion, b: Suggestion, c: Suggestion
      | CompareSuggestion(a, b) != Greater && CompareSuggestion(b, c) != Greater
      ensures CompareSuggestion(a, c) != Greater
    {
      SeqTotal(CompareEdit, a.edits, b.edits, c.edits);
      TotalFit(CompareString, a.message, b.message, c.message);
    }
  }

  lemma AnchorTotal(x: Anchor, y: Anchor, z: Anchor)
    ensures CompareAnchor(x, y) == Equal <==> x == y
    ensures CompareAnchor(y, x) == CompareAnchor(x, y).Flip()
    ensures Fit(CompareAnchor(x, y), CompareAnchor(y, z), CompareAnchor(x, z))
  {
    SeqTotal(CompareNat, AnchorKey(x), AnchorKey(y), AnchorKey(z));
    if AnchorKey(x) == AnchorKey(y) {
      assert AnchorKey(x)[0] == AnchorKey(y)[0] && AnchorKey(x)[1] == AnchorKey(y)[1];
      assert AnchorKey(x)[2] == AnchorKey(y)[2] && AnchorKey(x)[3] == AnchorKey(y)[3];
    }
  }

  lemma HeadTotal(a: Diagnostic, b: Diagnostic, c: Diagnostic)
    ensures CompareHead(a, b) == Equal
       <==> a.anchor == b.anchor && a.id == b.id && a.severity == b.severity && a.message == b.message
    ensures CompareHead(b, a) == CompareHead(a, b).Flip()
    ensures Fit(CompareHead(a, b), CompareHead(b, c), CompareHead(a, c))
  {
    CompareStringTotal();
    AnchorTotal(a.anchor, b.anchor, c.anchor);
    AnchorTotal(b.anchor, c.anchor, a.anchor);
    AnchorTotal(a.anchor, c.anchor, a.anchor);
    TotalFit(CompareString, a.id, b.id, c.id);
    TotalFit(CompareString, a.message, b.message, c.message);
  }

  lemma AnatomyTotal(a: Diagnostic, b: Diagnostic, c: Diagnostic)
    ensures CompareAnatomy(a, b) == Equal <==> a.labels == b.labels && a.notes == b.notes && a.suggestions == b.suggestions
    ensures CompareAnatomy(b, a) == CompareAnatomy(a, b).Flip()
    ensures Fit(CompareAnatomy(a, b), CompareAnatomy(b, c), CompareAnatomy(a, c))
  {
    CompareStringTotal();
    CompareLabelTotal();
    CompareSuggestionTotal();
    SeqTotal(CompareLabel, a.labels, b.labels, c.labels);
    SeqTotal(CompareLabel, b.labels, c.labels, a.labels);
    SeqTotal(CompareLabel, a.labels, c.labels, a.labels);
    SeqTotal(CompareString, a.notes, b.notes, c.notes);
    SeqTotal(CompareString, b.notes, c.notes, a.notes);
    SeqTotal(CompareString, a.notes, c.notes, a.notes);
    SeqTotal(CompareSuggestion, a.suggestions, b.suggestions, c.suggestions);
  }

  /** Total, and equal only on equal findings: sorting a report has one result. */
  lemma {:induction false} CompareDiagnosticTotal()
    ensures TotalCompare(CompareDiagnostic)
  {
    forall a: Diagnostic, b: Diagnostic
      ensures CompareDiagnostic(a, b) == Equal <==> a == b
      ensures CompareDiagnostic(b, a) == CompareDiagnostic(a, b).Flip()
    {
      HeadTotal(a, b, a);
      AnatomyTotal(a, b, a);
    }
    forall a: Diagnostic, b: Diagnostic, c: Diagnostic
      | CompareDiagnostic(a, b) != Greater && CompareDiagnostic(b, c) != Greater
      ensures CompareDiagnostic(a, c) != Greater
    {
      HeadTotal(a, b, c);
      HeadTotal(b, c, a);
      HeadTotal(a, c, a);
      AnatomyTotal(a, b, c);
      ThenFit(CompareHead(a, b), CompareHead(b, c), CompareHead(a, c),
        CompareAnatomy(a, b), CompareAnatomy(b, c), CompareAnatomy(a, c));
    }
  }
}
