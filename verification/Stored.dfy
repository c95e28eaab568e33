/** The stored form of a file's verdict: diagnostics and directives with
    the file's identity removed, every range unproved again on the way back. */
module Stored {
  import opened Wrappers
  import opened Ordering
  import opened Utf8
  import opened Edits
  import opened Diagnostics
  import opened Suppression

  datatype StoredAnchor = StoredProject | StoredSpan(start: nat, end: nat)
  datatype StoredTarget = StoredLocal(start: nat, end: nat) | StoredSymbolic(symbol: string)
  datatype StoredLabel = StoredLabel(target: StoredTarget, message: string)
  datatype StoredEdit = StoredEdit(start: nat, end: nat, replacement: seq<byte>)
  datatype StoredSuggestion = StoredSuggestion(message: string, confidence: Confidence, edits: seq<StoredEdit>)
  datatype StoredDiagnostic = StoredDiagnostic(
    id: string, severity: Severity, anchor: StoredAnchor, message: string,
    labels: seq<StoredLabel>, notes: seq<string>, suggestions: seq<StoredSuggestion>)

  // ----- a list through a partial conversion

  function Map<A, B>(f: A -> B, s: seq<A>): seq<B> {
    if s == [] then [] else [f(s[0])] + Map(f, s[1..])
  }

  /** All converted, or nothing. */
  function Collect<A, B>(f: A -> Option<B>, s: seq<A>): Option<seq<B>> {
    if s == [] then Some([])
    else
      var (head, tail) := (f(s[0]), Collect(f, s[1..]));
      if head.Some? && tail.Some? then Some([head.value] + tail.value) else None
  }

  /** Converting back what was converted: each element through `g`, as long as every one passes. */
  lemma {:induction false} CollectMap<A, B, C>(f: A -> B, back: B -> Option<C>, g: A -> C, ok: A -> bool, s: seq<A>)
    requires forall x :: x in s ==> back(f(x)) == if ok(x) then Some(g(x)) else None
    ensures Collect(back, Map(f, s)) == if forall x :: x in s ==> ok(x) then Some(Map(g, s)) else None
  {
    if s == [] {
    } else {
      assert s[0] in s && forall x :: x in s[1..] ==> x in s;
      CollectMap(f, back, g, ok, s[1..]);
      assert Map(f, s)[1..] == Map(f, s[1..]);
      assert forall x :: x in s ==> x == s[0] || x in s[1..];
    }
  }

  // ----- diagnostics

  function OfTarget(t: LabelTarget): StoredTarget {
    match t
    case Local(r) => StoredLocal(r.start, r.end)
    case Symbolic(symbol) => StoredSymbolic(symbol)
  }

  function OfLabel(l: Label): StoredLabel { StoredLabel(OfTarget(l.target), l.message) }
  function OfEdit(e: TextEdit): StoredEdit { StoredEdit(e.start, e.end, e.replacement) }
  function OfSuggestion(s: Suggestion): StoredSuggestion {
    StoredSuggestion(s.message, s.confidence, Map(OfEdit, s.edits))
  }

  function OfAnchor(a: Anchor): StoredAnchor {
    match a
    case Project => StoredProject
    case Span(_, r) => StoredSpan(r.start, r.end)
  }

  function OfDiagnostic(d: Diagnostic): StoredDiagnostic {
    StoredDiagnostic(d.id, d.severity, OfAnchor(d.anchor), d.message,
      Map(OfLabel, d.labels), d.notes, Map(OfSuggestion, d.suggestions))
  }

  predicate InBounds(start: nat, end: nat, length: nat) { start <= end <= length }

  function ToAnchor(a: StoredAnchor, file: nat, length: nat): Option<Anchor> {
    match a
    case StoredProject => Some(Project)
    case StoredSpan(start, end) => if InBounds(start, end, length) then Some(Span(file, Range(start, end))) else None
  }

  function ToLabel(l: StoredLabel, length: nat): Option<Label> {
    match l.target
    case StoredSymbolic(symbol) => Some(Label(Symbolic(symbol), l.message))
    case StoredLocal(start, end) =>
      if InBounds(start, end, length) then Some(Label(Local(Range(start, end)), l.message)) else None
  }

  function ToEdit(e: StoredEdit, file: nat, length: nat): Option<TextEdit> {
    if InBounds(e.start, e.end, length) then Some(Edit(file, e.start, e.end, e.replacement)) else None
  }

  function ToSuggestion(s: StoredSuggestion, file: nat, length: nat): Option<Suggestion> {
    var edits := Collect(e => ToEdit(e, file, length), s.edits);
    if edits.Some? then Some(Suggestion(s.message, s.confidence, edits.value)) else None
  }

  function ToLabels(labels: seq<StoredLabel>, length: nat): Option<seq<Label>> {
    Collect(l => ToLabel(l, length), labels)
  }

  function ToSuggestions(suggestions: seq<StoredSuggestion>, file: nat, length: nat): Option<seq<Suggestion>> {
    Collect(s => ToSuggestion(s, file, length), suggestions)
  }

  /** Nothing when any range is inverted or past the content, or the
      identifier is not registered. */
  function ToDiagnostic(d: StoredDiagnostic, file: nat, length: nat, registered: set<string>): Option<Diagnostic> {
    var anchor := ToAnchor(d.anchor, file, length);
    var labels := ToLabels(d.labels, length);
    var suggestions := ToSuggestions(d.suggestions, file, length);
    if anchor.Some? && labels.Some? && suggestions.Some? && d.id in registered then
      Some(Diagnostic(d.id, d.severity, anchor.value, d.message, labels.value, d.notes, suggestions.value))
    else None
  }

  // ----- the same diagnostic under another file identity

  function RestampEdit(e: TextEdit, file: nat): TextEdit { Edit(file, e.start, e.end, e.replacement) }
  function RestampSuggestion(s: Suggestion, file: nat): Suggestion {
    s.(edits := Map(e => RestampEdit(e, file), s.edits))
  }

  function Restamp(d: Diagnostic, file: nat): Diagnostic {
    d.(anchor := if d.anchor.Project? then Project else Span(file, d.anchor.range),
       suggestions := RestampSuggestions(d.suggestions, file))
  }

  function RestampSuggestions(suggestions: seq<Suggestion>, file: nat): seq<Suggestion> {
    Map(s => RestampSuggestion(s, file), suggestions)
  }

  predicate LabelFits(l: Label, length: nat) { l.target.Local? ==> l.target.range.end <= length }
  predicate SuggestionFits(s: Suggestion, length: nat) { forall e :: e in s.edits ==> e.end <= length }

  predicate LabelsFit(labels: seq<Label>, length: nat) { forall l :: l in labels ==> LabelFits(l, length) }
  predicate SuggestionsFit(suggestions: seq<Suggestion>, length: nat) {
    forall s :: s in suggestions ==> SuggestionFits(s, length)
  }

  predicate DiagnosticFits(d: Diagnostic, length: nat) {
    (d.anchor.Span? ==> d.anchor.range.end <= length) && LabelsFit(d.labels, length) && SuggestionsFit(d.suggestions, length)
  }

  lemma SuggestionRoundTrip(s: Suggestion, file: nat, length: nat)
    ensures ToSuggestion(OfSuggestion(s), file, length)
         == if SuggestionFits(s, length) then Some(RestampSuggestion(s, file)) else None
  {
    CollectMap(OfEdit, e => ToEdit(e, file, length), e => RestampEdit(e, file), (e: TextEdit) => e.end <= length, s.edits);
  }

  lemma {:induction false} MapIdentity<A>(s: seq<A>)
    ensures Map(x => x, s) == s
  {
    if s == [] {
    } else {
      MapIdentity(s[1..]);
    }
  }

  lemma LabelsRoundTrip(labels: seq<Label>, length: nat)
    ensures ToLabels(Map(OfLabel, labels), length) == if LabelsFit(labels, length) then Some(labels) else None
  {
    CollectMap(OfLabel, l => ToLabel(l, length), l => l, l => LabelFits(l, length), labels);
    MapIdentity(labels);
  }

  lemma SuggestionsRoundTrip(suggestions: seq<Suggestion>, file: nat, length: nat)
    ensures ToSuggestions(Map(OfSuggestion, suggestions), file, length)
         == if SuggestionsFit(suggestions, length) then Some(RestampSuggestions(suggestions, file)) else None
  {
    forall s | s in suggestions { SuggestionRoundTrip(s, file, length); }
    CollectMap(OfSuggestion, s => ToSuggestion(s, file, length), s => RestampSuggestion(s, file),
      s => SuggestionFits(s, length), suggestions);
  }

  /** Stored and read back, a diagnostic is itself under the reading file's
      identity, exactly when its ranges fit and its identifier is known. */
  lemma DiagnosticRoundTrip(d: Diagnostic, file: nat, length: nat, registered: set<string>)
    ensures ToDiagnostic(OfDiagnostic(d), file, length, registered)
         == if DiagnosticFits(d, length) && d.id in registered then Some(Restamp(d, file)) else None
  {
    LabelsRoundTrip(d.labels, length);
    SuggestionsRoundTrip(d.suggestions, file, length);
  }

  function Restamped(diagnostics: seq<Diagnostic>, file: nat): seq<Diagnostic> {
    Map(d => Restamp(d, file), diagnostics)
  }

  function ToDiagnostics(stored: seq<StoredDiagnostic>, file: nat, length: nat, registered: set<string>)
    : Option<seq<Diagnostic>>
  {
    Collect(d => ToDiagnostic(d, file, length, registered), stored)
  }

  lemma DiagnosticsRoundTrip(diagnostics: seq<Diagnostic>, file: nat, length: nat, registered: set<string>)
    ensures var back := ToDiagnostics(Map(OfDiagnostic, diagnostics), file, length, registered);
            back == None || back == Some(Restamped(diagnostics, file))
  {
    forall d | d in diagnostics { DiagnosticRoundTrip(d, file, length, registered); }
    CollectMap(OfDiagnostic, d => ToDiagnostic(d, file, length, registered), d => Restamp(d, file),
      d => DiagnosticFits(d, length) && d.id in registered, diagnostics);
  }

  // ----- directives

  datatype StoredDirective = StoredDirective(
    anchorStart: nat, anchorEnd: nat, scopeStart: nat, scopeEnd: nat,
    filter: SuppressionFilter, identifiers: seq<string>, native: bool, matched: bool)

  function OfDirective(record: (Directive, bool)): StoredDirective {
    var (d, matched) := record;
    StoredDirective(d.anchor.start, d.anchor.end, d.scope.start, d.scope.end, d.filter, d.identifiers, d.native, matched)
  }

  function ToFilter(f: SuppressionFilter, registered: set<string>): Option<SuppressionFilter> {
    match f
    case All => Some(All)
    case Only(codes) =>
      if forall code :: code in codes ==> code in registered then Some(Only(Dedup(Sort(CompareString, codes)))) else None
  }

  /** The widening notes are not stored: they come back empty. */
  function ToDirective(d: StoredDirective, length: nat, registered: set<string>): Option<(Directive, bool)> {
    if !InBounds(d.anchorStart, d.anchorEnd, length) || !InBounds(d.scopeStart, d.scopeEnd, length) then None
    else
      var filter := ToFilter(d.filter, registered);
      if filter.None? then None
      else Some((Directive(Range(d.anchorStart, d.anchorEnd), Range(d.scopeStart, d.scopeEnd), filter.value,
                           d.identifiers, [], d.native), d.matched))
  }

  /** A filter's codes are sorted, each once. */
  ghost predicate Canonical(d: Directive) {
    d.filter.Only? ==> StrictlySorted(CompareString, d.filter.codes)
  }

  lemma {:induction false} DedupFixed(s: seq<string>)
    requires StrictlySorted(CompareString, s)
    ensures Dedup(s) == s
  {
    if |s| < 2 {
    } else {
      CompareStringTotal();
      assert CompareString(s[0], s[1]) == Less;
      DedupFixed(s[1..]);
    }
  }

  predicate DirectiveFits(d: Directive, length: nat, registered: set<string>) {
    d.anchor.end <= length && d.scope.end <= length
    && (d.filter.Only? ==> forall code :: code in d.filter.codes ==> code in registered)
  }

  function Unwidened(record: (Directive, bool)): (Directive, bool) {
    (record.0.(widenedBy := []), record.1)
  }

  lemma DirectiveRoundTrip(record: (Directive, bool), length: nat, registered: set<string>)
    requires record.0.filter.Only? ==> StrictlySorted(CompareString, record.0.filter.codes)
    ensures ToDirective(OfDirective(record), length, registered)
         == if DirectiveFits(record.0, length, registered) then Some(Unwidened(record)) else None
  {
    var d := record.0;
    if d.filter.Only? {
      CompareStringTotal();
      SortFixed(CompareString, d.filter.codes);
      DedupFixed(d.filter.codes);
    }
  }

  // ----- a whole verdict

  datatype StoredTypedVerdict = StoredTypedVerdict(diagnostics: seq<StoredDiagnostic>, matchedDirectives: seq<nat>)
  datatype StoredVerdict = StoredVerdict(
    diagnostics: seq<StoredDiagnostic>, directives: seq<StoredDirective>, typed: Option<StoredTypedVerdict>)

  predicate StrictlyIncreasing(s: seq<nat>) {
    forall i :: 0 <= i < |s| - 1 ==> s[i] < s[i + 1]
  }

  function ToDirectives(stored: seq<StoredDirective>, length: nat, registered: set<string>): Option<seq<(Directive, bool)>> {
    Collect(d => ToDirective(d, length, registered), stored)
  }

  /** The directive records, with the typed half's indexes checked: in range
      and strictly increasing. Nothing means the whole verdict is discarded. */
  function DirectivesConvert(verdict: StoredVerdict, length: nat, registered: set<string>)
    : Option<seq<(Directive, bool)>>
  {
    var records := ToDirectives(verdict.directives, length, registered);
    if records.None? then None
    else if verdict.typed.Some?
         && !((forall i :: i in verdict.typed.value.matchedDirectives ==> i < |records.value|)
              && StrictlyIncreasing(verdict.typed.value.matchedDirectives)) then None
    else records
  }

  lemma {:induction false} StrictlyIncreasingSorted(s: seq<nat>, i: nat, j: nat)
    requires StrictlyIncreasing(s) && i < j < |s|
    ensures s[i] < s[j]
    decreases j - i
  {
    assert s[j - 1] < s[j - 1 + 1];
    if i == j - 1 {
    } else {
      StrictlyIncreasingSorted(s, i, j - 1);
    }
  }

  lemma {:induction false} CollectExactly<A, B>(f: A -> Option<B>, s: seq<A>)
    ensures Collect(f, s).Some? <==> forall x :: x in s ==> f(x).Some?
    ensures Collect(f, s).Some? ==> |Collect(f, s).value| == |s| && forall i :: 0 <= i < |s| ==> Some(Collect(f, s).value[i]) == f(s[i])
  {
    if s == [] {
    } else {
      CollectExactly(f, s[1..]);
      assert s == [s[0]] + s[1..];
    }
  }

  /** A verdict's directives convert exactly when every range is in order and
      within the content, every code is registered, and the typed half's indexes,
      if there is one, are of directives that are there and strictly increasing. */
  lemma ConvertsExactly(verdict: StoredVerdict, length: nat, registered: set<string>)
    ensures DirectivesConvert(verdict, length, registered).Some? <==>
              && (forall d :: d in verdict.directives ==>
                    && d.anchorStart <= d.anchorEnd <= length && d.scopeStart <= d.scopeEnd <= length
                    && (d.filter.Only? ==> forall code :: code in d.filter.codes ==> code in registered))
              && (verdict.typed.Some? ==>
                    var matched := verdict.typed.value.matchedDirectives;
                    && (forall i :: i in matched ==> i < |verdict.directives|)
                    && (forall j, k :: 0 <= j < k < |matched| ==> matched[j] < matched[k]))
    ensures DirectivesConvert(verdict, length, registered).Some? ==>
              |DirectivesConvert(verdict, length, registered).value| == |verdict.directives|
  {
    CollectExactly(d => ToDirective(d, length, registered), verdict.directives);
    if verdict.typed.Some? {
      var matched := verdict.typed.value.matchedDirectives;
      if StrictlyIncreasing(matched) {
        forall j, k | 0 <= j < k < |matched| ensures matched[j] < matched[k] { StrictlyIncreasingSorted(matched, j, k); }
      }
    }
  }

  /** Conversion is the proof that searching the typed indexes is exact,
      even over a pack nobody honest wrote. */
  lemma ConvertedIndexesSearchExactly(verdict: StoredVerdict, length: nat, registered: set<string>, i: nat)
    requires verdict.typed.Some? && DirectivesConvert(verdict, length, registered).Some?
    ensures var matched := verdict.typed.value.matchedDirectives;
            Found(CompareNat, matched, i) <==> i in matched
  {
    var matched := verdict.typed.value.matchedDirectives;
    forall i, j | 0 <= i < j < |matched| ensures matched[i] < matched[j] { StrictlyIncreasingSorted(matched, i, j); }
    CompareNatTotal();
    FoundIffMember(CompareNat, matched, i);
  }

  lemma DirectivesRoundTrip(records: seq<(Directive, bool)>, length: nat, registered: set<string>)
    requires forall r :: r in records ==> Canonical(r.0)
    ensures var back := ToDirectives(Map(OfDirective, records), length, registered);
            back == None || back == Some(Map(Unwidened, records))
  {
    forall r | r in records { DirectiveRoundTrip(r, length, registered); }
    CollectMap(OfDirective, d => ToDirective(d, length, registered), Unwidened,
      (r: (Directive, bool)) => DirectiveFits(r.0, length, registered), records);
  }
}
