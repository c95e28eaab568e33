/** Composing one file's diagnostics: two filtered halves, served from the
    cache or recomputed, and the directive rules over the union of what
    the directives matched. */
module Analysis {
  import opened Wrappers
  import opened Ordering
  import opened Diagnostics
  import opened Suppression
  import opened Stored

  datatype DirectiveOutcome = DirectiveOutcome(directive: Directive, matched: bool)

  /** What one file's analysis reads. The phases' raw findings and the
      reporting rules are the database's; `registered` is the identifier
      registry. */
  datatype Inputs = Inputs(
    file: nat, contentLength: nat, textEnd: nat,
    untypedFindings: seq<Diagnostic>, typedFindings: seq<Diagnostic>,
    directives: seq<Directive>, remap: map<string, Severity>,
    reporting: seq<DirectiveOutcome> -> seq<Diagnostic>, registered: set<string>)

  /** One filtered half: what survived, and which directives matched. */
  datatype FilteredPortion = FilteredPortion(diagnostics: seq<Diagnostic>, matched: seq<nat>)

  function Portion(inputs: Inputs, findings: seq<Diagnostic>): FilteredPortion {
    FilteredPortion(
      Remapped(inputs.remap, Survivors(inputs.directives, findings, inputs.textEnd)),
      Matched(inputs.directives, findings, inputs.textEnd))
  }

  function Untyped(inputs: Inputs): FilteredPortion { Portion(inputs, inputs.untypedFindings) }
  function Typed(inputs: Inputs): FilteredPortion { Portion(inputs, inputs.typedFindings) }

  /** Filter, then remap; without directives the filter is not entered. */
  method ComputePortion(inputs: Inputs, findings: seq<Diagnostic>) returns (portion: FilteredPortion)
    ensures portion == Portion(inputs, findings)
  {
    var kept, matched := findings, [];
    if inputs.directives == [] {
      NoDirectives(findings, inputs.textEnd);
    } else {
      kept, matched := RetainUnsuppressed(inputs.directives, findings, inputs.textEnd);
    }
    var diagnostics := new Diagnostic[|kept|](i requires 0 <= i < |kept| => kept[i]);
    assert diagnostics[..] == kept;
    ApplySeverityRemap(inputs.remap, diagnostics);
    portion := FilteredPortion(diagnostics[..], matched);
  }

  lemma {:induction false} NoDirectives(findings: seq<Diagnostic>, textEnd: nat)
    ensures Survivors([], findings, textEnd) == findings
    ensures Matched([], findings, textEnd) == []
  {
    if findings == [] {
    } else {
      NoDirectives(findings[..|findings| - 1], textEnd);
      assert findings == findings[..|findings| - 1] + [findings[|findings| - 1]];
    }
  }

  /** The query's directives, each with the untyped half's match. */
  function FreshRecords(inputs: Inputs, matchedUntyped: seq<nat>): seq<(Directive, bool)> {
    seq(|inputs.directives|, i requires 0 <= i < |inputs.directives| =>
      (inputs.directives[i], Found<nat>(CompareNat, matchedUntyped, i)))
  }

  /** Each record's flag, or the typed half's index for it. */
  function DirectiveOutcomes(records: seq<(Directive, bool)>, matchedTyped: seq<nat>): seq<DirectiveOutcome> {
    seq(|records|, i requires 0 <= i < |records| =>
      DirectiveOutcome(records[i].0, records[i].1 || Found<nat>(CompareNat, matchedTyped, i)))
  }

  function ReportingPortion(inputs: Inputs, outcomes: seq<DirectiveOutcome>): seq<Diagnostic> {
    Remapped(inputs.remap, inputs.reporting(outcomes))
  }

  function Composed(inputs: Inputs): seq<Diagnostic> {
    var untyped, typed := Untyped(inputs), Typed(inputs);
    var outcomes := DirectiveOutcomes(FreshRecords(inputs, untyped.matched), typed.matched);
    Sort(CompareDiagnostic, untyped.diagnostics + typed.diagnostics + ReportingPortion(inputs, outcomes))
  }

  method ComposedDiagnostics(inputs: Inputs) returns (diagnostics: seq<Diagnostic>)
    ensures diagnostics == Composed(inputs)
  {
    var untyped := ComputePortion(inputs, inputs.untypedFindings);
    var typed := ComputePortion(inputs, inputs.typedFindings);
    var freshRecords := FreshRecords(inputs, untyped.matched);
    var outcomes := DirectiveOutcomes(freshRecords, typed.matched);
    diagnostics := untyped.diagnostics;
    diagnostics := diagnostics + typed.diagnostics;
    diagnostics := diagnostics + ReportingPortion(inputs, outcomes);
    diagnostics := Sort(CompareDiagnostic, diagnostics);
  }

  // ----- what the composition means

  /** Without halves: remap everything no directive admits, add what the
      reporting rules say of directives that admitted anything or nothing. */
  function Reference(inputs: Inputs): seq<Diagnostic> {
    var findings := inputs.untypedFindings + inputs.typedFindings;
    var outcomes := seq(|inputs.directives|, i requires 0 <= i < |inputs.directives| =>
      DirectiveOutcome(inputs.directives[i], Used(inputs.directives[i], findings, inputs.textEnd)));
    Sort(CompareDiagnostic,
      Survivors(inputs.directives, Remapped(inputs.remap, findings), inputs.textEnd)
      + Remapped(inputs.remap, inputs.reporting(outcomes)))
  }

  function FreshOutcomes(inputs: Inputs): seq<DirectiveOutcome> {
    DirectiveOutcomes(FreshRecords(inputs, Untyped(inputs).matched), Typed(inputs).matched)
  }

  /** A directive's flag says it admitted something in either half. */
  lemma {:induction false} OutcomeIsUse(inputs: Inputs, i: nat)
    requires i < |inputs.directives|
    ensures FreshOutcomes(inputs)[i] == DirectiveOutcome(inputs.directives[i],
              Used(inputs.directives[i], inputs.untypedFindings + inputs.typedFindings, inputs.textEnd))
  {
    CompareNatTotal();
    FoundIffMember<nat>(CompareNat, Untyped(inputs).matched, i);
    FoundIffMember<nat>(CompareNat, Typed(inputs).matched, i);
    UsedConcat(inputs.directives[i], inputs.untypedFindings, inputs.typedFindings, inputs.textEnd);
  }

  /** Two halves filtered apart, their matches united, are the whole
      filtered together. */
  lemma {:induction false} ComposedIsReference(inputs: Inputs)
    ensures Composed(inputs) == Reference(inputs)
  {
    var a, b, end := inputs.untypedFindings, inputs.typedFindings, inputs.textEnd;
    var outcomes := FreshOutcomes(inputs);
    forall i | 0 <= i < |outcomes| { OutcomeIsUse(inputs, i); }
    assert outcomes == seq(|inputs.directives|, i requires 0 <= i < |inputs.directives| =>
      DirectiveOutcome(inputs.directives[i], Used(inputs.directives[i], a + b, end)));
    RemapCommutes(inputs.remap, inputs.directives, a + b, end);
    SurvivorsConcat(inputs.directives, a, b, end);
    RemappedConcat(inputs.remap, Survivors(inputs.directives, a, end), Survivors(inputs.directives, b, end));
  }

  // ----- the cache

  datatype TypedOutcome = Served | Recompute
  datatype VerdictLookup = Hit(verdict: StoredVerdict, typed: TypedOutcome) | Discarded | Absent

  /** What `persist` stores for the file, the typed half only if asked to. */
  function ComposedVerdict(inputs: Inputs, persistTyped: bool): StoredVerdict {
    var untyped, typed := Untyped(inputs), Typed(inputs);
    StoredVerdict(
      Map(OfDiagnostic, untyped.diagnostics),
      Map(OfDirective, FreshRecords(inputs, untyped.matched)),
      if persistTyped then Some(StoredTypedVerdict(Map(OfDiagnostic, typed.diagnostics), typed.matched)) else None)
  }

  /** The typed half: served when it is there and every diagnostic of it
      converts, recomputed otherwise. */
  function ServedTyped(inputs: Inputs, source: Option<StoredTypedVerdict>): FilteredPortion {
    var converted := if source.None? then None
      else ToDiagnostics(source.value.diagnostics, inputs.file, inputs.contentLength, inputs.registered);
    if converted.Some? then FilteredPortion(converted.value, source.value.matchedDirectives) else Typed(inputs)
  }

  /** Everything the untyped side settles: its diagnostics, the typed half
      worth serving, and the directive records. */
  datatype Layer = Layer(diagnostics: seq<Diagnostic>, typedSource: Option<StoredTypedVerdict>, records: seq<(Directive, bool)>)

  function Recomputed(inputs: Inputs): Layer {
    Layer(Untyped(inputs).diagnostics, None, FreshRecords(inputs, Untyped(inputs).matched))
  }

  /** A verdict speaks only if everything in it converted; a failure takes
      the typed half down with it. */
  function Serve(inputs: Inputs, served: Option<seq<Diagnostic>>, typedSource: Option<StoredTypedVerdict>,
                 records: Option<seq<(Directive, bool)>>): Layer
  {
    if served.Some? && records.Some? then Layer(served.value, typedSource, records.value) else Recomputed(inputs)
  }

  function UntypedLayer(inputs: Inputs, lookup: VerdictLookup): Layer {
    match lookup
    case Hit(verdict, typed) =>
      Serve(inputs,
        ToDiagnostics(verdict.diagnostics, inputs.file, inputs.contentLength, inputs.registered),
        if typed.Served? then verdict.typed else None,
        DirectivesConvert(verdict, inputs.contentLength, inputs.registered))
    case Discarded => Recomputed(inputs)
    case Absent => Recomputed(inputs)
  }

  function Analyzed(inputs: Inputs, lookup: VerdictLookup): seq<Diagnostic> {
    var layer := UntypedLayer(inputs, lookup);
    var typed := ServedTyped(inputs, layer.typedSource);
    var outcomes := DirectiveOutcomes(layer.records, typed.matched);
    Sort(CompareDiagnostic, layer.diagnostics + typed.diagnostics + ReportingPortion(inputs, outcomes))
  }

  method RecomputeLayer(inputs: Inputs) returns (layer: Layer)
    ensures layer == Recomputed(inputs)
  {
    var portion := ComputePortion(inputs, inputs.untypedFindings);
    layer := Layer(portion.diagnostics, None, FreshRecords(inputs, portion.matched));
  }

  method ServedTypedDiagnostics(inputs: Inputs, source: Option<StoredTypedVerdict>) returns (portion: FilteredPortion)
    ensures portion == ServedTyped(inputs, source)
  {
    if source.Some? {
      var converted := ToDiagnostics(source.value.diagnostics, inputs.file, inputs.contentLength, inputs.registered);
      if converted.Some? {
        return FilteredPortion(converted.value, source.value.matchedDirectives);
      }
    }
    portion := ComputePortion(inputs, inputs.typedFindings);
  }

  method AnalyzeOne(inputs: Inputs, lookup: VerdictLookup) returns (diagnostics: seq<Diagnostic>)
    ensures diagnostics == Analyzed(inputs, lookup)
  {
    var layer;
    match lookup {
      case Hit(verdict, typed) =>
        var served := ToDiagnostics(verdict.diagnostics, inputs.file, inputs.contentLength, inputs.registered);
        var records := DirectivesConvert(verdict, inputs.contentLength, inputs.registered);
        if served.Some? && records.Some? {
          layer := Layer(served.value, if typed.Served? then verdict.typed else None, records.value);
        } else {
          layer := RecomputeLayer(inputs);
        }
      case Discarded => layer := RecomputeLayer(inputs);
      case Absent => layer := RecomputeLayer(inputs);
    }
    var typed := ServedTypedDiagnostics(inputs, layer.typedSource);
    var outcomes := DirectiveOutcomes(layer.records, typed.matched);
    diagnostics := layer.diagnostics;
    diagnostics := diagnostics + typed.diagnostics;
    diagnostics := diagnostics + ReportingPortion(inputs, outcomes);
    diagnostics := Sort(CompareDiagnostic, diagnostics);
  }

  // ----- a warm run reports what a cold run reports

  /** The half is what it was when the verdict was stored, in any order and
      under this run's identity of the file. */
  ghost predicate SameHalf(now: FilteredPortion, stored: FilteredPortion, file: nat) {
    multiset(now.diagnostics) == multiset(Restamped(stored.diagnostics, file)) && now.matched == stored.matched
  }

  /** What the lookup vouches for: the verdict was stored for the same
      content, and the halves it lets speak are unchanged. */
  ghost predicate Revalidated(now: Inputs, before: Inputs, persistTyped: bool, lookup: VerdictLookup) {
    lookup.Hit? ==>
      && lookup.verdict == ComposedVerdict(before, persistTyped)
      && now.directives == before.directives
      && SameHalf(Untyped(now), Untyped(before), now.file)
      && (lookup.typed.Served? ==> SameHalf(Typed(now), Typed(before), now.file))
  }

  function Plain(outcome: DirectiveOutcome): DirectiveOutcome {
    outcome.(directive := outcome.directive.(widenedBy := []))
  }

  /** The reporting rules do not read the widening notes: those are for the
      verbose channel, and are not stored. */
  ghost predicate IgnoresWidening(reporting: seq<DirectiveOutcome> -> seq<Diagnostic>) {
    forall outcomes :: reporting(outcomes) == reporting(Map(Plain, outcomes))
  }

  lemma {:induction false} MapAt<A, B>(f: A -> B, s: seq<A>)
    ensures |Map(f, s)| == |s| && forall i :: 0 <= i < |s| ==> Map(f, s)[i] == f(s[i])
  {
    if s == [] {
    } else {
      MapAt(f, s[1..]);
    }
  }

  /** Outcomes over stored records differ from fresh ones in widening notes only. */
  lemma OutcomesOfStored(records: seq<(Directive, bool)>, matchedTyped: seq<nat>)
    ensures Map(Plain, DirectiveOutcomes(Map(Unwidened, records), matchedTyped))
         == Map(Plain, DirectiveOutcomes(records, matchedTyped))
  {
    MapAt(Unwidened, records);
    MapAt(Plain, DirectiveOutcomes(Map(Unwidened, records), matchedTyped));
    MapAt(Plain, DirectiveOutcomes(records, matchedTyped));
  }

  /** The typed half, served or recomputed, has the diagnostics and the
      matches of the fresh one. */
  lemma TypedServedIsFresh(now: Inputs, before: Inputs, source: Option<StoredTypedVerdict>)
    requires source.Some? ==> TypedMayServe(source, now, before)
    ensures multiset(ServedTyped(now, source).diagnostics) == multiset(Typed(now).diagnostics)
    ensures ServedTyped(now, source).matched == Typed(now).matched
  {
    if source.Some? {
      DiagnosticsRoundTrip(Typed(before).diagnostics, now.file, now.contentLength, now.registered);
    }
  }

  /** The fresh diagnostics and the fresh records, up to widening notes, and
      a typed half to serve only if it is the fresh one. */
  ghost predicate LayerIsFresh(layer: Layer, now: Inputs, before: Inputs) {
    && multiset(layer.diagnostics) == multiset(Untyped(now).diagnostics)
    && (layer.records == FreshRecords(now, Untyped(now).matched)
        || layer.records == Map(Unwidened, FreshRecords(now, Untyped(now).matched)))
    && (layer.typedSource.Some? ==> TypedMayServe(layer.typedSource, now, before))
  }

  ghost predicate TypedMayServe(source: Option<StoredTypedVerdict>, now: Inputs, before: Inputs) {
    source == ComposedVerdict(before, true).typed && SameHalf(Typed(now), Typed(before), now.file)
  }

  /** So is the untyped layer, served or recomputed. */
  lemma {:induction false} UntypedLayerIsFresh(now: Inputs, before: Inputs, persistTyped: bool, lookup: VerdictLookup)
    requires Revalidated(now, before, persistTyped, lookup) && forall d :: d in now.directives ==> Canonical(d)
    ensures LayerIsFresh(UntypedLayer(now, lookup), now, before)
  {
    if lookup.Hit? {
      HitLayerIsFresh(now, before, persistTyped, lookup.verdict, lookup.typed);
    }
  }

  lemma HitLayerIsFresh(now: Inputs, before: Inputs, persistTyped: bool, verdict: StoredVerdict, typed: TypedOutcome)
    requires Revalidated(now, before, persistTyped, Hit(verdict, typed))
    requires forall d :: d in now.directives ==> Canonical(d)
    ensures LayerIsFresh(UntypedLayer(now, Hit(verdict, typed)), now, before)
  {
    var served := ToDiagnostics(verdict.diagnostics, now.file, now.contentLength, now.registered);
    var records := DirectivesConvert(verdict, now.contentLength, now.registered);
    var source := if typed.Served? then verdict.typed else None;
    assert served.None? || multiset(served.value) == multiset(Untyped(now).diagnostics) by {
      DiagnosticsRoundTrip(Untyped(before).diagnostics, now.file, now.contentLength, now.registered);
    }
    assert records.None? || records.value == Map(Unwidened, FreshRecords(now, Untyped(now).matched)) by {
      StoredRecordsAreFresh(now, before);
    }
    assert source.None? || TypedMayServe(source, now, before);
    ServeIsFresh(now, before, served, source, records);
  }

  lemma ServeIsFresh(now: Inputs, before: Inputs, served: Option<seq<Diagnostic>>,
                     source: Option<StoredTypedVerdict>, records: Option<seq<(Directive, bool)>>)
    requires served.None? || multiset(served.value) == multiset(Untyped(now).diagnostics)
    requires records.None? || records.value == Map(Unwidened, FreshRecords(now, Untyped(now).matched))
    requires source.None? || TypedMayServe(source, now, before)
    ensures LayerIsFresh(Serve(now, served, source, records), now, before)
  {
  }

  lemma StoredRecordsAreFresh(now: Inputs, before: Inputs)
    requires now.directives == before.directives && Untyped(now).matched == Untyped(before).matched
    requires forall d :: d in now.directives ==> Canonical(d)
    ensures var records := FreshRecords(now, Untyped(now).matched);
            var stored := Map(OfDirective, FreshRecords(before, Untyped(before).matched));
            var back := ToDirectives(stored, now.contentLength, now.registered);
            back == None || back == Some(Map(Unwidened, records))
  {
    var records := FreshRecords(now, Untyped(now).matched);
    assert records == FreshRecords(before, Untyped(before).matched);
    forall r | r in records ensures Canonical(r.0) {
      assert r.0 in now.directives;
    }
    DirectivesRoundTrip(records, now.contentLength, now.registered);
  }

  /** Whatever the cache answers (both halves served, one of them, a failed
      conversion, a discarded entry, none), the report is the composition
      from scratch. */
  lemma {:induction false} WarmEqualsCold(now: Inputs, before: Inputs, persistTyped: bool, lookup: VerdictLookup)
    requires Revalidated(now, before, persistTyped, lookup) && IgnoresWidening(now.reporting)
    requires forall d :: d in now.directives && d.filter.Only? ==> StrictlySorted(CompareString, d.filter.codes)
    ensures Analyzed(now, lookup) == Composed(now)
  {
    var layer := UntypedLayer(now, lookup);
    var freshRecords := FreshRecords(now, Untyped(now).matched);
    UntypedLayerIsFresh(now, before, persistTyped, lookup);
    TypedServedIsFresh(now, before, layer.typedSource);
    var typed := ServedTyped(now, layer.typedSource);
    var outcomes := DirectiveOutcomes(layer.records, typed.matched);
    var freshOutcomes := DirectiveOutcomes(freshRecords, Typed(now).matched);
    OutcomesOfStored(freshRecords, typed.matched);
    assert now.reporting(outcomes) == now.reporting(Map(Plain, outcomes));
    assert now.reporting(freshOutcomes) == now.reporting(Map(Plain, freshOutcomes));
    CompareDiagnosticTotal();
    SortCanonical(CompareDiagnostic,
      layer.diagnostics + typed.diagnostics + ReportingPortion(now, outcomes),
      Untyped(now).diagnostics + Typed(now).diagnostics + ReportingPortion(now, freshOutcomes));
  }

  /** The hypotheses are met by the very next run: a verdict just stored
      revalidates against the inputs it was stored for. */
  lemma JustStoredRevalidates(inputs: Inputs, typed: TypedOutcome)
    requires forall d :: d in Untyped(inputs).diagnostics + Typed(inputs).diagnostics ==> Restamp(d, inputs.file) == d
    ensures Revalidated(inputs, inputs, true, Hit(ComposedVerdict(inputs, true), typed))
  {
    RestampedSame(Untyped(inputs).diagnostics, inputs.file);
    RestampedSame(Typed(inputs).diagnostics, inputs.file);
  }

  lemma {:induction false} RestampedSame(diagnostics: seq<Diagnostic>, file: nat)
    requires forall d :: d in diagnostics ==> Restamp(d, file) == d
    ensures Restamped(diagnostics, file) == diagnostics
  {
    MapAt(d => Restamp(d, file), diagnostics);
  }

  /** And by any reporting rules that are shown the outcomes without the notes. */
  lemma {:induction false} PlainReportingIgnoresWidening(report: seq<DirectiveOutcome> -> seq<Diagnostic>)
    ensures IgnoresWidening((outcomes: seq<DirectiveOutcome>) => report(Map(Plain, outcomes)))
  {
    forall outcomes: seq<DirectiveOutcome> ensures Map(Plain, Map(Plain, outcomes)) == Map(Plain, outcomes) {
      MapAt(Plain, outcomes);
      MapAt(Plain, Map(Plain, outcomes));
    }
  }

  // ----- what is served is not recomputed

  /** Everything stored for the untyped side converts. */
  predicate UntypedConverts(inputs: Inputs, verdict: StoredVerdict) {
    && ToDiagnostics(verdict.diagnostics, inputs.file, inputs.contentLength, inputs.registered).Some?
    && DirectivesConvert(verdict, inputs.contentLength, inputs.registered).Some?
  }

  predicate TypedConverts(inputs: Inputs, verdict: StoredVerdict) {
    verdict.typed.Some? && ToDiagnostics(verdict.typed.value.diagnostics, inputs.file, inputs.contentLength, inputs.registered).Some?
  }

  /** A hit whose untyped side converts reads none of the file's untyped
      findings nor its directives, and with a typed half to serve that converts
      none of its typed ones either. */
  lemma HitReadsNoFindings(inputs: Inputs, other: Inputs, verdict: StoredVerdict, typed: TypedOutcome)
    requires UntypedConverts(inputs, verdict)
    requires other == inputs.(untypedFindings := other.untypedFindings, typedFindings := other.typedFindings, directives := other.directives)
    requires (typed.Served? && TypedConverts(inputs, verdict))
             || (other.typedFindings == inputs.typedFindings && other.directives == inputs.directives)
    ensures Analyzed(inputs, Hit(verdict, typed)) == Analyzed(other, Hit(verdict, typed))
  {
  }

  /** A verdict whose untyped side does not convert says nothing at all, and a
      discarded one neither. */
  lemma FailedHitSaysNothing(inputs: Inputs, verdict: StoredVerdict, typed: TypedOutcome)
    requires !UntypedConverts(inputs, verdict)
    ensures Analyzed(inputs, Hit(verdict, typed)) == Analyzed(inputs, Absent) == Analyzed(inputs, Discarded) == Composed(inputs)
  {
  }

  /** What is served is what was stored: every stored diagnostic of a half that
      speaks is reported, whatever the findings are. */
  lemma ServedIsReported(inputs: Inputs, verdict: StoredVerdict, typed: TypedOutcome, d: Diagnostic)
    requires UntypedConverts(inputs, verdict)
    requires || d in ToDiagnostics(verdict.diagnostics, inputs.file, inputs.contentLength, inputs.registered).value
             || (typed.Served? && TypedConverts(inputs, verdict)
                 && d in ToDiagnostics(verdict.typed.value.diagnostics, inputs.file, inputs.contentLength, inputs.registered).value)
    ensures d in Analyzed(inputs, Hit(verdict, typed))
  {
    var layer := UntypedLayer(inputs, Hit(verdict, typed));
    var half := ServedTyped(inputs, layer.typedSource);
    var all := layer.diagnostics + half.diagnostics + ReportingPortion(inputs, DirectiveOutcomes(layer.records, half.matched));
    SortElements(CompareDiagnostic, all);
    assert d in layer.diagnostics || d in half.diagnostics;
  }

  /** What is stored: one entry per diagnostic and directive, and a typed half exactly if asked for. */
  lemma StoredShape(inputs: Inputs, persistTyped: bool)
    ensures var verdict := ComposedVerdict(inputs, persistTyped);
            && |verdict.diagnostics| == |Untyped(inputs).diagnostics| && |verdict.directives| == |inputs.directives|
            && (forall i :: 0 <= i < |inputs.directives| ==> (
                  verdict.directives[i].matched <==> Used(inputs.directives[i], inputs.untypedFindings, inputs.textEnd)))
            && (verdict.typed.Some? <==> persistTyped)
            && (persistTyped ==> forall i :: i in verdict.typed.value.matchedDirectives <==>
                  0 <= i < |inputs.directives| && Used(inputs.directives[i], inputs.typedFindings, inputs.textEnd))
  {
    var untyped := Untyped(inputs);
    MapAt(OfDiagnostic, untyped.diagnostics);
    MapAt(OfDirective, FreshRecords(inputs, untyped.matched));
    CompareNatTotal();
    forall i: nat | i < |inputs.directives| { FoundIffMember<nat>(CompareNat, untyped.matched, i); }
  }

  // ----- the whole pass

  datatype AnalysisOutcome = AnalysisOutcome(diagnostics: seq<Diagnostic>, panicked: seq<nat>)

  function Gathered(results: seq<Result<seq<Diagnostic>, nat>>): (seq<Diagnostic>, seq<nat>) {
    if results == [] then ([], [])
    else
      var (diagnostics, panicked) := Gathered(results[..|results| - 1]);
      match results[|results| - 1]
      case Ok(found) => (diagnostics + found, panicked)
      case Err(file) => (diagnostics, panicked + [file])
  }

  function Assembled(results: seq<Result<seq<Diagnostic>, nat>>): AnalysisOutcome {
    var (diagnostics, panicked) := Gathered(results);
    AnalysisOutcome(Sort(CompareDiagnostic, diagnostics), Sort(CompareNat, panicked))
  }

  method Assemble(results: seq<Result<seq<Diagnostic>, nat>>) returns (outcome: AnalysisOutcome)
    ensures outcome == Assembled(results)
  {
    var diagnostics: seq<Diagnostic>, panicked: seq<nat> := [], [];
    for k := 0 to |results|
      invariant (diagnostics, panicked) == Gathered(results[..k])
    {
      assert results[..k + 1][..k] == results[..k];
      match results[k] {
        case Ok(found) => diagnostics := diagnostics + found;
        case Err(file) => panicked := panicked + [file];
      }
    }
    assert results[..|results|] == results;
    outcome := AnalysisOutcome(Sort(CompareDiagnostic, diagnostics), Sort(CompareNat, panicked));
  }

  lemma {:induction false} GatheredConcat(a: seq<Result<seq<Diagnostic>, nat>>, b: seq<Result<seq<Diagnostic>, nat>>)
    ensures Gathered(a + b) == (Gathered(a).0 + Gathered(b).0, Gathered(a).1 + Gathered(b).1)
  {
    if b == [] {
      assert a + b == a;
      assert Gathered(a).0 + [] == Gathered(a).0 && Gathered(a).1 + [] == Gathered(a).1;
    } else {
      assert (a + b)[..|a + b| - 1] == a + b[..|b| - 1];
      assert (a + b)[|a + b| - 1] == b[|b| - 1];
      GatheredConcat(a, b[..|b| - 1]);
      var (front, last) := (Gathered(b[..|b| - 1]), b[|b| - 1]);
      if last.Ok? {
        assert (Gathered(a).0 + front.0) + last.value == Gathered(a).0 + (front.0 + last.value);
      } else {
        assert (Gathered(a).1 + front.1) + [last.error] == Gathered(a).1 + (front.1 + [last.error]);
      }
    }
  }

  /** The report holds every diagnostic of every file that was analyzed, and
      every file that panicked as often as it did, both sorted. */
  lemma {:induction false} AssembledExactly(results: seq<Result<seq<Diagnostic>, nat>>)
    ensures forall d :: d in Assembled(results).diagnostics <==> exists r :: r in results && r.Ok? && d in r.value
    ensures forall file :: multiset(Assembled(results).panicked)[file] == multiset(results)[Err(file)]
    ensures Sorted(CompareDiagnostic, Assembled(results).diagnostics) && Sorted(CompareNat, Assembled(results).panicked)
  {
    GatheredExactly(results);
    CompareDiagnosticTotal();
    CompareNatTotal();
    SortElements(CompareDiagnostic, Gathered(results).0);
    SortSorted(CompareDiagnostic, Gathered(results).0);
    SortSorted(CompareNat, Gathered(results).1);
    SortPermutes(CompareNat, Gathered(results).1);
  }

  lemma {:induction false} GatheredExactly(results: seq<Result<seq<Diagnostic>, nat>>)
    ensures forall d :: d in Gathered(results).0 <==> exists r :: r in results && r.Ok? && d in r.value
    ensures forall file :: multiset(Gathered(results).1)[file] == multiset(results)[Err(file)]
  {
    if results == [] {
    } else {
      var front, last := results[..|results| - 1], results[|results| - 1];
      assert results == front + [last];
      GatheredExactly(front);
      forall d ensures (exists r :: r in results && r.Ok? && d in r.value)
                  <==> (last.Ok? && d in last.value) || exists r :: r in front && r.Ok? && d in r.value
      {
        assert last in results;
        if r :| r in front && r.Ok? && d in r.value { assert r in results; }
      }
    }
  }

  /** The same findings and the same panicked files, in some order. */
  ghost predicate SameGathering(a: seq<Result<seq<Diagnostic>, nat>>, b: seq<Result<seq<Diagnostic>, nat>>) {
    multiset(Gathered(a).0) == multiset(Gathered(b).0) && multiset(Gathered(a).1) == multiset(Gathered(b).1)
  }

  lemma MovedToFront(before: seq<Result<seq<Diagnostic>, nat>>, head: Result<seq<Diagnostic>, nat>,
                     after: seq<Result<seq<Diagnostic>, nat>>)
    ensures SameGathering([head] + (before + after), before + ([head] + after))
  {
    GatheredConcat([head], before + after);
    GatheredConcat(before, after);
    GatheredConcat(before, [head] + after);
    GatheredConcat([head], after);
  }

  lemma SameTailSameGathering(head: Result<seq<Diagnostic>, nat>, a: seq<Result<seq<Diagnostic>, nat>>,
                              b: seq<Result<seq<Diagnostic>, nat>>)
    requires SameGathering(a, b)
    ensures SameGathering([head] + a, [head] + b)
  {
    GatheredConcat([head], a);
    GatheredConcat([head], b);
  }

  /** Only which results there are matters, not the order they came back in. */
  lemma {:induction false} GatheredPermutes(a: seq<Result<seq<Diagnostic>, nat>>, b: seq<Result<seq<Diagnostic>, nat>>)
    requires multiset(a) == multiset(b)
    ensures SameGathering(a, b)
    decreases |a|
  {
    assert |multiset(a)| == |a| && |multiset(b)| == |b|;
    if a == [] {
    } else {
      var head, tail := a[0], a[1..];
      assert a == [head] + tail;
      var before, after := PullOut(a, b);
      hide SameGathering;
      GatheredPermutes(tail, before + after);
      SameTailSameGathering(head, tail, before + after);
      MovedToFront(before, head, after);
      SameGatheringTrans(a, [head] + (before + after), b);
    }
  }

  lemma SameGatheringTrans(a: seq<Result<seq<Diagnostic>, nat>>, b: seq<Result<seq<Diagnostic>, nat>>,
                           c: seq<Result<seq<Diagnostic>, nat>>)
    requires SameGathering(a, b) && SameGathering(b, c)
    ensures SameGathering(a, c)
  {
  }

  lemma AssembledOrderFree(a: seq<Result<seq<Diagnostic>, nat>>, b: seq<Result<seq<Diagnostic>, nat>>)
    requires multiset(a) == multiset(b)
    ensures Assembled(a) == Assembled(b)
  {
    GatheredPermutes(a, b);
    CompareDiagnosticTotal();
    CompareNatTotal();
    SortCanonical(CompareDiagnostic, Gathered(a).0, Gathered(b).0);
    SortCanonical(CompareNat, Gathered(a).1, Gathered(b).1);
  }
}
