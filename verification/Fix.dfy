/** Planning the fixes of one application pass: the first fix wins, whole
    suggestions only, per file. */
module Fix {
  import opened Wrappers
  import opened Ordering
  import opened Utf8
  import opened Edits
  import opened Diagnostics
  import Splice
  import Apply

  /** What the two flags admit. */
  function FixThreshold(fix: bool, fixSuggestions: bool): Option<Confidence> {
    if fixSuggestions then Some(NeedsReview) else if fix then Some(Safe) else None
  }

  datatype SkipReason = Overlap | ForeignFile
  datatype SkippedFix = SkippedFix(file: nat, message: string, reason: SkipReason)

  datatype PlannedFixes = PlannedFixes(editsByFile: map<nat, seq<TextEdit>>, accepted: nat, skipped: seq<SkippedFix>)

  // ----- the candidates

  /** One eligible suggestion with the file of its diagnostic. */
  datatype Candidate = Candidate(file: nat, suggestion: Suggestion)

  predicate Eligible(suggestion: Suggestion, threshold: Confidence) {
    ConfidenceRank(suggestion.confidence) <= ConfidenceRank(threshold) && suggestion.edits != []
  }

  function CandidatesOf(file: nat, suggestions: seq<Suggestion>, threshold: Confidence): seq<Candidate> {
    if suggestions == [] then []
    else
      var front, last := suggestions[..|suggestions| - 1], suggestions[|suggestions| - 1];
      CandidatesOf(file, front, threshold) + if Eligible(last, threshold) then [Candidate(file, last)] else []
  }

  function Candidates(diagnostics: seq<Diagnostic>, threshold: Confidence): seq<Candidate> {
    if diagnostics == [] then []
    else
      var front, last := diagnostics[..|diagnostics| - 1], diagnostics[|diagnostics| - 1];
      Candidates(front, threshold) + CandidatesIn(last, threshold)
  }

  function CandidatesIn(diagnostic: Diagnostic, threshold: Confidence): seq<Candidate> {
    if diagnostic.anchor.Project? then []
    else CandidatesOf(diagnostic.anchor.file, diagnostic.suggestions, threshold)
  }

  /** What the flags ask for: safe suggestions under either, the ones to review
      under `--fix-suggestions` alone, and none that edits nothing. */
  predicate Wanted(suggestion: Suggestion, fix: bool, fixSuggestions: bool) {
    suggestion.edits != [] && (fixSuggestions || (fix && suggestion.confidence.Safe?))
  }

  predicate Offers(diagnostic: Diagnostic, c: Candidate) {
    diagnostic.anchor.Span? && diagnostic.anchor.file == c.file && c.suggestion in diagnostic.suggestions
  }

  /** The candidates are the wanted suggestions of the diagnostics that have a
      file, and there is a pass exactly when a flag is given. */
  lemma {:induction false} CandidatesExact(diagnostics: seq<Diagnostic>, fix: bool, fixSuggestions: bool)
    ensures FixThreshold(fix, fixSuggestions).Some? <==> fix || fixSuggestions
    ensures fix || fixSuggestions ==>
      forall c :: c in Candidates(diagnostics, FixThreshold(fix, fixSuggestions).value)
             <==> Wanted(c.suggestion, fix, fixSuggestions) && exists d :: d in diagnostics && Offers(d, c)
  {
    if diagnostics == [] {
    } else if fix || fixSuggestions {
      var threshold := FixThreshold(fix, fixSuggestions).value;
      var front, last := diagnostics[..|diagnostics| - 1], diagnostics[|diagnostics| - 1];
      CandidatesExact(front, fix, fixSuggestions);
      if last.anchor.Span? { CandidatesOfExact(last.anchor.file, last.suggestions, threshold); }
      assert diagnostics == front + [last];
      forall c ensures c in Candidates(diagnostics, threshold)
                  <==> c in Candidates(front, threshold) || (Offers(last, c) && Wanted(c.suggestion, fix, fixSuggestions)) {}
      forall c ensures (exists d :: d in diagnostics && Offers(d, c))
                  <==> Offers(last, c) || exists d :: d in front && Offers(d, c)
      {
        assert last in diagnostics;
        if d :| d in front && Offers(d, c) { assert d in diagnostics; }
      }
    }
  }

  lemma {:induction false} CandidatesOfExact(file: nat, suggestions: seq<Suggestion>, threshold: Confidence)
    ensures forall c :: c in CandidatesOf(file, suggestions, threshold)
                   <==> c.file == file && c.suggestion in suggestions && Eligible(c.suggestion, threshold)
  {
    if suggestions == [] {
    } else {
      var front, last := suggestions[..|suggestions| - 1], suggestions[|suggestions| - 1];
      CandidatesOfExact(file, front, threshold);
      assert suggestions == front + [last];
    }
  }

  // ----- the decisions

  /** What was decided for each candidate, the last one outermost. */
  datatype Decisions = Start | Decide(before: Decisions, candidate: Candidate, taken: bool) {
    function Decided(): seq<Candidate> {
      match this
      case Start => []
      case Decide(before, candidate, _) => before.Decided() + [candidate]
    }

    /** The edits the taken candidates claim in one file. */
    function Claimed(file: nat): seq<TextEdit> {
      match this
      case Start => []
      case Decide(before, c, taken) =>
        before.Claimed(file) + if taken && c.file == file then c.suggestion.edits else []
    }

    function Files(): set<nat> {
      match this
      case Start => {}
      case Decide(before, c, taken) => before.Files() + if taken then {c.file} else {}
    }

    function Accepted(): nat {
      match this
      case Start => 0
      case Decide(before, _, taken) => before.Accepted() + if taken then 1 else 0
    }

    function Skipped(): seq<SkippedFix> {
      match this
      case Start => []
      case Decide(before, c, taken) => before.Skipped() + if taken then [] else [Skip(c)]
    }
  }

  predicate OwnFile(c: Candidate) {
    forall e :: e in c.suggestion.edits ==> e.file == c.file
  }

  function Skip(c: Candidate): SkippedFix {
    SkippedFix(c.file, c.suggestion.message, if OwnFile(c) then Overlap else ForeignFile)
  }

  /** Whole or not at all: every edit in the diagnostic's own file, none in
      collision with another of them or with one claimed before. */
  ghost predicate Admissible(before: Decisions, c: Candidate) {
    OwnFile(c) && CollisionFree(before.Claimed(c.file) + c.suggestion.edits)
  }

  /** The first wins: each candidate is taken exactly when it is admissible
      after the ones before it. */
  ghost predicate Greedy(decisions: Decisions) {
    match decisions
    case Start => true
    case Decide(before, c, taken) => Greedy(before) && (taken <==> Admissible(before, c))
  }

  /** The entry is exactly what is claimed in the file, sorted. */
  ghost predicate Holds(entry: seq<TextEdit>, decisions: Decisions, file: nat) {
    Sorted(CompareEdit, entry) && multiset(entry) == multiset(decisions.Claimed(file))
  }

  /** What the plan holds of the decisions. */
  ghost predicate Records(planned: PlannedFixes, decisions: Decisions) {
    && planned.editsByFile.Keys == decisions.Files()
    && (forall file :: file in planned.editsByFile ==> Holds(planned.editsByFile[file], decisions, file))
    && planned.accepted == decisions.Accepted()
    && planned.skipped == decisions.Skipped()
  }

  ghost predicate IsPlan(planned: PlannedFixes, candidates: seq<Candidate>) {
    exists decisions: Decisions :: decisions.Decided() == candidates && Greedy(decisions) && Records(planned, decisions)
  }

  // ----- the plan

  /** The entry a file already has, with the suggestion's edits added, sorted. */
  function Trial(editsByFile: map<nat, seq<TextEdit>>, file: nat, edits: seq<TextEdit>): seq<TextEdit> {
    SortedEdits((if file in editsByFile then editsByFile[file] else []) + edits)
  }

  method Plan(diagnostics: seq<Diagnostic>, threshold: Confidence) returns (planned: PlannedFixes)
    ensures IsPlan(planned, Candidates(diagnostics, threshold))
  {
    hide Records, Greedy, Candidates, CandidatesOf;
    planned := PlannedFixes(map[], 0, []);
    NothingPlanned(threshold);
    ghost var decisions := Start;
    for d := 0 to |diagnostics|
      invariant decisions.Decided() == Candidates(diagnostics[..d], threshold)
      invariant Greedy(decisions) && Records(planned, decisions)
    {
      NextDiagnostic(diagnostics, d, threshold);
      var anchor, suggestions := diagnostics[d].anchor, diagnostics[d].suggestions;
      if anchor.Project? {
        continue;
      }
      var file := anchor.file;
      NothingSuggested(file, threshold);
      for s := 0 to |suggestions|
        invariant decisions.Decided() == Candidates(diagnostics[..d], threshold) + CandidatesOf(file, suggestions[..s], threshold)
        invariant Greedy(decisions) && Records(planned, decisions)
      {
        NextSuggestion(file, suggestions, s, threshold);
        var suggestion := suggestions[s];
        if ConfidenceRank(suggestion.confidence) > ConfidenceRank(threshold) || suggestion.edits == [] {
          continue;
        }
        ghost var candidate := Candidate(file, suggestion);
        CandidateDecision(planned, decisions, candidate);
        if exists e :: e in suggestion.edits && e.file != file {
          planned := planned.(skipped := planned.skipped + [SkippedFix(file, suggestion.message, ForeignFile)]);
          decisions := Decide(decisions, candidate, false);
          continue;
        }
        var trial := Trial(planned.editsByFile, file, suggestion.edits);
        if FindConflict(trial).Some? {
          planned := planned.(skipped := planned.skipped + [SkippedFix(file, suggestion.message, Overlap)]);
          decisions := Decide(decisions, candidate, false);
          continue;
        }
        planned := planned.(editsByFile := planned.editsByFile[file := trial], accepted := planned.accepted + 1);
        decisions := Decide(decisions, candidate, true);
      }
      assert suggestions[..|suggestions|] == suggestions;
    }
    assert diagnostics[..|diagnostics|] == diagnostics;
  }

  lemma NothingPlanned(threshold: Confidence)
    ensures Greedy(Start) && Records(PlannedFixes(map[], 0, []), Start)
    ensures Candidates([], threshold) == []
  {
  }

  lemma NothingSuggested(file: nat, threshold: Confidence)
    ensures CandidatesOf(file, [], threshold) == []
  {
  }

  lemma NextDiagnostic(diagnostics: seq<Diagnostic>, d: nat, threshold: Confidence)
    requires d < |diagnostics|
    ensures Candidates(diagnostics[..d + 1], threshold)
         == Candidates(diagnostics[..d], threshold) + CandidatesIn(diagnostics[d], threshold)
  {
    assert diagnostics[..d + 1][..d] == diagnostics[..d];
  }

  lemma NextSuggestion(file: nat, suggestions: seq<Suggestion>, s: nat, threshold: Confidence)
    requires s < |suggestions|
    ensures CandidatesOf(file, suggestions[..s + 1], threshold) == CandidatesOf(file, suggestions[..s], threshold) +
            if Eligible(suggestions[s], threshold) then [Candidate(file, suggestions[s])] else []
  {
    assert suggestions[..s + 1][..s] == suggestions[..s];
  }

  /** Each of the three ways a candidate can go keeps the plan a record of
      greedy decisions. */
  lemma CandidateDecision(planned: PlannedFixes, decisions: Decisions, c: Candidate)
    requires Greedy(decisions) && Records(planned, decisions)
    ensures Records(planned.(skipped := planned.skipped + [Skip(c)]), Decide(decisions, c, false))
    ensures !OwnFile(c) ==> Greedy(Decide(decisions, c, false))
    ensures OwnFile(c) ==>
              var trial := Trial(planned.editsByFile, c.file, c.suggestion.edits);
              Greedy(Decide(decisions, c, FindConflict(trial).None?)) &&
              Records(planned.(editsByFile := planned.editsByFile[c.file := trial], accepted := planned.accepted + 1),
                      Decide(decisions, c, true))
  {
    if OwnFile(c) {
      TrialDecides(planned, decisions, c);
      TakeRecorded(planned, decisions, c, Trial(planned.editsByFile, c.file, c.suggestion.edits));
    }
  }

  lemma TakeRecorded(planned: PlannedFixes, decisions: Decisions, c: Candidate, trial: seq<TextEdit>)
    requires Records(planned, decisions) && Sorted(CompareEdit, trial)
    requires multiset(trial) == multiset(decisions.Claimed(c.file)) + multiset(c.suggestion.edits)
    ensures Records(planned.(editsByFile := planned.editsByFile[c.file := trial], accepted := planned.accepted + 1),
                    Decide(decisions, c, true))
  {
    hide Holds, Sorted;
    var after := Decide(decisions, c, true);
    var entries := planned.editsByFile[c.file := trial];
    forall file | file in entries ensures Holds(entries[file], after, file) {
      TakenHolds(decisions, c, trial, entries[file], file);
    }
    assert entries.Keys == after.Files();
  }

  lemma TakenHolds(decisions: Decisions, c: Candidate, trial: seq<TextEdit>, entry: seq<TextEdit>, file: nat)
    requires Sorted(CompareEdit, trial)
    requires multiset(trial) == multiset(decisions.Claimed(c.file)) + multiset(c.suggestion.edits)
    requires if file == c.file then entry == trial else Holds(entry, decisions, file)
    ensures Holds(entry, Decide(decisions, c, true), file)
  {
    hide Sorted, Decisions.Claimed;
    ClaimedAfter(decisions, c, file);
  }

  lemma ClaimedAfter(decisions: Decisions, c: Candidate, file: nat)
    ensures multiset(Decide(decisions, c, true).Claimed(file)) ==
            if file == c.file then multiset(decisions.Claimed(file)) + multiset(c.suggestion.edits)
            else multiset(decisions.Claimed(file))
  {
    assert decisions.Claimed(file) + [] == decisions.Claimed(file);
  }

  lemma {:induction false} UnclaimedFile(decisions: Decisions, file: nat)
    requires file !in decisions.Files()
    ensures decisions.Claimed(file) == []
  {
    match decisions
    case Start =>
    case Decide(before, c, taken) => UnclaimedFile(before, file);
  }

  /** The trial holds the claimed edits and the new ones, so its conflict
      decides admissibility. */
  lemma {:induction false} TrialDecides(planned: PlannedFixes, decisions: Decisions, c: Candidate)
    requires Records(planned, decisions) && OwnFile(c)
    ensures var trial := Trial(planned.editsByFile, c.file, c.suggestion.edits);
            Sorted(CompareEdit, trial)
            && multiset(trial) == multiset(decisions.Claimed(c.file)) + multiset(c.suggestion.edits)
            && (FindConflict(trial).None? <==> Admissible(decisions, c))
  {
    var entry := if c.file in planned.editsByFile then planned.editsByFile[c.file] else [];
    if c.file !in planned.editsByFile { UnclaimedFile(decisions, c.file); }
    var given, claimed := entry + c.suggestion.edits, decisions.Claimed(c.file) + c.suggestion.edits;
    assert multiset(given) == multiset(claimed);
    FindConflictOfSorted(given);
    if CollisionFree(given) { CollisionFreePermutes(given, claimed); }
    if CollisionFree(claimed) { CollisionFreePermutes(claimed, given); }
  }

  // ----- what a plan guarantees

  /** A skipped suggestion is reported with its file and message, as foreign
      exactly when some edit of it is in another file than its diagnostic. */
  lemma SkippedWhy(planned: PlannedFixes, candidates: seq<Candidate>)
    requires IsPlan(planned, candidates)
    ensures forall s :: s in planned.skipped ==>
              exists c :: c in candidates && s.file == c.file && s.message == c.suggestion.message
                && (s.reason == ForeignFile <==> exists e :: e in c.suggestion.edits && e.file != c.file)
                && (s.reason == Overlap <==> forall e :: e in c.suggestion.edits ==> e.file == c.file)
  {
    var decisions: Decisions :| decisions.Decided() == candidates && Greedy(decisions) && Records(planned, decisions);
    SkippedByDecision(decisions);
  }

  lemma {:induction false} SkippedByDecision(decisions: Decisions)
    ensures forall s :: s in decisions.Skipped() ==>
              exists c :: c in decisions.Decided() && s.file == c.file && s.message == c.suggestion.message
                && (s.reason == ForeignFile <==> exists e :: e in c.suggestion.edits && e.file != c.file)
                && (s.reason == Overlap <==> forall e :: e in c.suggestion.edits ==> e.file == c.file)
  {
    match decisions
    case Start =>
    case Decide(before, c, taken) =>
      SkippedByDecision(before);
      assert forall d :: d in before.Decided() ==> d in decisions.Decided();
      assert c in decisions.Decided();
      var s := Skip(c);
      assert s.reason == Overlap <==> OwnFile(c);
  }

  /** The plan is determined by the candidates in order. */
  lemma PlanDetermined(candidates: seq<Candidate>, planned: PlannedFixes, planned': PlannedFixes)
    requires IsPlan(planned, candidates) && IsPlan(planned', candidates)
    ensures planned == planned'
  {
    var h: Decisions :| h.Decided() == candidates && Greedy(h) && Records(planned, h);
    var h': Decisions :| h'.Decided() == candidates && Greedy(h') && Records(planned', h');
    GreedyDetermined(h, h');
    RecordsDetermined(planned, planned', h);
  }

  lemma RecordsDetermined(planned: PlannedFixes, planned': PlannedFixes, h: Decisions)
    requires Records(planned, h) && Records(planned', h)
    ensures planned == planned'
  {
    CompareEditTotal();
    forall file | file in planned.editsByFile ensures planned.editsByFile[file] == planned'.editsByFile[file] {
      SortedUnique(CompareEdit, planned.editsByFile[file], planned'.editsByFile[file]);
    }
    assert planned.editsByFile == planned'.editsByFile;
  }

  lemma {:induction false} GreedyDetermined(h: Decisions, h': Decisions)
    requires Greedy(h) && Greedy(h') && h.Decided() == h'.Decided()
    ensures h == h'
  {
    var s, s' := h.Decided(), h'.Decided();
    if h.Start? {
    } else {
      assert h'.Decide?;
      assert h.before.Decided() == s[..|s| - 1] && h'.before.Decided() == s'[..|s'| - 1];
      assert h.candidate == s[|s| - 1] && h'.candidate == s'[|s'| - 1];
      GreedyDetermined(h.before, h'.before);
    }
  }

  /** Every candidate is accounted for, once. */
  lemma {:induction false} NothingForgotten(decisions: Decisions)
    ensures decisions.Accepted() + |decisions.Skipped()| == |decisions.Decided()|
  {
    match decisions
    case Start =>
    case Decide(before, _, _) => NothingForgotten(before);
  }

  /** What is claimed in a file is of that file and free of collisions. */
  lemma {:induction false} ClaimedIsClean(decisions: Decisions, file: nat)
    requires Greedy(decisions)
    ensures CollisionFree(decisions.Claimed(file))
    ensures forall e :: e in decisions.Claimed(file) ==> e.file == file
  {
    match decisions
    case Start =>
    case Decide(before, c, taken) => ClaimedIsClean(before, file);
  }

  /** Only eligible suggestions are candidates, so an entry is never empty. */
  lemma {:induction false} FilesClaimSomething(decisions: Decisions, file: nat)
    requires forall c :: c in decisions.Decided() ==> c.suggestion.edits != []
    requires file in decisions.Files()
    ensures decisions.Claimed(file) != []
  {
    match decisions
    case Start =>
    case Decide(before, c, taken) =>
      assert c in decisions.Decided();
      assert forall x :: x in before.Decided() ==> x in decisions.Decided();
      if file in before.Files() { FilesClaimSomething(before, file); }
  }

  lemma {:induction false} CandidatesOfEdit(file: nat, suggestions: seq<Suggestion>, threshold: Confidence)
    ensures forall c :: c in CandidatesOf(file, suggestions, threshold) ==> c.suggestion.edits != []
  {
    if suggestions == [] {
    } else {
      CandidatesOfEdit(file, suggestions[..|suggestions| - 1], threshold);
    }
  }

  lemma {:induction false} CandidatesEdit(diagnostics: seq<Diagnostic>, threshold: Confidence)
    ensures forall c :: c in Candidates(diagnostics, threshold) ==> c.suggestion.edits != []
  {
    if diagnostics == [] {
    } else {
      var last := diagnostics[|diagnostics| - 1];
      CandidatesEdit(diagnostics[..|diagnostics| - 1], threshold);
      if !last.anchor.Project? { CandidatesOfEdit(last.anchor.file, last.suggestions, threshold); }
    }
  }

  /** Applying a planned entry can fail over the source text only: never
      over a conflict, never over a foreign file. */
  lemma {:induction false} EntriesApply(diagnostics: seq<Diagnostic>, threshold: Confidence, planned: PlannedFixes,
                                                 file: nat, source: seq<byte>)
    requires IsPlan(planned, Candidates(diagnostics, threshold)) && file in planned.editsByFile
    ensures var entry := planned.editsByFile[file];
            var result := Apply.Applied(source, entry);
            && entry != [] && Sorted(CompareEdit, entry) && CollisionFree(entry)
            && (forall e :: e in entry ==> e.file == file)
            && (result.Err? ==> !result.error.Conflict? && !result.error.MultipleFiles?)
            && (result.Ok? <==> forall e :: e in entry ==> Apply.Fits(source, e))
  {
    var entry := planned.editsByFile[file];
    var h: Decisions :| h.Decided() == Candidates(diagnostics, threshold) && Greedy(h) && Records(planned, h);
    CandidatesEdit(diagnostics, threshold);
    FilesClaimSomething(h, file);
    EntryIsClean(planned, h, file);
    CleanEntryApplies(entry, file, source);
  }

  lemma EntryIsClean(planned: PlannedFixes, h: Decisions, file: nat)
    requires Greedy(h) && Records(planned, h) && file in planned.editsByFile
    ensures var entry := planned.editsByFile[file];
            Sorted(CompareEdit, entry) && CollisionFree(entry) && (forall e :: e in entry ==> e.file == file)
            && |entry| == |h.Claimed(file)|
  {
    var entry, claimed := planned.editsByFile[file], h.Claimed(file);
    ClaimedIsClean(h, file);
    CollisionFreePermutes(claimed, entry);
    forall e | e in entry ensures e.file == file {
      assert e in multiset(entry);
      assert e in claimed;
    }
    assert |multiset(entry)| == |entry| && |multiset(claimed)| == |claimed|;
  }

  lemma {:induction false} CleanEntryApplies(entry: seq<TextEdit>, file: nat, source: seq<byte>)
    requires Sorted(CompareEdit, entry) && CollisionFree(entry) && forall e :: e in entry ==> e.file == file
    ensures var result := Apply.Applied(source, entry);
            && (result.Err? ==> !result.error.Conflict? && !result.error.MultipleFiles?)
            && (result.Ok? <==> forall e :: e in entry ==> Apply.Fits(source, e))
  {
    CompareEditTotal();
    SortedUnique(CompareEdit, SortedEdits(entry), entry);
    AdjacentPairsSuffice(entry);
    Apply.AcceptsIff(source, entry);
    MisfitKind(source, entry);
    assert entry != [] ==> entry[0] in entry;
  }

  lemma {:induction false} MisfitKind(source: seq<byte>, edits: seq<TextEdit>)
    ensures var misfit := Apply.FirstMisfit(source, edits);
            misfit.Some? ==> misfit.value.RangeOutOfBounds? || misfit.value.RangeNotOnCharacterBoundary?
  {
    if edits == [] {
    } else {
      MisfitKind(source, edits[1..]);
    }
  }

  /** A suggestion skipped for overlap has an edit in collision, with
      another of its own or with one an earlier suggestion claimed. */
  lemma OverlapIsReal(before: Decisions, c: Candidate) returns (mine: nat, other: TextEdit)
    requires Greedy(before) && OwnFile(c) && !Admissible(before, c)
    ensures mine < |c.suggestion.edits| && Collide(other, c.suggestion.edits[mine])
    ensures other in before.Claimed(c.file)
         || exists k :: 0 <= k < mine && c.suggestion.edits[k] == other
  {
    var claimed, edits := before.Claimed(c.file), c.suggestion.edits;
    ClaimedIsClean(before, c.file);
    var i, j :| 0 <= i < j < |claimed + edits| && Collide((claimed + edits)[i], (claimed + edits)[j]);
    PrefixCollisionFree(claimed, edits);
    mine, other := j - |claimed|, (claimed + edits)[i];
    if i >= |claimed| { assert edits[i - |claimed|] == other; }
  }

  lemma PrefixCollisionFree(front: seq<TextEdit>, back: seq<TextEdit>)
    requires CollisionFree(front)
    ensures forall i, j :: 0 <= i < j < |front| ==> !Collide((front + back)[i], (front + back)[j])
  {
    forall i, j | 0 <= i < j < |front| ensures !Collide((front + back)[i], (front + back)[j]) {
      assert (front + back)[i] == front[i] && (front + back)[j] == front[j];
    }
  }

  /** First wins: deciding more candidates after the same ones never takes back
      an accepted edit. */
  lemma {:induction false} AcceptedStays(earlier: Decisions, later: Decisions, file: nat)
    requires Greedy(earlier) && Greedy(later) && earlier.Decided() <= later.Decided()
    ensures earlier.Claimed(file) <= later.Claimed(file)
  {
    if earlier.Decided() == later.Decided() {
      GreedyDetermined(earlier, later);
    } else {
      AcceptedStays(earlier, later.before, file);
    }
  }
}
