# Celerrate, verified

This project models the parts of Celerrate, a static analyser for PHP, whose
correctness is least visible in their code, and proves what they promise. It
is a Dafny project: verify it with `dafny verify dfyconfig.toml`.

- **Did you mean.** `Distance` is the bounded optimal-string-alignment distance
  over three rotating rows, proved equal to the full matrix and to the least
  cost of an edit script. `Suggest` is the search over a pool of names and over
  attempted keys, and `MemberToken` the backward scan that finds the token to edit.
- **Edits.** `Edits` detects conflicts between neighbours of a sorted list,
  `Splice` and `Apply` patch UTF-8 text in one pass (`Utf8` has the boundary
  facts), and `Fix` plans whole suggestions, the first one winning.
- **Reports and the cache.** `Diagnostics` is the order that makes a report
  canonical, `Suppression` the filter and the severity remap, `Stored` the
  cached forms, and `Analysis` the composition of served and recomputed halves.
- **The file set.** `Vfs` is the in-memory mirror, `InputMutations` turns its
  diffs into input changes, `Project` says what a disk and its declared roots
  contain, and `Session` keeps sources, bytes, set and mirror together.
- **The watch.** `Watch` is the event loop with its worker, its bursts, its
  shutdown, its skipped persists and its respawns. The outside world is a finite
  script of saves and signals, with ticks that say how much of it happens each time
  time passes, so a statement over all scripts is one over all interleavings.
- **Cache keys.** `Digest` is the two byte streams that are hashed.
- **The terminal frame.** `Render` is the frame's text and its row budget.

`Ordering` has three-way comparisons and sorting, `Wrappers` the two result
shapes.

## Where the code and its comments part

- `watch.rs:725-737` says a respawn happens only just after a rediscovery, so that
  what it drops was read already, but for the instant between the two. Neither holds.
  A refused path that appears also causes a respawn (`watch.rs:740`), after a burst
  that need not hold a manifest; `RetryRespawnDropsASave` is a run that loses a save
  so. And the old channel fills until it is replaced: while the rediscovery reads the
  project and the new watch is built, and in `cycle` while the worker is joined too
  (`watch.rs:963-976`), which takes as long as the analysis does when the rediscovery
  calls no setter. `AbsorbAndFollow` and `OvertakeAndFollow` say exactly what is lost
  after either absorption; `ManifestRespawnInIteration` and `ManifestRespawnInCycle`
  lose an edit and a signal although nothing was ever refused.
- `watch.rs:508-512` says a refused path costs one extra respawn at most while the
  declared roots stay the same. Another path's respawn can refuse it anew, once it is
  gone again: `RetriedTwice`. What holds is one for each time it comes to exist:
  `RetriesAreAppearances`.
- `watch.rs:286-296` speaks of a shutdown lost in the instant of the swap. A
  shutdown queued on the channel is dropped with it exactly when a respawn is due
  (`Resynchronize`), the same runs drop one, and `SignalsAccounted` says that a
  signal is lost in no other way.
- `render.rs:371-392` names five rows and counts six, one of them for the
  cursor. The line about hidden diagnostics and its separator take two rows, the
  sixth and the cursor's: `CursorRowIff` says for which blocks and heights the
  cursor keeps its row, and `CursorRowLost` is a frame on which it does not.
- `session.rs:540-543` re-runs discovery for four manifests, on which the walk roots
  are said to depend. Discovery reads `installed.json` too (`discovery.rs:119` of
  `celerrate_project`), and nothing follows that file: `InstalledIsMissed`, and
  `IncrementalIsFreshStart` for exactly when the discovery is still a fresh start's.
- `watch.rs:79-95` is exact for a diff with one entry per file, which is what the
  mirror hands out; `DuplicateEntriesLoseARemoval` is the other case.
- `session.rs:545-551` follows PHP paths only, while the walk takes a root that
  is a file of any extension (`walk.rs:65-66`): `ForeignRootIsNeverFollowed`. An
  unreadable file is loaded empty and absorbed as gone, and a readable one outside
  the roots is absorbed and not loaded: `AbsorbAgreesIff`, and `LockedFileDiffers`.
- `suggest.rs:638-641` continues before the rejected occurrence. For a member
  that overlaps itself across a word boundary that can step over a token:
  `ScanExactIff`.
- Making one part of an accepted edit set first can bring two insertions of the
  rest to one point, and they are then refused: `SplitThroughApply`, and
  `RebasingCanRace` for a text on which it happens.

## Model

| member | source | states |
|---|---|---|
| `Distance.DistanceScratch.BoundedDistance` | crates/celerrate_cli/src/suggest.rs:38-115 | the three rotating rows, with the length rejection and the early abandonment, answer the full-matrix distance when it is within the bound and nothing otherwise, for every bound and whatever an earlier call left in the rows |
| `Distance.DistanceScratch.FillRow` | crates/celerrate_cli/src/suggest.rs:52-96 | one pass of the inner loop fills `current` with the next matrix row, given the two rows above it; every read lands inside a row |
| `Distance.LeastOf` | crates/celerrate_cli/src/suggest.rs:97-99 | the row minimum is a value of the row and no larger than any other |
| `Distance.NextCellAbove` | crates/celerrate_cli/src/suggest.rs:51-99 | once a whole row is above the bound so is every cell of the next one, although a transposition reads the row before it |
| `Distance.AbandonedForGood` | crates/celerrate_cli/src/suggest.rs:97-99 | a row wholly above the bound puts the final distance above it: stopping there loses no match |
| `Distance.NoScriptIsCheaper` | crates/celerrate_cli/src/suggest.rs:51-96 | no sequence of keep, substitute, insert, delete and adjacent-swap steps between the prefixes costs less than the recurrence's cell |
| `Distance.SomeScriptAttains` | crates/celerrate_cli/src/suggest.rs:51-96 | some such sequence costs exactly the cell |
| `Distance.DistanceIsLeastScriptCost` | crates/celerrate_cli/src/suggest.rs:117-122 | the distance is the least cost of an edit script that touches no character twice |
| `Distance.DistanceSymmetric` | crates/celerrate_cli/src/suggest.rs:117-122 | swapping the two texts leaves the distance unchanged |
| `Distance.DistanceLaws` | crates/celerrate_cli/src/suggest.rs:44-46 | the distance is zero exactly on equal texts and is at least the length difference, which is what makes the up-front rejection sound |
| `Distance.TriangleInequalityFails` | crates/celerrate_cli/src/suggest.rs:117-122 | the distance is no metric: CA to AC and AC to ABC are one edit each, CA to ABC is three |
| `Suggest.DidYouMeanPooled` | crates/celerrate_cli/src/suggest.rs:143-227 | the answer is the sorted distinct names of the entries that do not fold to what is left out, are one edit away at most from a written name of up to four characters and two from a longer one, and have no other entry that is not left out nearer; one name is unique, several are a tie |
| `Suggest.AnswerUnique` | crates/celerrate_cli/src/suggest.rs:186-227 | two pools with the same entries, in any order and with any repeats, have the same answer, and the distance is absent exactly when there is no name |
| `Suggest.NearestDeclaredNames` | crates/celerrate_cli/src/suggest.rs:143-227 | the same over the pool built from a space's declared names, name by name |
| `Suggest.ShapeOfAnswer` | crates/celerrate_cli/src/suggest.rs:186-227 | nothing exactly when no entry is in bound, a unique name exactly one, a tie several distinct ones |
| `Suggest.DidYouMeanAcrossKeys` | crates/celerrate_cli/src/suggest.rs:517-538 | the key chosen is one at the least distance over all attempted keys, and the first of those in resolution order |
| `Suggest.BestOfKeys` | crates/celerrate_cli/src/suggest.rs:517-538 | over the pool of a space's declared names: nothing exactly when no name is near any attempted key; otherwise the first key with a name as near as any key has, and exactly the names nearest to it |
| `Suggest.BestUnique` | crates/celerrate_cli/src/suggest.rs:517-538 | that key and its outcome are determined by the attempted keys and the pool's entries alone |
| `MemberToken.ParseMemberMessage` | crates/celerrate_cli/src/suggest.rs:606-617 | a parsed message has a non-empty member and a non-empty receiver, which is why the scan advances |
| `MemberToken.ParseExactly` | crates/celerrate_cli/src/suggest.rs:606-617 | any message at all is parsed as its second and fourth backticked parts, the sign of a property dropped, and as nothing when either is empty or there are not three backticks |
| `MemberToken.ParseInvertsMessage` | crates/celerrate_rules/src/rules/unknown_members.rs:64-80 | parsing a message of the four emitted shapes gives back its two names exactly when neither is empty or holds a backtick and a name that is not a property does not start with the property sign |
| `MemberToken.MessageSays` | crates/celerrate_rules/src/rules/unknown_members.rs:64-80 | the four emitted messages, word for word |
| `MemberToken.IsTokenExactly` | crates/celerrate_cli/src/suggest.rs:619-643 | a token is the member's text with no alphanumeric or underscore right after it and, across white space, one of the two operators before it |
| `MemberToken.SpacesAre` | crates/celerrate_cli/src/suggest.rs:626-627 | the white space skipped before a member: the Unicode White_Space characters |
| `MemberToken.MemberAfterOperator` | crates/celerrate_cli/src/suggest.rs:619-643 | after a receiver, any of the three operators and blanks or line ends, the scan answers the member itself |
| `MemberToken.Scan` | crates/celerrate_cli/src/suggest.rs:623-643 | what the backward scan answers is an operator-prefixed, word-bounded occurrence inside the span |
| `MemberToken.ScanFindsRightmost` | crates/celerrate_cli/src/suggest.rs:623-643 | for members that overlap themselves inside words only, the answer is the rightmost such occurrence and nothing exactly when there is none |
| `MemberToken.WordMembersOverlapInsideWords` | crates/celerrate_cli/src/suggest.rs:623-643 | every member made of word characters is of that kind |
| `MemberToken.ScanExactIff` | crates/celerrate_cli/src/suggest.rs:623-643 | the scan finds the rightmost occurrence in every text exactly when the member is of that kind; otherwise a text is given on which it steps over one |
| `MemberToken.OverlapLosesToken` | crates/celerrate_cli/src/suggest.rs:638-641 | the text on which skipping past a rejected occurrence loses an overlapping one |
| `MemberToken.MemberTokenRange` | crates/celerrate_cli/src/suggest.rs:623-643 | the loop terminates and answers the byte range of a token of the span; for members that overlap themselves inside words only, nothing exactly when there is no token, and otherwise the range of the rightmost one, whose bytes spell the member |
| `MemberToken.ByteRangeSpellsMember` | crates/celerrate_cli/src/suggest.rs:632-637 | for any member: the range starts where the text before the occurrence ends, stays in the span, and its bytes spell the member |
| `Edits.CompareEditTotal` | crates/celerrate_source/src/text_edit.rs:17-32 | the order of edits, by file, start, end and replacement, is total, so a sorted edit set is determined by its members |
| `Edits.EditBefore` | crates/celerrate_source/src/text_edit.rs:17-32 | which way that order goes |
| `Edits.FindConflictAdjacent` | crates/celerrate_edit/src/conflict.rs:21-36 | the scan answers a conflict exactly when some adjacent pair clashes |
| `Edits.AdjacentPairsSuffice` | crates/celerrate_edit/src/conflict.rs:21-36 | on a sorted slice the adjacent scan finds a conflict exactly when any two edits of one file, anywhere in it, share a byte, nest an insertion, or insert at one point |
| `Edits.FoundConflictIsFirst` | crates/celerrate_edit/src/conflict.rs:21-36 | the reported pair collides and everything up to the earlier of the two is free of collision |
| `Edits.CollisionFreePermutes` | crates/celerrate_edit/src/conflict.rs:21-36 | being free of collision does not depend on the order the edits are listed in |
| `Splice.ForwardIsBackToFront` | fuzz/fuzz_targets/edit_apply.rs:49-61 | the single forward cursor pass equals splicing the sorted edits one at a time from the back |
| `Splice.ForwardLength` | crates/celerrate_edit/src/apply.rs:55-66 | the output is the source length minus what was removed plus what was inserted |
| `Splice.UnclaimedByteSurvives` | crates/celerrate_edit/src/apply.rs:55-66 | every byte outside the ranges survives, moved by the growth of the edits before it |
| `Splice.ReplacementAppears` | crates/celerrate_edit/src/apply.rs:55-66 | every replacement stands where its range began, moved by the growth of the edits before it |
| `Splice.ForwardValid` | crates/celerrate_edit/src/apply.rs:55-66 | valid UTF-8 (section 3 of RFC 3629) in, valid UTF-8 out |
| `Splice.SplitForward` | crates/celerrate_edit/src/apply.rs:55-66 | making any part of an ordered edit set and then the rest with rebased offsets is making them all at once |
| `Splice.RebasedOnCharacters` | crates/celerrate_edit/src/apply.rs:42-54 | rebased ranges stay on character boundaries of the patched text |
| `Utf8.CharReadsBack` | crates/celerrate_edit/src/apply.rs:42-54 | a character's bytes read back as the character, are as few as its value allows, and only the first is outside the continuation range (section 3 of RFC 3629) |
| `Utf8.CharactersEndAtBoundaries` | crates/celerrate_edit/src/apply.rs:42-54 | the boundary test holds wherever a character ends |
| `Apply.Apply` | crates/celerrate_edit/src/apply.rs:28-67 | the whole function: foreign files refused first, then conflicts, then ranges, and otherwise the back-to-front splice |
| `Apply.Patch` | crates/celerrate_edit/src/apply.rs:55-66 | the cursor pass over accepted edits; none of its slices falls back to the empty text |
| `Apply.AcceptsIff` | crates/celerrate_edit/src/apply.rs:28-54 | edits are accepted exactly when they name one file, no two collide, and every range is in bounds and on character boundaries |
| `Apply.RefusalSays` | crates/celerrate_edit/src/apply.rs:31-54 | what a refusal says is so: a second file, a collision of two of the edits, a range past the end of the text, or one within it that cuts a character; and it names an edit that was given |
| `Apply.OrderFree` | crates/celerrate_edit/src/apply.rs:28-41 | the whole result, errors included, is the same for every order of the input edits |
| `Apply.StaysValid` | crates/celerrate_edit/src/apply.rs:22-27 | an accepted patch of valid text with valid replacements is valid text |
| `Apply.SplitThroughApply` | crates/celerrate_edit/src/apply.rs:28-67 | applying a part of an accepted set and then the rebased rest gives the joint text, unless the part deletes all there is between two insertions of the rest, and exactly then the second call is refused |
| `Apply.RebasedRacesIff` | crates/celerrate_edit/src/apply.rs:28-67 | in the original offsets: the rebased rest has two insertions at one point exactly when nothing but text the first part deletes, putting nothing there, lies between two insertions of it |
| `Apply.RebasingCanRace` | crates/celerrate_edit/src/apply.rs:28-67 | on the text abc: a set that apply accepts, a first part that apply accepts, and the rebased rest that apply then refuses |
| `Fix.Plan` | crates/celerrate_cli/src/fix.rs:64-102 | the plan records the greedy decisions over the eligible suggestions in diagnostic order: each taken whole exactly when all its edits are in its own file and collide with nothing taken before nor with each other |
| `Fix.PlanDetermined` | crates/celerrate_cli/src/fix.rs:64-102 | the candidates in order determine the plan |
| `Fix.CandidatesExact` | crates/celerrate_cli/src/fix.rs:22-80 | there is a pass exactly when a flag is given, and its candidates are the suggestions that edit something, of diagnostics that have a file, safe ones under either flag and the ones to review under --fix-suggestions alone |
| `Fix.TrialDecides` | crates/celerrate_cli/src/fix.rs:82-98 | the sorted trial list conflicts exactly when the suggestion is not admissible, so trying on a copy decides the whole suggestion |
| `Fix.NothingForgotten` | crates/celerrate_cli/src/fix.rs:55-59 | accepted plus skipped counts every eligible suggestion |
| `Fix.ClaimedIsClean` | crates/celerrate_cli/src/fix.rs:82-98 | what is claimed in a file is of that file and free of collision after every step |
| `Fix.EntriesApply` | crates/celerrate_cli/src/fix.rs:163-171 | an entry is non-empty, sorted and of one file, and applying it can fail over the text's bounds and boundaries only, never with a conflict or a foreign file |
| `Fix.OverlapIsReal` | crates/celerrate_cli/src/fix.rs:89-96 | a suggestion skipped as overlapping has an edit that collides with one claimed earlier or with another of its own |
| `Fix.SkippedWhy` | crates/celerrate_cli/src/fix.rs:82-99 | a skipped suggestion is reported with its file and message, as foreign exactly when some edit of it is in another file and as overlapping exactly when none is |
| `Fix.AcceptedStays` | crates/celerrate_cli/src/fix.rs:82-98 | deciding more candidates after the same ones never takes back an accepted edit |
| `Diagnostics.CompareDiagnosticTotal` | crates/celerrate_diagnostics/src/diagnostic.rs:103-123 | the order over anchor, identifier, severity, message, labels, notes and suggestions is total with equality as its only tie, so sorting is canonical |
| `Diagnostics.DiagnosticBefore` | crates/celerrate_diagnostics/src/diagnostic.rs:103-123 | which way the order goes: by anchor, identifier, severity with warnings first, message, labels, notes and suggestions, each only where the ones before tie |
| `Diagnostics.PartBefore` | crates/celerrate_diagnostics/src/label.rs:19-43 | labels in the file by start and end, before symbolic ones by symbol, then by message; suggestions by message, safe ones first, then edits |
| `Diagnostics.ReportOrder` | crates/celerrate_diagnostics/src/diagnostic.rs:103-123 | a sorted report lists project findings first, then spans by file, start and end |
| `Diagnostics.CompareLabelTotal` | crates/celerrate_diagnostics/src/label.rs:19-43 | the order of labels is total |
| `Diagnostics.CompareSuggestionTotal` | crates/celerrate_diagnostics/src/suggestion.rs:23-33 | the order of suggestions is total |
| `Ordering.FirstDifference` | crates/celerrate_diagnostics/src/diagnostic.rs:103-123 | a list comes before another exactly when it is a proper prefix of it or has the smaller element where they first differ, as strings, paths and vectors are compared |
| `Suppression.FoundIffMember` | crates/celerrate_semantics/src/comment_directives.rs:251-262 | on a sorted list `binary_search` is membership |
| `Suppression.RetainUnsuppressed` | crates/celerrate_cli/src/analysis.rs:203-235 | for directives with sorted codes: a diagnostic is dropped exactly when it has a span that starts within the scope of a directive (the scope's end counts at the end of the text only) that names its identifier or names none, and a directive's index is answered exactly when it so reaches some diagnostic; in any case the survivors in order and the ascending indexes |
| `Suppression.SurvivorsExact` | crates/celerrate_cli/src/analysis.rs:203-235 | the survivors are exactly the diagnostics no directive admits, each as often as before |
| `Suppression.SurvivorsConcat` | crates/celerrate_cli/src/analysis.rs:281-350 | filtering two halves apart is filtering their concatenation |
| `Suppression.MatchedUnion` | crates/celerrate_cli/src/analysis.rs:368-386 | a directive is matched over the concatenation exactly when it is matched over one of the halves |
| `Suppression.ApplySeverityRemap` | crates/celerrate_cli/src/analysis.rs:240-252 | the in-place loop gives each element the severity its identifier is remapped to, if any, and changes nothing else |
| `Suppression.RemapCommutes` | crates/celerrate_cli/src/analysis.rs:240-252 | remapping before the filter or after it gives the same survivors and the same matches |
| `Stored.DiagnosticRoundTrip` | crates/celerrate_cli/src/cache/stored.rs:698-829 | a stored diagnostic reads back as itself under the reading file's identity exactly when its ranges fit the content and its identifier is registered |
| `Stored.DirectiveRoundTrip` | crates/celerrate_cli/src/cache/stored.rs:944-1016 | a stored directive reads back as itself, without its widening notes, exactly when its ranges fit and its codes are registered |
| `Stored.ConvertsExactly` | crates/celerrate_cli/src/cache/stored.rs:1063-1102 | a verdict's directives convert exactly when every range is in order and within the content, every code is registered, and the typed half's indexes, if there is one, are of directives that are there and strictly increasing |
| `Stored.ConvertedIndexesSearchExactly` | crates/celerrate_cli/src/cache/stored.rs:1063-1102 | a verdict whose directives convert has typed indexes that are in range and on which searching is membership, whoever wrote it |
| `Analysis.ComputePortion` | crates/celerrate_cli/src/analysis.rs:281-311 | one half: filtered by the directives, when there are any, then remapped |
| `Analysis.OutcomeIsUse` | crates/celerrate_cli/src/analysis.rs:368-386 | a directive's flag says it admitted something in either half |
| `Analysis.ComposedDiagnostics` | crates/celerrate_cli/src/analysis.rs:463-473 | the per-file list: the untyped half, the typed half and the reporting rules, sorted once |
| `Analysis.ComposedIsReference` | crates/celerrate_cli/src/analysis.rs:463-473 | two halves filtered apart with their matches united equal the whole filtered at once |
| `Analysis.ServedTypedDiagnostics` | crates/celerrate_cli/src/analysis.rs:496-543 | the typed half is served when it is stored and every diagnostic of it converts, and recomputed otherwise |
| `Analysis.AnalyzeOne` | crates/celerrate_cli/src/analysis.rs:562-640 | the served, partly served, failed, discarded and absent paths, each as the source takes them |
| `Analysis.TypedServedIsFresh` | crates/celerrate_cli/src/analysis.rs:496-543 | served or recomputed, the typed half has the fresh half's diagnostics and matches |
| `Analysis.UntypedLayerIsFresh` | crates/celerrate_cli/src/analysis.rs:562-640 | served or recomputed, the untyped layer has the fresh diagnostics and, widening notes apart, the fresh records |
| `Analysis.WarmEqualsCold` | crates/celerrate_cli/src/analysis.rs:562-640 | whatever the lookup answers, the list for the file is the one composed from scratch |
| `Analysis.JustStoredRevalidates` | crates/celerrate_cli/src/analysis.rs:562-640 | a verdict just stored revalidates against the inputs it was stored for |
| `Analysis.HitReadsNoFindings` | crates/celerrate_cli/src/analysis.rs:562-640 | a hit whose untyped side converts depends on none of the file's untyped findings, and with a typed half that is served and converts on none of its typed ones either: the cache is used |
| `Analysis.FailedHitSaysNothing` | crates/celerrate_cli/src/analysis.rs:562-640 | a verdict whose untyped side does not convert has no influence at all, typed half included |
| `Analysis.ServedIsReported` | crates/celerrate_cli/src/analysis.rs:496-543 | every stored diagnostic of a half that speaks is in the report, whatever the findings are |
| `Analysis.StoredShape` | crates/celerrate_cli/src/analysis.rs:562-640 | what is stored: one entry per diagnostic and directive, each directive with the untyped half's match, and a typed half with its matches exactly when asked for |
| `Analysis.Assemble` | crates/celerrate_cli/src/analysis.rs:661-676 | all files' diagnostics and all panicked files, each sorted |
| `Analysis.AssembledExactly` | crates/celerrate_cli/src/analysis.rs:661-676 | a diagnostic is reported exactly when some file's result holds it, a file is listed as panicked as often as its result says so, and both lists are sorted |
| `Analysis.AssembledOrderFree` | crates/celerrate_cli/src/analysis.rs:661-676 | only which per-file results there are matters, not the order the threads returned them in |
| `Vfs.Vfs.Intern` | crates/celerrate_vfs/src/vfs.rs:32-40 | an identifier never moves, and a new path takes the next one |
| `Vfs.Vfs.SetFileContents` | crates/celerrate_vfs/src/vfs.rs:50-63 | the disk state of the one file changes, and the file is marked exactly when its effective contents moved |
| `Vfs.Vfs.SetOverlay` | crates/celerrate_vfs/src/vfs.rs:66-72 | the same for an overlay |
| `Vfs.Vfs.ClearOverlay` | crates/celerrate_vfs/src/vfs.rs:75-79 | the disk state shows again, marked exactly when that moved the effective contents |
| `Vfs.Vfs.TakeChanges` | crates/celerrate_vfs/src/vfs.rs:89-98 | one entry per marked file, ascending; applied to what the last diff left, it gives the effective contents of every file |
| `InputMutations.ReconcileOverwrites` | crates/celerrate_cli/src/watch.rs:74-95 | for a diff with one entry per file, the mutations overwrite file by file, and touch the membership exactly when the analyzed set ends up different |
| `InputMutations.DuplicateEntriesLoseARemoval` | crates/celerrate_cli/src/watch.rs:74-95 | why one entry per file matters: with two, a removal can be lost |
| `Project.EnumeratePhpFiles` | crates/celerrate_vfs/src/walk.rs:56-80 | the list holds each file at a root and each PHP file below one, nothing excluded, once and in path order |
| `Project.WalkableExactly` | crates/celerrate_vfs/src/walk.rs:56-85 | a path is walked exactly when it is no directory, lies under no excluded root, and is a declared root or a PHP file below one |
| `Project.PhpExactly` | crates/celerrate_cli/src/session.rs:545-548 | a PHP file is one whose last component ends in the extension, in any ASCII case, after at least one character |
| `Project.ViewsExactly` | crates/celerrate_cli/src/session.rs:462-469 | a load gives a walked file its bytes, or none at all if it cannot be read; an absorption gives a path its bytes only if it can |
| `Project.ManifestBurst` | crates/celerrate_cli/src/session.rs:540-564 | a burst with any of composer.json, composer.lock, celerrate.toml and celerrate-baseline.toml at the root makes the session what a start on this disk would; any other leaves discovery alone |
| `Project.StillStaleExactly` | crates/celerrate_cli/src/session.rs:540-556 | what an absorption leaves to read: nothing after a manifest, otherwise what was not in the burst and the roots no absorption follows |
| `Project.ConcernsExactly` | crates/celerrate_cli/src/session.rs:540-551 | what concerns a session: the manifests, what it absorbed since discovery ran, and what a walk could list; with nothing left to read it is caught up |
| `Session.Session.constructor` | crates/celerrate_cli/src/session.rs:162-292 | a started session is coherent, and holds and remembers exactly what a start from scratch on this disk does |
| `Session.Session.Load` | crates/celerrate_cli/src/session.rs:422-504 | the analyzed bytes become what was read for each walked file, unreadable ones empty and reported in walk order; staying files keep their input, departing ones leave the mirror, and the set input is written exactly when the membership moved |
| `Session.LoadErrors` | crates/celerrate_cli/src/session.rs:422-504 | after a load exactly the errors about unreadable files and directories are replaced, by one for each walked file that cannot be read |
| `Session.Session.Apply` | crates/celerrate_cli/src/session.rs:509-534 | the inputs change as the mutations say, the set lists the members in file order, and it is written exactly when the membership was touched |
| `Session.Session.AbsorbFiles` | crates/celerrate_cli/src/session.rs:545-555 | each followed path is read again, and the analyzed bytes change at those paths alone |
| `Session.Session.Absorb` | crates/celerrate_cli/src/session.rs:540-564 | the picture the session keeps (contents, discovery, what was absorbed since discovery ran, and the disk it ran on) becomes that of a fresh start when one of the four manifests at the root is in the burst, and otherwise has the followed paths read again; sources, bytes, set and mirror agree afterwards |
| `Session.Session.Rediscover` | crates/celerrate_cli/src/session.rs:572-588 | discovery re-runs and the session holds what a fresh load of the disk would; the errors about unreadable files become one for each walked file that cannot be read, and no other error moves |
| `Session.Session.ForgetAnalysisErrors` | crates/celerrate_cli/src/session.rs:402-411 | exactly the last pass's verdicts leave the error list, and the file set does not move |
| `Session.Session.AbsorbOutcome` | crates/celerrate_cli/src/session.rs:366-371 | one error per panicked file joins the list, and the file set does not move |
| `Session.Session.InputsAreContents` | crates/celerrate_cli/src/session.rs:309-363 | what an analysis reads is what the session holds: each path once, by ascending file, with its bytes; the files not under the vendor root are reported; the version range is the discovery's |
| `Project.AbsorbAgreesIff` | crates/celerrate_cli/src/session.rs:545-551 | an absorbed path agrees with a fresh load exactly when the walk lists it just if it can be read |
| `Project.AbsorbTracksIff` | crates/celerrate_cli/src/session.rs:545-555 | after a burst without a manifest a path is in step exactly when the burst read it or it was in step before: what is in step is fixed by whether an absorption or the load read the path last |
| `Project.ForeignRootIsNeverFollowed` | crates/celerrate_cli/src/session.rs:545-548 | a root that is a file without a PHP extension is walked, and absorbing it changes nothing |
| `Project.LockedFileDiffers` | crates/celerrate_cli/src/session.rs:462-469 | a file that becomes unreadable is gone from the session after its absorption and still listed by a fresh load |
| `Project.EveryRunInStep` | crates/celerrate_cli/src/session.rs:540-588 | after any run of writes and absorptions, with or without manifests, the session's entry at every path read since it was last written is exactly what the absorption that read it, or else the last load, makes of the disk as it is now; discovery is that of a disk with the same manifests |
| `Project.SinceIsTheLastBursts` | crates/celerrate_cli/src/session.rs:540-551 | the paths whose entries an absorption decides are exactly the followed paths of the bursts after the last one with a manifest |
| `Project.TracksAgreesIff` | crates/celerrate_cli/src/session.rs:545-551 | path by path: an entry in step is a fresh load's exactly when no absorption read it last, or the walk lists the path just if it can be read |
| `Project.InStepIsScratchIff` | crates/celerrate_cli/src/session.rs:540-588 | the same equivalence for any session in step, however it got there |
| `Project.InStepDiscoveryIff` | crates/celerrate_project/src/discovery.rs:110-121 | the same equivalence of discoveries for any session in step with no manifest left to read |
| `Project.UnwrittenSinceDiscovery` | crates/celerrate_cli/src/session.rs:572-588 | a path no move after the last manifest burst wrote stands on the disk as discovery saw it |
| `Project.IncrementalIsScratch` | crates/celerrate_cli/src/session.rs:540-588 | with nothing that concerns the session left to read, it holds what a load from scratch under its discovery would exactly when every path absorbed since discovery ran is listed by the walk just if it can be read; nothing is asked of any other file |
| `Project.IncrementalIsFreshStart` | crates/celerrate_cli/src/session.rs:540-588 | compared with a session started on that disk: the discovery is the same exactly when the list of installed packages gives the roots it gave before, as it does unless it was written since discovery ran; and then the contents are the same exactly when every absorbed path settles. Asked of discovery is what it does: the manifests decide all but the dependencies' roots, and the list under the vendor root decides those |
| `Project.InstalledIsMissed` | crates/celerrate_cli/src/session.rs:540-563 | a run outside that condition: the list is written after the last manifest burst, and a fresh start has another discovery and reads a file the session lacks |
| `Watch.DrainBurst` | crates/celerrate_cli/src/watch.rs:1019-1033 | collects every event of the window, answers whether one was a shutdown, and leaves the paths sorted and distinct |
| `Watch.BurstStartingWith` | crates/celerrate_cli/src/watch.rs:1005-1014 | a burst holds the first path and everything heard, and a shutdown discards it |
| `Watch.WaitForABurst` | crates/celerrate_cli/src/watch.rs:993-999 | a burst, a shutdown or the channel's end, each exactly when that is what was heard |
| `Watch.SignalsAccounted` | crates/celerrate_cli/src/watch.rs:738-764 | every signal raised was heard, is still queued, or was dropped with a channel that a respawn replaced |
| `Watch.RetriesAreAppearances` | crates/celerrate_cli/src/watch.rs:508-512 | a path refused while absent costs a respawn, over roots that have not moved, at most once each time it comes to exist |
| `Watch.RetriedTwice` | crates/celerrate_cli/src/watch.rs:508-512 | and more than once in the life of a set of roots: two absent manifests of which one appears, goes as the other appears, and appears again, where the operating system refuses what is absent; the bound is attained |
| `Watch.Attend` | crates/celerrate_cli/src/watch.rs:930-962 | while the worker runs, everything heard is either in the burst or a shutdown that is flagged; what already waits is heard, however soon the worker is done |
| `Watch.Watch.Overtake` | crates/celerrate_cli/src/watch.rs:960-965 | a burst is absorbed on the disk as it was then, while the worker may still run to its end in any way, and what happens meanwhile joins the queue |
| `Watch.Watch.OvertakeAndFollow` | crates/celerrate_cli/src/watch.rs:960-977 | cycle's call: the same, the respawn being due or not once the worker has ended |
| `Watch.Watch.Attempt` | crates/celerrate_cli/src/watch.rs:929-989 | an attempt overtaken by a burst absorbs it and has no outcome, even if the worker had finished, and loses and drops exactly what a respawn due by then does; an attempt that settles did so on the session's current inputs, lost nothing, and a panic answers the empty outcome |
| `Watch.Watch.Cycle` | crates/celerrate_cli/src/watch.rs:920-990 | whatever the worker did, the outcome is the analysis of the session's current inputs, or the empty one exactly when the panic is on record; those inputs hold exactly the paths and bytes the session holds; everything heard was absorbed, and the flag says whether a shutdown was heard, across all restarts |
| `Watch.Watch.PersistUnlessABurstIsAlreadyWaiting` | crates/celerrate_cli/src/watch.rs:229-239 | persists unless a change is queued, and hands the peeked event back |
| `Watch.Watch.ReportUnwatchablePaths` | crates/celerrate_cli/src/watch.rs:684-700 | exactly the refusals of paths that were there or are declared replace the previous report of refusals |
| `Watch.Watch.Present` | crates/celerrate_cli/src/watch.rs:129-168 | the error list is the last one with this pass's panics, the reportable refusals in place of the earlier report of them, and what failed to render |
| `Watch.Watch.PresentedCycle` | crates/celerrate_cli/src/watch.rs:120-168 | a cycle up to the picture: its outcome is completed and nothing is persisted yet, everything heard was absorbed, and the panics on record are exactly this pass's |
| `Watch.Watch.CompletedCycle` | crates/celerrate_cli/src/watch.rs:109-180 | the outcome is completed, and persisted unless a change is handed back; the panics on record are exactly this pass's |
| `Watch.Watch.NextBurst` | crates/celerrate_cli/src/watch.rs:349-357 | the blocking wait is entered only with the last completed outcome persisted; a shutdown seen anywhere starts no new work |
| `Watch.Watch.Proceed` | crates/celerrate_cli/src/watch.rs:349-397 | after a completed cycle: a graceful exit persists the outcome and counts its diagnostics and the session's errors; otherwise the next burst holds the change peeked at and everything heard since, no shutdown among it, and is absorbed |
| `Watch.Watch.Iteration` | crates/celerrate_cli/src/watch.rs:323-397 | it continues only if it heard no shutdown and absorbed exactly the changed paths it heard; a graceful exit leaves the packs holding the last completed outcome and counts its diagnostics and the session's errors, render failures among them; nothing but a completed outcome is ever persisted |
| `Watch.Watch.Loop` | crates/celerrate_cli/src/watch.rs:244-277 | over the whole run: everything heard before the last iteration was absorbed and held no shutdown, and a graceful exit leaves the packs holding the analysis of the session's inputs, or the empty outcome of a panic on record, with its counts and its panicked files reported |
| `Watch.Start` | crates/celerrate_cli/src/watch.rs:244-277 | started on any disk, registered on whatever it has become, and run over anything that happens outside: everything heard before the last iteration was absorbed; a graceful exit means a shutdown or a closed channel, with the packs holding the analysis of the session's inputs, which hold the session's bytes, or the empty outcome of a panic on record; every signal raised is accounted for as heard, queued or dropped by a respawn; no path was retried more often than it came to exist |
| `Watch.Watch.Build` | crates/celerrate_cli/src/watch.rs:582-639 | every refusal is of a declared root or of a manifest, with whether the path was there |
| `Watch.WatchedManifests` | crates/celerrate_cli/src/watch.rs:607-612 | the manifests that are watched are the four whose change re-runs discovery |
| `Watch.Watch.Rebuild` | crates/celerrate_cli/src/watch.rs:738-749 | the old watch goes on sending while the new one is built, and every refusal is recorded with whether its path was there as it was registered |
| `Watch.Watch.Resynchronize` | crates/celerrate_cli/src/watch.rs:738-764 | respawns exactly when the roots moved or a refused path has appeared; time passes while the new watch is built, and exactly on a respawn everything queued by then is dropped, its shutdowns with it, and the saves in it that the session has not read are lost; a session in step stays so off what was lost, and the refusals say what was there when they were registered |
| `Watch.Watch.AbsorbAndFollow` | crates/celerrate_cli/src/watch.rs:386-396 | iteration's call, with time passing after the absorption and while the new watch is built: a save is lost exactly when a respawn is due after the first and, by the time the channel is replaced, the save waits in it and is not in step; after a burst with a manifest, only a save made since the absorption; everything waiting then is dropped, exactly when a respawn is due |
| `Watch.ManifestRespawnInCycle` | crates/celerrate_cli/src/watch.rs:960-977 | a run of cycle's step: a manifest that adds a root is absorbed, an edit and a signal arrive before the worker is joined, and the respawn drops both, although nothing was ever refused |
| `Watch.ManifestRespawnInIteration` | crates/celerrate_cli/src/watch.rs:386-396 | the same run of iteration's step: the edit and the signal arrive between the absorption and the respawn |
| `Watch.RetryRespawnDropsASave` | crates/celerrate_cli/src/watch.rs:386-396 | a run of iteration's step: a burst without a manifest, a refused lockfile that appears, and the respawn drops a save that nothing has read |
| `Watch.QuietSessionIsScratch` | crates/celerrate_cli/src/watch.rs:386-396 | with nothing that concerns the session pending, it is about to analyze what a load of the disk from scratch would hold, path by path and byte by byte, exactly when every path absorbed since discovery ran is listed by the walk just if it can be read; and its discovery is a fresh start's exactly when the list of installed packages gives the roots it gave before |
| `Digest.CountRoundTrip` | crates/celerrate_cli/src/configuration.rs:274-276 | an eight-byte little-endian count reads back, leaving what follows |
| `Digest.FieldRoundTrip` | crates/celerrate_cli/src/configuration.rs:278-281 | so does a length-prefixed field |
| `Digest.SectionRoundTrip` | crates/celerrate_cli/src/configuration.rs:171-175 | so does a count-prefixed section of entries that read back one by one |
| `Digest.KeysDistinguish` | crates/celerrate_cli/src/configuration.rs:154-168 | the byte written beside a name tells an absent value from each present one, and drops the span |
| `Digest.KeyBytes` | crates/celerrate_cli/src/configuration.rs:154-187 | the byte itself: zero for an absent value, one for a disabled rule or a warning, two for an enabled rule or an error |
| `Digest.ConfigurationDigest` | crates/celerrate_cli/src/configuration.rs:152-193 | the digest is the hash of the stream: two sorted, counted sections |
| `Digest.ConfigurationReadsBack` | crates/celerrate_cli/src/configuration.rs:152-193 | the stream determines both sorted sections |
| `Digest.ConfigurationStreamsAgreeIff` | crates/celerrate_cli/src/configuration.rs:144-151 | two configurations feed the hash the same bytes exactly when they have the same rules with the same enablement and the same identifiers with the same severity, in whatever order and at whatever spans |
| `Digest.EntryOrderIsIgnored` | crates/celerrate_cli/src/configuration.rs:144-151 | reordering either section changes nothing |
| `Digest.PluginSetDigest` | crates/celerrate_cli/src/plugins.rs:229-261 | the digest is the hash of the stream: sorted identities, then sorted excluded names |
| `Digest.PluginSetReadsBack` | crates/celerrate_cli/src/plugins.rs:229-261 | the stream determines the sorted identities and the sorted excluded names, with no collision between adjacent fields |
| `Digest.PluginSetStreamsAgreeIff` | crates/celerrate_cli/src/plugins.rs:221-228 | two plugin sets feed the hash the same bytes exactly when they admit the same identities and exclude plugins of the same names, for whatever reasons |
| `Digest.SectionOrders` | crates/celerrate_cli/src/plugins.rs:229-261 | which way the sections are sorted: entries by text and byte, identities by name, version and configuration, texts byte by byte |
| `Render.BlockRows` | crates/celerrate_cli/src/render.rs:404-407 | a block takes the rows the cap charges for it, and one more exactly when it is empty or ends in a line feed |
| `Render.CappedBlocks` | crates/celerrate_cli/src/render.rs:287-299 | shows the longest prefix that fits, at least one block if there is any; shown plus hidden is the total |
| `Render.ShownExact` | crates/celerrate_cli/src/render.rs:282-299 | a longer prefix is shown exactly when it fits, and everything exactly when everything fits or there is one block |
| `Render.WriteNoticeBlock` | crates/celerrate_cli/src/render.rs:216-229 | one line per notice and a separator, or nothing |
| `Render.RenderInternalErrors` | crates/celerrate_cli/src/render.rs:588-611 | a blank line, one line per error, and the invitation exactly when some error is Celerrate's own bug |
| `Render.ErrorRowsAreExact` | crates/celerrate_cli/src/render.rs:314-323 | the rows reserved for the internal errors are the rows written once the render failures joined them |
| `Render.RenderCycle` | crates/celerrate_cli/src/render.rs:358-438 | the text of the frame, with the blocks capped against the height the rest leaves |
| `Render.DecimalReadsBack` | crates/celerrate_cli/src/render.rs:471-477 | a count is written in decimal digits that read back as the number, without a leading zero |
| `Render.LinesSay` | crates/celerrate_cli/src/render.rs:250-284 | the lines of the frame, word for word |
| `Render.CountedSays` | crates/celerrate_cli/src/render.rs:471-477 | a count and its noun, singular exactly for one |
| `Render.BugsAre` | crates/celerrate_cli/src/render.rs:577-586 | the environment's conditions, and they alone, invite no bug report |
| `Render.FailuresJoin` | crates/celerrate_cli/src/render.rs:423-426 | a cycle's render failures follow the errors on record, each with its identifier and place |
| `Render.FrameRows` | crates/celerrate_cli/src/render.rs:370-437 | the frame's exact number of rows |
| `Render.FrameFitsIff` | crates/celerrate_cli/src/render.rs:381-396 | the frame stays within the terminal exactly when the overhead and the first block do, give or take two rows when nothing can be hidden |
| `Render.CursorRowIff` | crates/celerrate_cli/src/render.rs:370-396 | when the first block fits, the row kept for the cursor is there exactly when no proper non-empty prefix of the blocks uses the height up: a condition on the frame and the height, without the cap's result |
| `Render.CursorRowLost` | crates/celerrate_cli/src/render.rs:370-437 | two one-line blocks on eight rows: one is shown, and the frame moves the cursor down eight rows |

## Left out

- Unicode lowercasing, name folding and the alphanumeric table are parameters of the searches and of the token scan.
- The token scan works on characters where the source searches UTF-8 text, in which a match falls on character boundaries; only the answered range is in bytes.
- Machine integers: `usize` and `u32` are unbounded here, except in the digests, where eight-byte counts are exact below 2^64 and the streams are compared for inputs whose lengths are.
- Sorting is a library function: `sort` and `sort_unstable` are one insertion sort under a total order.
- Vectors that grow (`Vec`) are sequences that the methods reassign; the remap in place over a slice works on an array.
- The raw findings of the phases, the reporting rules and the identifier registry are parameters of the composition; the reporting rules are taken not to read the widening notes.
- `WarmEqualsCold` takes stored halves to be those of the same content in any order, which is what revalidation vouches for (`cache/verdict.rs:75-112`); the pack files, their headers and their checksums are not part of this model.
- The panic guards, the thread pools, the phase timings and the cache counters.
- Salsa: a source input is a place in a list of inputs, a setter an assignment. That a setter cancels the running worker appears as the worker ending in any way it likes once a burst was absorbed.
- The watch runs over a finite script of outside events; the channel closes when it is used up. Every finite prefix of an endless run is such a script.
- A load, an absorption and a registration each see one state of the disk; a write during one is modelled as a write after it.
- Project.EnumeratePhpFiles: does not model the recursion over directories, symbolic links, and the report of unreadable directories (`walk.rs:76-79`); the walk is described by the files it reaches.
- Discovery is a function of the disk, a parameter; the statements about a fresh start ask of it that the manifests and the list of installed packages decide it as they do in `discover`.
- A root that is a file without a PHP extension stays unread, once written, until discovery runs again; it is then among the pending paths that the statements about scratch ask to be without.
- Event paths arrive in the project's own spelling; the rewriting of real paths (`watch.rs:829-875`) and the filter on access events are not modelled.
- The shared sender cell and the signal handler: a signal puts a shutdown on the channel in place.
- An exit because the output is gone or a respawn was refused carries no persist guarantee, as in the source.
- `cache::persist` is the fact that the packs hold the given outcome; what is written and when a write is skipped as unchanged is not modelled.
- The baseline filter and the configuration's own diagnostics in the watch's picture and exit code; the exit carries the two counts it is computed from.
- Configuration loading, the rule registry and the digest gate on serving a snapshot after a rediscovery.
- `apply_to_disk`'s temporary files and renames; the enrichment around the did-you-mean search; the explain trailer and the machine formats.
- Terminal width: a line is a row, so a line that wraps takes more than the frame counts.
- Render.FrameRows: speaks of frames whose messages are one line each and whose blocks are neither empty nor end in a line feed; `BlockRows` says what the others cost.
- Digest.ConfigurationStreamsAgreeIff: asks every length to be below 2^64, as every length of the program is.
