/** The watch frame: what it writes, how many rows that takes, and the budget
    its diagnostic blocks are capped against. */
module Render {
  import opened Wrappers
  import opened Session

  // ----- rows

  /** Line feeds: the rows a text moves the cursor down. */
  function Newlines(s: string): nat {
    if s == "" then 0 else Newlines(s[..|s| - 1]) + if s[|s| - 1] == '\n' then 1 else 0
  }

  lemma {:induction false} NewlinesConcat(a: string, b: string)
    ensures Newlines(a + b) == Newlines(a) + Newlines(b)
  {
    if b == "" {
      assert a + b == a;
    } else {
      NewlinesConcat(a, b[..|b| - 1]);
      assert (a + b)[..|a + b| - 1] == a + b[..|b| - 1];
    }
  }

  /** `str::lines().count()`: a trailing line feed ends the last line rather than starting one. */
  function LineCount(s: string): nat {
    Newlines(s) + if s == "" || s[|s| - 1] == '\n' then 0 else 1
  }

  /** What the cap charges for a block: its lines and one separator. */
  function Cost(block: string): nat { LineCount(block) + 1 }

  predicate Tidy(block: string) { block != "" && block[|block| - 1] != '\n' }

  function BlockText(block: string): string { block + "\n" + "\n" }

  /** A block takes exactly the rows it is charged for when it is neither
      empty nor ended by a line feed, and one more otherwise. */
  lemma {:induction false} BlockRows(block: string)
    ensures Newlines(BlockText(block)) == Cost(block) + if Tidy(block) then 0 else 1
  {
    LineRows(block);
    NewlinesConcat(block + "\n", "\n");
    OneNewline();
  }

  lemma OneNewline()
    ensures Newlines("\n") == 1 && Newlines("") == 0
  {
    assert "\n"[..0] == "";
  }

  lemma LineRows(line: string)
    ensures Newlines(line + "\n") == Newlines(line) + 1
  {
    OneNewline();
    NewlinesConcat(line, "\n");
  }

  // ----- the cap

  function CostOf(blocks: seq<string>): nat {
    if blocks == [] then 0 else CostOf(blocks[..|blocks| - 1]) + Cost(blocks[|blocks| - 1])
  }

  /** The longest prefix of the first n blocks within the budget. */
  function LongestFit(blocks: seq<string>, budget: nat, n: nat): (r: nat)
    requires n <= |blocks|
    ensures r <= n
  {
    if n == 0 || CostOf(blocks[..n]) <= budget then n else LongestFit(blocks, budget, n - 1)
  }

  /** The longest prefix that fits, but at least one block when there is any. */
  function Shown(blocks: seq<string>, budget: nat): (r: nat)
    ensures r <= |blocks|
  {
    var fit := LongestFit(blocks, budget, |blocks|);
    if fit == 0 && blocks != [] then 1 else fit
  }

  lemma {:induction false} CostGrows(blocks: seq<string>, m: nat, n: nat)
    requires m <= n <= |blocks|
    ensures CostOf(blocks[..m]) + (n - m) <= CostOf(blocks[..n])
  {
    if m == n {
    } else {
      CostGrows(blocks, m, n - 1);
      assert blocks[..n][..n - 1] == blocks[..n - 1];
    }
  }

  /** A prefix that fits, with the next one too long, is the longest. */
  lemma {:induction false} FitIsLongest(blocks: seq<string>, budget: nat, k: nat, n: nat)
    requires k <= n <= |blocks|
    requires k == 0 || CostOf(blocks[..k]) <= budget
    requires k < n ==> CostOf(blocks[..k + 1]) > budget
    ensures LongestFit(blocks, budget, n) == k
  {
    if k == n {
    } else {
      CostGrows(blocks, k + 1, n);
      if k < n - 1 { FitIsLongest(blocks, budget, k, n - 1); }
    }
  }

  /** How many leading blocks fit, and how many that hides. */
  method CappedBlocks(blocks: seq<string>, budget: nat) returns (shown: nat, hidden: nat)
    ensures shown == Shown(blocks, budget) && hidden == |blocks| - shown
  {
    var used := 0;
    shown := 0;
    while shown < |blocks|
      invariant shown <= |blocks| && used == CostOf(blocks[..shown])
      invariant shown > 1 ==> used <= budget
    {
      var cost := Cost(blocks[shown]);
      assert blocks[..shown + 1][..shown] == blocks[..shown];
      if shown > 0 && used + cost > budget {
        break;
      }
      used := used + cost;
      shown := shown + 1;
    }
    hidden := |blocks| - shown;
    CapIsShown(blocks, budget, shown);
  }

  lemma CapIsShown(blocks: seq<string>, budget: nat, shown: nat)
    requires shown <= |blocks| && (blocks != [] ==> shown >= 1)
    requires shown > 1 ==> CostOf(blocks[..shown]) <= budget
    requires shown < |blocks| ==> CostOf(blocks[..shown + 1]) > budget
    ensures shown == Shown(blocks, budget)
  {
    if shown == 1 && CostOf(blocks[..1]) > budget {
      FitIsLongest(blocks, budget, 0, |blocks|);
    } else {
      FitIsLongest(blocks, budget, shown, |blocks|);
    }
  }

  /** What is shown: everything exactly when everything fits or there is one
      block; otherwise the prefix fits unless it is the first block alone, and
      one more block would not. */
  lemma {:induction false} ShownExact(blocks: seq<string>, budget: nat)
    ensures blocks != [] ==> Shown(blocks, budget) >= 1
    ensures Shown(blocks, budget) == |blocks| <==> |blocks| <= 1 || CostOf(blocks) <= budget
    ensures forall k :: 1 < k <= |blocks| ==> (k <= Shown(blocks, budget) <==> CostOf(blocks[..k]) <= budget)
  {
    LongestFitExact(blocks, budget, |blocks|);
    assert blocks[..|blocks|] == blocks;
  }

  lemma {:induction false} LongestFitExact(blocks: seq<string>, budget: nat, n: nat)
    requires n <= |blocks|
    ensures forall k :: 0 < k <= n ==> (k <= LongestFit(blocks, budget, n) <==> CostOf(blocks[..k]) <= budget)
  {
    if n == 0 {
    } else {
      if CostOf(blocks[..n]) <= budget {
        forall k | 0 < k <= n ensures CostOf(blocks[..k]) <= budget { CostGrows(blocks, k, n); }
      } else {
        LongestFitExact(blocks, budget, n - 1);
      }
    }
  }

  // ----- the frame's parts

  datatype Notice = Notice(identifier: string, message: string)
  datatype RenderFailure = RenderFailure(id: string, location: string)

  /** Everything one cycle shows. */
  datatype Frame = Frame(
    notices: seq<Notice>, baselineNotices: seq<Notice>, baselineHidden: nat,
    blocks: seq<string>, failures: seq<RenderFailure>,
    diagnostics: nat, reanalyzed: nat, elapsedMs: nat, errors: seq<InternalError>)
  {
    /** The session's errors once this cycle's render failures joined them. */
    function AllErrors(): seq<InternalError> { errors + FailureErrors(failures) }

    function Overhead(): nat {
      NoticeRows(notices) + NoticeRows(baselineNotices) + (if baselineHidden > 0 then 1 else 0)
      + 6 + InternalErrorRows(errors, |failures|)
    }

    function ShownAt(height: Option<nat>): (r: nat)
      ensures r <= |blocks|
    {
      match height
      case Some(rows) => Shown(blocks, if rows > Overhead() then rows - Overhead() else 0)
      case None => |blocks|
    }
  }

  function FailureErrors(failures: seq<RenderFailure>): seq<InternalError> {
    seq(|failures|, i requires 0 <= i < |failures| => DiagnosticRenderFailed(failures[i].id, failures[i].location))
  }

  function NoticeRows(notices: seq<Notice>): nat { if notices == [] then 0 else |notices| + 1 }

  predicate IsCelerrateBug(error: InternalError) {
    error.StubBlobUndecodable? || error.FilePanicked? || error.AnalysisPanicked? || error.FixUnappliable?
    || error.DiagnosticRenderFailed?
  }

  predicate AnyBug(errors: seq<InternalError>) { exists e :: e in errors && IsCelerrateBug(e) }

  /** The rows reserved for the errors on record and the failures about to join them. */
  function InternalErrorRows(errors: seq<InternalError>, newFailures: nat): nat {
    var total := |errors| + newFailures;
    if total == 0 then 0
    else 1 + total + if newFailures > 0 || AnyBug(errors) then 3 else 0
  }

  function NoticeLine(notice: Notice): string { "notice " + notice.identifier + ": " + notice.message }

  function NoticeLines(notices: seq<Notice>): string {
    if notices == [] then "" else NoticeLines(notices[..|notices| - 1]) + (NoticeLine(notices[|notices| - 1]) + "\n")
  }

  function NoticeBlock(notices: seq<Notice>): string {
    if notices == [] then "" else NoticeLines(notices) + "\n"
  }

  function BlocksText(blocks: seq<string>): string {
    if blocks == [] then "" else BlocksText(blocks[..|blocks| - 1]) + BlockText(blocks[|blocks| - 1])
  }

  function ErrorLine(error: InternalError, message: InternalError -> string): string { "internal error: " + message(error) }

  function ErrorLines(errors: seq<InternalError>, message: InternalError -> string): string {
    if errors == [] then ""
    else ErrorLines(errors[..|errors| - 1], message) + (ErrorLine(errors[|errors| - 1], message) + "\n")
  }

  function ErrorsText(errors: seq<InternalError>, message: InternalError -> string): string {
    if errors == [] then ""
    else "\n" + ErrorLines(errors, message) + if AnyBug(errors) then ReportInvitation() else ""
  }

  function ReportInvitation(): string { "\n" + (BugLine() + "\n") + (IssueLine() + "\n") }

  function BugLine(): string {
    "This is a bug in Celerrate, " + ("and it should never happen. " + "Please report it:")
  }

  function IssueLine(): string {
    "  https://github.com/celerrate/" + ("celerrate/issues/new?labels=" + ("internal-error&title=internal" + "+error+while+checking"))
  }

  function Decimal(n: nat): string {
    (if n < 10 then "" else Decimal(n / 10)) + [['0', '1', '2', '3', '4', '5', '6', '7', '8', '9'][n % 10]]
  }

  function Counted(total: nat, singular: string, plural: string): string {
    Decimal(total) + " " + if total == 1 then singular else plural
  }

  function MoreText(hidden: nat): string {
    if hidden == 0 then "" else (MoreLine(hidden) + "\n") + "\n"
  }

  function MoreLine(hidden: nat): string { "and " + Counted(hidden, "more diagnostic", "more diagnostics") }

  function SummaryLine(notices: nat, diagnostics: nat): string {
    Counted(notices, "notice", "notices") + ", " + Counted(diagnostics, "diagnostic", "diagnostics")
  }

  function HiddenText(hidden: nat): string {
    if hidden == 0 then "" else HiddenLine(hidden) + "\n"
  }

  function HiddenLine(hidden: nat): string { Counted(hidden, "baselined diagnostic", "baselined diagnostics") + " hidden" }

  function StatusLine(frame: Frame): string {
    Counted(frame.diagnostics, "diagnostic", "diagnostics") + "  |  "
    + Counted(frame.reanalyzed, "file re-analyzed", "files re-analyzed") + "  |  " + Decimal(frame.elapsedMs) + "ms"
  }

  function Clear(): string { "\U{1B}[2J\U{1B}[H" }

  function Watching(): string { "watching for changes..." }

  function Head(frame: Frame): string {
    Clear() + NoticeBlock(frame.notices) + NoticeBlock(frame.baselineNotices)
  }

  function LineText(line: string): string { line + "\n" }

  function SummaryText(frame: Frame): string {
    LineText(SummaryLine(|frame.notices| + |frame.baselineNotices|, frame.diagnostics))
  }

  function Foot(frame: Frame, message: InternalError -> string): string {
    SummaryText(frame) + HiddenText(frame.baselineHidden) + ErrorsText(frame.AllErrors(), message)
    + LineText("") + LineText(StatusLine(frame)) + LineText(Watching())
  }

  function FrameText(frame: Frame, shown: nat, message: InternalError -> string): string
    requires shown <= |frame.blocks|
  {
    Head(frame) + BlocksText(frame.blocks[..shown]) + MoreText(|frame.blocks| - shown) + Foot(frame, message)
  }

  // ----- what it says

  function Value(digits: string): int {
    if digits == "" then 0
    else 10 * Value(digits[..|digits| - 1]) + (digits[|digits| - 1] as int - '0' as int)
  }

  /** A count is written in decimal: it reads back, and has no leading zero. */
  lemma {:induction false} DecimalReadsBack(n: nat)
    ensures forall c :: c in Decimal(n) ==> '0' <= c <= '9'
    ensures Value(Decimal(n)) == n
    ensures Decimal(n) != "" && (n > 0 ==> Decimal(n)[0] != '0')
  {
    LastDigit(n % 10);
    var last := Decimal(n)[|Decimal(n)| - 1];
    if n < 10 {
      assert Decimal(n) == [last] && Decimal(n)[..0] == "";
    } else {
      DecimalReadsBack(n / 10);
      assert Decimal(n) == Decimal(n / 10) + [last];
      assert Decimal(n)[..|Decimal(n)| - 1] == Decimal(n / 10);
      hide Decimal;
    }
  }

  lemma LastDigit(k: nat)
    requires k < 10
    ensures var digit := ['0', '1', '2', '3', '4', '5', '6', '7', '8', '9'][k];
            '0' <= digit <= '9' && digit as int - '0' as int == k && (k > 0 ==> digit != '0')
  {
  }

  /** A count and its noun, singular for one alone. */
  lemma CountedSays(total: nat, singular: string, plural: string)
    ensures Counted(total, singular, plural) == Decimal(total) + " " + (if total == 1 then singular else plural)
  {
  }

  /** The environment's conditions invite no bug report; everything else does. */
  lemma BugsAre(error: InternalError)
    ensures !IsCelerrateBug(error)
       <==> error.FileUnreadable? || error.DirectoryUnreadable? || error.PathUnwatchable? || error.FixWriteFailed?
  {
  }

  /** This cycle's render failures follow the errors on record, each with its
      identifier and place. */
  lemma FailuresJoin(frame: Frame)
    ensures var all := frame.AllErrors();
            && |all| == |frame.errors| + |frame.failures| && all[..|frame.errors|] == frame.errors
            && forall i :: 0 <= i < |frame.failures| ==>
                 all[|frame.errors| + i] == DiagnosticRenderFailed(frame.failures[i].id, frame.failures[i].location)
  {
  }

  /** The lines of the frame, word for word. */
  lemma LinesSay(n: nat, d: nat, frame: Frame, notice: Notice, error: InternalError, message: InternalError -> string)
    ensures NoticeLine(notice) == "notice " + notice.identifier + ": " + notice.message
    ensures MoreLine(n) == "and " + Counted(n, "more diagnostic", "more diagnostics")
    ensures SummaryLine(n, d) == Counted(n, "notice", "notices") + ", " + Counted(d, "diagnostic", "diagnostics")
    ensures HiddenLine(n) == Counted(n, "baselined diagnostic", "baselined diagnostics") + " hidden"
    ensures ErrorLine(error, message) == "internal error: " + message(error)
    ensures StatusLine(frame)
         == Counted(frame.diagnostics, "diagnostic", "diagnostics") + "  |  "
          + Counted(frame.reanalyzed, "file re-analyzed", "files re-analyzed") + "  |  " + Decimal(frame.elapsedMs) + "ms"
    ensures Watching() == "watching for changes..." && Clear() == "\U{1B}[2J\U{1B}[H"
    ensures BugLine() == "This is a bug in Celerrate, " + ("and it should never happen. " + "Please report it:")
    ensures IssueLine() == "  https://github.com/celerrate/"
                         + ("celerrate/issues/new?labels=" + ("internal-error&title=internal" + "+error+while+checking"))
  {
    hide Decimal, Counted;
  }

  // ----- writing it

  class Output {
    var text: string

    constructor ()
      ensures text == ""
    {
      text := "";
    }

    method Write(s: string)
      modifies this
      ensures text == old(text) + s
    {
      text := text + s;
    }

    method WriteLine(s: string)
      modifies this
      ensures text == old(text) + (s + "\n")
    {
      text := text + (s + "\n");
    }
  }

  lemma Regroup(a: string, b: string, c: string)
    ensures (a + b) + c == a + (b + c)
  {
  }

  method WriteNoticeBlock(output: Output, notices: seq<Notice>)
    modifies output
    ensures output.text == old(output.text) + NoticeBlock(notices)
  {
    hide NoticeLine;
    if notices == [] {
      return;
    }
    ghost var start := output.text;
    for k := 0 to |notices|
      invariant output.text == start + NoticeLines(notices[..k])
    {
      assert notices[..k + 1][..k] == notices[..k];
      output.WriteLine(NoticeLine(notices[k]));
      Regroup(start, NoticeLines(notices[..k]), NoticeLine(notices[k]) + "\n");
    }
    assert notices[..|notices|] == notices;
    output.WriteLine("");
    Regroup(start, NoticeLines(notices), "\n");
  }

  method RenderInternalErrors(output: Output, errors: seq<InternalError>, message: InternalError -> string)
    modifies output
    ensures output.text == old(output.text) + ErrorsText(errors, message)
  {
    hide ErrorLines, AnyBug, ReportInvitation;
    if errors == [] {
      return;
    }
    output.WriteLine("");
    ghost var start := output.text;
    var hasBug := WriteErrorLines(output, errors, message);
    Regroup(old(output.text), "\n", ErrorLines(errors, message));
    if hasBug {
      WriteInvitation(output);
      Regroup(old(output.text), "\n" + ErrorLines(errors, message), ReportInvitation());
    }
  }

  /** One line per error; answers whether any of them is Celerrate's own bug. */
  method WriteErrorLines(output: Output, errors: seq<InternalError>, message: InternalError -> string) returns (hasBug: bool)
    modifies output
    ensures output.text == old(output.text) + ErrorLines(errors, message)
    ensures hasBug == AnyBug(errors)
  {
    hide AnyBug, IsCelerrateBug, ErrorLine;
    ghost var start := output.text;
    hasBug := false;
    NoBug(errors);
    for k := 0 to |errors|
      invariant output.text == start + ErrorLines(errors[..k], message)
      invariant hasBug == AnyBug(errors[..k])
    {
      assert errors[..k + 1][..k] == errors[..k];
      AnyBugSnoc(errors, k);
      hasBug := hasBug || IsCelerrateBug(errors[k]);
      output.WriteLine(ErrorLine(errors[k], message));
      Regroup(start, ErrorLines(errors[..k], message), ErrorLine(errors[k], message) + "\n");
    }
    assert errors[..|errors|] == errors;
  }

  method WriteInvitation(output: Output)
    modifies output
    ensures output.text == old(output.text) + ReportInvitation()
  {
    hide BugLine, IssueLine;
    output.WriteLine("");
    output.WriteLine(BugLine());
    output.WriteLine(IssueLine());
    Regroup(old(output.text), "\n", BugLine() + "\n");
    Regroup(old(output.text), "\n" + (BugLine() + "\n"), IssueLine() + "\n");
  }

  lemma NoBug(errors: seq<InternalError>)
    ensures !AnyBug(errors[..0])
  {
  }

  lemma AnyBugSnoc(errors: seq<InternalError>, k: nat)
    requires k < |errors|
    ensures AnyBug(errors[..k + 1]) <==> AnyBug(errors[..k]) || IsCelerrateBug(errors[k])
  {
    assert errors[..k + 1] == errors[..k] + [errors[k]];
  }

  method WriteBlocks(output: Output, blocks: seq<string>)
    modifies output
    ensures output.text == old(output.text) + BlocksText(blocks)
  {
    ghost var start := output.text;
    for k := 0 to |blocks|
      invariant output.text == start + BlocksText(blocks[..k])
    {
      assert blocks[..k + 1][..k] == blocks[..k];
      output.WriteLine(blocks[k]);
      output.WriteLine("");
      Regroup(start, BlocksText(blocks[..k]), BlockText(blocks[k]));
    }
    assert blocks[..|blocks|] == blocks;
  }

  /** Assembles the frame: the blocks capped against what the rest of the
      frame leaves of the height, and the render failures absorbed before the
      internal errors are listed. */
  method RenderCycle(output: Output, frame: Frame, height: Option<nat>, message: InternalError -> string)
    returns (errors: seq<InternalError>)
    modifies output
    ensures output.text == old(output.text) + FrameText(frame, frame.ShownAt(height), message)
    ensures errors == frame.AllErrors()
  {
    hide Head, BlocksText, Foot, MoreLine, Frame.Overhead, Frame.AllErrors, Shown;
    var shown, hidden;
    match height {
      case Some(rows) =>
        var overhead := frame.Overhead();
        shown, hidden := CappedBlocks(frame.blocks, if rows > overhead then rows - overhead else 0);
      case None =>
        shown, hidden := |frame.blocks|, 0;
    }
    errors := frame.AllErrors();
    ghost var start := output.text;
    WriteHead(output, frame);
    WriteBlocks(output, frame.blocks[..shown]);
    Regroup(start, Head(frame), BlocksText(frame.blocks[..shown]));
    WriteMore(output, hidden);
    Regroup(start, Head(frame) + BlocksText(frame.blocks[..shown]), MoreText(hidden));
    WriteFoot(output, frame, message);
    Regroup(start, Head(frame) + BlocksText(frame.blocks[..shown]) + MoreText(hidden), Foot(frame, message));
  }

  method WriteHead(output: Output, frame: Frame)
    modifies output
    ensures output.text == old(output.text) + Head(frame)
  {
    hide Clear, NoticeBlock;
    output.Write(Clear());
    WriteNoticeBlock(output, frame.notices);
    WriteNoticeBlock(output, frame.baselineNotices);
    Regroup(old(output.text), Clear(), NoticeBlock(frame.notices));
    Regroup(old(output.text), Clear() + NoticeBlock(frame.notices), NoticeBlock(frame.baselineNotices));
  }

  method WriteMore(output: Output, hidden: nat)
    modifies output
    ensures output.text == old(output.text) + MoreText(hidden)
  {
    hide MoreLine;
    if hidden > 0 {
      output.WriteLine(MoreLine(hidden));
      output.WriteLine("");
      Regroup(old(output.text), MoreLine(hidden) + "\n", "\n");
    }
  }

  method WriteFoot(output: Output, frame: Frame, message: InternalError -> string)
    modifies output
    ensures output.text == old(output.text) + Foot(frame, message)
  {
    hide SummaryLine, HiddenLine, ErrorsText, StatusLine, Watching, Frame.AllErrors;
    ghost var start := output.text;
    output.WriteLine(SummaryLine(|frame.notices| + |frame.baselineNotices|, frame.diagnostics));
    ghost var written := SummaryText(frame);
    if frame.baselineHidden > 0 {
      output.WriteLine(HiddenLine(frame.baselineHidden));
    }
    written := Wrote(output, start, written, HiddenText(frame.baselineHidden));
    RenderInternalErrors(output, frame.AllErrors(), message);
    written := Wrote(output, start, written, ErrorsText(frame.AllErrors(), message));
    output.WriteLine("");
    written := Wrote(output, start, written, LineText(""));
    output.WriteLine(StatusLine(frame));
    written := Wrote(output, start, written, LineText(StatusLine(frame)));
    output.WriteLine(Watching());
    written := Wrote(output, start, written, LineText(Watching()));
  }

  /** One more part after what was written since the start. */
  lemma Wrote(output: Output, start: string, written: string, part: string) returns (more: string)
    requires output.text == start + written + part
    ensures more == written + part && output.text == start + more
  {
    more := written + part;
    Regroup(start, written, part);
  }

  // ----- the rows it takes

  predicate SingleLine(s: string) { Newlines(s) == 0 }

  /** Every message fits one line, and every block is neither empty nor ended
      by a line feed. */
  ghost predicate Plain(frame: Frame, message: InternalError -> string) {
    && (forall n :: n in frame.notices + frame.baselineNotices ==> SingleLine(n.identifier) && SingleLine(n.message))
    && (forall e :: e in frame.AllErrors() ==> SingleLine(message(e)))
    && (forall block :: block in frame.blocks ==> Tidy(block))
  }

  lemma {:induction false} NoticeLinesRows(notices: seq<Notice>)
    requires forall n :: n in notices ==> SingleLine(n.identifier) && SingleLine(n.message)
    ensures Newlines(NoticeLines(notices)) == |notices|
  {
    if notices == [] {
      OneNewline();
    } else {
      var front, last := notices[..|notices| - 1], notices[|notices| - 1];
      NoticeLinesRows(front);
      NoticeLineRow(last);
      NewlinesConcat(NoticeLines(front), NoticeLine(last) + "\n");
    }
  }

  lemma NoticeLineRow(notice: Notice)
    requires SingleLine(notice.identifier) && SingleLine(notice.message)
    ensures Newlines(NoticeLine(notice) + "\n") == 1
  {
    Literals();
    NewlinesConcat("notice ", notice.identifier);
    NewlinesConcat("notice " + notice.identifier, ": ");
    NewlinesConcat("notice " + notice.identifier + ": ", notice.message);
    LineRows(NoticeLine(notice));
  }

  lemma {:induction false} NoFeed(s: string)
    requires forall i :: 0 <= i < |s| ==> s[i] != '\n'
    ensures SingleLine(s)
  {
    if s == "" {
    } else {
      NoFeed(s[..|s| - 1]);
    }
  }

  lemma Literals()
    ensures SingleLine("notice ") && SingleLine(": ") && SingleLine("internal error: ")
  {
    NoFeed("notice ");
    NoFeed(": ");
    NoFeed("internal error: ");
  }

  lemma NoticeBlockRows(notices: seq<Notice>)
    requires forall n :: n in notices ==> SingleLine(n.identifier) && SingleLine(n.message)
    ensures Newlines(NoticeBlock(notices)) == NoticeRows(notices)
  {
    OneNewline();
    NoticeLinesRows(notices);
    LineRows(NoticeLines(notices));
  }

  lemma {:induction false} ErrorLinesRows(errors: seq<InternalError>, message: InternalError -> string)
    requires forall e :: e in errors ==> SingleLine(message(e))
    ensures Newlines(ErrorLines(errors, message)) == |errors|
  {
    if errors == [] {
      OneNewline();
    } else {
      var front, last := errors[..|errors| - 1], errors[|errors| - 1];
      ErrorLinesRows(front, message);
      Literals();
      NewlinesConcat("internal error: ", message(last));
      LineRows(ErrorLine(last, message));
      NewlinesConcat(ErrorLines(front, message), ErrorLine(last, message) + "\n");
    }
  }

  lemma InvitationLines()
    ensures SingleLine(BugLine()) && SingleLine(IssueLine())
  {
    NoFeed("This is a bug in Celerrate, ");
    NoFeed("and it should never happen. ");
    NoFeed("Please report it:");
    NoFeed("  https://github.com/celerrate/");
    NoFeed("celerrate/issues/new?labels=");
    NoFeed("internal-error&title=internal");
    NoFeed("+error+while+checking");
    NewlinesConcat("and it should never happen. ", "Please report it:");
    NewlinesConcat("This is a bug in Celerrate, ", "and it should never happen. " + "Please report it:");
    NewlinesConcat("internal-error&title=internal", "+error+while+checking");
    NewlinesConcat("celerrate/issues/new?labels=", "internal-error&title=internal" + "+error+while+checking");
    NewlinesConcat("  https://github.com/celerrate/",
                   "celerrate/issues/new?labels=" + ("internal-error&title=internal" + "+error+while+checking"));
  }

  lemma InvitationRows()
    ensures Newlines(ReportInvitation()) == 3
  {
    OneNewline();
    InvitationLines();
    LineRows(BugLine());
    LineRows(IssueLine());
    hide BugLine, IssueLine;
    NewlinesConcat("\n", BugLine() + "\n");
    NewlinesConcat("\n" + (BugLine() + "\n"), IssueLine() + "\n");
  }

  /** The rows reserved are the rows written: the errors on record together
      with the failures that join them just before. */
  lemma ErrorRowsAreExact(errors: seq<InternalError>, failures: seq<RenderFailure>, message: InternalError -> string)
    requires forall e :: e in errors + FailureErrors(failures) ==> SingleLine(message(e))
    ensures Newlines(ErrorsText(errors + FailureErrors(failures), message)) == InternalErrorRows(errors, |failures|)
  {
    var all := errors + FailureErrors(failures);
    OneNewline();
    InvitationRows();
    ErrorLinesRows(all, message);
    FailuresAreBugs(errors, failures);
    hide ReportInvitation, ErrorLines, AnyBug, FailureErrors;
    NewlinesConcat("\n", ErrorLines(all, message));
    NewlinesConcat("\n" + ErrorLines(all, message), if AnyBug(all) then ReportInvitation() else "");
  }

  lemma FailuresAreBugs(errors: seq<InternalError>, failures: seq<RenderFailure>)
    ensures |FailureErrors(failures)| == |failures|
    ensures AnyBug(errors + FailureErrors(failures)) <==> |failures| > 0 || AnyBug(errors)
  {
    var joined := FailureErrors(failures);
    if |failures| > 0 {
      assert joined[0] in errors + joined && IsCelerrateBug(joined[0]);
    } else {
      assert errors + joined == errors;
    }
  }

  lemma {:induction false} BlocksRows(blocks: seq<string>)
    requires forall block :: block in blocks ==> Tidy(block)
    ensures Newlines(BlocksText(blocks)) == CostOf(blocks)
  {
    if blocks == [] {
      OneNewline();
    } else {
      var front, last := blocks[..|blocks| - 1], blocks[|blocks| - 1];
      BlocksRows(front);
      BlockRows(last);
      NewlinesConcat(BlocksText(front), BlockText(last));
    }
  }

  lemma {:induction false} DecimalRow(n: nat)
    ensures SingleLine(Decimal(n))
  {
    if n < 10 {
    } else {
      DecimalRow(n / 10);
    }
    NoFeed([['0', '1', '2', '3', '4', '5', '6', '7', '8', '9'][n % 10]]);
    OneNewline();
    NewlinesConcat(if n < 10 then "" else Decimal(n / 10), [['0', '1', '2', '3', '4', '5', '6', '7', '8', '9'][n % 10]]);
  }

  lemma CountedRow(total: nat, singular: string, plural: string)
    requires SingleLine(singular) && SingleLine(plural)
    ensures SingleLine(Counted(total, singular, plural))
  {
    DecimalRow(total);
    NoFeed(" ");
    NewlinesConcat(Decimal(total), " ");
    NewlinesConcat(Decimal(total) + " ", if total == 1 then singular else plural);
  }

  lemma HeadRows(frame: Frame)
    requires forall n :: n in frame.notices + frame.baselineNotices ==> SingleLine(n.identifier) && SingleLine(n.message)
    ensures Newlines(Head(frame)) == NoticeRows(frame.notices) + NoticeRows(frame.baselineNotices)
  {
    NoFeed(Clear());
    NoticeBlockRows(frame.notices);
    NoticeBlockRows(frame.baselineNotices);
    hide Clear, NoticeBlock;
    NewlinesConcat(Clear(), NoticeBlock(frame.notices));
    NewlinesConcat(Clear() + NoticeBlock(frame.notices), NoticeBlock(frame.baselineNotices));
  }

  lemma MoreRows(hidden: nat)
    ensures Newlines(MoreText(hidden)) == if hidden > 0 then 2 else 0
  {
    OneNewline();
    NoFeed("and ");
    NoFeed("more diagnostic");
    NoFeed("more diagnostics");
    CountedRow(hidden, "more diagnostic", "more diagnostics");
    NewlinesConcat("and ", Counted(hidden, "more diagnostic", "more diagnostics"));
    hide Counted;
    LineRows(MoreLine(hidden));
    NewlinesConcat(MoreLine(hidden) + "\n", "\n");
  }

  lemma SummaryRow(notices: nat, diagnostics: nat)
    ensures SingleLine(SummaryLine(notices, diagnostics))
  {
    NoFeed("notice");
    NoFeed("notices");
    NoFeed("diagnostic");
    NoFeed("diagnostics");
    NoFeed(", ");
    CountedRow(notices, "notice", "notices");
    CountedRow(diagnostics, "diagnostic", "diagnostics");
    NewlinesConcat(Counted(notices, "notice", "notices"), ", ");
    NewlinesConcat(Counted(notices, "notice", "notices") + ", ", Counted(diagnostics, "diagnostic", "diagnostics"));
  }

  lemma HiddenRow(hidden: nat)
    ensures Newlines(HiddenText(hidden)) == if hidden > 0 then 1 else 0
  {
    OneNewline();
    NoFeed("baselined diagnostic");
    NoFeed("baselined diagnostics");
    NoFeed(" hidden");
    CountedRow(hidden, "baselined diagnostic", "baselined diagnostics");
    NewlinesConcat(Counted(hidden, "baselined diagnostic", "baselined diagnostics"), " hidden");
    LineRows(HiddenLine(hidden));
  }

  lemma StatusRow(frame: Frame)
    ensures SingleLine(StatusLine(frame))
  {
    NoFeed("diagnostic");
    NoFeed("diagnostics");
    NoFeed("file re-analyzed");
    NoFeed("files re-analyzed");
    NoFeed("  |  ");
    NoFeed("ms");
    CountedRow(frame.diagnostics, "diagnostic", "diagnostics");
    CountedRow(frame.reanalyzed, "file re-analyzed", "files re-analyzed");
    DecimalRow(frame.elapsedMs);
    var a, b, c := Counted(frame.diagnostics, "diagnostic", "diagnostics"),
                   Counted(frame.reanalyzed, "file re-analyzed", "files re-analyzed"), Decimal(frame.elapsedMs);
    hide Counted, Decimal;
    NewlinesConcat(a, "  |  ");
    NewlinesConcat(a + "  |  ", b);
    NewlinesConcat(a + "  |  " + b, "  |  ");
    NewlinesConcat(a + "  |  " + b + "  |  ", c);
    NewlinesConcat(a + "  |  " + b + "  |  " + c, "ms");
  }

  lemma {:induction false} FootRows(frame: Frame, message: InternalError -> string)
    requires forall e :: e in frame.AllErrors() ==> SingleLine(message(e))
    ensures Newlines(Foot(frame, message))
         == 4 + (if frame.baselineHidden > 0 then 1 else 0) + InternalErrorRows(frame.errors, |frame.failures|)
  {
    hide Newlines, LineText, SummaryText, HiddenText, ErrorsText, StatusLine, Watching, InternalErrorRows;
    FootLines(frame);
    HiddenRow(frame.baselineHidden);
    ErrorRowsAreExact(frame.errors, frame.failures, message);
    SixParts(SummaryText(frame), HiddenText(frame.baselineHidden), ErrorsText(frame.AllErrors(), message),
             LineText(""), LineText(StatusLine(frame)), LineText(Watching()));
  }

  lemma FootLines(frame: Frame)
    ensures Newlines(SummaryText(frame)) == Newlines(LineText("")) == 1
    ensures Newlines(LineText(StatusLine(frame))) == Newlines(LineText(Watching())) == 1
  {
    hide Newlines, LineText, SingleLine, SummaryLine, StatusLine, Watching;
    SummaryRow(|frame.notices| + |frame.baselineNotices|, frame.diagnostics);
    StatusRow(frame);
    PlainLines();
    LineTextRow(SummaryLine(|frame.notices| + |frame.baselineNotices|, frame.diagnostics));
    LineTextRow("");
    LineTextRow(StatusLine(frame));
    LineTextRow(Watching());
  }

  lemma PlainLines()
    ensures SingleLine("") && SingleLine(Watching())
  {
    NoFeed("");
    NoFeed(Watching());
  }

  lemma LineTextRow(line: string)
    requires SingleLine(line)
    ensures Newlines(LineText(line)) == 1
  {
    LineRows(line);
  }

  lemma SixParts(a: string, b: string, c: string, d: string, e: string, f: string)
    ensures Newlines(a + b + c + d + e + f) == Newlines(a) + Newlines(b) + Newlines(c) + Newlines(d) + Newlines(e) + Newlines(f)
  {
    hide Newlines;
    NewlinesConcat(a, b);
    NewlinesConcat(a + b, c);
    NewlinesConcat(a + b + c, d);
    NewlinesConcat(a + b + c + d, e);
    NewlinesConcat(a + b + c + d + e, f);
  }

  /** The frame's exact height: two rows under the overhead and the shown
      blocks, or none under when the "more diagnostics" line is there. */
  lemma {:induction false} FrameRows(frame: Frame, shown: nat, message: InternalError -> string)
    requires Plain(frame, message) && shown <= |frame.blocks|
    ensures Newlines(FrameText(frame, shown, message)) + (if shown < |frame.blocks| then 0 else 2)
         == frame.Overhead() + CostOf(frame.blocks[..shown])
  {
    var blocks := frame.blocks[..shown];
    forall block | block in blocks ensures Tidy(block) { assert block in frame.blocks; }
    HeadRows(frame);
    BlocksRows(blocks);
    MoreRows(|frame.blocks| - shown);
    FootRows(frame, message);
    hide Head, BlocksText, MoreText, Foot, NoticeRows, InternalErrorRows, CostOf, Plain;
    NewlinesConcat(Head(frame), BlocksText(blocks));
    NewlinesConcat(Head(frame) + BlocksText(blocks), MoreText(|frame.blocks| - shown));
    NewlinesConcat(Head(frame) + BlocksText(blocks) + MoreText(|frame.blocks| - shown), Foot(frame, message));
  }

  function FirstCost(blocks: seq<string>): nat { if blocks == [] then 0 else Cost(blocks[0]) }

  /** The frame stays within the terminal exactly when the overhead and the
      first block do, give or take the two rows that nothing hidden frees. */
  lemma {:induction false} FrameFitsIff(frame: Frame, height: nat, message: InternalError -> string)
    requires Plain(frame, message)
    ensures Newlines(FrameText(frame, frame.ShownAt(Some(height)), message)) <= height
       <==> frame.Overhead() + FirstCost(frame.blocks) <= height + if |frame.blocks| <= 1 then 2 else 0
  {
    hide Plain, FrameText, Frame.Overhead, Shown;
    var shown := frame.ShownAt(Some(height));
    FrameRows(frame, shown, message);
    ShownExact(frame.blocks, if height > frame.Overhead() then height - frame.Overhead() else 0);
    FirstBlocks(frame.blocks);
    if shown > 0 { CostGrows(frame.blocks, 1, shown); }
  }

  lemma FirstBlocks(blocks: seq<string>)
    ensures CostOf(blocks[..0]) == 0
    ensures blocks != [] ==> CostOf(blocks[..1]) == FirstCost(blocks)
    ensures |blocks| > 1 ==> CostOf(blocks[..2]) >= 2
    ensures blocks[..|blocks|] == blocks
  {
    if blocks != [] { assert blocks[..1][..0] == blocks[..0]; }
    if |blocks| > 1 { CostGrows(blocks, 0, 2); }
  }

  /** The blocks before the k-th use the height up to the last row, with more to come. */
  ghost predicate FillsTheHeight(frame: Frame, height: nat, k: nat) {
    1 <= k < |frame.blocks| && frame.Overhead() + CostOf(frame.blocks[..k]) == height
  }

  /** When the first block fits, the row kept for the cursor is there unless
      some of the blocks, but not all, use the height up exactly. */
  lemma {:induction false} CursorRowIff(frame: Frame, height: nat, message: InternalError -> string)
    requires Plain(frame, message) && frame.Overhead() + FirstCost(frame.blocks) <= height
    ensures Newlines(FrameText(frame, frame.ShownAt(Some(height)), message)) < height
       <==> !exists k :: FillsTheHeight(frame, height, k)
  {
    hide Plain, FrameText, Frame.Overhead, Shown;
    var shown := frame.ShownAt(Some(height));
    FrameRows(frame, shown, message);
    ShownExact(frame.blocks, height - frame.Overhead());
    FirstBlocks(frame.blocks);
    assert frame.blocks[..|frame.blocks|] == frame.blocks;
    assert shown > 0 ==> CostOf(frame.blocks[..shown]) <= height - frame.Overhead() || |frame.blocks| == 1;
    forall k | 1 <= k < |frame.blocks| && k != shown ensures !FillsTheHeight(frame, height, k) {
      if k < shown { CostGrows(frame.blocks, k, shown); }
    }
    if 1 <= shown < |frame.blocks| {
      assert FillsTheHeight(frame, height, shown) <==> frame.Overhead() + CostOf(frame.blocks[..shown]) == height;
    }
  }

  /** Two one-line blocks on eight rows: one is shown, and the frame takes all eight. */
  lemma {:induction false} CursorRowLost(message: InternalError -> string)
    ensures var frame := Frame([], [], 0, ["a", "b"], [], 2, 1, 0, []);
            Plain(frame, message) && frame.Overhead() + FirstCost(frame.blocks) <= 8
            && frame.ShownAt(Some(8)) == 1 && Newlines(FrameText(frame, 1, message)) == 8
  {
    var frame := Frame([], [], 0, ["a", "b"], [], 2, 1, 0, []);
    NoFeed("a");
    NoFeed("b");
    assert frame.Overhead() == 6 && Plain(frame, message) by { hide Newlines; }
    ShownExact(frame.blocks, 2);
    FirstBlocks(frame.blocks);
    assert frame.blocks[..2] == frame.blocks && frame.blocks[..1] == ["a"];
    CostGrows(frame.blocks, 1, 2);
    hide FrameText, Plain;
    FrameRows(frame, 1, message);
  }
}
