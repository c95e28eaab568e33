/** Reading the member and its receiver back out of a diagnostic's
    message, and locating the member's token inside the diagnostic's span. */
module MemberToken {
  import opened Wrappers
  import Utf8

  // ----- the message

  datatype MemberKind = Method | Property | ClassConstant | EnumCase

  /** The pinned message shapes. */
  function Message(kind: MemberKind, member: string, receiver: string): string {
    Head(kind) + "`" + (Display(kind, member) + "`" + (" on " + "`" + (receiver + "`" + "")))
  }

  function Head(kind: MemberKind): string {
    match kind
    case Method => "unknown method "
    case Property => "unknown property "
    case ClassConstant => "unknown class constant "
    case EnumCase => "unknown enum case "
  }

  function Display(kind: MemberKind, member: string): string {
    if kind.Property? then "$" + member else member
  }

  /** `str::split('`')`. */
  function SplitAtBackticks(text: string): (r: seq<string>)
    ensures r != []
  {
    if text == [] then [[]]
    else
      var rest := SplitAtBackticks(text[1..]);
      if text[0] == '`' then [[]] + rest else [[text[0]] + rest[0]] + rest[1..]
  }

  function ParseMemberMessage(message: string): (r: Option<(string, string)>)
    ensures r.Some? ==> r.value.0 != "" && r.value.1 != ""
  {
    var segments := SplitAtBackticks(message);
    if |segments| < 4 then None
    else
      var member := if segments[1] != [] && segments[1][0] == '$' then segments[1][1..] else segments[1];
      var receiver := segments[3];
      if member == [] || receiver == [] then None else Some((member, receiver))
  }

  lemma {:induction false} SegmentsAreClean(text: string)
    ensures forall segment :: segment in SplitAtBackticks(text) ==> '`' !in segment
  {
    if text == [] {
    } else {
      SegmentsAreClean(text[1..]);
      var rest := SplitAtBackticks(text[1..]);
      assert rest[0] in rest;
    }
  }

  lemma {:induction false} SplitFirst(head: string, tail: string)
    requires '`' !in head
    ensures SplitAtBackticks(head + "`" + tail) == [head] + SplitAtBackticks(tail)
  {
    var text := head + "`" + tail;
    if head == [] {
      assert text[1..] == tail;
    } else {
      SplitFirst(head[1..], tail);
      assert text[1..] == head[1..] + "`" + tail;
      assert text[0] == head[0] && head == [head[0]] + head[1..];
      assert '`' !in head[1..];
    }
  }

  /** The parser inverts the emitters' formats, exactly when the two names
      are non-empty, hold no backtick, and an unmarked member does not
      start with the sign that marks a property. */
  lemma ParseInvertsMessage(kind: MemberKind, member: string, receiver: string)
    ensures ParseMemberMessage(Message(kind, member, receiver)) == Some((member, receiver))
       <==> member != "" && receiver != "" && '`' !in member && '`' !in receiver
            && (kind.Property? || member[0] != '$')
  {
    if '`' !in member && '`' !in receiver {
      SplitMessage(kind, member, receiver);
    } else {
      ParsedIsClean(Message(kind, member, receiver));
    }
  }

  lemma SplitMessage(kind: MemberKind, member: string, receiver: string)
    requires '`' !in member && '`' !in receiver
    ensures SplitAtBackticks(Message(kind, member, receiver))
         == [Head(kind), Display(kind, member), " on ", receiver, ""]
  {
    var shown := Display(kind, member);
    var end := receiver + "`" + "";
    var middle := " on " + "`" + end;
    SplitFirst(Head(kind), shown + "`" + middle);
    SplitFirst(shown, middle);
    SplitFirst(" on ", end);
    SplitFirst(receiver, "");
  }

  lemma ParsedIsClean(message: string)
    ensures var parsed := ParseMemberMessage(message);
            parsed.Some? ==> '`' !in parsed.value.0 && '`' !in parsed.value.1
  {
    SegmentsAreClean(message);
    var segments := SplitAtBackticks(message);
    if |segments| >= 4 {
      assert segments[1] in segments && segments[3] in segments;
    }
  }

  /** The messages, word for word. */
  lemma MessageSays(member: string, receiver: string)
    ensures Message(Method, member, receiver) == "unknown method " + "`" + member + "`" + " on " + "`" + receiver + "`"
    ensures Message(Property, member, receiver) == "unknown property " + "`" + ("$" + member) + "`" + " on " + "`" + receiver + "`"
    ensures Message(ClassConstant, member, receiver)
         == "unknown class constant " + "`" + member + "`" + " on " + "`" + receiver + "`"
    ensures Message(EnumCase, member, receiver) == "unknown enum case " + "`" + member + "`" + " on " + "`" + receiver + "`"
  {
    Regrouped("unknown method ", "`", member, " on ", receiver);
    Regrouped("unknown property ", "`", "$" + member, " on ", receiver);
    Regrouped("unknown class constant ", "`", member, " on ", receiver);
    Regrouped("unknown enum case ", "`", member, " on ", receiver);
  }

  lemma Regrouped(head: string, tick: string, shown: string, on: string, receiver: string)
    ensures head + tick + (shown + tick + (on + tick + (receiver + tick + "")))
         == head + tick + shown + tick + on + tick + receiver + tick
  {
  }

  /** Any message at all: what is between the first two backticks, without the
      sign of a property, and what follows the third, up to a fourth if there is
      one; nothing when either is empty or there is no third. */
  lemma {:induction false} ParseExactly(head: string, member: string, middle: string, receiver: string, tail: string)
    requires '`' !in head && '`' !in member && '`' !in middle && '`' !in receiver
    requires tail == "" || tail[0] == '`'
    ensures var name := if member != "" && member[0] == '$' then member[1..] else member;
            ParseMemberMessage(head + "`" + (member + "`" + (middle + "`" + (receiver + tail))))
            == if name == "" || receiver == "" then None else Some((name, receiver))
    ensures ParseMemberMessage(head + "`" + (member + "`" + middle)) == None
    ensures ParseMemberMessage(head + "`" + member) == None && ParseMemberMessage(head) == None
  {
    SplitWhole(middle);
    SplitWhole(member);
    SplitWhole(head);
    SplitUpTo(receiver, tail);
    SplitFirst(middle, receiver + tail);
    SplitFirst(member, middle + "`" + (receiver + tail));
    SplitFirst(head, member + "`" + (middle + "`" + (receiver + tail)));
    SplitFirst(member, middle);
    SplitFirst(head, member + "`" + middle);
    SplitFirst(head, member);
    hide SplitAtBackticks;
  }

  lemma {:induction false} SplitWhole(text: string)
    requires '`' !in text
    ensures SplitAtBackticks(text) == [text]
  {
    if text == "" {
    } else {
      assert text == [text[0]] + text[1..] && text[0] in text;
      SplitWhole(text[1..]);
    }
  }

  lemma SplitUpTo(receiver: string, tail: string)
    requires '`' !in receiver && (tail == "" || tail[0] == '`')
    ensures SplitAtBackticks(receiver + tail)[0] == receiver
  {
    if tail == "" {
      assert receiver + tail == receiver;
      SplitWhole(receiver);
    } else {
      assert receiver + tail == receiver + "`" + tail[1..];
      SplitFirst(receiver, tail[1..]);
    }
  }

  // ----- the token

  /** `char::is_whitespace`: the Unicode White_Space property. */
  predicate IsSpace(c: char) {
    var v := c as int;
    0x9 <= v <= 0xD || v == 0x20 || v == 0x85 || v == 0xA0 || v == 0x1680 || 0x2000 <= v <= 0x200A
    || v == 0x2028 || v == 0x2029 || v == 0x202F || v == 0x205F || v == 0x3000
  }

  lemma SpacesAre(c: char)
    ensures IsSpace(c) <==> c in {'\t', '\n', '\U{B}', '\U{C}', '\r', ' ', '\U{85}', '\U{A0}', '\U{1680}',
              '\U{2000}', '\U{2001}', '\U{2002}', '\U{2003}', '\U{2004}', '\U{2005}', '\U{2006}', '\U{2007}', '\U{2008}',
              '\U{2009}', '\U{200A}', '\U{2028}', '\U{2029}', '\U{202F}', '\U{205F}', '\U{3000}'}
  {
    assert (c as int) as char == c;
  }

  /** The Unicode alphanumeric table is the caller's. */
  predicate IsWord(c: char, alphanumeric: char -> bool) {
    alphanumeric(c) || c == '_'
  }

  function TrimEnd(text: string): string {
    if text != [] && IsSpace(text[|text| - 1]) then TrimEnd(text[..|text| - 1]) else text
  }

  predicate EndsWith(text: string, suffix: string) {
    |suffix| <= |text| && text[|text| - |suffix|..] == suffix
  }

  predicate OccursAt(text: string, member: string, p: nat) {
    p + |member| <= |text| && text[p..p + |member|] == member
  }

  /** An occurrence that ends at a word boundary and follows `->`, `?->` or `::`. */
  predicate IsToken(text: string, member: string, p: nat, alphanumeric: char -> bool) {
    && OccursAt(text, member, p)
    && (p + |member| == |text| || !IsWord(text[p + |member|], alphanumeric))
    && var before := TrimEnd(text[..p]);
       EndsWith(before, "->") || EndsWith(before, "::")
  }

  lemma {:induction false} TrimEndExactly(text: string)
    ensures |TrimEnd(text)| <= |text| && TrimEnd(text) == text[..|TrimEnd(text)|]
    ensures forall k :: |TrimEnd(text)| <= k < |text| ==> IsSpace(text[k])
    ensures TrimEnd(text) != "" ==> !IsSpace(TrimEnd(text)[|TrimEnd(text)| - 1])
  {
    if text == "" {
    } else if IsSpace(text[|text| - 1]) {
      TrimEndExactly(text[..|text| - 1]);
    }
  }

  /** One of the two operators ends at `q`. */
  ghost predicate OperatorEnds(text: string, q: nat) {
    2 <= q <= |text| && ((text[q - 2] == '-' && text[q - 1] == '>') || (text[q - 2] == ':' && text[q - 1] == ':'))
  }

  /** A token: the member's text, no word character right after it, and before
      it, across white space, one of the two operators. */
  lemma {:induction false} IsTokenExactly(text: string, member: string, p: nat, alphanumeric: char -> bool)
    ensures IsToken(text, member, p, alphanumeric) <==>
              && p + |member| <= |text| && text[p..p + |member|] == member
              && (p + |member| == |text| || !(alphanumeric(text[p + |member|]) || text[p + |member|] == '_'))
              && exists q: nat :: OperatorEnds(text, q) && q <= p && forall k :: q <= k < p ==> IsSpace(text[k])
  {
    if p <= |text| {
      var before := TrimEnd(text[..p]);
      TrimEndExactly(text[..p]);
      var n := |before|;
      assert before == text[..n];
      if n >= 1 { assert before[n - 1] == text[n - 1]; }
      if n >= 2 { assert before[n - 2..] == [text[n - 2], text[n - 1]]; }
      assert EndsWith(before, "->") || EndsWith(before, "::") <==> OperatorEnds(text, n);
      if q: nat :| OperatorEnds(text, q) && q <= p && forall k :: q <= k < p ==> IsSpace(text[k]) {
        assert !IsSpace(text[q - 1]);
        assert q == n;
      }
    }
  }

  /** `text[..end].rfind(member)`. */
  function LastOccurrence(text: string, member: string, end: nat): (r: Option<nat>)
    requires end <= |text|
    ensures r.Some? ==> OccursAt(text, member, r.value) && r.value + |member| <= end
    ensures forall p :: 0 <= p <= end - |member| && OccursAt(text, member, p) ==> r.Some? && p <= r.value
    decreases end
  {
    if end < |member| then None
    else if OccursAt(text, member, end - |member|) then Some(end - |member|)
    else LastOccurrence(text, member, end - 1)
  }

  /** The backward scan: each rejected occurrence ends the next search. */
  function Scan(text: string, member: string, end: nat, alphanumeric: char -> bool): (r: Option<nat>)
    requires member != "" && end <= |text|
    ensures r.Some? ==> IsToken(text, member, r.value, alphanumeric)
    decreases end
  {
    match LastOccurrence(text, member, end)
    case None => None
    case Some(p) =>
      if IsToken(text, member, p, alphanumeric) then Some(p)
      else if p == 0 then None
      else Scan(text, member, p, alphanumeric)
  }

  ghost predicate IsRightmostToken(text: string, member: string, r: Option<nat>, alphanumeric: char -> bool) {
    match r
    case None => forall q: nat :: !IsToken(text, member, q, alphanumeric)
    case Some(p) => IsToken(text, member, p, alphanumeric)
                    && forall q: nat :: q > p ==> !IsToken(text, member, q, alphanumeric)
  }

  /** Wherever the member can overlap itself, the earlier copy is cut off
      in the middle of a word, so it is no token anyway. */
  ghost predicate OverlapsInsideWords(member: string, alphanumeric: char -> bool) {
    forall s {:trigger member[s..]} :: 0 < s < |member| && member[s..] == member[..|member| - s]
      ==> IsWord(member[|member| - s], alphanumeric)
  }

  lemma {:induction false} WordMembersOverlapInsideWords(member: string, alphanumeric: char -> bool)
    requires forall c :: c in member ==> IsWord(c, alphanumeric)
    ensures OverlapsInsideWords(member, alphanumeric)
  {
  }

  /** Skipping what overlaps a rejected occurrence loses no token. */
  lemma OverlapIsNoToken(text: string, member: string, p: nat, q: nat, alphanumeric: char -> bool)
    requires OverlapsInsideWords(member, alphanumeric)
    requires OccursAt(text, member, p) && q < p < q + |member|
    ensures !IsToken(text, member, q, alphanumeric)
  {
    if OccursAt(text, member, q) {
      var s, n := p - q, |member|;
      var at, from := text[q..q + n], text[p..p + n];
      forall k | 0 <= k < n - s ensures member[s..][k] == member[..n - s][k] {
        assert at[s + k] == text[p + k] == from[k];
      }
      assert member[s..] == member[..n - s];
      assert from[n - s] == text[q + n];
    }
  }

  lemma {:induction false} ScanFindsRightmost(text: string, member: string, end: nat, alphanumeric: char -> bool)
    requires member != "" && end <= |text| && OverlapsInsideWords(member, alphanumeric)
    requires forall q: nat :: q + |member| > end ==> !IsToken(text, member, q, alphanumeric)
    ensures IsRightmostToken(text, member, Scan(text, member, end, alphanumeric), alphanumeric)
    decreases end
  {
    match LastOccurrence(text, member, end)
    case None =>
    case Some(p) =>
      if !IsToken(text, member, p, alphanumeric) && p > 0 {
        forall q: nat | q + |member| > p ensures !IsToken(text, member, q, alphanumeric) {
          if q < p { OverlapIsNoToken(text, member, p, q, alphanumeric); }
        }
        ScanFindsRightmost(text, member, p, alphanumeric);
      }
  }

  /** After a receiver and either operator, on the next line or not, the scan
      answers the member itself. */
  lemma {:induction false} MemberAfterOperator(receiver: string, operator: string, blank: string, member: string, alphanumeric: char -> bool)
    requires member != "" && OverlapsInsideWords(member, alphanumeric)
    requires operator in {"->", "?->", "::"} && forall c :: c in blank ==> c in {' ', '\t', '\n', '\r'}
    ensures var before := receiver + operator + blank;
            Scan(before + member, member, |before + member|, alphanumeric) == Some(|before|)
  {
    var before := receiver + operator + blank;
    var text := before + member;
    AfterOperator(receiver, operator, blank, member);
    IsTokenExactly(text, member, |before|, alphanumeric);
    hide IsToken, OperatorEnds, OverlapsInsideWords;
    assert text[|before|..] == member;
    ScanFindsRightmost(text, member, |text|, alphanumeric);
    var found := Scan(text, member, |text|, alphanumeric);
    hide Scan;
    if found.Some? { TokenFits(text, member, found.value, alphanumeric); }
  }

  lemma TokenFits(text: string, member: string, p: nat, alphanumeric: char -> bool)
    requires IsToken(text, member, p, alphanumeric)
    ensures p + |member| <= |text|
  {
  }

  lemma AfterOperator(receiver: string, operator: string, blank: string, member: string)
    requires operator in {"->", "?->", "::"} && forall c :: c in blank ==> c in {' ', '\t', '\n', '\r'}
    ensures var q := |receiver + operator|; var text := receiver + operator + blank + member;
            OperatorEnds(text, q) && forall k :: q <= k < q + |blank| ==> IsSpace(text[k])
  {
    var q := |receiver + operator|;
    var text := receiver + operator + blank + member;
    assert text[q - 1] == operator[|operator| - 1] && text[q - 2] == operator[|operator| - 2];
    forall k | q <= k < q + |blank| ensures IsSpace(text[k]) {
      assert text[k] == blank[k - q] && blank[k - q] in blank;
    }
  }

  // ----- and it does lose one otherwise

  lemma {:induction false} ShortScanFindsNothing(text: string, member: string, end: nat, alphanumeric: char -> bool)
    requires member != "" && end <= |text| && end < |member| + 2
    ensures Scan(text, member, end, alphanumeric) == None
    decreases end
  {
    match LastOccurrence(text, member, end)
    case None =>
    case Some(p) =>
      TrimShortens(text[..p]);
      if p == 0 {
      } else {
        ShortScanFindsNothing(text, member, p, alphanumeric);
      }
  }

  lemma {:induction false} TrimShortens(text: string)
    ensures |TrimEnd(text)| <= |text|
  {
    if text == [] {
    } else {
      TrimShortens(text[..|text| - 1]);
    }
  }

  lemma {:induction false} ConstantByShift(member: string, k: nat)
    requires k < |member| && member[|member| - 1] == '_'
    requires forall i :: 0 <= i < |member| - 1 ==> member[i] == member[i + 1]
    ensures member[k] == '_'
    decreases |member| - k
  {
    if k == |member| - 1 {
    } else {
      ConstantByShift(member, k + 1);
    }
  }

  /** The text on which the scan steps over a token. */
  function Witness(member: string, s: nat): string
    requires s < |member|
  {
    "->" + member[..s] + member + "_"
  }

  /** What the proof needs of that text: two overlapping copies, the first
      a token, the second running into an underscore. */
  ghost predicate HasOverlap(text: string, member: string, s: nat) {
    && 0 < s < |member| && |text| == 2 + s + |member| + 1 && text[..2] == "->"
    && OccursAt(text, member, 2) && OccursAt(text, member, 2 + s)
    && text[2 + |member|] == member[|member| - s] && text[2 + s + |member|] == '_'
  }

  lemma WitnessHasOverlap(member: string, s: nat)
    requires 0 < s < |member| && member[s..] == member[..|member| - s]
    ensures HasOverlap(Witness(member, s), member, s)
  {
    var text, n := Witness(member, s), |member|;
    forall k | 0 <= k < n ensures text[2 + k] == member[k] {
      if k >= s { assert text[2 + k] == member[k - s] == member[..n - s][k - s] == member[s..][k - s]; }
    }
    assert text[2..2 + n] == member && text[2 + s..2 + s + n] == member;
  }

  /** The copy the scan meets first is the one that runs into the underscore. */
  lemma {:induction false} OverlapLastOccurrence(text: string, member: string, s: nat)
    requires HasOverlap(text, member, s) && member[|member| - s] != '_'
    ensures LastOccurrence(text, member, |text|) == Some(2 + s)
  {
    var n := |member|;
    ShiftedCopies(text, member, 2 + s, n - s);
    var last := LastOccurrence(text, member, |text|);
    assert last.Some? && last.value >= 2 + s;
  }

  /** Two copies one apart, the second ending in an underscore, leave no other character. */
  lemma ShiftedCopies(text: string, member: string, p: nat, k: nat)
    requires p + |member| < |text| && k < |member|
    requires OccursAt(text, member, p) && text[p + |member|] == '_'
    ensures OccursAt(text, member, p + 1) ==> member[k] == '_'
  {
    if OccursAt(text, member, p + 1) {
      var copy, shifted := text[p..p + |member|], text[p + 1..p + 1 + |member|];
      forall i | 0 <= i < |member| - 1 ensures member[i] == member[i + 1] {
        assert shifted[i] == text[p + (i + 1)] == copy[i + 1];
      }
      assert shifted[|member| - 1] == text[p + |member|];
      ConstantByShift(member, k);
    }
  }

  lemma {:induction false} OverlapLosesToken(member: string, s: nat, alphanumeric: char -> bool)
    requires 0 < s < |member| && member[s..] == member[..|member| - s]
    requires !IsWord(member[|member| - s], alphanumeric)
    ensures IsToken(Witness(member, s), member, 2, alphanumeric)
    ensures Scan(Witness(member, s), member, |Witness(member, s)|, alphanumeric) == None
  {
    var text := Witness(member, s);
    WitnessHasOverlap(member, s);
    assert TrimEnd("->") == "->";
    OverlapLastOccurrence(text, member, s);
    ShortScanFindsNothing(text, member, 2 + s, alphanumeric);
  }

  /** The scan finds the rightmost token in every text exactly when the
      member overlaps itself inside words only. */
  lemma {:induction false} ScanExactIff(member: string, alphanumeric: char -> bool)
    requires member != ""
    ensures (forall text :: IsRightmostToken(text, member, Scan(text, member, |text|, alphanumeric), alphanumeric))
       <==> OverlapsInsideWords(member, alphanumeric)
  {
    if OverlapsInsideWords(member, alphanumeric) {
      forall text ensures IsRightmostToken(text, member, Scan(text, member, |text|, alphanumeric), alphanumeric) {
        ScanFindsRightmost(text, member, |text|, alphanumeric);
      }
    } else {
      var s :| 0 < s < |member| && member[s..] == member[..|member| - s]
               && !IsWord(member[|member| - s], alphanumeric);
      OverlapLosesToken(member, s, alphanumeric);
      var text := Witness(member, s);
      assert !IsRightmostToken(text, member, Scan(text, member, |text|, alphanumeric), alphanumeric);
    }
  }

  /** The file's byte range of the occurrence at `p`, `spanStart` being the
      byte offset of the span the text was cut from. */
  function ByteRange(text: string, member: string, p: nat, spanStart: nat): (nat, nat)
    requires p <= |text|
  {
    var start := |Utf8.Encode(text[..p])|;
    (spanStart + start, spanStart + start + |Utf8.Encode(member)|)
  }

  method MemberTokenRange(text: string, member: string, spanStart: nat, alphanumeric: char -> bool)
    returns (r: Option<(nat, nat)>)
    requires member != ""
    ensures r == match Scan(text, member, |text|, alphanumeric)
                 case None => None
                 case Some(p) => Some(ByteRange(text, member, p, spanStart))
    ensures OverlapsInsideWords(member, alphanumeric) ==>
              match r
              case None => IsRightmostToken(text, member, None, alphanumeric)
              case Some(range) => exists p :: IsRightmostToken(text, member, Some(p), alphanumeric)
                                              && Spells(text, member, p, spanStart, range)
    ensures r.Some? ==> exists p: nat ::
              && IsToken(text, member, p, alphanumeric)
              && r.value == (spanStart + |Utf8.Encode(text[..p])|, spanStart + |Utf8.Encode(text[..p])| + |Utf8.Encode(member)|)
    ensures OverlapsInsideWords(member, alphanumeric) ==>
              forall q: nat :: IsToken(text, member, q, alphanumeric) ==>
                r.Some? && spanStart + |Utf8.Encode(text[..q])| <= r.value.0
  {
    r := TokenRange(text, member, spanStart, alphanumeric);
    if OverlapsInsideWords(member, alphanumeric) {
      ScanIsRightmost(text, member, spanStart, alphanumeric);
      forall q: nat | IsToken(text, member, q, alphanumeric)
        ensures r.Some? && spanStart + |Utf8.Encode(text[..q])| <= r.value.0
      {
        var found := Scan(text, member, |text|, alphanumeric);
        EncodeGrows(text, q, found.value);
      }
    }
  }

  lemma EncodeGrows(text: string, q: nat, p: nat)
    requires q <= p <= |text|
    ensures |Utf8.Encode(text[..q])| <= |Utf8.Encode(text[..p])|
  {
    assert text[..p] == text[..q] + text[q..p];
    Utf8.EncodeConcat(text[..q], text[q..p]);
  }

  /** The loop over the occurrences, from the last one back. */
  method TokenRange(text: string, member: string, spanStart: nat, alphanumeric: char -> bool)
    returns (r: Option<(nat, nat)>)
    requires member != ""
    ensures r == match Scan(text, member, |text|, alphanumeric)
                 case None => None
                 case Some(p) => Some(ByteRange(text, member, p, spanStart))
  {
    var searchEnd: nat := |text|;
    while true
      invariant searchEnd <= |text|
      invariant Scan(text, member, |text|, alphanumeric) == Scan(text, member, searchEnd, alphanumeric)
      decreases searchEnd
    {
      var found := LastOccurrence(text, member, searchEnd);
      if found.None? {
        return None;
      }
      var position := found.value;
      var before := TrimEnd(text[..position]);
      var after := text[position + |member|..];
      var boundaryAfter := after == [] || !IsWord(after[0], alphanumeric);
      if boundaryAfter && (EndsWith(before, "->") || EndsWith(before, "::")) {
        return Some(ByteRange(text, member, position, spanStart));
      }
      if position == 0 {
        return None;
      }
      searchEnd := position;
    }
  }

  /** The range starts where the text before the occurrence ends, stays in
      the span, and its bytes spell the member. */
  ghost predicate Spells(text: string, member: string, p: nat, spanStart: nat, range: (nat, nat)) {
    var (start, end) := range;
    && p <= |text| && start == spanStart + |Utf8.Encode(text[..p])|
    && start <= end <= spanStart + |Utf8.Encode(text)|
    && Utf8.Encode(text)[start - spanStart..end - spanStart] == Utf8.Encode(member)
  }

  lemma {:induction false} ScanIsRightmost(text: string, member: string, spanStart: nat, alphanumeric: char -> bool)
    requires member != "" && OverlapsInsideWords(member, alphanumeric)
    ensures var found := Scan(text, member, |text|, alphanumeric);
            && IsRightmostToken(text, member, found, alphanumeric)
            && (found.Some? ==> Spells(text, member, found.value, spanStart, ByteRange(text, member, found.value, spanStart)))
  {
    ScanFindsRightmost(text, member, |text|, alphanumeric);
    var found := Scan(text, member, |text|, alphanumeric);
    if found.Some? { ByteRangeSpellsMember(text, member, found.value, spanStart); }
  }

  lemma ByteRangeSpellsMember(text: string, member: string, p: nat, spanStart: nat)
    requires OccursAt(text, member, p)
    ensures Spells(text, member, p, spanStart, ByteRange(text, member, p, spanStart))
    ensures var (start, end) := ByteRange(text, member, p, spanStart);
            spanStart <= start <= end <= spanStart + |Utf8.Encode(text)| &&
            Utf8.Encode(text)[start - spanStart..end - spanStart] == Utf8.Encode(member)
  {
    var before, after := text[..p], text[p + |member|..];
    hide Utf8.Encode;
    assert text == before + (member + after);
    Utf8.EncodeConcat(before, member + after);
    Utf8.EncodeConcat(member, after);
    MiddleOf(Utf8.Encode(before), Utf8.Encode(member), Utf8.Encode(after));
  }

  lemma MiddleOf<T>(a: seq<T>, b: seq<T>, c: seq<T>)
    ensures (a + (b + c))[|a|..|a| + |b|] == b
  {
  }
}
