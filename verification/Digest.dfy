/** The pre-images of the two cache-key digests. Both are self-delimiting
    byte streams over sorted, normalized sections, so each can be read back,
    and two inputs share a stream exactly when their sections hold the same
    entries. The hash itself is a parameter. */
module Digest {
  import opened Wrappers
  import opened Ordering
  import opened Utf8
  import Edits
  import opened Diagnostics

  /** A `str`, as its bytes: that is how it is compared and fed. */
  type Text = seq<byte>

  // ----- counts

  const U64: nat := 0x1_0000_0000_0000_0000

  function Pow256(k: nat): nat { if k == 0 then 1 else 256 * Pow256(k - 1) }

  /** The k low bytes of n, least significant first. */
  function LittleEndian(n: nat, k: nat): (r: seq<byte>)
    ensures |r| == k
  {
    if k == 0 then [] else [(n % 256) as byte] + LittleEndian(n / 256, k - 1)
  }

  function FromLittleEndian(bytes: seq<byte>): nat {
    if bytes == [] then 0 else bytes[0] as nat + 256 * FromLittleEndian(bytes[1..])
  }

  lemma {:induction false} LittleEndianRoundTrip(n: nat, k: nat)
    requires n < Pow256(k)
    ensures FromLittleEndian(LittleEndian(n, k)) == n
  {
    if k == 0 {
    } else {
      assert n / 256 < Pow256(k - 1);
      LittleEndianRoundTrip(n / 256, k - 1);
      assert LittleEndian(n, k)[1..] == LittleEndian(n / 256, k - 1);
    }
  }

  lemma U64IsEightBytes()
    ensures Pow256(8) == U64
  {
    assert Pow256(4) == 0x1_0000_0000;
    assert Pow256(8) == 256 * (256 * (256 * (256 * Pow256(4))));
  }

  /** A count as eight bytes, saturating. */
  function Count(n: nat): (r: seq<byte>)
    ensures |r| == 8
  {
    LittleEndian(if n < U64 then n else U64 - 1, 8)
  }

  function TakeCount(bytes: seq<byte>): Option<(nat, seq<byte>)> {
    if |bytes| < 8 then None else Some((FromLittleEndian(bytes[..8]), bytes[8..]))
  }

  lemma CountRoundTrip(n: nat, rest: seq<byte>)
    requires n < U64
    ensures TakeCount(Count(n) + rest) == Some((n, rest))
  {
    U64IsEightBytes();
    LittleEndianRoundTrip(n, 8);
    assert (Count(n) + rest)[..8] == Count(n) && (Count(n) + rest)[8..] == rest;
  }

  // ----- texts

  /** A length-prefixed field. */
  function Field(text: Text): seq<byte> { Count(|text|) + text }

  function TakeField(bytes: seq<byte>): Option<(Text, seq<byte>)> {
    match TakeCount(bytes)
    case None => None
    case Some((n, rest)) => if n <= |rest| then Some((rest[..n], rest[n..])) else None
  }

  lemma FieldRoundTrip(text: Text, rest: seq<byte>)
    requires |text| < U64
    ensures TakeField(Field(text) + rest) == Some((text, rest))
  {
    CountRoundTrip(|text|, text + rest);
    assert Field(text) + rest == Count(|text|) + (text + rest);
    assert (text + rest)[..|text|] == text && (text + rest)[|text|..] == rest;
  }

  // ----- sections

  function Entries<T>(put: T -> seq<byte>, entries: seq<T>): seq<byte> {
    if entries == [] then [] else Entries(put, entries[..|entries| - 1]) + put(entries[|entries| - 1])
  }

  /** A count-prefixed section. */
  function Section<T>(put: T -> seq<byte>, entries: seq<T>): seq<byte> {
    Count(|entries|) + Entries(put, entries)
  }

  function TakeEntries<T>(take: seq<byte> -> Option<(T, seq<byte>)>, n: nat, bytes: seq<byte>): Option<(seq<T>, seq<byte>)> {
    if n == 0 then Some(([], bytes))
    else match take(bytes)
      case None => None
      case Some((first, rest)) =>
        match TakeEntries(take, n - 1, rest)
        case None => None
        case Some((others, rest')) => Some(([first] + others, rest'))
  }

  function TakeSection<T>(take: seq<byte> -> Option<(T, seq<byte>)>, bytes: seq<byte>): Option<(seq<T>, seq<byte>)> {
    match TakeCount(bytes)
    case None => None
    case Some((n, rest)) => TakeEntries(take, n, rest)
  }

  /** Reading an entry back returns it, and leaves what followed. */
  ghost predicate ReadsBack<T(!new)>(put: T -> seq<byte>, take: seq<byte> -> Option<(T, seq<byte>)>, entries: seq<T>) {
    forall e, rest: seq<byte> :: e in entries ==> take(put(e) + rest) == Some((e, rest))
  }

  lemma {:induction false} EntriesFront<T>(put: T -> seq<byte>, entries: seq<T>)
    requires entries != []
    ensures Entries(put, entries) == put(entries[0]) + Entries(put, entries[1..])
  {
    var n := |entries|;
    if n == 1 {
      assert entries[..0] == [] && entries[1..] == [];
    } else {
      EntriesFront(put, entries[..n - 1]);
      assert entries[1..][..n - 2] == entries[..n - 1][1..];
      assert entries[1..][n - 2] == entries[n - 1];
    }
  }

  lemma {:induction false} EntriesRoundTrip<T(!new)>(put: T -> seq<byte>, take: seq<byte> -> Option<(T, seq<byte>)>,
                                                     entries: seq<T>, rest: seq<byte>)
    requires ReadsBack(put, take, entries)
    ensures TakeEntries(take, |entries|, Entries(put, entries) + rest) == Some((entries, rest))
  {
    if entries == [] {
      assert Entries(put, entries) + rest == rest;
    } else {
      var first, others := entries[0], entries[1..];
      EntriesFront(put, entries);
      var tail := Entries(put, others) + rest;
      assert Entries(put, entries) + rest == put(first) + tail;
      assert take(put(first) + tail) == Some((first, tail));
      EntriesRoundTrip(put, take, others, rest);
      assert [first] + others == entries;
    }
  }

  lemma SectionRoundTrip<T(!new)>(put: T -> seq<byte>, take: seq<byte> -> Option<(T, seq<byte>)>, entries: seq<T>, rest: seq<byte>)
    requires ReadsBack(put, take, entries) && |entries| < U64
    ensures TakeSection(take, Section(put, entries) + rest) == Some((entries, rest))
  {
    CountRoundTrip(|entries|, Entries(put, entries) + rest);
    assert Section(put, entries) + rest == Count(|entries|) + (Entries(put, entries) + rest);
    EntriesRoundTrip(put, take, entries, rest);
  }

  // ----- orders

  function CompareText(a: Text, b: Text): Cmp { CompareSeq(Edits.CompareByte, a, b) }

  lemma CompareTextTotal()
    ensures TotalCompare(CompareText)
  {
    assert TotalCompare(Edits.CompareByte);
    forall a, b ensures CompareText(a, b) == Equal <==> a == b { CompareSeqEqual(Edits.CompareByte, a, b); }
    forall a, b ensures CompareText(b, a) == CompareText(a, b).Flip() { CompareSeqFlip(Edits.CompareByte, a, b); }
    forall a, b, c | CompareText(a, b) != Greater && CompareText(b, c) != Greater
      ensures CompareText(a, c) != Greater
    {
      CompareSeqTransitive(Edits.CompareByte, a, b, c);
    }
  }

  /** Two sections sort alike exactly when they hold the same entries. */
  lemma SortedAlikeIff<T(!new)>(cmp: (T, T) -> Cmp, a: seq<T>, b: seq<T>)
    requires TotalCompare(cmp)
    ensures Sort(cmp, a) == Sort(cmp, b) <==> multiset(a) == multiset(b)
  {
    SortPermutes(cmp, a);
    SortPermutes(cmp, b);
    if multiset(a) == multiset(b) { SortCanonical(cmp, a, b); }
  }

  function Each<A, B>(f: A -> B, s: seq<A>): seq<B> { seq(|s|, i requires 0 <= i < |s| => f(s[i])) }

  // ----- the configuration

  datatype Spanned<T> = Spanned(value: T, range: TextRange)
  datatype RuleTable = RuleTable(name: Spanned<Text>, enabled: Option<Spanned<bool>>)
  datatype SeverityEntry = SeverityEntry(identifier: Spanned<Text>, severity: Option<Spanned<Severity>>)
  datatype Configuration = Configuration(rules: seq<RuleTable>, severity: seq<SeverityEntry>)

  /** A normalized entry: a text and one byte, the spans dropped. */
  datatype Keyed = Keyed(text: Text, tag: byte)

  function RuleKey(rule: RuleTable): Keyed {
    Keyed(rule.name.value, match rule.enabled case None => 0 case Some(enabled) => if !enabled.value then 1 else 2)
  }

  function SeverityKey(entry: SeverityEntry): Keyed {
    Keyed(entry.identifier.value, match entry.severity case None => 0 case Some(s) => if s.value.Warning? then 1 else 2)
  }

  function ValueOf<T>(spanned: Option<Spanned<T>>): Option<T> {
    if spanned.None? then None else Some(spanned.value.value)
  }

  /** The byte tells an absent value from each present one, and nothing more. */
  lemma KeysDistinguish(a: RuleTable, b: RuleTable, c: SeverityEntry, d: SeverityEntry)
    ensures RuleKey(a) == RuleKey(b) <==> a.name.value == b.name.value && ValueOf(a.enabled) == ValueOf(b.enabled)
    ensures SeverityKey(c) == SeverityKey(d)
       <==> c.identifier.value == d.identifier.value && ValueOf(c.severity) == ValueOf(d.severity)
  {
  }

  /** And which byte that is. */
  lemma KeyBytes(rule: RuleTable, entry: SeverityEntry)
    ensures RuleKey(rule).tag == (if ValueOf(rule.enabled) == None then 0 else if ValueOf(rule.enabled) == Some(false) then 1 else 2)
    ensures SeverityKey(entry).tag
         == (if ValueOf(entry.severity) == None then 0 else if ValueOf(entry.severity) == Some(Warning) then 1 else 2)
  {
  }

  function CompareKeyed(a: Keyed, b: Keyed): Cmp { CompareText(a.text, b.text).Then(Edits.CompareByte(a.tag, b.tag)) }

  lemma CompareKeyedTotal()
    ensures TotalCompare(CompareKeyed)
  {
    CompareTextTotal();
    forall a, b, c | CompareKeyed(a, b) != Greater && CompareKeyed(b, c) != Greater
      ensures CompareKeyed(a, c) != Greater
    {
      TotalFit(CompareText, a.text, b.text, c.text);
      hide CompareText;
    }
    hide CompareText;
  }

  function PutKeyed(e: Keyed): seq<byte> { Field(e.text) + [e.tag] }

  function TakeKeyed(bytes: seq<byte>): Option<(Keyed, seq<byte>)> {
    match TakeField(bytes)
    case None => None
    case Some((text, rest)) => if rest == [] then None else Some((Keyed(text, rest[0]), rest[1..]))
  }

  lemma KeyedRoundTrip(e: Keyed, rest: seq<byte>)
    requires |e.text| < U64
    ensures TakeKeyed(PutKeyed(e) + rest) == Some((e, rest))
  {
    hide Field, TakeField;
    FieldRoundTrip(e.text, [e.tag] + rest);
    Regroup(Field(e.text), [e.tag], rest);
    assert ([e.tag] + rest)[1..] == rest;
  }

  lemma Regroup<T>(a: seq<T>, b: seq<T>, c: seq<T>)
    ensures (a + b) + c == a + (b + c)
  {
  }

  lemma KeyedReadsBack(entries: seq<Keyed>)
    requires forall e :: e in entries ==> |e.text| < U64
    ensures ReadsBack(PutKeyed, TakeKeyed, entries)
  {
    hide TakeKeyed, PutKeyed;
    forall e, rest: seq<byte> | e in entries ensures TakeKeyed(PutKeyed(e) + rest) == Some((e, rest)) {
      KeyedRoundTrip(e, rest);
    }
  }

  function RuleKeys(c: Configuration): seq<Keyed> { Each(RuleKey, c.rules) }
  function SeverityKeys(c: Configuration): seq<Keyed> { Each(SeverityKey, c.severity) }

  function ConfigurationStream(c: Configuration): seq<byte> {
    Section(PutKeyed, Sort(CompareKeyed, RuleKeys(c))) + Section(PutKeyed, Sort(CompareKeyed, SeverityKeys(c)))
  }

  function ReadConfiguration(bytes: seq<byte>): Option<(seq<Keyed>, seq<Keyed>)> {
    match TakeSection(TakeKeyed, bytes)
    case None => None
    case Some((rules, rest)) =>
      match TakeSection(TakeKeyed, rest)
      case None => None
      case Some((severity, rest')) => if rest' == [] then Some((rules, severity)) else None
  }

  /** Every length fits the machine word it is counted in. */
  predicate Addressable(entries: seq<Keyed>) {
    |entries| < U64 && forall e :: e in entries ==> |e.text| < U64
  }

  lemma SortedSectionRoundTrip(entries: seq<Keyed>, rest: seq<byte>)
    requires Addressable(entries)
    ensures TakeSection(TakeKeyed, Section(PutKeyed, Sort(CompareKeyed, entries)) + rest)
         == Some((Sort(CompareKeyed, entries), rest))
  {
    SortElements(CompareKeyed, entries);
    SortPermutes(CompareKeyed, entries);
    KeyedReadsBack(Sort(CompareKeyed, entries));
    SectionRoundTrip(PutKeyed, TakeKeyed, Sort(CompareKeyed, entries), rest);
  }

  /** The stream determines both normalized sections: nothing of one entry,
      field or section can be read as part of the next. */
  lemma ConfigurationReadsBack(c: Configuration)
    requires Addressable(RuleKeys(c)) && Addressable(SeverityKeys(c))
    ensures ReadConfiguration(ConfigurationStream(c))
         == Some((Sort(CompareKeyed, RuleKeys(c)), Sort(CompareKeyed, SeverityKeys(c))))
  {
    var second := Section(PutKeyed, Sort(CompareKeyed, SeverityKeys(c)));
    SortedSectionRoundTrip(RuleKeys(c), second);
    SortedSectionRoundTrip(SeverityKeys(c), []);
    assert second + [] == second;
  }

  lemma EachBack<A(!new), B>(f: A -> B, back: B -> A, s: seq<A>)
    requires forall x :: back(f(x)) == x
    ensures Each(back, Each(f, s)) == s
  {
    forall i | 0 <= i < |s| ensures Each(back, Each(f, s))[i] == s[i] {
      assert Each(f, s)[i] == f(s[i]);
    }
  }

  /** Entries that can be told apart by their image are the same ones exactly
      when their images are. */
  lemma EachAgreesIff<A(!new), B(!new)>(f: A -> B, back: B -> A, a: seq<A>, b: seq<A>)
    requires forall x :: back(f(x)) == x
    ensures multiset(a) == multiset(b) <==> multiset(Each(f, a)) == multiset(Each(f, b))
  {
    if multiset(a) == multiset(b) { EachPermutes(f, a, b); }
    if multiset(Each(f, a)) == multiset(Each(f, b)) {
      EachPermutes(back, Each(f, a), Each(f, b));
      EachBack(f, back, a);
      EachBack(f, back, b);
    }
  }

  /** What of an entry is fed: its name and value, wherever they stand. */
  function RuleView(rule: RuleTable): (Text, Option<bool>) { (rule.name.value, ValueOf(rule.enabled)) }
  function SeverityView(entry: SeverityEntry): (Text, Option<Severity>) { (entry.identifier.value, ValueOf(entry.severity)) }

  function RuleViewKey(view: (Text, Option<bool>)): Keyed {
    Keyed(view.0, match view.1 case None => 0 case Some(enabled) => if enabled then 2 else 1)
  }

  function RuleKeyView(k: Keyed): (Text, Option<bool>) { (k.text, if k.tag == 0 then None else Some(k.tag == 2)) }

  function SeverityViewKey(view: (Text, Option<Severity>)): Keyed {
    Keyed(view.0, match view.1 case None => 0 case Some(severity) => if severity.Warning? then 1 else 2)
  }

  function SeverityKeyView(k: Keyed): (Text, Option<Severity>) {
    (k.text, if k.tag == 0 then None else Some(if k.tag == 1 then Warning else Error))
  }

  lemma {:induction false} EachEach<A, B, C>(f: A -> B, g: B -> C, h: A -> C, s: seq<A>)
    requires forall x :: x in s ==> g(f(x)) == h(x)
    ensures Each(g, Each(f, s)) == Each(h, s)
  {
    forall i | 0 <= i < |s| ensures Each(g, Each(f, s))[i] == Each(h, s)[i] {
      assert s[i] in s && Each(f, s)[i] == f(s[i]);
    }
  }

  lemma RulesAgreeIff(a: seq<RuleTable>, b: seq<RuleTable>)
    ensures multiset(Each(RuleKey, a)) == multiset(Each(RuleKey, b)) <==> multiset(Each(RuleView, a)) == multiset(Each(RuleView, b))
  {
    EachEach(RuleView, RuleViewKey, RuleKey, a);
    EachEach(RuleView, RuleViewKey, RuleKey, b);
    EachAgreesIff(RuleViewKey, RuleKeyView, Each(RuleView, a), Each(RuleView, b));
  }

  lemma SeverityAgreeIff(a: seq<SeverityEntry>, b: seq<SeverityEntry>)
    ensures multiset(Each(SeverityKey, a)) == multiset(Each(SeverityKey, b))
       <==> multiset(Each(SeverityView, a)) == multiset(Each(SeverityView, b))
  {
    EachEach(SeverityView, SeverityViewKey, SeverityKey, a);
    EachEach(SeverityView, SeverityViewKey, SeverityKey, b);
    EachAgreesIff(SeverityViewKey, SeverityKeyView, Each(SeverityView, a), Each(SeverityView, b));
  }

  /** Two configurations feed the hash the same bytes exactly when they make
      the same entries, in whatever order and at whatever spans. */
  lemma ConfigurationStreamsAgreeIff(c: Configuration, d: Configuration)
    requires Addressable(RuleKeys(c)) && Addressable(SeverityKeys(c))
    requires Addressable(RuleKeys(d)) && Addressable(SeverityKeys(d))
    ensures ConfigurationStream(c) == ConfigurationStream(d)
       <==> multiset(RuleKeys(c)) == multiset(RuleKeys(d)) && multiset(SeverityKeys(c)) == multiset(SeverityKeys(d))
    ensures ConfigurationStream(c) == ConfigurationStream(d)
       <==> && multiset(Each(RuleView, c.rules)) == multiset(Each(RuleView, d.rules))
            && multiset(Each(SeverityView, c.severity)) == multiset(Each(SeverityView, d.severity))
  {
    RulesAgreeIff(c.rules, d.rules);
    SeverityAgreeIff(c.severity, d.severity);
    ConfigurationReadsBack(c);
    ConfigurationReadsBack(d);
    CompareKeyedTotal();
    SortedAlikeIff(CompareKeyed, RuleKeys(c), RuleKeys(d));
    SortedAlikeIff(CompareKeyed, SeverityKeys(c), SeverityKeys(d));
    hide ReadConfiguration;
  }

  /** Reordering the tables of either section changes nothing, of whatever size. */
  lemma EntryOrderIsIgnored(c: Configuration, d: Configuration)
    requires multiset(c.rules) == multiset(d.rules) && multiset(c.severity) == multiset(d.severity)
    ensures ConfigurationStream(c) == ConfigurationStream(d)
  {
    EachPermutes(RuleKey, c.rules, d.rules);
    EachPermutes(SeverityKey, c.severity, d.severity);
    CompareKeyedTotal();
    SortCanonical(CompareKeyed, RuleKeys(c), RuleKeys(d));
    SortCanonical(CompareKeyed, SeverityKeys(c), SeverityKeys(d));
    hide Each, Section;
  }

  lemma {:induction false} EachPermutes<A, B>(f: A -> B, a: seq<A>, b: seq<A>)
    requires multiset(a) == multiset(b)
    ensures multiset(Each(f, a)) == multiset(Each(f, b))
  {
    assert |multiset(a)| == |a| && |multiset(b)| == |b|;
    if a == [] {
    } else {
      var before, after := PullOut(a, b);
      EachPermutes(f, a[1..], before + after);
      assert Each(f, a) == [f(a[0])] + Each(f, a[1..]);
      assert Each(f, b) == Each(f, before) + ([f(a[0])] + Each(f, after));
      assert Each(f, before + after) == Each(f, before) + Each(f, after);
    }
  }

  // ----- the plugin set

  datatype PluginIdentity = PluginIdentity(name: Text, version: Text, configuration: Text)
  datatype ExcludedPlugin = ExcludedPlugin(name: Text, reason: Text)
  datatype RegisteredPlugins = RegisteredPlugins(admitted: seq<PluginIdentity>, excluded: seq<ExcludedPlugin>)

  function CompareIdentity(a: PluginIdentity, b: PluginIdentity): Cmp {
    CompareText(a.name, b.name).Then(CompareText(a.version, b.version).Then(CompareText(a.configuration, b.configuration)))
  }

  lemma CompareIdentityTotal()
    ensures TotalCompare(CompareIdentity)
  {
    CompareTextTotal();
    forall a, b ensures CompareIdentity(b, a) == CompareIdentity(a, b).Flip() {
      hide CompareText;
    }
    forall a, b, c | CompareIdentity(a, b) != Greater && CompareIdentity(b, c) != Greater
      ensures CompareIdentity(a, c) != Greater
    {
      TotalFit(CompareText, a.name, b.name, c.name);
      TotalFit(CompareText, a.version, b.version, c.version);
      TotalFit(CompareText, a.configuration, b.configuration, c.configuration);
      hide CompareText, TotalCompare;
    }
    hide CompareText;
  }

  function PutIdentity(p: PluginIdentity): seq<byte> { Field(p.name) + Field(p.version) + Field(p.configuration) }

  function TakeIdentity(bytes: seq<byte>): Option<(PluginIdentity, seq<byte>)> {
    match TakeField(bytes)
    case None => None
    case Some((name, rest)) =>
      match TakeField(rest)
      case None => None
      case Some((version, rest')) =>
        match TakeField(rest')
        case None => None
        case Some((configuration, rest'')) => Some((PluginIdentity(name, version, configuration), rest''))
  }

  predicate AddressablePlugins(plugins: RegisteredPlugins) {
    && |plugins.admitted| < U64 && |plugins.excluded| < U64
    && (forall p :: p in plugins.admitted ==> |p.name| < U64 && |p.version| < U64 && |p.configuration| < U64)
    && (forall e :: e in plugins.excluded ==> |e.name| < U64)
  }

  lemma IdentityRoundTrip(p: PluginIdentity, rest: seq<byte>)
    requires |p.name| < U64 && |p.version| < U64 && |p.configuration| < U64
    ensures TakeIdentity(PutIdentity(p) + rest) == Some((p, rest))
  {
    hide Field, TakeField;
    var last := Field(p.configuration) + rest;
    FieldRoundTrip(p.name, Field(p.version) + last);
    FieldRoundTrip(p.version, last);
    FieldRoundTrip(p.configuration, rest);
    Regroup(Field(p.name) + Field(p.version), Field(p.configuration), rest);
    Regroup(Field(p.name), Field(p.version), last);
  }

  lemma IdentityReadsBack(entries: seq<PluginIdentity>)
    requires forall p :: p in entries ==> |p.name| < U64 && |p.version| < U64 && |p.configuration| < U64
    ensures ReadsBack(PutIdentity, TakeIdentity, entries)
  {
    hide TakeIdentity, PutIdentity;
    forall p, rest: seq<byte> | p in entries ensures TakeIdentity(PutIdentity(p) + rest) == Some((p, rest)) {
      IdentityRoundTrip(p, rest);
    }
  }

  lemma NamesReadBack(names: seq<Text>)
    requires forall name :: name in names ==> |name| < U64
    ensures ReadsBack(Field, TakeField, names)
  {
    hide Field, TakeField;
    forall name, rest: seq<byte> | name in names ensures TakeField(Field(name) + rest) == Some((name, rest)) {
      FieldRoundTrip(name, rest);
    }
  }

  function NameOf(plugin: ExcludedPlugin): Text { plugin.name }
  function ExcludedNames(plugins: RegisteredPlugins): seq<Text> { Each(NameOf, plugins.excluded) }

  function PluginSetStream(plugins: RegisteredPlugins): seq<byte> {
    Section(PutIdentity, Sort(CompareIdentity, plugins.admitted)) + Section(Field, Sort(CompareText, ExcludedNames(plugins)))
  }

  function ReadPluginSet(bytes: seq<byte>): Option<(seq<PluginIdentity>, seq<Text>)> {
    match TakeSection(TakeIdentity, bytes)
    case None => None
    case Some((admitted, rest)) =>
      match TakeSection(TakeField, rest)
      case None => None
      case Some((excluded, rest')) => if rest' == [] then Some((admitted, excluded)) else None
  }

  lemma PluginSetReadsBack(plugins: RegisteredPlugins)
    requires AddressablePlugins(plugins)
    ensures ReadPluginSet(PluginSetStream(plugins))
         == Some((Sort(CompareIdentity, plugins.admitted), Sort(CompareText, ExcludedNames(plugins))))
  {
    hide Section, TakeSection, ReadsBack, Each;
    var admitted, excluded := Sort(CompareIdentity, plugins.admitted), Sort(CompareText, ExcludedNames(plugins));
    var second := Section(Field, excluded);
    AdmittedReadBack(plugins);
    ExcludedReadBack(plugins);
    SectionRoundTrip(PutIdentity, TakeIdentity, admitted, second);
    SectionRoundTrip(Field, TakeField, excluded, []);
    assert second + [] == second;
  }

  lemma AdmittedReadBack(plugins: RegisteredPlugins)
    requires AddressablePlugins(plugins)
    ensures var admitted := Sort(CompareIdentity, plugins.admitted);
            ReadsBack(PutIdentity, TakeIdentity, admitted) && |admitted| < U64
  {
    hide ReadsBack;
    SortElements(CompareIdentity, plugins.admitted);
    SortPermutes(CompareIdentity, plugins.admitted);
    IdentityReadsBack(Sort(CompareIdentity, plugins.admitted));
  }

  lemma ExcludedReadBack(plugins: RegisteredPlugins)
    requires AddressablePlugins(plugins)
    ensures var excluded := Sort(CompareText, ExcludedNames(plugins));
            ReadsBack(Field, TakeField, excluded) && |excluded| < U64
  {
    hide ReadsBack;
    var names := ExcludedNames(plugins);
    forall name | name in names ensures |name| < U64 {
      var i :| 0 <= i < |names| && names[i] == name;
      assert name == NameOf(plugins.excluded[i]) && plugins.excluded[i] in plugins.excluded;
    }
    SortElements(CompareText, names);
    SortPermutes(CompareText, names);
    NamesReadBack(Sort(CompareText, names));
  }

  lemma ExcludedNamesAre(plugins: RegisteredPlugins)
    ensures ExcludedNames(plugins) == seq(|plugins.excluded|, i requires 0 <= i < |plugins.excluded| => plugins.excluded[i].name)
  {
    var names := seq(|plugins.excluded|, i requires 0 <= i < |plugins.excluded| => plugins.excluded[i].name);
    assert |ExcludedNames(plugins)| == |names|;
    forall i | 0 <= i < |names| ensures ExcludedNames(plugins)[i] == names[i] {
      assert ExcludedNames(plugins)[i] == NameOf(plugins.excluded[i]);
      assert names[i] == plugins.excluded[i].name;
    }
  }

  /** Two plugin sets feed the hash the same bytes exactly when they admit the
      same identities and exclude the same names, for whatever reasons. */
  lemma PluginSetStreamsAgreeIff(p: RegisteredPlugins, q: RegisteredPlugins)
    requires AddressablePlugins(p) && AddressablePlugins(q)
    ensures PluginSetStream(p) == PluginSetStream(q)
       <==> && multiset(p.admitted) == multiset(q.admitted)
            && multiset(seq(|p.excluded|, i requires 0 <= i < |p.excluded| => p.excluded[i].name))
            == multiset(seq(|q.excluded|, i requires 0 <= i < |q.excluded| => q.excluded[i].name))
  {
    ExcludedNamesAre(p);
    ExcludedNamesAre(q);
    PluginSetReadsBack(p);
    PluginSetReadsBack(q);
    CompareIdentityTotal();
    CompareTextTotal();
    SortedAlikeIff(CompareIdentity, p.admitted, q.admitted);
    SortedAlikeIff(CompareText, ExcludedNames(p), ExcludedNames(q));
    hide ReadPluginSet;
  }

  /** Which way the sections are sorted: entries by text and then byte,
      identities by name, version and configuration, texts byte by byte. */
  lemma SectionOrders(a: Keyed, b: Keyed, p: PluginIdentity, q: PluginIdentity, t: Text, u: Text)
    ensures CompareKeyed(a, b) == Less <==> CompareText(a.text, b.text) == Less || (a.text == b.text && a.tag < b.tag)
    ensures CompareIdentity(p, q) == Less <==>
              || CompareText(p.name, q.name) == Less
              || (p.name == q.name && (
                  || CompareText(p.version, q.version) == Less
                  || (p.version == q.version && CompareText(p.configuration, q.configuration) == Less)))
    ensures CompareText(t, u) == Less <==>
              exists k :: 0 <= k <= |t| && k < |u| && t[..k] == u[..k] && (k == |t| || t[k] < u[k])
  {
    CompareTextTotal();
    assert TotalCompare(Edits.CompareByte);
    FirstDifference(Edits.CompareByte, t, u);
    hide CompareSeq;
  }

  // ----- the hasher

  class Hasher {
    const hash: seq<byte> -> seq<byte>
    var fed: seq<byte>

    constructor (hash: seq<byte> -> seq<byte>)
      ensures fed == [] && this.hash == hash
    {
      this.hash, fed := hash, [];
    }

    method Update(bytes: seq<byte>)
      modifies this
      ensures fed == old(fed) + bytes
    {
      fed := fed + bytes;
    }

    method HashCount(count: nat)
      modifies this
      ensures fed == old(fed) + Count(count)
    {
      Update(LittleEndian(if count < U64 then count else U64 - 1, 8));
    }

    method HashText(text: Text)
      modifies this
      ensures fed == old(fed) + Field(text)
    {
      HashCount(|text|);
      Update(text);
    }

    method HashKeyedSection(entries: seq<Keyed>)
      modifies this
      ensures fed == old(fed) + Section(PutKeyed, entries)
    {
      hide Count, Field, Entries;
      HashCount(|entries|);
      ghost var start := fed;
      NoEntries(PutKeyed, entries);
      for k := 0 to |entries|
        invariant fed == start + Entries(PutKeyed, entries[..k])
      {
        ghost var before := fed;
        EntriesSnoc(PutKeyed, entries, k);
        HashText(entries[k].text);
        Update([entries[k].tag]);
        Regroup(before, Field(entries[k].text), [entries[k].tag]);
        Regroup(start, Entries(PutKeyed, entries[..k]), PutKeyed(entries[k]));
      }
      Regroup(old(fed), Count(|entries|), Entries(PutKeyed, entries));
    }

    method HashIdentities(triples: seq<PluginIdentity>)
      modifies this
      ensures fed == old(fed) + Section(PutIdentity, triples)
    {
      hide Count, Field, Entries;
      HashCount(|triples|);
      ghost var start := fed;
      NoEntries(PutIdentity, triples);
      for k := 0 to |triples|
        invariant fed == start + Entries(PutIdentity, triples[..k])
      {
        ghost var before := fed;
        EntriesSnoc(PutIdentity, triples, k);
        HashText(triples[k].name);
        HashText(triples[k].version);
        HashText(triples[k].configuration);
        Regroup(before, Field(triples[k].name), Field(triples[k].version));
        Regroup(before, Field(triples[k].name) + Field(triples[k].version), Field(triples[k].configuration));
        Regroup(start, Entries(PutIdentity, triples[..k]), PutIdentity(triples[k]));
      }
      Regroup(old(fed), Count(|triples|), Entries(PutIdentity, triples));
    }

    method HashNames(names: seq<Text>)
      modifies this
      ensures fed == old(fed) + Section(Field, names)
    {
      hide Count, Field, Entries;
      HashCount(|names|);
      ghost var start := fed;
      NoEntries(Field, names);
      for k := 0 to |names|
        invariant fed == start + Entries(Field, names[..k])
      {
        EntriesSnoc(Field, names, k);
        HashText(names[k]);
        Regroup(start, Entries(Field, names[..k]), Field(names[k]));
      }
      Regroup(old(fed), Count(|names|), Entries(Field, names));
    }

    function Finalize(): seq<byte>
      reads this
    {
      hash(fed)
    }
  }

  lemma NoEntries<T>(put: T -> seq<byte>, entries: seq<T>)
    ensures forall fed: seq<byte> :: fed == fed + Entries(put, entries[..0])
    ensures entries[..|entries|] == entries
  {
  }

  lemma EntriesSnoc<T>(put: T -> seq<byte>, entries: seq<T>, k: nat)
    requires k < |entries|
    ensures Entries(put, entries[..k + 1]) == Entries(put, entries[..k]) + put(entries[k])
  {
    assert entries[..k + 1][..k] == entries[..k];
  }

  method ConfigurationDigest(c: Configuration, hash: seq<byte> -> seq<byte>) returns (digest: seq<byte>)
    ensures digest == hash(ConfigurationStream(c))
  {
    hide Section, Each;
    var hasher := new Hasher(hash);
    hasher.HashKeyedSection(Sort(CompareKeyed, RuleKeys(c)));
    hasher.HashKeyedSection(Sort(CompareKeyed, SeverityKeys(c)));
    assert hasher.fed == ConfigurationStream(c);
    digest := hasher.Finalize();
  }

  method PluginSetDigest(plugins: RegisteredPlugins, hash: seq<byte> -> seq<byte>) returns (digest: seq<byte>)
    ensures digest == hash(PluginSetStream(plugins))
  {
    hide Section, Each;
    var triples, excluded := Sort(CompareIdentity, plugins.admitted), Sort(CompareText, ExcludedNames(plugins));
    var hasher := new Hasher(hash);
    hasher.HashIdentities(triples);
    hasher.HashNames(excluded);
    assert hasher.fed == PluginSetStream(plugins);
    digest := hasher.Finalize();
  }
}
