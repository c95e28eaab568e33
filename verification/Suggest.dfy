/** The did-you-mean search: the nearest names of a pool within a bound,
    a tie reported as a tie, and the attempted key that wins. */
module Suggest {
  import opened Wrappers
  import opened Ordering
  import opened Distance

  datatype DidYouMean = Nothing | Unique(name: string) | Tie(names: seq<string>) {
    function Names(): seq<string> {
      match this
      case Nothing => []
      case Unique(name) => [name]
      case Tie(names) => names
    }

    /** A tie really is between several names. */
    predicate Honest() { Tie? ==> |names| >= 2 }
  }

  /** A pool name with its fold key and lowercase form computed once. */
  datatype PoolEntry = PoolEntry(original: string, folded: string, lowercase: string)

  /** Unicode lowercasing and the space's fold are the caller's. */
  function PoolEntries(names: seq<string>, fold: string -> string, lower: string -> string): seq<PoolEntry> {
    seq(|names|, i requires 0 <= i < |names| => PoolEntry(names[i], fold(names[i]), lower(names[i])))
  }

  function DistanceBound(name: string): nat {
    if |name| <= 4 then 1 else 2
  }

  // ----- what the search is for

  /** One search: what was written, its lowercase form, and the fold key to leave out. */
  datatype Query = Query(written: string, lowercase: string, excluded: Option<string>) {
    function Near(entry: PoolEntry): nat { OsaDistance(lowercase, entry.lowercase) }

    predicate InReach(entry: PoolEntry) {
      excluded != Some(entry.folded) && Near(entry) <= DistanceBound(written)
    }

    ghost predicate Wins(entry: PoolEntry, distance: nat) {
      InReach(entry) && Near(entry) == distance
    }

    /** The least in-bound distance of the pool, if any entry is in bound. */
    ghost predicate IsMinimum(pool: seq<PoolEntry>, minimum: Option<nat>) {
      match minimum
      case None => forall e :: e in pool ==> !InReach(e)
      case Some(d) => (exists e :: e in pool && Wins(e, d)) && forall e :: e in pool && InReach(e) ==> d <= Near(e)
    }

    ghost predicate AreWinners(pool: seq<PoolEntry>, minimum: Option<nat>, names: seq<string>) {
      forall name :: name in names <==> minimum.Some? && WinnerNamed(pool, minimum.value, name)
    }

    ghost predicate WinnerNamed(pool: seq<PoolEntry>, distance: nat, name: string) {
      exists e :: e in pool && Wins(e, distance) && e.original == name
    }

    /** The answer: exactly the winners' names, each once, in order. */
    ghost predicate IsAnswer(pool: seq<PoolEntry>, outcome: DidYouMean, minimum: Option<nat>) {
      && IsMinimum(pool, minimum)
      && AreWinners(pool, minimum, outcome.Names())
      && StrictlySorted(CompareString, outcome.Names())
      && outcome.Honest()
    }
  }

  // ----- the search

  method DidYouMeanPooled(written: string, pool: seq<PoolEntry>, excluded: Option<string>,
                          lower: string -> string, scratch: DistanceScratch)
    returns (outcome: DidYouMean, minimum: Option<nat>)
    modifies scratch
    ensures Query(written, lower(written), excluded).IsAnswer(pool, outcome, minimum)
    ensures forall name :: name in outcome.Names() <==>
              exists e :: (
                && e in pool && e.original == name && excluded != Some(e.folded)
                && OsaDistance(lower(written), e.lowercase) <= (if |written| <= 4 then 1 else 2)
                && forall o :: o in pool && excluded != Some(o.folded)
                     ==> OsaDistance(lower(written), e.lowercase) <= OsaDistance(lower(written), o.lowercase))
  {
    outcome, minimum := Search(written, pool, excluded, lower, scratch);
    hide OsaDistance;
    NearestEntries(written, lower(written), excluded, pool, outcome, minimum);
  }

  /** The loop over the pool. */
  method Search(written: string, pool: seq<PoolEntry>, excluded: Option<string>, lower: string -> string, scratch: DistanceScratch)
    returns (outcome: DidYouMean, minimum: Option<nat>)
    modifies scratch
    ensures Query(written, lower(written), excluded).IsAnswer(pool, outcome, minimum)
  {
    var bound := DistanceBound(written);
    var lowercase := lower(written);
    ghost var query := Query(written, lowercase, excluded);
    var names: seq<string> := [];
    minimum := None;
    for k := 0 to |pool|
      invariant query.IsMinimum(pool[..k], minimum)
      invariant query.AreWinners(pool[..k], minimum, names)
      invariant Distinct(names)
    {
      var entry := pool[k];
      assert pool[..k + 1] == pool[..k] + [entry];
      if excluded == Some(entry.folded) {
        KeepsAnswer(query, pool[..k], entry, minimum, names);
        continue;
      }
      var distance := scratch.BoundedDistance(lowercase, entry.lowercase, bound);
      if distance.None? {
        KeepsAnswer(query, pool[..k], entry, minimum, names);
        continue;
      }
      assert query.Wins(entry, distance.value);
      if minimum.Some? && distance.value > minimum.value {
        KeepsAnswer(query, pool[..k], entry, minimum, names);
      } else if minimum.Some? && distance.value == minimum.value {
        JoinsAnswer(query, pool[..k], entry, distance.value, names);
        if entry.original !in names {
          names := names + [entry.original];
        }
      } else {
        ReplacesAnswer(query, pool[..k], entry, minimum, distance.value);
        minimum, names := distance, [entry.original];
      }
    }
    assert pool[..|pool|] == pool;
    SortElements(CompareString, names);
    SortedDistinct(names);
    names := Sort(CompareString, names);
    outcome := if |names| == 0 then Nothing else if |names| == 1 then Unique(names[0]) else Tie(names);
    assert outcome.Names() == names;
  }

  ghost predicate Distinct(names: seq<string>) {
    forall i, j :: 0 <= i < j < |names| ==> names[i] != names[j]
  }

  lemma KeepsAnswer(query: Query, pool: seq<PoolEntry>, entry: PoolEntry, minimum: Option<nat>, names: seq<string>)
    requires query.IsMinimum(pool, minimum) && query.AreWinners(pool, minimum, names)
    requires query.InReach(entry) ==> minimum.Some? && minimum.value < query.Near(entry)
    ensures query.IsMinimum(pool + [entry], minimum) && query.AreWinners(pool + [entry], minimum, names)
  {
    if minimum.Some? {
      var winner :| winner in pool && query.Wins(winner, minimum.value);
      assert winner in pool + [entry];
      forall name ensures query.WinnerNamed(pool + [entry], minimum.value, name)
                          <==> query.WinnerNamed(pool, minimum.value, name)
      {
        if query.WinnerNamed(pool, minimum.value, name) {
          var e :| e in pool && query.Wins(e, minimum.value) && e.original == name;
          assert e in pool + [entry];
        }
      }
    }
  }

  lemma JoinsAnswer(query: Query, pool: seq<PoolEntry>, entry: PoolEntry, distance: nat, names: seq<string>)
    requires query.IsMinimum(pool, Some(distance)) && query.AreWinners(pool, Some(distance), names)
    requires query.Wins(entry, distance)
    ensures query.IsMinimum(pool + [entry], Some(distance))
    ensures entry.original in names ==> query.AreWinners(pool + [entry], Some(distance), names)
    ensures query.AreWinners(pool + [entry], Some(distance), names + [entry.original])
  {
    assert entry in pool + [entry];
    forall name ensures query.WinnerNamed(pool + [entry], distance, name)
                        <==> query.WinnerNamed(pool, distance, name) || name == entry.original
    {
      if query.WinnerNamed(pool, distance, name) {
        var e :| e in pool && query.Wins(e, distance) && e.original == name;
        assert e in pool + [entry];
      }
    }
  }

  lemma ReplacesAnswer(query: Query, pool: seq<PoolEntry>, entry: PoolEntry, minimum: Option<nat>, distance: nat)
    requires query.IsMinimum(pool, minimum) && (minimum.Some? ==> distance < minimum.value)
    requires query.Wins(entry, distance)
    ensures query.IsMinimum(pool + [entry], Some(distance))
    ensures query.AreWinners(pool + [entry], Some(distance), [entry.original])
  {
    assert entry in pool + [entry];
    forall name ensures query.WinnerNamed(pool + [entry], distance, name) <==> name == entry.original {
    }
  }

  lemma SortedDistinct(names: seq<string>)
    requires Distinct(names)
    ensures StrictlySorted(CompareString, Sort(CompareString, names))
  {
    var sorted := Sort(CompareString, names);
    CompareStringTotal();
    SortSorted(CompareString, names);
    SortPermutes(CompareString, names);
    forall i, j | 0 <= i < j < |sorted| ensures CompareString(sorted[i], sorted[j]) == Less {
      DistinctOnce(names, sorted[i]);
      if sorted[i] == sorted[j] { CountedTwice(sorted, i, j); }
    }
  }

  lemma {:induction false} DistinctOnce(names: seq<string>, name: string)
    requires Distinct(names)
    ensures multiset(names)[name] <= 1
  {
    if names == [] {
    } else {
      assert names == [names[0]] + names[1..];
      DistinctOnce(names[1..], name);
      if names[0] == name { assert name !in names[1..]; }
    }
  }

  // ----- the answer depends on the set of entries alone

  lemma MinimumUnique(query: Query, pool: seq<PoolEntry>, pool': seq<PoolEntry>, m: Option<nat>, m': Option<nat>)
    requires forall e :: e in pool <==> e in pool'
    requires query.IsMinimum(pool, m) && query.IsMinimum(pool', m')
    ensures m == m'
  {
    if m.Some? {
      var e :| e in pool && query.Wins(e, m.value);
      assert e in pool' && query.InReach(e);
    }
    if m'.Some? {
      var e :| e in pool' && query.Wins(e, m'.value);
      assert e in pool && query.InReach(e);
    }
  }

  lemma {:induction false} IncreasingUnique(s: seq<string>, t: seq<string>)
    requires StrictlySorted(CompareString, s) && StrictlySorted(CompareString, t) && forall x :: x in s <==> x in t
    ensures s == t
  {
    CompareStringTotal();
    assert t != [] ==> t[0] in t;
    assert s != [] ==> s[0] in s;
    if s == [] {
    } else {
      IncreasingHead(s, t);
      forall x ensures x in s[1..] <==> x in t[1..] {
        assert x in s <==> x == s[0] || x in s[1..];
        assert x in t <==> x == t[0] || x in t[1..];
        assert CompareString(s[0], s[0]) == Equal;
      }
      IncreasingUnique(s[1..], t[1..]);
    }
  }

  lemma IncreasingHead(s: seq<string>, t: seq<string>)
    requires StrictlySorted(CompareString, s) && StrictlySorted(CompareString, t)
    requires s != [] && t != [] && s[0] in t && t[0] in s
    ensures s[0] == t[0]
  {
    CompareStringTotal();
    var i :| 0 <= i < |t| && t[i] == s[0];
    var j :| 0 <= j < |s| && s[j] == t[0];
    assert CompareString(s[0], t[0]) == CompareString(t[0], s[0]).Flip();
    assert i > 0 ==> CompareString(t[0], t[i]) == Less;
    assert j > 0 ==> CompareString(s[0], s[j]) == Less;
  }

  /** One pool, one answer: reordering or repeating entries changes
      nothing, and the distance is missing exactly when there is no name. */
  lemma AnswerUnique(query: Query, pool: seq<PoolEntry>, pool': seq<PoolEntry>,
                     outcome: DidYouMean, minimum: Option<nat>, outcome': DidYouMean, minimum': Option<nat>)
    requires forall e :: e in pool <==> e in pool'
    requires query.IsAnswer(pool, outcome, minimum) && query.IsAnswer(pool', outcome', minimum')
    ensures outcome == outcome' && minimum == minimum'
    ensures minimum.None? <==> outcome.Nothing?
  {
    MinimumUnique(query, pool, pool', minimum, minimum');
    var names := outcome.Names();
    assert names == [] || names[0] in names;
    if minimum.Some? {
      var e :| e in pool && query.Wins(e, minimum.value);
      assert query.WinnerNamed(pool, minimum.value, e.original);
      assert e.original in outcome.Names();
      forall name ensures query.WinnerNamed(pool, minimum.value, name) <==> query.WinnerNamed(pool', minimum.value, name) {
      }
    }
    IncreasingUnique(outcome.Names(), outcome'.Names());
  }

  // ----- in terms of the declared names

  /** Over the pool of a space's names: a name is answered exactly when it is
      declared, does not fold to what is left out, is one edit away at most from
      a short written name or two from a longer one, and no other that does not
      fold to what is left out is nearer. */
  lemma {:induction false} NearestDeclaredNames(written: string, excluded: Option<string>, names: seq<string>, fold: string -> string,
                                                lower: string -> string, outcome: DidYouMean, minimum: Option<nat>)
    requires Query(written, lower(written), excluded).IsAnswer(PoolEntries(names, fold, lower), outcome, minimum)
    ensures forall name :: name in outcome.Names() <==>
              && name in names && excluded != Some(fold(name))
              && OsaDistance(lower(written), lower(name)) <= (if |written| <= 4 then 1 else 2)
              && forall other :: other in names && excluded != Some(fold(other))
                   ==> OsaDistance(lower(written), lower(name)) <= OsaDistance(lower(written), lower(other))
  {
    var pool := PoolEntries(names, fold, lower);
    var entry := (name: string) => PoolEntry(name, fold(name), lower(name));
    PoolOfNames(names, fold, lower);
    hide OsaDistance, PoolEntries;
    NearestEntries(written, lower(written), excluded, pool, outcome, minimum);
    forall name ensures name in outcome.Names() <==> name in names && IsNearest(lower(written), |written|, excluded, pool, entry(name)) {
      if name in names { assert entry(name).original == name; }
    }
  }

  /** Not left out, near enough, and no other that is not left out nearer. */
  ghost predicate IsNearest(lowercase: string, length: nat, excluded: Option<string>, pool: seq<PoolEntry>, e: PoolEntry) {
    && excluded != Some(e.folded)
    && OsaDistance(lowercase, e.lowercase) <= (if length <= 4 then 1 else 2)
    && forall o :: o in pool && excluded != Some(o.folded) ==> OsaDistance(lowercase, e.lowercase) <= OsaDistance(lowercase, o.lowercase)
  }

  lemma NearestEntries(written: string, lowercase: string, excluded: Option<string>, pool: seq<PoolEntry>,
                       outcome: DidYouMean, minimum: Option<nat>)
    requires Query(written, lowercase, excluded).IsAnswer(pool, outcome, minimum)
    ensures forall name :: name in outcome.Names() <==>
              exists e :: e in pool && e.original == name && IsNearest(lowercase, |written|, excluded, pool, e)
  {
    hide OsaDistance;
    var query := Query(written, lowercase, excluded);
    if minimum.Some? {
      var least :| least in pool && query.Wins(least, minimum.value);
      forall e | e in pool ensures IsNearest(lowercase, |written|, excluded, pool, e) <==> query.Wins(e, minimum.value) {}
    } else {
      forall e | e in pool ensures !IsNearest(lowercase, |written|, excluded, pool, e) { assert !query.InReach(e); }
    }
  }

  /** A tie is between several names, a unique answer is one. */
  lemma ShapeOfAnswer(query: Query, pool: seq<PoolEntry>, outcome: DidYouMean, minimum: Option<nat>)
    requires query.IsAnswer(pool, outcome, minimum)
    ensures outcome.Nothing? <==> minimum.None?
    ensures outcome.Unique? ==> forall e :: e in pool && query.Wins(e, minimum.value) ==> e.original == outcome.name
    ensures outcome.Tie? ==> |outcome.names| >= 2 && forall i, j :: 0 <= i < j < |outcome.names| ==> outcome.names[i] != outcome.names[j]
  {
    hide OsaDistance;
    AnswerUnique(query, pool, pool, outcome, minimum, outcome, minimum);
    if outcome.Unique? {
      forall e | e in pool && query.Wins(e, minimum.value) ensures e.original == outcome.name {
        assert e.original in outcome.Names();
      }
    }
    if outcome.Tie? { CompareStringTotal(); }
  }

  // ----- several attempted keys

  /** The search one attempted key makes: its own fold is left out. */
  function KeyQuery(key: string, fold: string -> string, lower: string -> string): Query {
    Query(key, lower(key), Some(fold(key)))
  }

  /** Among the first `upto` keys, none before `k` is as near as `d` and
      none after it nearer. */
  ghost predicate NearestAt(attempted: seq<string>, pool: seq<PoolEntry>, fold: string -> string,
                            lower: string -> string, upto: nat, k: nat, d: nat)
    requires k < upto <= |attempted|
  {
    && KeyQuery(attempted[k], fold, lower).IsMinimum(pool, Some(d))
    && (forall m, e :: 0 <= m < k && KeyQuery(attempted[m], fold, lower).IsMinimum(pool, Some(e)) ==> d < e)
    && (forall m, e :: k < m < upto && KeyQuery(attempted[m], fold, lower).IsMinimum(pool, Some(e)) ==> d <= e)
  }

  ghost predicate NoneNear(attempted: seq<string>, pool: seq<PoolEntry>, fold: string -> string,
                           lower: string -> string, upto: nat)
    requires upto <= |attempted|
  {
    forall m :: 0 <= m < upto ==> KeyQuery(attempted[m], fold, lower).IsMinimum(pool, None)
  }

  lemma NearestKept(attempted: seq<string>, pool: seq<PoolEntry>, fold: string -> string, lower: string -> string,
                    upto: nat, k: nat, d: nat, next: Option<nat>)
    requires k < upto < |attempted| && NearestAt(attempted, pool, fold, lower, upto, k, d)
    requires KeyQuery(attempted[upto], fold, lower).IsMinimum(pool, next)
    requires next.Some? ==> d <= next.value
    ensures NearestAt(attempted, pool, fold, lower, upto + 1, k, d)
  {
    var query := KeyQuery(attempted[upto], fold, lower);
    forall e | query.IsMinimum(pool, Some(e)) ensures d <= e { MinimumUnique(query, pool, pool, next, Some(e)); }
  }

  lemma NearestReplaced(attempted: seq<string>, pool: seq<PoolEntry>, fold: string -> string, lower: string -> string,
                        upto: nat, k: nat, d: nat, next: nat)
    requires k < upto < |attempted| && NearestAt(attempted, pool, fold, lower, upto, k, d)
    requires KeyQuery(attempted[upto], fold, lower).IsMinimum(pool, Some(next)) && next < d
    ensures NearestAt(attempted, pool, fold, lower, upto + 1, upto, next)
  {
    var query := KeyQuery(attempted[k], fold, lower);
    forall e | query.IsMinimum(pool, Some(e)) ensures next < e { MinimumUnique(query, pool, pool, Some(d), Some(e)); }
  }

  lemma NearestFirst(attempted: seq<string>, pool: seq<PoolEntry>, fold: string -> string, lower: string -> string,
                     upto: nat, next: nat)
    requires upto < |attempted| && NoneNear(attempted, pool, fold, lower, upto)
    requires KeyQuery(attempted[upto], fold, lower).IsMinimum(pool, Some(next))
    ensures NearestAt(attempted, pool, fold, lower, upto + 1, upto, next)
  {
    forall m, e | 0 <= m < upto ensures !KeyQuery(attempted[m], fold, lower).IsMinimum(pool, Some(e)) {
      assert KeyQuery(attempted[m], fold, lower).IsMinimum(pool, None);
    }
  }

  ghost predicate IsBest(attempted: seq<string>, pool: seq<PoolEntry>, fold: string -> string,
                         lower: string -> string, best: Option<(string, DidYouMean)>)
  {
    match best
    case None => NoneNear(attempted, pool, fold, lower, |attempted|)
    case Some((key, outcome)) =>
      exists k, d :: 0 <= k < |attempted| && attempted[k] == key && NearestAt(attempted, pool, fold, lower, |attempted|, k, d)
                     && KeyQuery(key, fold, lower).IsAnswer(pool, outcome, Some(d))
  }

  /** Declared, not the key itself under the space's fold, and near enough to it. */
  ghost predicate IsNear(key: string, name: string, names: seq<string>, fold: string -> string, lower: string -> string) {
    name in names && fold(name) != fold(key) && OsaDistance(lower(key), lower(name)) <= if |key| <= 4 then 1 else 2
  }

  /** The key has a near name, no key has a nearer one, and no earlier key one as near. */
  ghost predicate IsFirstNearest(attempted: seq<string>, k: nat, names: seq<string>, fold: string -> string, lower: string -> string)
    requires k < |attempted|
  {
    exists name :: (
      && IsNear(attempted[k], name, names, fold, lower)
      && forall m, other :: 0 <= m < |attempted| && IsNear(attempted[m], other, names, fold, lower) ==>
           var here, there := OsaDistance(lower(attempted[k]), lower(name)), OsaDistance(lower(attempted[m]), lower(other));
           here <= there && (m < k ==> here < there))
  }

  lemma FirstNearestMeans(attempted: seq<string>, k: nat, names: seq<string>, fold: string -> string, lower: string -> string,
                          m: nat, other: string)
    requires k < |attempted| && IsFirstNearest(attempted, k, names, fold, lower)
    requires m < |attempted| && IsNear(attempted[m], other, names, fold, lower)
    ensures exists name :: (
              && name in names && fold(name) != fold(attempted[k])
              && OsaDistance(lower(attempted[k]), lower(name)) <= (if |attempted[k]| <= 4 then 1 else 2)
              && OsaDistance(lower(attempted[k]), lower(name)) <= OsaDistance(lower(attempted[m]), lower(other))
              && (m < k ==> OsaDistance(lower(attempted[k]), lower(name)) < OsaDistance(lower(attempted[m]), lower(other))))
  {
    hide OsaDistance;
  }

  /** Over the pool of a space's names: nothing exactly when no declared name is
      near any key; otherwise the first key that has a name as near as any key
      has, with the names nearest to it. */
  lemma {:induction false} BestOfKeys(attempted: seq<string>, names: seq<string>, fold: string -> string, lower: string -> string,
                                      best: Option<(string, DidYouMean)>)
    requires IsBest(attempted, PoolEntries(names, fold, lower), fold, lower, best)
    ensures best.None? <==> forall m, name :: 0 <= m < |attempted| ==> !IsNear(attempted[m], name, names, fold, lower)
    ensures best.Some? ==> exists k :: (
              && 0 <= k < |attempted| && attempted[k] == best.value.0
              && IsFirstNearest(attempted, k, names, fold, lower)
              && forall name :: name in best.value.1.Names() <==>
                   && IsNear(attempted[k], name, names, fold, lower)
                   && forall other :: IsNear(attempted[k], other, names, fold, lower)
                        ==> OsaDistance(lower(attempted[k]), lower(name)) <= OsaDistance(lower(attempted[k]), lower(other)))
  {
    hide OsaDistance;
    var pool := PoolEntries(names, fold, lower);
    PoolOfNames(names, fold, lower);
    hide PoolEntries;
    if best.Some? {
      hide IsNear, PoolOf, IsFirstNearest;
      var k: nat, d: nat :| k < |attempted| && attempted[k] == best.value.0 && NearestAt(attempted, pool, fold, lower, |attempted|, k, d)
                            && KeyQuery(best.value.0, fold, lower).IsAnswer(pool, best.value.1, Some(d));
      BestKey(attempted, names, pool, fold, lower, best.value.1, k, d);
    } else {
      hide IsNear, KeyQuery, PoolOf, Query.IsMinimum;
      forall m | 0 <= m < |attempted| { MinimumOfKey(attempted[m], names, pool, fold, lower); }
    }
  }

  /** The pool is that of these names. */
  ghost predicate PoolOf(pool: seq<PoolEntry>, names: seq<string>, fold: string -> string, lower: string -> string) {
    && (forall name :: name in names ==> PoolEntry(name, fold(name), lower(name)) in pool)
    && (forall e :: e in pool ==> e.original in names && e == PoolEntry(e.original, fold(e.original), lower(e.original)))
  }

  lemma PoolOfNames(names: seq<string>, fold: string -> string, lower: string -> string)
    ensures PoolOf(PoolEntries(names, fold, lower), names, fold, lower)
  {
    var pool := PoolEntries(names, fold, lower);
    forall name | name in names ensures PoolEntry(name, fold(name), lower(name)) in pool {
      var i :| 0 <= i < |names| && names[i] == name;
      assert pool[i] == PoolEntry(name, fold(name), lower(name));
    }
  }

  lemma BestKey(attempted: seq<string>, names: seq<string>, pool: seq<PoolEntry>, fold: string -> string, lower: string -> string,
                outcome: DidYouMean, k: nat, d: nat)
    requires PoolOf(pool, names, fold, lower) && k < |attempted|
    requires NearestAt(attempted, pool, fold, lower, |attempted|, k, d)
    requires KeyQuery(attempted[k], fold, lower).IsAnswer(pool, outcome, Some(d))
    ensures IsFirstNearest(attempted, k, names, fold, lower)
    ensures forall name :: name in outcome.Names() <==>
              && IsNear(attempted[k], name, names, fold, lower)
              && forall other :: IsNear(attempted[k], other, names, fold, lower)
                   ==> OsaDistance(lower(attempted[k]), lower(name)) <= OsaDistance(lower(attempted[k]), lower(other))
  {
    hide OsaDistance, IsNear, KeyQuery, PoolOf, Query.IsMinimum, Query.IsAnswer;
    WinnersOfKey(attempted[k], names, pool, fold, lower, outcome, d);
    MinimumOfKey(attempted[k], names, pool, fold, lower);
    forall m, name | 0 <= m < |attempted| && IsNear(attempted[m], name, names, fold, lower)
      ensures d <= OsaDistance(lower(attempted[m]), lower(name)) && (m < k ==> d < OsaDistance(lower(attempted[m]), lower(name)))
    {
      MinimumOfKey(attempted[m], names, pool, fold, lower);
      var least := LeastOfPool(KeyQuery(attempted[m], fold, lower), pool);
      assert least == Some(least.value);
    }
    var winner :| IsNear(attempted[k], winner, names, fold, lower) && OsaDistance(lower(attempted[k]), lower(winner)) == d;
  }

  /** Every pool has a least distance, or nothing in bound. */
  lemma {:induction false} LeastOfPool(query: Query, pool: seq<PoolEntry>) returns (minimum: Option<nat>)
    ensures query.IsMinimum(pool, minimum)
  {
    if pool == [] {
      minimum := None;
    } else {
      var front, last := pool[..|pool| - 1], pool[|pool| - 1];
      assert pool == front + [last];
      var before := LeastOfPool(query, front);
      hide Query.InReach, Query.Near;
      minimum := if query.InReach(last) && (before.None? || query.Near(last) < before.value) then Some(query.Near(last)) else before;
      assert last in pool;
      if before.Some? {
        var winner :| winner in front && query.Wins(winner, before.value);
        assert winner in pool;
      }
    }
  }

  lemma MinimumOfKey(key: string, names: seq<string>, pool: seq<PoolEntry>, fold: string -> string, lower: string -> string)
    requires PoolOf(pool, names, fold, lower)
    ensures KeyQuery(key, fold, lower).IsMinimum(pool, None) <==> forall name :: !IsNear(key, name, names, fold, lower)
    ensures forall d: nat, name :: KeyQuery(key, fold, lower).IsMinimum(pool, Some(d)) && IsNear(key, name, names, fold, lower)
              ==> d <= OsaDistance(lower(key), lower(name))
  {
    hide OsaDistance;
    var query := KeyQuery(key, fold, lower);
    forall name | name in names
      ensures IsNear(key, name, names, fold, lower) <==> query.InReach(PoolEntry(name, fold(name), lower(name))) {}
    if query.IsMinimum(pool, None) {
      forall name ensures !IsNear(key, name, names, fold, lower) {}
    }
    if forall name :: !IsNear(key, name, names, fold, lower) {
      forall e | e in pool ensures !query.InReach(e) { assert !IsNear(key, e.original, names, fold, lower); }
    }
  }

  lemma WinnersOfKey(key: string, names: seq<string>, pool: seq<PoolEntry>, fold: string -> string, lower: string -> string,
                     outcome: DidYouMean, d: nat)
    requires PoolOf(pool, names, fold, lower)
    requires KeyQuery(key, fold, lower).IsAnswer(pool, outcome, Some(d))
    ensures forall name :: name in outcome.Names() <==>
              IsNear(key, name, names, fold, lower) && OsaDistance(lower(key), lower(name)) == d
    ensures exists name :: IsNear(key, name, names, fold, lower) && OsaDistance(lower(key), lower(name)) == d
  {
    hide OsaDistance;
    var query := KeyQuery(key, fold, lower);
    var least :| least in pool && query.Wins(least, d);
    assert IsNear(key, least.original, names, fold, lower);
    forall name ensures query.WinnerNamed(pool, d, name)
                   <==> IsNear(key, name, names, fold, lower) && OsaDistance(lower(key), lower(name)) == d
    {
      if name in names { assert PoolEntry(name, fold(name), lower(name)) in pool; }
    }
  }

  method DidYouMeanAcrossKeys(attempted: seq<string>, pool: seq<PoolEntry>, fold: string -> string,
                              lower: string -> string, scratch: DistanceScratch)
    returns (best: Option<(string, DidYouMean)>)
    modifies scratch
    ensures IsBest(attempted, pool, fold, lower, best)
  {
    best := None;
    var bestDistance := 0;
    ghost var at := 0;
    for k := 0 to |attempted|
      invariant best.None? ==> NoneNear(attempted, pool, fold, lower, k)
      invariant best.Some? ==> at < k && attempted[at] == best.value.0
      invariant best.Some? ==> NearestAt(attempted, pool, fold, lower, k, at, bestDistance)
      invariant best.Some? ==> KeyQuery(best.value.0, fold, lower).IsAnswer(pool, best.value.1, Some(bestDistance))
    {
      var key := attempted[k];
      var outcome, distance := DidYouMeanPooled(key, pool, Some(fold(key)), lower, scratch);
      assert KeyQuery(key, fold, lower).IsMinimum(pool, distance);
      if best.None? {
        if distance.Some? { NearestFirst(attempted, pool, fold, lower, k, distance.value); }
      } else if distance.Some? && distance.value < bestDistance {
        NearestReplaced(attempted, pool, fold, lower, k, at, bestDistance, distance.value);
      } else {
        NearestKept(attempted, pool, fold, lower, k, at, bestDistance, distance);
      }
      if distance.None? {
        continue;
      }
      var replace := best.None? || distance.value < bestDistance;
      if replace {
        best, bestDistance, at := Some((key, outcome)), distance.value, k;
      }
    }
  }

  /** The winner is determined: the first key in resolution order at the least distance. */
  lemma {:induction false} BestUnique(attempted: seq<string>, pool: seq<PoolEntry>, pool': seq<PoolEntry>, fold: string -> string,
                   lower: string -> string, best: Option<(string, DidYouMean)>, best': Option<(string, DidYouMean)>)
    requires forall e :: e in pool <==> e in pool'
    requires IsBest(attempted, pool, fold, lower, best) && IsBest(attempted, pool', fold, lower, best')
    ensures best == best'
  {
    forall m, e: Option<nat> | 0 <= m < |attempted|
      ensures KeyQuery(attempted[m], fold, lower).IsMinimum(pool, e) <==> KeyQuery(attempted[m], fold, lower).IsMinimum(pool', e)
    {
      SameMinimum(KeyQuery(attempted[m], fold, lower), pool, pool', e);
    }
    FoundAlike(attempted, pool, pool', fold, lower, best, best');
    FoundAlike(attempted, pool', pool, fold, lower, best', best);
    if best.Some? {
      var k, d :| 0 <= k < |attempted| && attempted[k] == best.value.0 && NearestAt(attempted, pool, fold, lower, |attempted|, k, d)
                  && KeyQuery(best.value.0, fold, lower).IsAnswer(pool, best.value.1, Some(d));
      var k', d' :| 0 <= k' < |attempted| && attempted[k'] == best'.value.0
                    && NearestAt(attempted, pool', fold, lower, |attempted|, k', d')
                    && KeyQuery(best'.value.0, fold, lower).IsAnswer(pool', best'.value.1, Some(d'));
      assert k == k';
      AnswerUnique(KeyQuery(attempted[k], fold, lower), pool, pool', best.value.1, Some(d), best'.value.1, Some(d'));
    }
  }

  lemma FoundAlike(attempted: seq<string>, pool: seq<PoolEntry>, pool': seq<PoolEntry>, fold: string -> string,
                   lower: string -> string, best: Option<(string, DidYouMean)>, best': Option<(string, DidYouMean)>)
    requires forall e :: e in pool <==> e in pool'
    requires IsBest(attempted, pool, fold, lower, best) && IsBest(attempted, pool', fold, lower, best')
    ensures best.Some? ==> best'.Some?
  {
    if best.Some? {
      var k, d :| 0 <= k < |attempted| && NearestAt(attempted, pool, fold, lower, |attempted|, k, d);
      var query := KeyQuery(attempted[k], fold, lower);
      if best'.None? {
        MinimumUnique(query, pool, pool', Some(d), None);
      }
    }
  }

  lemma SameMinimum(query: Query, pool: seq<PoolEntry>, pool': seq<PoolEntry>, minimum: Option<nat>)
    requires forall e :: e in pool <==> e in pool'
    ensures query.IsMinimum(pool, minimum) <==> query.IsMinimum(pool', minimum)
  {
  }
}
