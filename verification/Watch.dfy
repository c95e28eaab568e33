/** The watch loop: one channel of events, a worker that may finish, be
    cancelled or panic, bursts, a graceful shutdown, skipped persists, and
    respawns that replace the channel. */
module Watch {
  import opened Wrappers
  import opened Ordering
  import opened Vfs
  import opened Project
  import opened Session
  import Analysis
  import Render

  type AnalysisOutcome = Analysis.AnalysisOutcome

  datatype WatchEvent = Changed(path: Path) | Shutdown
  datatype BurstOutcome = Changes(paths: seq<Path>) | ShutdownRequested | Disconnected
  datatype Reply = Event(event: WatchEvent) | Timeout | Hung
  datatype Joined = Finished(outcome: AnalysisOutcome) | Cancelled | Panicked

  // ----- the world outside

  /** One thing that can happen outside: a save, which the operating system
      may or may not tell of, an event about nothing, or a signal. A tick ends
      a moment: what happens whenever time passes is the script up to the next. */
  datatype Action = Save(path: Path, entry: Option<Entry>, noticed: bool) | Spurious(path: Path) | Signal | Tick

  function EventOf(action: Action): seq<WatchEvent> {
    match action
    case Save(path, _, noticed) => if noticed then [Changed(path)] else []
    case Spurious(path) => [Changed(path)]
    case Signal => [Shutdown]
    case Tick => []
  }

  function DiskAfter(disk: Disk, action: Action): Disk {
    if action.Save? then Put(disk, action.path, action.entry) else disk
  }

  /** What an action writes without an event. */
  function Untold(action: Action): set<Path> {
    if action.Save? && !action.noticed then {action.path} else {}
  }

  /** What each thing does, and what it is heard as. */
  lemma ActionsAre(disk: Disk, p: Path, entry: Option<Entry>)
    ensures EventOf(Save(p, entry, true)) == [Changed(p)] && EventOf(Save(p, entry, false)) == [] == EventOf(Tick)
    ensures EventOf(Spurious(p)) == [Changed(p)] && EventOf(Signal) == [Shutdown]
    ensures forall noticed :: Get(DiskAfter(disk, Save(p, entry, noticed)), p) == entry
    ensures forall q, noticed :: q != p ==> Get(DiskAfter(disk, Save(p, entry, noticed)), q) == Get(disk, q)
    ensures DiskAfter(disk, Spurious(p)) == DiskAfter(disk, Signal) == DiskAfter(disk, Tick) == disk
    ensures Untold(Save(p, entry, false)) == {p}
    ensures Untold(Save(p, entry, true)) == Untold(Spurious(p)) == Untold(Signal) == Untold(Tick) == {}
  {
  }

  function DiskAfterAll(disk: Disk, actions: seq<Action>): Disk {
    if actions == [] then disk else DiskAfter(DiskAfterAll(disk, actions[..|actions| - 1]), actions[|actions| - 1])
  }

  /** How often a path came to exist. */
  function Appearances(disk: Disk, actions: seq<Action>, p: Path): nat {
    if actions == [] then 0
    else
      var front := actions[..|actions| - 1];
      Appearances(disk, front, p) + if p !in DiskAfterAll(disk, front) && p in DiskAfterAll(disk, actions) then 1 else 0
  }

  /** How many of the actions happen while time passes once. */
  function Moment(script: seq<Action>): (r: nat)
    ensures r <= |script|
  {
    if script == [] then 0 else if script[0].Tick? then 1 else 1 + Moment(script[1..])
  }

  function EventsOf(actions: seq<Action>): seq<WatchEvent> {
    if actions == [] then [] else EventsOf(actions[..|actions| - 1]) + EventOf(actions[|actions| - 1])
  }

  /** How many of the actions are signals. */
  function Signals(actions: seq<Action>): nat {
    if actions == [] then 0 else Signals(actions[..|actions| - 1]) + if actions[|actions| - 1].Signal? then 1 else 0
  }

  ghost function Shutdowns(events: seq<WatchEvent>): nat { multiset(events)[Shutdown] }

  ghost function PathsOf(events: seq<WatchEvent>): set<Path> {
    set e | e in events && e.Changed? :: e.path
  }

  ghost function Elements(paths: seq<Path>): set<Path> { set p | p in paths }

  lemma PathsOfConcat(a: seq<WatchEvent>, b: seq<WatchEvent>)
    ensures PathsOf(a + b) == PathsOf(a) + PathsOf(b)
  {
  }

  lemma ElementsConcat(a: seq<Path>, b: seq<Path>)
    ensures Elements(a + b) == Elements(a) + Elements(b)
  {
  }

  /** Off the later pending paths nothing was pending before, and the disk is as it was. */
  ghost predicate Later(disk: Disk, pending: set<Path>, disk': Disk, pending': set<Path>) {
    forall p :: p !in pending' ==> p !in pending && Get(disk, p) == Get(disk', p)
  }

  lemma LaterYet(disk: Disk, pending: set<Path>, disk': Disk, pending': set<Path>, disk'': Disk, pending'': set<Path>)
    requires Later(disk, pending, disk', pending') && Later(disk', pending', disk'', pending'')
    ensures Later(disk, pending, disk'', pending'')
  {
  }

  lemma LaterNow(disk: Disk, pending: set<Path>)
    ensures Later(disk, pending, disk, pending)
  {
  }

  /** Time passing leaves a session in step off what is pending. */
  lemma LaterInStep(root: Path, discover: Disk -> Discovery, seen: Picture, disk: Disk, pending: set<Path>,
                    disk': Disk, pending': set<Path>)
    requires InStep(root, discover, Scene(seen, disk, pending)) && Later(disk, pending, disk', pending')
    ensures InStep(root, discover, Scene(seen, disk', pending'))
  {
    forall p | p !in pending' ensures Tracks(root, seen, disk', p) {
      WriteTracks(root, seen, disk, disk', p);
    }
  }

  class Environment {
    /** Everything that happens outside, from first to last, and the disk it starts on. */
    const plan: seq<Action>
    const first: Disk
    var disk: Disk
    /** What of it is still to happen. */
    var script: seq<Action>
    var queue: seq<WatchEvent>
    ghost var ran: seq<Action>
    /** Every event received. */
    ghost var log: seq<WatchEvent>
    /** Every event a respawn dropped. */
    ghost var dropped: seq<WatchEvent>
    /** Saves a respawn dropped before the session read them, not read since. */
    ghost var lost: set<Path>
    /** Saves no event told of, or that no absorption follows, not read since. */
    ghost var unseen: set<Path>
    /** The disk as the watch last registered its paths on it. */
    ghost var registeredOn: Disk
    /** How often each path made the watch respawn over roots that had not moved. */
    ghost var retries: multiset<Path>

    /** Every event sent was received, is still queued, or was dropped, and no
        path was retried more often than it came to exist. */
    ghost predicate Valid()
      reads this
    {
      && ran + script == plan && disk == DiskAfterAll(first, ran)
      && Accounted(ran, log, queue, dropped) && RetriesBounded(retries, registeredOn, disk, first, ran)
    }

    /** The first disk may differ from one that was read before, where nothing
        told of it. */
    constructor (disk: Disk, script: seq<Action>, ghost unseen: set<Path>)
      ensures Valid() && plan == script && this.script == script && this.disk == disk == first == registeredOn && ran == []
      ensures queue == [] && log == [] && dropped == [] && lost == {} && this.unseen == unseen && retries == multiset{}
    {
      plan, first, this.script, this.disk := script, disk, script, disk;
      queue, ran, log, dropped, lost, this.unseen := [], [], [], [], {}, unseen;
      registeredOn, retries := disk, multiset{};
    }

    ghost function Remaining(): nat
      reads this
    {
      2 * |script| + |queue|
    }

    /** Saves the session has not read, or need not have. */
    ghost function Pending(): set<Path>
      reads this
    {
      unseen + lost + PathsOf(queue)
    }

    method Act()
      requires Valid() && script != []
      modifies this`disk, this`script, this`queue, this`ran, this`unseen
      ensures Valid() && script == old(script)[1..] && ran == old(ran) + [old(script)[0]]
      ensures queue == old(queue) + EventOf(old(script)[0]) && disk == DiskAfter(old(disk), old(script)[0])
      ensures unseen == old(unseen) + Untold(old(script)[0])
      ensures Remaining() < old(Remaining())
      ensures Later(old(disk), old(Pending()), disk, Pending())
    {
      hide Accounted, EventsOf, EventOf, DiskAfter, DiskAfterAll, RetriesBounded, Untold, Later, PathsOf;
      var action := script[0];
      assert script == [action] + script[1..];
      Sent(ran, action, log, queue, dropped);
      StillBounded(retries, registeredOn, disk, first, ran, action);
      ActedLater(disk, unseen + lost + PathsOf(queue), action);
      AtMostOneEvent(action);
      disk := DiskAfter(disk, action);
      unseen := unseen + Untold(action);
      queue := queue + EventOf(action);
      script, ran := script[1..], ran + [action];
      assert Pending() == old(Pending()) + Untold(action) + PathsOf(EventOf(action));
    }

    /** Some time passes: everything up to the next tick happens. */
    method Advance()
      requires Valid()
      modifies this`disk, this`script, this`queue, this`ran, this`unseen
      ensures Valid() && Remaining() <= old(Remaining())
      ensures Later(old(disk), old(Pending()), disk, Pending())
      ensures var m := Moment(old(script));
              && script == old(script)[m..] && ran == old(ran) + old(script)[..m]
              && disk == DiskAfterAll(old(disk), old(script)[..m]) && queue == old(queue) + EventsOf(old(script)[..m])
    {
      hide EventsOf, EventOf, DiskAfter, DiskAfterAll, RetriesBounded, Untold, Later, PathsOf, Valid;
      ghost var disk0, pending0, script0, m := disk, Pending(), script, 0;
      var passing := true;
      NoMoves(disk0, script0);
      LaterNow(disk0, pending0);
      while passing && script != []
        invariant Valid() && Remaining() <= old(Remaining())
        invariant Later(disk0, pending0, disk, Pending())
        invariant m <= |script0| && script == script0[m..] && ran == old(ran) + script0[..m]
        invariant disk == DiskAfterAll(disk0, script0[..m]) && queue == old(queue) + EventsOf(script0[..m])
        invariant Moment(script0) == m + if passing then Moment(script) else 0
        decreases |script|
      {
        MovesSnoc(disk0, script0, m);
        passing := !script[0].Tick?;
        ghost var disk', pending' := disk, Pending();
        Act();
        LaterYet(disk0, pending0, disk', pending', disk, Pending());
        m := m + 1;
      }
    }

    lemma NothingHeardYet()
      ensures PathsOf([]) == {}
    {
    }

    method Pop() returns (event: WatchEvent)
      requires Valid() && queue != []
      modifies this`queue, this`log
      ensures Valid() && event == old(queue)[0] && queue == old(queue)[1..]
      ensures log == old(log) + [event] && Remaining() < old(Remaining())
      ensures Pending() + PathsOf([event]) == old(Pending())
    {
      hide EventsOf, DiskAfterAll, RetriesBounded, PathsOf;
      event := queue[0];
      Popped(queue, log);
      queue := queue[1..];
      log := log + [event];
    }

    /** `try_recv`: an event already waiting, if there is one. */
    method TryRecv() returns (event: Option<WatchEvent>)
      requires Valid()
      modifies this`disk, this`script, this`queue, this`ran, this`unseen, this`log
      ensures Valid()
      ensures log == old(log) + HeardEvent(event) && Remaining() <= old(Remaining())
      ensures Later(old(disk), old(Pending()), disk, Pending() + PathsOf(HeardEvent(event)))
      ensures event.Some? ==> Remaining() < old(Remaining())
      ensures old(queue) != [] ==> event == Some(old(queue)[0])
    {
      hide EventsOf, DiskAfterAll, PathsOf, Valid;
      NothingHeardYet();
      Advance();
      if queue == [] {
        return None;
      }
      var first := Pop();
      event := Some(first);
    }

    /** `recv`: blocks until an event arrives, or the last sender is gone. */
    method Recv() returns (event: Option<WatchEvent>)
      requires Valid()
      modifies this`disk, this`script, this`queue, this`ran, this`unseen, this`log
      ensures Valid()
      ensures log == old(log) + HeardEvent(event) && Remaining() <= old(Remaining())
      ensures Later(old(disk), old(Pending()), disk, Pending() + PathsOf(HeardEvent(event)))
      ensures event.Some? ==> Remaining() < old(Remaining())
      ensures event.None? ==> script == [] && queue == []
      ensures old(queue) != [] ==> event == Some(old(queue)[0])
    {
      hide EventsOf, DiskAfterAll, PathsOf, Valid;
      NothingHeardYet();
      ghost var disk0, pending0 := disk, Pending();
      while queue == [] && script != []
        invariant Valid() && Remaining() <= old(Remaining()) && log == old(log)
        invariant Later(disk0, pending0, disk, Pending())
        invariant old(queue) != [] ==> queue == old(queue)
        decreases |script|
      {
        Act();
      }
      if queue == [] {
        return None;
      }
      var first := Pop();
      event := Some(first);
    }

    /** `recv_timeout`: an event, or none before the timeout, or no sender left. */
    method RecvTimeout() returns (reply: Reply)
      requires Valid()
      modifies this`disk, this`script, this`queue, this`ran, this`unseen, this`log
      ensures Valid()
      ensures log == old(log) + Heard(reply) && Remaining() <= old(Remaining())
      ensures Later(old(disk), old(Pending()), disk, Pending() + PathsOf(Heard(reply)))
      ensures !reply.Hung? ==> Remaining() < old(Remaining())
      ensures reply.Hung? ==> script == [] && queue == []
      ensures old(queue) != [] ==> reply == Event(old(queue)[0])
    {
      hide EventsOf, DiskAfterAll, PathsOf, Valid;
      NothingHeardYet();
      Advance();
      if queue != [] {
        var first := Pop();
        return Event(first);
      }
      if script == [] {
        return Hung;
      }
      Act();
      reply := Timeout;
    }

    /** A new channel takes over, and what is queued on the old one goes with it. */
    method ReplaceChannel(ghost unread: set<Path>)
      requires Valid()
      modifies this`queue, this`dropped, this`lost
      ensures Valid() && queue == [] && dropped == old(dropped) + old(queue) && lost == old(lost) + unread
      ensures Remaining() <= old(Remaining())
      ensures Pending() == unseen + (old(lost) + unread) + PathsOf([])
    {
      hide EventsOf, DiskAfterAll, RetriesBounded, PathsOf;
      lost, dropped := lost + unread, dropped + queue;
      queue := [];
    }

    /** The watch registers its paths on the disk as it is, some of them because
        they were refused while absent and have come to exist. */
    ghost method Register(retried: set<Path>)
      requires Valid() && forall p :: p in retried ==> p !in registeredOn && p in disk
      modifies this`registeredOn, this`retries
      ensures Valid() && registeredOn == disk && retries == old(retries) + multiset(retried)
      ensures Remaining() == old(Remaining()) && Pending() == old(Pending())
    {
      hide EventsOf, DiskAfterAll, RetriesBounded;
      RetryingKeepsBound(retries, registeredOn, disk, first, ran, retried);
      registeredOn, retries := disk, retries + multiset(retried);
    }

    /** The session has absorbed a burst: what it read of it is no longer
        lost or unseen, and what it does not follow is unseen. */
    ghost method HaveRead(root: Path, d: Discovery, changed: seq<Path>)
      modifies this`lost, this`unseen
      ensures lost == StillStale(root, d, changed, old(lost))
      ensures unseen == StillUnseen(root, d, changed, old(unseen))
    {
      lost, unseen := StillStale(root, d, changed, lost), StillUnseen(root, d, changed, unseen);
    }
  }

  ghost predicate Accounted(ran: seq<Action>, log: seq<WatchEvent>, queue: seq<WatchEvent>, dropped: seq<WatchEvent>) {
    multiset(EventsOf(ran)) == multiset(log) + multiset(queue) + multiset(dropped)
  }

  /** A path that was absent when it was registered and exists now came to exist
      once more than it was retried. */
  ghost predicate RetriesBounded(retries: multiset<Path>, registeredOn: Disk, disk: Disk, first: Disk, ran: seq<Action>) {
    forall p :: retries[p] + (if p !in registeredOn && p in disk then 1 else 0) <= Appearances(first, ran, p)
  }

  lemma StillBounded(retries: multiset<Path>, registeredOn: Disk, disk: Disk, first: Disk, ran: seq<Action>, action: Action)
    requires disk == DiskAfterAll(first, ran) && RetriesBounded(retries, registeredOn, disk, first, ran)
    ensures DiskAfterAll(first, ran + [action]) == DiskAfter(disk, action)
    ensures RetriesBounded(retries, registeredOn, DiskAfter(disk, action), first, ran + [action])
  {
    hide DiskAfter;
    assert (ran + [action])[..|ran|] == ran;
  }

  lemma RetryingKeepsBound(retries: multiset<Path>, registeredOn: Disk, disk: Disk, first: Disk, ran: seq<Action>, retried: set<Path>)
    requires RetriesBounded(retries, registeredOn, disk, first, ran)
    requires forall p :: p in retried ==> p !in registeredOn && p in disk
    ensures RetriesBounded(retries + multiset(retried), disk, disk, first, ran)
  {
    hide Appearances;
    forall p ensures (retries + multiset(retried))[p] == retries[p] + if p in retried then 1 else 0 {}
  }

  lemma NoMoves(disk: Disk, script: seq<Action>)
    ensures DiskAfterAll(disk, script[..0]) == disk && EventsOf(script[..0]) == []
  {
  }

  lemma MovesSnoc(disk: Disk, script: seq<Action>, m: nat)
    requires m < |script|
    ensures DiskAfterAll(disk, script[..m + 1]) == DiskAfter(DiskAfterAll(disk, script[..m]), script[m])
    ensures EventsOf(script[..m + 1]) == EventsOf(script[..m]) + EventOf(script[m])
  {
    assert script[..m + 1][..m] == script[..m];
  }

  ghost function StillUnseen(root: Path, d: Discovery, changed: seq<Path>, unseen: set<Path>): set<Path> {
    StillStale(root, d, changed, unseen + Elements(changed))
  }

  lemma Popped(queue: seq<WatchEvent>, log: seq<WatchEvent>)
    requires queue != []
    ensures multiset(log + [queue[0]]) + multiset(queue[1..]) == multiset(log) + multiset(queue)
    ensures PathsOf(queue) == PathsOf([queue[0]]) + PathsOf(queue[1..])
  {
    assert queue == [queue[0]] + queue[1..];
    PathsOfConcat([queue[0]], queue[1..]);
  }

  lemma AtMostOneEvent(action: Action)
    ensures |EventOf(action)| <= 1
  {
  }

  /** Whatever an action writes is pending afterwards. */
  lemma ActedLater(disk: Disk, pending: set<Path>, action: Action)
    ensures Later(disk, pending, DiskAfter(disk, action), pending + Untold(action) + PathsOf(EventOf(action)))
  {
    if action.Save? { OnePath(action.path); }
  }

  /** Sending one more event keeps the accounts. */
  lemma Sent(ran: seq<Action>, action: Action, log: seq<WatchEvent>, queue: seq<WatchEvent>, dropped: seq<WatchEvent>)
    requires Accounted(ran, log, queue, dropped)
    ensures Accounted(ran + [action], log, queue + EventOf(action), dropped)
    ensures EventsOf(ran + [action]) == EventsOf(ran) + EventOf(action)
    ensures PathsOf(queue + EventOf(action)) == PathsOf(queue) + PathsOf(EventOf(action))
  {
    assert (ran + [action])[..|ran|] == ran;
    PathsOfConcat(queue, EventOf(action));
  }

  lemma {:induction false} SignalsSent(actions: seq<Action>)
    ensures Shutdowns(EventsOf(actions)) == Signals(actions)
  {
    if actions == [] {
    } else {
      SignalsSent(actions[..|actions| - 1]);
    }
  }

  /** Every signal that was raised was heard, is still queued, or was dropped
      by a respawn. */
  lemma SignalsAccounted(env: Environment)
    requires env.Valid()
    ensures Signals(env.ran) == Shutdowns(env.log) + Shutdowns(env.queue) + Shutdowns(env.dropped)
  {
    SignalsSent(env.ran);
  }

  ghost function Heard(reply: Reply): seq<WatchEvent> {
    if reply.Event? then [reply.event] else []
  }

  ghost function HeardEvent(event: Option<WatchEvent>): seq<WatchEvent> {
    if event.Some? then [event.value] else []
  }

  // ----- bursts

  /** Collects what arrives within the window, then sorts and deduplicates.
      Stops at a shutdown, and answers whether there was one. */
  method DrainBurst(env: Environment, changed: seq<Path>)
    returns (burst: seq<Path>, shutdown: bool, ghost heard: seq<WatchEvent>)
    requires env.Valid()
    modifies env`disk, env`script, env`queue, env`ran, env`unseen, env`log
    ensures env.Valid()
    ensures env.log == old(env.log) + heard && env.Remaining() <= old(env.Remaining())
    ensures Later(old(env.disk), old(env.Pending()), env.disk, env.Pending() + PathsOf(heard))
    ensures Elements(burst) == Elements(changed) + PathsOf(heard)
    ensures StrictlySorted(ComparePath, burst)
    ensures shutdown <==> Shutdown in heard
    ensures changed != [] ==> burst != []
  {
    hide Later, PathsOf, Elements, Environment.Pending, Environment.Remaining, Environment.Valid, StrictlySorted;
    burst, shutdown, heard := changed, false, [];
    NothingHeard(env);
    var open := true;
    while open
      invariant env.Valid() && env.log == old(env.log) + heard && env.Remaining() <= old(env.Remaining())
      invariant Later(old(env.disk), old(env.Pending()), env.disk, env.Pending() + PathsOf(heard))
      invariant Elements(burst) == Elements(changed) + PathsOf(heard)
      invariant shutdown <==> Shutdown in heard
      invariant shutdown ==> !open
      decreases open, env.Remaining()
    {
      ghost var disk, pending := env.disk, env.Pending();
      var reply := env.RecvTimeout();
      HearMore(old(env.disk), old(env.Pending()), disk, pending, env.disk, env.Pending(), heard, Heard(reply));
      match reply {
        case Event(Changed(path)) =>
          BurstGrows(burst, changed, heard, path);
          burst := burst + [path];
        case Event(Shutdown) =>
          BurstKeeps(burst, changed, heard, Heard(reply));
          shutdown := true;
          open := false;
        case Timeout =>
          BurstKeeps(burst, changed, heard, Heard(reply));
          open := false;
        case Hung =>
          BurstKeeps(burst, changed, heard, Heard(reply));
          open := false;
      }
      heard := heard + Heard(reply);
    }
    SortedBurst(burst);
    Inhabited(changed, Dedup(Sort(ComparePath, burst)), PathsOf(heard));
    burst := Dedup(Sort(ComparePath, burst));
  }

  lemma NothingHeard(env: Environment)
    ensures Later(env.disk, env.Pending(), env.disk, env.Pending() + PathsOf([]))
    ensures PathsOf([]) == {}
  {
  }

  /** Hearing one more reply accounts for exactly that reply. */
  lemma HearMore(disk0: Disk, pending0: set<Path>, disk: Disk, pending: set<Path>, disk': Disk, pending': set<Path>,
                 heard: seq<WatchEvent>, more: seq<WatchEvent>)
    requires Later(disk0, pending0, disk, pending + PathsOf(heard))
    requires Later(disk, pending, disk', pending' + PathsOf(more))
    ensures Later(disk0, pending0, disk', pending' + PathsOf(heard + more))
  {
    PathsOfConcat(heard, more);
  }

  lemma BurstGrows(burst: seq<Path>, changed: seq<Path>, heard: seq<WatchEvent>, path: Path)
    requires Elements(burst) == Elements(changed) + PathsOf(heard)
    ensures Elements(burst + [path]) == Elements(changed) + PathsOf(heard + [Changed(path)])
  {
    PathsOfConcat(heard, [Changed(path)]);
    OnePath(path);
    ElementsConcat(burst, [path]);
  }

  lemma OnePath(path: Path)
    ensures PathsOf([Changed(path)]) == {path} && Elements([path]) == {path}
  {
    assert Changed(path) in [Changed(path)];
  }

  lemma BurstKeeps(burst: seq<Path>, changed: seq<Path>, heard: seq<WatchEvent>, more: seq<WatchEvent>)
    requires Elements(burst) == Elements(changed) + PathsOf(heard)
    requires more == [] || more == [Shutdown]
    ensures Elements(burst) == Elements(changed) + PathsOf(heard + more)
  {
    PathsOfConcat(heard, more);
  }

  lemma Inhabited(changed: seq<Path>, burst: seq<Path>, more: set<Path>)
    requires Elements(burst) == Elements(changed) + more
    ensures changed != [] ==> burst != []
  {
    if changed != [] { assert changed[0] in Elements(burst); }
  }

  lemma SortedBurst(burst: seq<Path>)
    ensures Elements(Dedup(Sort(ComparePath, burst))) == Elements(burst)
    ensures StrictlySorted(ComparePath, Dedup(Sort(ComparePath, burst)))
  {
    ComparePathTotal();
    SortSorted(ComparePath, burst);
    DedupSorted(ComparePath, Sort(ComparePath, burst));
    SortElements(ComparePath, burst);
    DedupElements(Sort(ComparePath, burst));
  }

  /** Collects the rest of a burst that has already started. What a shutdown
      interrupts is discarded. */
  method BurstStartingWith(env: Environment, first: Path) returns (burst: BurstOutcome, ghost heard: seq<WatchEvent>)
    requires env.Valid()
    modifies env`disk, env`script, env`queue, env`ran, env`unseen, env`log
    ensures env.Valid()
    ensures env.log == old(env.log) + heard && env.Remaining() <= old(env.Remaining())
    ensures Later(old(env.disk), old(env.Pending()), env.disk, env.Pending() + PathsOf(heard))
    ensures burst.ShutdownRequested? <==> Shutdown in heard
    ensures !burst.Disconnected?
    ensures burst.Changes? ==> burst.paths != [] && StrictlySorted(ComparePath, burst.paths)
    ensures burst.Changes? ==> Elements(burst.paths) == {first} + PathsOf(heard)
  {
    hide Later, PathsOf, Elements, Environment.Pending, Environment.Remaining, Environment.Valid, StrictlySorted;
    OnePath(first);
    var changed, shutdown;
    changed, shutdown, heard := DrainBurst(env, [first]);
    burst := if shutdown then ShutdownRequested else Changes(changed);
  }

  /** Blocks until something changes, then collects the rest of the burst. */
  method WaitForABurst(env: Environment) returns (burst: BurstOutcome, ghost heard: seq<WatchEvent>)
    requires env.Valid()
    modifies env`disk, env`script, env`queue, env`ran, env`unseen, env`log
    ensures env.Valid()
    ensures env.log == old(env.log) + heard && env.Remaining() <= old(env.Remaining())
    ensures Later(old(env.disk), old(env.Pending()), env.disk, env.Pending() + PathsOf(heard))
    ensures burst.ShutdownRequested? <==> Shutdown in heard
    ensures burst.Disconnected? ==> env.script == [] && env.queue == []
    ensures old(env.queue) != [] ==> heard != [] && heard[0] == old(env.queue)[0]
    ensures burst.Changes? ==> burst.paths != [] && StrictlySorted(ComparePath, burst.paths)
    ensures burst.Changes? ==> env.Remaining() < old(env.Remaining()) && Elements(burst.paths) == PathsOf(heard)
  {
    hide Later, PathsOf, Elements, Environment.Pending, Environment.Remaining, Environment.Valid;
    var first := env.Recv();
    match first
    case None =>
      burst, heard := Disconnected, [];
    case Some(Shutdown) =>
      burst, heard := ShutdownRequested, [Shutdown];
    case Some(Changed(path)) =>
      ghost var disk, pending := env.disk, env.Pending();
      burst, heard := BurstStartingWith(env, path);
      OnePath(path);
      PathsOfConcat([Changed(path)], heard);
      HearMore(old(env.disk), old(env.Pending()), disk, pending, env.disk, env.Pending(), [Changed(path)], heard);
      heard := [Changed(path)] + heard;
  }

  // ----- the worker

  /** Polls while the worker runs: until a burst has been collected, a
      shutdown or the channel's end is seen, or the worker is done. What already
      waits is heard however soon the worker is done. */
  method Attend(env: Environment) returns (changed: seq<Path>, shutdown: bool, ghost heard: seq<WatchEvent>)
    requires env.Valid()
    modifies env`disk, env`script, env`queue, env`ran, env`unseen, env`log
    ensures env.Valid()
    ensures env.log == old(env.log) + heard && env.Remaining() <= old(env.Remaining())
    ensures Later(old(env.disk), old(env.Pending()), env.disk, env.Pending() + PathsOf(heard))
    ensures Elements(changed) == PathsOf(heard)
    ensures shutdown <==> Shutdown in heard
    ensures changed != [] ==> env.Remaining() < old(env.Remaining())
    ensures old(env.queue) != [] ==> heard != [] && heard[0] == old(env.queue)[0]
  {
    hide Later, PathsOf, Elements, Environment.Pending, Environment.Remaining, Environment.Valid, StrictlySorted;
    changed, shutdown, heard := [], false, [];
    NothingHeard(env);
    NoElements();
    var attending := true;
    while attending
      invariant env.Valid() && env.log == old(env.log) + heard && env.Remaining() <= old(env.Remaining())
      invariant Later(old(env.disk), old(env.Pending()), env.disk, env.Pending() + PathsOf(heard))
      invariant Elements(changed) == PathsOf(heard)
      invariant shutdown <==> Shutdown in heard
      invariant attending ==> changed == [] && heard == []
      invariant changed != [] ==> env.Remaining() < old(env.Remaining())
      invariant old(env.queue) != [] ==> if attending then env.queue == old(env.queue) else heard != [] && heard[0] == old(env.queue)[0]
      decreases attending, env.Remaining()
    {
      ghost var disk, pending := env.disk, env.Pending();
      var reply := env.RecvTimeout();
      HearMore(old(env.disk), old(env.Pending()), disk, pending, env.disk, env.Pending(), heard, Heard(reply));
      assert heard + Heard(reply) == Heard(reply);
      match reply {
        case Event(Changed(path)) =>
          ghost var disk', pending' := env.disk, env.Pending();
          ghost var rest;
          heard := [Changed(path)];
          changed, shutdown, rest := DrainBurst(env, [path]);
          OnePath(path);
          PathsOfConcat(heard, rest);
          HearMore(old(env.disk), old(env.Pending()), disk', pending', env.disk, env.Pending(), heard, rest);
          heard := heard + rest;
          attending := false;
        case Event(Shutdown) =>
          shutdown, heard, attending := true, [Shutdown], false;
          OneShutdown();
        case Timeout =>
          var finished: bool := *;
          attending := !finished;
        case Hung =>
          attending := false;
      }
    }
  }

  lemma NoElements()
    ensures Elements([]) == {} && PathsOf([]) == {}
  {
  }

  lemma OneShutdown()
    ensures PathsOf([Shutdown]) == {}
  {
  }

  /** The worker's end: its outcome over the inputs it started with, a
      cancellation, or a panic. */
  method Join(env: Environment, analyze: Inputs -> AnalysisOutcome, inputs: Inputs) returns (joined: Joined, ghost passed: seq<Action>)
    requires env.Valid()
    modifies env`disk, env`script, env`queue, env`ran, env`unseen
    ensures env.Valid()
    ensures joined.Finished? ==> joined.outcome == analyze(inputs)
    ensures joined.Cancelled? ==> env.Remaining() < old(env.Remaining())
    ensures env.Remaining() <= old(env.Remaining())
    ensures Later(old(env.disk), old(env.Pending()), env.disk, env.Pending())
    ensures Elapsed(passed, old(env.ran), old(env.disk), old(env.queue), env.ran, env.disk, env.queue)
    ensures old(env.script)[..Moment(old(env.script))] <= passed
  {
    hide Later, Elapsed, Environment.Pending, Environment.Remaining, Environment.Valid;
    passed := env.script[..Moment(env.script)];
    ghost var ran, disk, queue := env.ran, env.disk, env.queue;
    env.Advance();
    ItElapsed(passed, ran, disk, queue);
    var cancelled: bool, panicked: bool := *, *;
    if cancelled && env.script != [] {
      ghost var disk', pending', action := env.disk, env.Pending(), env.script[0];
      env.Act();
      LaterYet(disk, old(env.Pending()), disk', pending', env.disk, env.Pending());
      OneElapsed(passed, ran, disk, queue, action);
      passed := passed + [action];
      return Cancelled, passed;
    }
    joined := if panicked then Panicked else Finished(analyze(inputs));
  }

  /** What passed: it is what ran since, the disk is as it leaves it, and its
      events joined the queue. */
  ghost predicate Elapsed(passed: seq<Action>, ran: seq<Action>, disk: Disk, queue: seq<WatchEvent>,
                          ran': seq<Action>, disk': Disk, queue': seq<WatchEvent>) {
    ran' == ran + passed && disk' == DiskAfterAll(disk, passed) && queue' == queue + EventsOf(passed)
  }

  lemma ItElapsed(passed: seq<Action>, ran: seq<Action>, disk: Disk, queue: seq<WatchEvent>)
    ensures Elapsed(passed, ran, disk, queue, ran + passed, DiskAfterAll(disk, passed), queue + EventsOf(passed))
    ensures Elapsed([], ran, disk, queue, ran, disk, queue)
  {
  }

  lemma OneElapsed(passed: seq<Action>, ran: seq<Action>, disk: Disk, queue: seq<WatchEvent>, action: Action)
    ensures Elapsed(passed + [action], ran, disk, queue, ran + passed + [action], DiskAfter(DiskAfterAll(disk, passed), action),
                    queue + EventsOf(passed) + EventOf(action))
  {
    hide DiskAfter, EventOf;
    assert (passed + [action])[..|passed|] == passed;
  }

  lemma {:induction false} MovesConcat(disk: Disk, a: seq<Action>, b: seq<Action>)
    ensures DiskAfterAll(disk, a + b) == DiskAfterAll(DiskAfterAll(disk, a), b)
    ensures EventsOf(a + b) == EventsOf(a) + EventsOf(b)
  {
    hide DiskAfter, EventOf;
    if b == [] {
      assert a + b == a;
    } else {
      assert (a + b)[..|a + b| - 1] == a + b[..|b| - 1] && (a + b)[|a + b| - 1] == b[|b| - 1];
      MovesConcat(disk, a, b[..|b| - 1]);
    }
  }

  lemma BothElapsed(a: seq<Action>, b: seq<Action>, ran: seq<Action>, disk: Disk, queue: seq<WatchEvent>,
                    ran': seq<Action>, disk': Disk, queue': seq<WatchEvent>,
                    ran'': seq<Action>, disk'': Disk, queue'': seq<WatchEvent>)
    requires Elapsed(a, ran, disk, queue, ran', disk', queue') && Elapsed(b, ran', disk', queue', ran'', disk'', queue'')
    ensures Elapsed(a + b, ran, disk, queue, ran'', disk'', queue'')
  {
    hide DiskAfterAll, EventsOf;
    MovesConcat(disk, a, b);
  }

  // ----- the watch

  /** A refusal, with whether the path was there when it was refused and
      whether the project declared it. */
  datatype UnwatchablePath = UnwatchablePath(path: Path, reason: string, existed: bool, declared: bool) {
    /** It was not there when refused, and it is there now. */
    predicate CanBeRetried(disk: Disk) { !existed && path in disk }

    predicate IsWorthReporting() { existed || declared }
  }

  datatype Resynchronized = Unchanged | Respawned
  datatype Exit = Graceful(findings: nat, internalErrors: nat) | Unwatchable | OutputGone
  datatype Flow = Continue(reanalyzed: nat) | Break(exit: Exit)

  /** What a panicking analysis is answered with. */
  function NoOutcome(): AnalysisOutcome { Analysis.AnalysisOutcome([], []) }

  predicate Respawns(declared: seq<Path>, unwatchable: seq<UnwatchablePath>, roots: seq<Path>, disk: Disk) {
    declared != roots || exists u :: u in unwatchable && u.CanBeRetried(disk)
  }

  /** The refused paths a respawn is due to, where the roots have not moved. */
  ghost function Retried(declared: seq<Path>, unwatchable: seq<UnwatchablePath>, roots: seq<Path>, disk: Disk): set<Path> {
    if declared != roots then {} else set u | u in unwatchable && u.CanBeRetried(disk) :: u.path
  }

  /** How many of the actions happen while time passes so many times. */
  function Moments(script: seq<Action>, times: nat): (r: nat)
    ensures r <= |script|
  {
    if times == 0 then 0 else Moment(script) + Moments(script[Moment(script)..], times - 1)
  }

  lemma TwoMoments(script: seq<Action>)
    ensures var m := Moment(script); var m' := Moment(script[m..]);
            && Moments(script, 2) == m + m' && script[..m] + script[m..][..m'] == script[..m + m']
            && script[m..][m'..] == script[m + m'..]
  {
    hide Moment;
    var m := Moment(script);
    var rest := script[m..];
    assert Moments(rest, 1) == Moment(rest) + Moments(rest[Moment(rest)..], 0);
    hide Moments;
    Slices(script, m, Moment(rest));
  }

  lemma Slices<T>(s: seq<T>, m: nat, n: nat)
    requires m + n <= |s|
    ensures s[..m] + s[m..][..n] == s[..m + n] && s[m..][n..] == s[m + n..]
  {
  }

  lemma NoneRetried(retries: multiset<Path>)
    ensures retries + multiset(var none: set<Path> := {}; none) == retries
  {
  }

  /** The queued saves the session has not read. */
  ghost function Unread(queue: seq<WatchEvent>, root: Path, seen: Picture, disk: Disk): set<Path> {
    set p | p in PathsOf(queue) && !Tracks(root, seen, disk, p)
  }

  function Manifests(root: Path): seq<Path> {
    [Path(root.components + ["composer.json"]), Path(root.components + ["composer.lock"]),
     Path(root.components + ["celerrate.toml"]), Path(root.components + ["celerrate-baseline.toml"])]
  }

  /** The session is in step with the disk off what is pending or held. */
  ghost predicate Current(session: Session, env: Environment, held: set<Path>)
    requires session.Valid()
    reads session, session.vfs, env
  {
    InStep(session.root, session.discover, Scene(session.Seen(), env.disk, env.Pending() + held))
  }

  /** The manifests that are watched are those whose change re-runs discovery. */
  lemma WatchedManifests(root: Path, p: Path)
    ensures p in Manifests(root) <==> IsManifest(root, p)
    ensures Manifests(root) == [Path(root.components + ["composer.json"]), Path(root.components + ["composer.lock"]),
                                Path(root.components + ["celerrate.toml"]), Path(root.components + ["celerrate-baseline.toml"])]
  {
  }

  class Watch {
    const env: Environment
    const analyze: Inputs -> AnalysisOutcome
    var declared: seq<Path>
    var unwatchable: seq<UnwatchablePath>
    /** The outcome of the last completed cycle. */
    ghost var completed: Option<AnalysisOutcome>
    /** The outcome the packs hold. */
    ghost var persisted: Option<AnalysisOutcome>

    constructor (env: Environment, analyze: Inputs -> AnalysisOutcome, declared: seq<Path>, unwatchable: seq<UnwatchablePath>)
      ensures this.env == env && this.analyze == analyze
      ensures this.declared == declared && this.unwatchable == unwatchable
      ensures completed == None && persisted == None
    {
      this.env, this.analyze, this.declared, this.unwatchable := env, analyze, declared, unwatchable;
      completed, persisted := None, None;
    }

    /** Asks the operating system to observe a path. The existence is read
        before the attempt. */
    method Register(path: Path, byTheProject: bool) returns (refusal: Option<UnwatchablePath>)
      ensures refusal.Some? ==>
                && refusal.value.path == path && refusal.value.declared == byTheProject
                && refusal.value.existed == (path in env.disk)
    {
      var existed := path in env.disk;
      var refused: Option<string> := *;
      refusal := if refused.Some? then Some(UnwatchablePath(path, refused.value, existed, byTheProject)) else None;
    }

    /** Registers every declared root and every manifest, keeping each refusal. */
    method Build(session: Session) returns (r: Result<seq<UnwatchablePath>, string>)
      ensures r.Ok? ==> forall u :: u in r.value ==>
                u.existed == (u.path in env.disk)
                && u.path in if u.declared then session.discovery.projectWalkRoots else Manifests(session.root)
    {
      var failed: Option<string> := *;
      if failed.Some? {
        return Err(failed.value);
      }
      var roots, manifests := session.discovery.projectWalkRoots, Manifests(session.root);
      var refusals: seq<UnwatchablePath> := [];
      for k := 0 to |roots|
        invariant forall u :: u in refusals ==> u.existed == (u.path in env.disk) && u.declared && u.path in roots
      {
        var refusal := Register(roots[k], true);
        if refusal.Some? { refusals := refusals + [refusal.value]; }
      }
      for k := 0 to |manifests|
        invariant forall u :: u in refusals ==> u.existed == (u.path in env.disk) && u.path in if u.declared then roots else manifests
      {
        var refusal := Register(manifests[k], false);
        if refusal.Some? { refusals := refusals + [refusal.value]; }
      }
      r := Ok(refusals);
    }

    /** A respawn is due over the session's roots as they are. */
    predicate RespawnDue(session: Session)
      reads this`declared, this`unwatchable, session`discovery, env`disk
    {
      Respawns(declared, unwatchable, session.discovery.projectWalkRoots, env.disk)
    }

    /** Each refusal says whether its path was there when it was registered. */
    ghost predicate Recorded()
      reads this`unwatchable, env`registeredOn
    {
      forall u :: u in unwatchable ==> u.existed == (u.path in env.registeredOn)
    }

    /** The watch is registered over the session's roots. */
    ghost predicate AtRoots(session: Session)
      reads this`declared, this`unwatchable, session`discovery, env`registeredOn
    {
      declared == session.discovery.projectWalkRoots && Recorded()
    }

    /** Builds a new watch beside the old one, which goes on sending. */
    method Rebuild(session: Session) returns (r: Result<seq<UnwatchablePath>, string>, ghost during: seq<Action>)
      requires env.Valid()
      modifies env`disk, env`script, env`queue, env`ran, env`unseen, env`registeredOn, env`retries
      ensures env.Valid() && env.Remaining() <= old(env.Remaining()) && env.retries == old(env.retries)
      ensures Later(old(env.disk), old(env.Pending()), env.disk, env.Pending())
      ensures Elapsed(during, old(env.ran), old(env.disk), old(env.queue), env.ran, env.disk, env.queue)
      ensures r.Ok? ==> during == old(env.script)[..Moments(old(env.script), 2)]
      ensures r.Ok? ==> env.script == old(env.script)[Moments(old(env.script), 2)..]
      ensures r.Ok? ==> forall u :: u in r.value ==> u.existed == (u.path in env.registeredOn)
    {
      hide Later, Elapsed, DiskAfterAll, EventsOf, Moment, Environment.Pending, Environment.Remaining, Environment.Valid;
      ghost var script := env.script;
      ghost var m := Moment(script);
      ghost var m' := Moment(script[m..]);
      TwoMoments(script);
      ItElapsed(script[..m], env.ran, env.disk, env.queue);
      env.Advance();
      r := Build(session);
      if r.Err? {
        during := script[..m];
        return;
      }
      env.Register({});
      NoneRetried(env.retries);
      ghost var ran, disk, pending, queue := env.ran, env.disk, env.Pending(), env.queue;
      ItElapsed(script[m..][..m'], ran, disk, queue);
      env.Advance();
      LaterYet(old(env.disk), old(env.Pending()), disk, pending, env.disk, env.Pending());
      BothElapsed(script[..m], script[m..][..m'], old(env.ran), old(env.disk), old(env.queue),
                  ran, disk, queue, env.ran, env.disk, env.queue);
      during := script[..m] + script[m..][..m'];
    }

    /** Makes the watch observe the roots declared now. A respawn replaces the
        channel and drops what is queued on it by then: the saves in it that the
        session has not read are lost, and so are its shutdowns. Afterwards only
        a path that was absent as it was registered can be worth a retry. */
    method Resynchronize(session: Session)
      returns (r: Result<Resynchronized, string>, ghost during: seq<Action>, ghost gone: set<Path>)
      requires session.Valid() && env.Valid() && Recorded()
      modifies this`declared, this`unwatchable, env`disk, env`script, env`queue, env`ran, env`unseen, env`dropped, env`lost,
               env`registeredOn, env`retries
      ensures session.Valid() && env.Valid()
      ensures old(Current(session, env, {})) ==> Current(session, env, {})
      ensures env.Remaining() <= old(env.Remaining())
      ensures r.Ok? ==> AtRoots(session) && (r.value.Respawned? <==> old(RespawnDue(session)))
      ensures r.Ok? ==> (r.value.Respawned? <==>
                || old(declared) != session.discovery.projectWalkRoots
                || exists u :: u in old(unwatchable) && !u.existed && u.path in old(env.disk))
      ensures r == Ok(Unchanged) ==> during == [] && env.script == old(env.script) && env.retries == old(env.retries)
      ensures r == Ok(Respawned) ==>
                && during == old(env.script)[..Moments(old(env.script), 2)]
                && env.script == old(env.script)[Moments(old(env.script), 2)..]
                && env.retries == old(env.retries) + multiset(old(Retried(declared, unwatchable, session.discovery.projectWalkRoots, env.disk)))
      ensures var waiting := old(env.queue) + EventsOf(during);
              && env.ran == old(env.ran) + during && env.disk == DiskAfterAll(old(env.disk), during)
              && env.queue == (if r == Ok(Respawned) then [] else waiting)
              && env.dropped == old(env.dropped) + (if r == Ok(Respawned) then waiting else [])
              && gone == (if r == Ok(Respawned) then Unread(waiting, session.root, session.Seen(), env.disk) else {})
              && env.lost == old(env.lost) + gone
              && Shutdowns(env.dropped) == old(Shutdowns(env.dropped)) + (if r == Ok(Respawned) then Shutdowns(waiting) else 0)
    {
      hide Current, Session.Valid, Environment.Valid, Environment.Remaining, Unread, DiskAfterAll, EventsOf, Shutdowns, Moments;
      during, gone := [], {};
      ItElapsed([], env.ran, env.disk, env.queue);
      var declaredTheSame := declared == session.discovery.projectWalkRoots;
      var nothingToRetry := forall u :: u in unwatchable ==> !u.CanBeRetried(env.disk);
      if declaredTheSame && nothingToRetry {
        return Ok(Unchanged), during, gone;
      }
      ghost var retried := Retried(declared, unwatchable, session.discovery.projectWalkRoots, env.disk);
      hide Retried;
      RegisterInStep(session, retried);
      r, during, gone := Respawn(session);
    }

    /** What is retried is on the record; the session is where it was. */
    ghost method RegisterInStep(session: Session, retried: set<Path>)
      requires session.Valid() && env.Valid() && forall p :: p in retried ==> p !in env.registeredOn && p in env.disk
      modifies env`registeredOn, env`retries
      ensures session.Valid() && env.Valid() && env.retries == old(env.retries) + multiset(retried)
      ensures env.Remaining() == old(env.Remaining())
      ensures old(Current(session, env, {})) ==> Current(session, env, {})
    {
      hide InStep, Session.Valid, Session.Contents, Environment.Valid, Environment.Remaining, Environment.Pending;
      env.Register(retried);
    }

    /** Builds a new watch and swaps it for the old one. */
    method Respawn(session: Session)
      returns (r: Result<Resynchronized, string>, ghost during: seq<Action>, ghost gone: set<Path>)
      requires session.Valid() && env.Valid()
      modifies this`declared, this`unwatchable, env`disk, env`script, env`queue, env`ran, env`unseen, env`dropped, env`lost,
               env`registeredOn, env`retries
      ensures session.Valid() && env.Valid() && env.Remaining() <= old(env.Remaining()) && env.retries == old(env.retries)
      ensures old(Current(session, env, {})) ==> Current(session, env, {})
      ensures r.Ok? ==>
                && r.value.Respawned? && AtRoots(session)
                && during == old(env.script)[..Moments(old(env.script), 2)]
                && env.script == old(env.script)[Moments(old(env.script), 2)..]
      ensures var waiting := old(env.queue) + EventsOf(during);
              && env.ran == old(env.ran) + during && env.disk == DiskAfterAll(old(env.disk), during)
              && env.queue == (if r.Ok? then [] else waiting)
              && env.dropped == old(env.dropped) + (if r.Ok? then waiting else [])
              && gone == (if r.Ok? then Unread(waiting, session.root, session.Seen(), env.disk) else {})
              && env.lost == old(env.lost) + gone
              && Shutdowns(env.dropped) == old(Shutdowns(env.dropped)) + (if r.Ok? then Shutdowns(waiting) else 0)
    {
      hide InStep, Tracks, Later, Session.Valid, Session.Contents, Environment.Valid, Environment.Remaining, Environment.Pending,
           PathsOf, Unread, DiskAfterAll, EventsOf, Shutdowns, Moments;
      ghost var disk, pending := env.disk, env.Pending();
      var built;
      built, during := Rebuild(session);
      StillInStep(session.root, session.discover, session.Seen(), disk, pending, env.disk, env.Pending());
      if built.Err? {
        return Err(built.error), during, {};
      }
      gone := Swap(session, built.value);
      r := Ok(Respawned);
    }

    /** The new watch takes the old one's place. */
    method Swap(session: Session, refusals: seq<UnwatchablePath>) returns (ghost gone: set<Path>)
      requires session.Valid() && env.Valid()
      modifies this`declared, this`unwatchable, env`queue, env`dropped, env`lost
      ensures session.Valid() && env.Valid() && env.Remaining() <= old(env.Remaining())
      ensures old(Current(session, env, {})) ==> Current(session, env, {})
      ensures declared == session.discovery.projectWalkRoots && unwatchable == refusals
      ensures gone == Unread(old(env.queue), session.root, session.Seen(), env.disk)
      ensures env.queue == [] && env.dropped == old(env.dropped) + old(env.queue) && env.lost == old(env.lost) + gone
      ensures Shutdowns(env.dropped) == old(Shutdowns(env.dropped)) + old(Shutdowns(env.queue))
    {
      hide InStep, Tracks, Session.Valid, Session.Contents, Environment.Valid, Environment.Remaining, PathsOf, Unread;
      if Current(session, env, {}) {
        DropsInStep(session.root, session.discover, session.Seen(), env.disk, env.unseen, env.lost, env.queue);
      }
      gone := Unread(env.queue, session.root, session.Seen(), env.disk);
      env.ReplaceChannel(gone);
      declared := session.discovery.projectWalkRoots;
      unwatchable := refusals;
    }

    /** `iteration`'s absorption of a burst, and the watch following it a moment
        later. A save is lost exactly when a respawn is due by then and, once the
        channel is replaced, the save waits in it and is not in step; with a
        manifest in the burst, only a save made since it was absorbed can be. */
    method AbsorbAndFollow(session: Session, changed: seq<Path>)
      returns (r: Result<Resynchronized, string>, ghost before: seq<Action>, ghost during: seq<Action>, ghost gone: set<Path>)
      requires session.Valid() && env.Valid() && Current(session, env, Elements(changed)) && Recorded()
      modifies this`declared, this`unwatchable, env`disk, env`script, env`queue, env`ran, env`dropped, env`lost, env`unseen,
               env`registeredOn, env`retries, session, session.vfs
      ensures session.Valid() && env.Valid() && Current(session, env, {}) && env.Remaining() <= old(env.Remaining())
      ensures r.Ok? ==> AtRoots(session)
      ensures session.Seen() == AbsorbedPicture(session.root, session.discover, old(session.Seen()), changed, old(env.disk))
      ensures session.absorbed == old(session.absorbed) + changed
      ensures SameOtherErrors(old(session.errors), session.errors)
      ensures before == old(env.script)[..Moment(old(env.script))] && env.ran == old(env.ran) + before + during
      ensures env.disk == DiskAfterAll(DiskAfterAll(old(env.disk), before), during)
      ensures env.lost == StillStale(session.root, old(session.discovery), changed, old(env.lost)) + gone
      ensures var due := r.Ok? && Respawns(old(declared), old(unwatchable), session.discovery.projectWalkRoots,
                                           DiskAfterAll(old(env.disk), before));
              var waiting := old(env.queue) + EventsOf(before) + EventsOf(during);
              && (forall p :: p in gone <==>
                    due && p in PathsOf(waiting) && !Tracks(session.root, session.Seen(), env.disk, p))
              && env.dropped == old(env.dropped) + (if due then waiting else [])
      ensures HasManifest(session.root, changed) ==> forall p :: p in gone ==> Get(old(env.disk), p) != Get(env.disk, p)
    {
      hide InStep, Tracks, Later, Elements, PathsOf, Environment.Pending, Environment.Remaining, Environment.Valid, Session.Valid,
           Session.Contents, AbsorbedPicture, StillStale, HasManifest, SameOtherErrors, Unread, Shutdowns, DiskAfterAll, EventsOf,
           Recorded, Moment, Moments, Retried;
      Take(session, changed);
      ghost var disk, pending := env.disk, env.Pending();
      before := env.script[..Moment(env.script)];
      env.Advance();
      assert env.Pending() + {} == env.Pending();
      CurrentLater(session.root, session.discover, session.Seen(), disk, pending, env.disk, env.Pending(), {});
      ghost var queued := env.queue;
      r, during, gone := Resynchronize(session);
      UnreadIff(queued + EventsOf(during), session.root, session.Seen(), env.disk);
      WrittenSince(session.root, session.discover, old(session.Seen()), changed, old(env.disk), env.disk, queued + EventsOf(during));
    }

    /** The session absorbs a burst that was held, and the accounts follow. */
    method Take(session: Session, changed: seq<Path>)
      requires session.Valid() && env.Valid() && Current(session, env, Elements(changed))
      modifies env`lost, env`unseen, session, session.vfs
      ensures session.Valid() && env.Valid() && Current(session, env, {})
      ensures session.Seen() == AbsorbedPicture(session.root, session.discover, old(session.Seen()), changed, env.disk)
      ensures session.absorbed == old(session.absorbed) + changed
      ensures SameOtherErrors(old(session.errors), session.errors)
      ensures env.lost == StillStale(session.root, old(session.discovery), changed, old(env.lost))
      ensures env.Remaining() == old(env.Remaining())
    {
      hide InStep, Tracks, Session.Valid, Session.Contents, Elements, SameOtherErrors, AbsorbedPicture, StillStale, StillUnseen,
           EventsOf, PathsOf, DiskAfterAll, RetriesBounded;
      ghost var discovery := session.discovery;
      AbsorbedInStep(session.root, session.discover, session.Seen(), env.disk, env.unseen, env.lost, PathsOf(env.queue), changed);
      session.Absorb(changed, env.disk);
      env.HaveRead(session.root, discovery, changed);
    }

    /** The burst is absorbed while the worker still runs, and only then is the
        worker joined. */
    method Overtake(session: Session, changed: seq<Path>, inputs: Inputs) returns (joined: Joined, ghost before: seq<Action>)
      requires session.Valid() && env.Valid() && Current(session, env, Elements(changed))
      modifies env`disk, env`script, env`queue, env`ran, env`lost, env`unseen, session, session.vfs
      ensures session.Valid() && env.Valid() && Current(session, env, {}) && env.Remaining() <= old(env.Remaining())
      ensures session.Seen() == AbsorbedPicture(session.root, session.discover, old(session.Seen()), changed, old(env.disk))
      ensures session.absorbed == old(session.absorbed) + changed
      ensures env.lost == StillStale(session.root, old(session.discovery), changed, old(env.lost))
      ensures SamePanics(old(session.errors), session.errors)
      ensures Elapsed(before, old(env.ran), old(env.disk), old(env.queue), env.ran, env.disk, env.queue)
      ensures old(env.script)[..Moment(old(env.script))] <= before
    {
      hide InStep, Tracks, Later, Elements, PathsOf, Environment.Pending, Environment.Remaining, Environment.Valid, Session.Valid,
           Session.Contents, Session.CurrentInputs, SameOtherErrors, AbsorbedPicture, StillStale, Elapsed, Moment;
      Take(session, changed);
      OthersSamePanics(old(session.errors), session.errors);
      ghost var disk, pending := env.disk, env.Pending();
      joined, before := Join(env, analyze, inputs);
      assert env.Pending() + {} == env.Pending();
      CurrentLater(session.root, session.discover, session.Seen(), disk, pending, env.disk, env.Pending(), {});
    }

    /** And once the worker is joined, the watch follows. What is lost and
        dropped is as after `iteration`'s absorption, but what passes before
        lasts until the worker has ended. */
    method OvertakeAndFollow(session: Session, changed: seq<Path>, inputs: Inputs)
      returns (r: Result<Resynchronized, string>, ghost before: seq<Action>, ghost during: seq<Action>, ghost gone: set<Path>)
      requires session.Valid() && env.Valid() && Current(session, env, Elements(changed)) && Recorded()
      modifies this`declared, this`unwatchable, env`disk, env`script, env`queue, env`ran, env`dropped, env`lost, env`unseen,
               env`registeredOn, env`retries, session, session.vfs
      ensures session.Valid() && env.Valid() && Current(session, env, {}) && env.Remaining() <= old(env.Remaining())
      ensures r.Ok? ==> AtRoots(session)
      ensures session.Seen() == AbsorbedPicture(session.root, session.discover, old(session.Seen()), changed, old(env.disk))
      ensures session.absorbed == old(session.absorbed) + changed
      ensures SamePanics(old(session.errors), session.errors)
      ensures old(env.script)[..Moment(old(env.script))] <= before && env.ran == old(env.ran) + before + during
      ensures env.disk == DiskAfterAll(DiskAfterAll(old(env.disk), before), during)
      ensures env.lost == StillStale(session.root, old(session.discovery), changed, old(env.lost)) + gone
      ensures var due := r.Ok? && Respawns(old(declared), old(unwatchable), session.discovery.projectWalkRoots,
                                           DiskAfterAll(old(env.disk), before));
              var waiting := old(env.queue) + EventsOf(before) + EventsOf(during);
              && (forall p :: p in gone <==>
                    due && p in PathsOf(waiting) && !Tracks(session.root, session.Seen(), env.disk, p))
              && env.dropped == old(env.dropped) + (if due then waiting else [])
      ensures HasManifest(session.root, changed) ==> forall p :: p in gone ==> Get(old(env.disk), p) != Get(env.disk, p)
    {
      hide InStep, Tracks, Later, Elements, PathsOf, Environment.Pending, Environment.Remaining, Environment.Valid, Session.Valid,
           Session.Contents, AbsorbedPicture, StillStale, HasManifest, SamePanics, Unread, Shutdowns, DiskAfterAll, EventsOf,
           Recorded, Moment, Moments, Retried;
      var joined;
      joined, before := Overtake(session, changed, inputs);
      ghost var queued := env.queue;
      r, during, gone := Resynchronize(session);
      UnreadIff(queued + EventsOf(during), session.root, session.Seen(), env.disk);
      WrittenSince(session.root, session.discover, old(session.Seen()), changed, old(env.disk), env.disk, queued + EventsOf(during));
    }

    /** One attempt: a worker over the inputs as they are, overtaken by a burst
        or not. An overtaken attempt absorbs the burst, lets the watch follow,
        and has no outcome, even if the worker finished; what that loses and
        drops is what `OvertakeAndFollow` says. */
    method Attempt(session: Session)
      returns (r: Result<Option<AnalysisOutcome>, string>, shutdown: bool, ghost heard: seq<WatchEvent>, ghost taken: seq<Path>,
               ghost readOn: Disk, ghost queued: seq<WatchEvent>, ghost before: seq<Action>, ghost during: seq<Action>, ghost gone: set<Path>)
      requires session.Valid() && env.Valid() && Current(session, env, {}) && AtRoots(session)
      requires AnalysisPanicked !in session.errors && PanicsAre(session.errors, [])
      modifies this`declared, this`unwatchable, env, session, session.vfs
      ensures session.Valid() && env.Valid() && Current(session, env, {}) && env.Remaining() <= old(env.Remaining())
      ensures r.Ok? ==> AtRoots(session)
      ensures env.log == old(env.log) + heard && session.absorbed == old(session.absorbed) + taken
      ensures Elements(taken) == PathsOf(heard) && PanicsAre(session.errors, [])
      ensures shutdown <==> Shutdown in heard
      ensures r == Ok(None) ==> env.Remaining() < old(env.Remaining())
      ensures taken != [] ==> r.Err? || r.value.None?
      ensures old(env.queue) != [] ==> heard != [] && heard[0] == old(env.queue)[0]
      ensures AnalysisPanicked in session.errors ==> r == Ok(Some(NoOutcome()))
      ensures r.Ok? && r.value.Some? && AnalysisPanicked !in session.errors ==> r.value.value == analyze(session.CurrentInputs())
      ensures taken == [] ==> env.dropped == old(env.dropped) && env.lost == old(env.lost) && gone == {}
      ensures taken != [] ==>
                && session.Seen() == AbsorbedPicture(session.root, session.discover, old(session.Seen()), taken, readOn)
                && env.lost == StillStale(session.root, old(session.discovery), taken, old(env.lost)) + gone
                && env.disk == DiskAfterAll(DiskAfterAll(readOn, before), during)
                && (HasManifest(session.root, taken) ==> forall p :: p in gone ==> Get(readOn, p) != Get(env.disk, p))
                && var due := r.Ok? && Respawns(old(declared), old(unwatchable), session.discovery.projectWalkRoots,
                                                DiskAfterAll(readOn, before));
                   var waiting := queued + EventsOf(before) + EventsOf(during);
                   && (forall p :: p in gone <==>
                         due && p in PathsOf(waiting) && !Tracks(session.root, session.Seen(), env.disk, p))
                   && env.dropped == old(env.dropped) + (if due then waiting else [])
    {
      hide InStep, Tracks, Later, Elements, PathsOf, Environment.Pending, Environment.Remaining, Environment.Valid, Session.Valid,
           Session.Contents, Session.CurrentInputs, SameOtherErrors, AbsorbedPicture, StillStale, HasManifest,
           Recorded, DiskAfterAll, EventsOf, Moment, Elapsed;
      var inputs := session.CurrentInputs();
      var changed;
      changed, shutdown, heard := Attend(env);
      CurrentLater(session.root, session.discover, session.Seen(), old(env.disk), old(env.Pending()),
                   env.disk, env.Pending(), Elements(changed));
      taken, readOn, queued, before, during, gone := changed, env.disk, env.queue, [], [], {};
      if changed != [] {
        var followed;
        followed, before, during, gone := OvertakeAndFollow(session, changed, inputs);
        r := if followed.Err? then Err(followed.error) else Ok(None);
        return;
      }
      NoElements();
      r := Settle(session, inputs);
    }

    /** The worker of an attempt that no burst overtook ends. */
    method Settle(session: Session, inputs: Inputs) returns (r: Result<Option<AnalysisOutcome>, string>)
      requires session.Valid() && env.Valid() && Current(session, env, {}) && AtRoots(session)
      requires AnalysisPanicked !in session.errors && PanicsAre(session.errors, []) && inputs == session.CurrentInputs()
      modifies env`disk, env`script, env`queue, env`ran, env`unseen, session`errors
      ensures session.Valid() && env.Valid() && Current(session, env, {}) && env.Remaining() <= old(env.Remaining())
      ensures r.Ok? && PanicsAre(session.errors, [])
      ensures r == Ok(None) ==> env.Remaining() < old(env.Remaining())
      ensures AnalysisPanicked in session.errors ==> r == Ok(Some(NoOutcome()))
      ensures r.value.Some? && AnalysisPanicked !in session.errors ==> r.value.value == analyze(session.CurrentInputs())
    {
      hide InStep, Later, Environment.Pending, Environment.Remaining, Environment.Valid, Session.Valid, Session.Contents,
           Session.CurrentInputs, Recorded, DiskAfterAll, EventsOf, Moment, Elapsed, PanicsAre;
      ghost var disk, pending := env.disk, env.Pending();
      var joined, _ := Join(env, analyze, inputs);
      assert env.Pending() + {} == env.Pending();
      CurrentLater(session.root, session.discover, session.Seen(), disk, pending, env.disk, env.Pending(), {});
      match joined
      case Finished(outcome) =>
        r := Ok(Some(outcome));
      case Cancelled =>
        r := Ok(None);
      case Panicked =>
        PassPanics(session.errors);
        session.PushErrors([AnalysisPanicked]);
        r := Ok(Some(NoOutcome()));
    }

    /** Runs one analysis to a completed outcome, restarting whenever a change
        overtakes it. Whatever the worker did, the outcome returned was
        computed on the inputs the session has now; where the analysis panicked,
        the panic is reported and the outcome is empty. */
    method Cycle(session: Session)
      returns (r: Result<(AnalysisOutcome, bool), string>, ghost heard: seq<WatchEvent>, ghost taken: seq<Path>)
      requires session.Valid() && env.Valid() && Current(session, env, {}) && AtRoots(session)
      requires AnalysisPanicked !in session.errors && PanicsAre(session.errors, [])
      modifies this`declared, this`unwatchable, env, session, session.vfs
      ensures session.Valid() && env.Valid() && Current(session, env, {}) && env.Remaining() <= old(env.Remaining())
      ensures r.Ok? ==> AtRoots(session)
      ensures env.log == old(env.log) + heard && session.absorbed == old(session.absorbed) + taken
      ensures Elements(taken) == PathsOf(heard) && PanicsAre(session.errors, [])
      ensures r.Ok? ==> (r.value.1 <==> Shutdown in heard)
      ensures r.Ok? ==> Answers(session, r.value.0)
      ensures r.Ok? ==> r.value.0 == if AnalysisPanicked in session.errors then Analysis.AnalysisOutcome([], [])
                                     else analyze(session.CurrentInputs())
      ensures forall s :: s in session.CurrentInputs().files ==>
                s.file < |session.vfs.paths| && Get(session.Contents(), session.vfs.paths[s.file]) == Some(s.bytes)
      ensures forall p :: p in session.Contents() ==>
                exists s :: s in session.CurrentInputs().files && s.file < |session.vfs.paths| && session.vfs.paths[s.file] == p
    {
      r, heard, taken := Attempts(session);
      hide *;
      if r.Ok? { AnswerSays(session, r.value.0); }
      session.InputsAreContents();
    }

    /** The restarts. */
    method Attempts(session: Session)
      returns (r: Result<(AnalysisOutcome, bool), string>, ghost heard: seq<WatchEvent>, ghost taken: seq<Path>)
      requires session.Valid() && env.Valid() && Current(session, env, {}) && AtRoots(session)
      requires AnalysisPanicked !in session.errors && PanicsAre(session.errors, [])
      modifies this`declared, this`unwatchable, env, session, session.vfs
      ensures session.Valid() && env.Valid() && Current(session, env, {}) && env.Remaining() <= old(env.Remaining())
      ensures r.Ok? ==> AtRoots(session)
      ensures env.log == old(env.log) + heard && session.absorbed == old(session.absorbed) + taken
      ensures Elements(taken) == PathsOf(heard) && PanicsAre(session.errors, [])
      ensures r.Ok? ==> (r.value.1 <==> Shutdown in heard)
      ensures r.Ok? ==> Answers(session, r.value.0)
    {
      hide *;
      var shutdown := false;
      heard, taken := [], [];
      NoElements();
      while true
        invariant session.Valid() && env.Valid() && Current(session, env, {}) && AtRoots(session)
        invariant env.Remaining() <= old(env.Remaining())
        invariant env.log == old(env.log) + heard && session.absorbed == old(session.absorbed) + taken
        invariant Elements(taken) == PathsOf(heard)
        invariant shutdown <==> Shutdown in heard
        invariant AnalysisPanicked !in session.errors && PanicsAre(session.errors, [])
        decreases env.Remaining()
      {
        ghost var more, burst, readOn, queued, before, during, gone;
        var ended, asked;
        ended, asked, more, burst, readOn, queued, before, during, gone := Attempt(session);
        PathsOfConcat(heard, more);
        ElementsConcat(taken, burst);
        shutdown := shutdown || asked;
        heard, taken := heard + more, taken + burst;
        match ended {
          case Err(error) =>
            r := Err(error);
            return;
          case Ok(Some(outcome)) =>
            Settled(session, outcome);
            r := Ok((outcome, shutdown));
            return;
          case Ok(None) =>
        }
      }
    }

    /** The outcome is the analysis of the session as it is, or the empty one
        with the panic on record. */
    ghost predicate Answers(session: Session, outcome: AnalysisOutcome)
      requires session.Valid()
      reads session, session.vfs
    {
      outcome == if AnalysisPanicked in session.errors then NoOutcome() else analyze(session.CurrentInputs())
    }

    lemma AnswerSays(session: Session, outcome: AnalysisOutcome)
      requires session.Valid() && Answers(session, outcome)
      ensures outcome == if AnalysisPanicked in session.errors then Analysis.AnalysisOutcome([], []) else analyze(session.CurrentInputs())
    {
    }

    lemma Settled(session: Session, outcome: AnalysisOutcome)
      requires session.Valid()
      requires AnalysisPanicked in session.errors ==> outcome == NoOutcome()
      requires AnalysisPanicked !in session.errors ==> outcome == analyze(session.CurrentInputs())
      ensures Answers(session, outcome)
    {
    }

    // ----- one iteration

    /** `cache::persist`: the packs hold this outcome. */
    ghost method Persist(outcome: AnalysisOutcome)
      modifies this`persisted
      ensures persisted == Some(outcome)
    {
      persisted := Some(outcome);
    }

    /** The refusals worth reporting replace the last report of them. */
    method ReportUnwatchablePaths(session: Session)
      requires session.Valid()
      modifies session`errors
      ensures session.errors == Without(old(session.errors), IsUnwatchable) + Reportable(unwatchable)
      ensures forall e :: e in session.errors <==>
                || (e in old(session.errors) && !e.PathUnwatchable?)
                || (e.PathUnwatchable? && exists u :: u in unwatchable && u.path == e.path && u.reason == e.reason
                                                      && (u.existed || u.declared))
      ensures AnalysisPanicked in session.errors <==> AnalysisPanicked in old(session.errors)
      ensures session.Valid() && session.Contents() == old(session.Contents())
      ensures session.CurrentInputs() == old(session.CurrentInputs())
    {
      WithoutElements(session.errors, IsUnwatchable);
      ReportableElements(unwatchable);
      forall e { ReportableExactly(unwatchable, e); }
      session.DropErrors(IsUnwatchable);
      session.PushErrors(Reportable(unwatchable));
    }

    /** Skips the write only when a change is already queued: another cycle is
        then about to attempt it in turn. The event peeked at is handed back. */
    method PersistUnlessABurstIsAlreadyWaiting(outcome: AnalysisOutcome) returns (pending: Option<WatchEvent>)
      requires env.Valid()
      modifies env`disk, env`script, env`queue, env`ran, env`unseen, env`log, this`persisted
      ensures env.Valid()
      ensures env.log == old(env.log) + HeardEvent(pending) && env.Remaining() <= old(env.Remaining())
      ensures Later(old(env.disk), old(env.Pending()), env.disk, env.Pending() + PathsOf(HeardEvent(pending)))
      ensures pending.Some? ==> env.Remaining() < old(env.Remaining())
      ensures persisted == if pending.Some? && pending.value.Changed? then old(persisted) else Some(outcome)
      ensures old(env.queue) != [] ==> pending == Some(old(env.queue)[0])
    {
      pending := env.TryRecv();
      if !(pending.Some? && pending.value.Changed?) {
        Persist(outcome);
      }
    }

    /** The pass's panics, what goes unwatched, and what failed to render join
        the error list, and the picture is rendered, unless the output is gone. */
    method Present(session: Session, outcome: AnalysisOutcome) returns (rendered: bool, failures: seq<Render.RenderFailure>)
      requires session.Valid()
      modifies session`errors
      ensures session.errors == Without(old(session.errors) + PanicsOf(outcome.panicked), IsUnwatchable)
                                + Reportable(unwatchable) + Render.FailureErrors(failures)
      ensures AnalysisPanicked in session.errors <==> AnalysisPanicked in old(session.errors)
      ensures old(PanicsAre(session.errors, [])) ==> PanicsAre(session.errors, outcome.panicked)
      ensures old(Answers(session, outcome)) ==> Answers(session, outcome)
      ensures session.Valid() && session.Contents() == old(session.Contents())
      ensures session.CurrentInputs() == old(session.CurrentInputs())
    {
      hide Session.Valid, Session.Contents, Session.CurrentInputs, Without, Reportable, PanicsOf, Render.FailureErrors;
      failures := *;
      if PanicsAre(session.errors, []) { PanicsReported(session.errors, outcome.panicked, unwatchable, failures); }
      PanicsElements(outcome.panicked);
      session.AbsorbOutcome(outcome.panicked);
      ReportUnwatchablePaths(session);
      FailuresElements(failures);
      session.PushErrors(Render.FailureErrors(failures));
      rendered := *;
    }

    /** A cycle up to and including the picture. */
    method PresentedCycle(session: Session)
      returns (r: Result<(AnalysisOutcome, bool), Exit>, ghost heard: seq<WatchEvent>, ghost taken: seq<Path>)
      requires session.Valid() && env.Valid() && Current(session, env, {}) && AtRoots(session)
      modifies this, env, session, session.vfs
      ensures session.Valid() && env.Valid() && env.Remaining() <= old(env.Remaining())
      ensures env.log == old(env.log) + heard && session.absorbed == old(session.absorbed) + taken
      ensures Elements(taken) == PathsOf(heard) && persisted == old(persisted)
      ensures r.Err? ==> !r.error.Graceful?
      ensures r.Ok? ==> var (outcome, shutdown) := r.value;
                && Current(session, env, {}) && AtRoots(session)
                && (Shutdown in heard <==> shutdown) && completed == Some(outcome)
                && PanicsAre(session.errors, outcome.panicked) && Answers(session, outcome)
    {
      hide InStep, Tracks, Elements, PathsOf, Environment.Pending, Environment.Remaining, Session.Valid, Session.Contents,
           Session.CurrentInputs, Environment.Valid, Without, Reportable, Render.FailureErrors, PanicsAre, PanicsOf, Answers;
      session.ForgetAnalysisErrors();
      NonePanicked(session.errors);
      var cycled;
      cycled, heard, taken := Cycle(session);
      if cycled.Err? {
        r := Err(Unwatchable);
        return;
      }
      var (outcome, shutdown) := cycled.value;
      completed := Some(outcome);
      var rendered, failures := Present(session, outcome);
      r := if rendered then Ok((outcome, shutdown)) else Err(OutputGone);
    }

    /** A cycle up to and including the persist. */
    method CompletedCycle(session: Session)
      returns (r: Result<(AnalysisOutcome, Option<WatchEvent>, bool), Exit>, ghost heard: seq<WatchEvent>, ghost taken: seq<Path>)
      requires session.Valid() && env.Valid() && Current(session, env, {}) && AtRoots(session)
      modifies this, env, session, session.vfs
      ensures session.Valid() && env.Valid() && env.Remaining() <= old(env.Remaining())
      ensures r.Err? ==> !r.error.Graceful? && persisted == old(persisted) && Elements(taken) == PathsOf(heard)
      ensures r.Ok? && r.value.1.Some? ==> env.Remaining() < old(env.Remaining())
      ensures env.log == old(env.log) + heard && session.absorbed == old(session.absorbed) + taken
      ensures r.Ok? ==> var (outcome, pending, shutdown) := r.value;
                && Current(session, env, PathsOf(HeardEvent(pending))) && AtRoots(session)
                && PathsOf(heard) == Elements(taken) + PathsOf(HeardEvent(pending))
                && (Shutdown in heard <==> shutdown || pending == Some(Shutdown))
                && completed == Some(outcome)
                && persisted == (if pending.Some? && pending.value.Changed? then old(persisted) else completed)
                && PanicsAre(session.errors, outcome.panicked) && Answers(session, outcome)
    {
      hide InStep, Tracks, Later, Elements, PathsOf, Environment.Pending, Environment.Remaining, Session.Valid, Session.Contents,
           Session.CurrentInputs, Environment.Valid, PanicsAre, Answers;
      var presented;
      presented, heard, taken := PresentedCycle(session);
      if presented.Err? {
        r := Err(presented.error);
        return;
      }
      var (outcome, shutdown) := presented.value;
      ghost var disk, waiting := env.disk, env.Pending();
      var pending := PersistUnlessABurstIsAlreadyWaiting(outcome);
      CurrentLater(session.root, session.discover, session.Seen(), disk, waiting, env.disk, env.Pending(), PathsOf(HeardEvent(pending)));
      PathsOfConcat(heard, HeardEvent(pending));
      heard := heard + HeardEvent(pending);
      r := Ok((outcome, pending, shutdown));
    }

    /** What the loop does next: nothing new after a shutdown, the next burst if
        one has begun, else a blocking wait. The wait is entered only with the
        last completed outcome persisted. */
    method NextBurst(pending: Option<WatchEvent>, shutdown: bool) returns (burst: BurstOutcome, ghost heard: seq<WatchEvent>)
      requires !shutdown && pending.None? ==> persisted == completed
      requires env.Valid()
      modifies env`disk, env`script, env`queue, env`ran, env`unseen, env`log
      ensures env.Valid()
      ensures env.log == old(env.log) + heard && env.Remaining() <= old(env.Remaining())
      ensures Later(old(env.disk), old(env.Pending()), env.disk, env.Pending() + PathsOf(heard))
      ensures burst.ShutdownRequested? <==> shutdown || pending == Some(Shutdown) || Shutdown in heard
      ensures burst.Disconnected? ==> env.script == [] && env.queue == []
      ensures burst.Changes? ==> Elements(burst.paths) == PathsOf(HeardEvent(pending)) + PathsOf(heard)
      ensures burst.Changes? ==> burst.paths != [] && StrictlySorted(ComparePath, burst.paths)
      ensures burst.Changes? && pending.None? ==> env.Remaining() < old(env.Remaining())
    {
      hide Later, Elements, PathsOf, Environment.Pending, Environment.Remaining, Environment.Valid;
      NothingHeard(env);
      if shutdown {
        return ShutdownRequested, [];
      }
      match pending
      case Some(Changed(path)) =>
        OnePath(path);
        burst, heard := BurstStartingWith(env, path);
      case Some(Shutdown) =>
        burst, heard := ShutdownRequested, [];
      case None =>
        burst, heard := WaitForABurst(env);
    }

    /** What follows a completed cycle: a graceful exit, which persists, or the
        absorption of the next burst, after which the watch follows. */
    method Proceed(session: Session, outcome: AnalysisOutcome, pending: Option<WatchEvent>, shutdown: bool)
      returns (flow: Flow, ghost more: seq<WatchEvent>, ghost taken: seq<Path>)
      requires session.Valid() && env.Valid() && Current(session, env, PathsOf(HeardEvent(pending))) && AtRoots(session)
      requires completed == Some(outcome) && ((pending.Some? && pending.value.Changed?) || persisted == completed)
      modifies this`declared, this`unwatchable, this`persisted, env, session, session.vfs
      ensures session.Valid() && env.Valid() && env.Remaining() <= old(env.Remaining())
      ensures env.log == old(env.log) + more && session.absorbed == old(session.absorbed) + taken
      ensures persisted == old(persisted) || persisted == completed
      ensures Elements(taken) <= PathsOf(HeardEvent(pending)) + PathsOf(more)
      ensures flow.Continue? ==>
                && Current(session, env, {}) && AtRoots(session)
                && (pending.None? ==> env.Remaining() < old(env.Remaining()))
                && !shutdown && pending != Some(Shutdown) && Shutdown !in more
                && Elements(taken) == PathsOf(HeardEvent(pending)) + PathsOf(more)
                && 0 < flow.reanalyzed == |taken| && StrictlySorted(ComparePath, taken)
      ensures flow.Break? && flow.exit.Graceful? ==>
                && (shutdown || pending == Some(Shutdown) || Shutdown in more || (env.script == [] && env.queue == []))
                && persisted == completed && flow.exit == Graceful(|outcome.diagnostics|, |session.errors|)
                && session.errors == old(session.errors) && (old(Answers(session, outcome)) ==> Answers(session, outcome))
    {
      hide InStep, Tracks, Later, Elements, PathsOf, Environment.Pending, Environment.Remaining, Session.Valid, Session.Contents,
           Session.CurrentInputs, Environment.Valid, SameOtherErrors, AbsorbedPicture, StillStale, HasManifest, Recorded, Answers,
           StrictlySorted, DiskAfterAll, EventsOf, Moment;
      ghost var disk, waiting := env.disk, env.Pending();
      var burst;
      burst, more := NextBurst(pending, shutdown);
      taken := [];
      NoElements();
      if !burst.Changes? {
        Persist(outcome);
        flow := Break(Graceful(|outcome.diagnostics|, |session.errors|));
        return;
      }
      HeldLater(session.root, session.discover, session.Seen(), disk, waiting, env.disk, env.Pending(),
                PathsOf(HeardEvent(pending)), PathsOf(more), Elements(burst.paths));
      taken := burst.paths;
      var followed, _, _, _ := AbsorbAndFollow(session, burst.paths);
      flow := if followed.Err? then Break(Unwatchable) else Continue(|burst.paths|);
    }

    /** One pass of the loop. It continues only if no shutdown was heard and
        everything heard was absorbed; a graceful exit leaves the packs holding
        the last completed outcome. */
    method Iteration(session: Session) returns (flow: Flow, ghost heard: seq<WatchEvent>, ghost taken: seq<Path>)
      requires session.Valid() && env.Valid() && Current(session, env, {}) && AtRoots(session)
      modifies this, env, session, session.vfs
      ensures session.Valid() && env.Valid()
      ensures env.log == old(env.log) + heard && session.absorbed == old(session.absorbed) + taken
      ensures flow.Continue? ==> Current(session, env, {}) && AtRoots(session) && env.Remaining() < old(env.Remaining())
      ensures flow.Continue? ==> Shutdown !in heard && Elements(taken) == PathsOf(heard)
      ensures flow.Continue? ==>
                0 < flow.reanalyzed <= |taken| && StrictlySorted(ComparePath, taken[|taken| - flow.reanalyzed..])
      ensures flow.Break? && flow.exit.Graceful? ==>
                && (Shutdown in heard || (env.script == [] && env.queue == []))
                && completed.Some? && persisted == completed
                && flow.exit == Graceful(|completed.value.diagnostics|, |session.errors|)
                && PanicsAre(session.errors, completed.value.panicked) && Answers(session, completed.value)
                && (forall f :: FilePanicked(f) in session.errors <==> f in completed.value.panicked)
      ensures Elements(taken) <= PathsOf(heard)
      ensures persisted == old(persisted) || persisted == completed
    {
      hide InStep, Tracks, Later, Elements, PathsOf, Environment.Pending, Environment.Remaining, Session.Valid, Session.Contents,
           Session.CurrentInputs, Environment.Valid, Recorded, Answers, PanicsAre, StrictlySorted;
      var cycled;
      cycled, heard, taken := CompletedCycle(session);
      if cycled.Err? {
        flow := Break(cycled.error);
        return;
      }
      var (outcome, pending, shutdown) := cycled.value;
      ghost var more, burst;
      flow, more, burst := Proceed(session, outcome, pending, shutdown);
      PathsOfConcat(heard, more);
      ElementsConcat(taken, burst);
      assert (taken + burst)[|taken|..] == burst;
      heard, taken := heard + more, taken + burst;
      if PanicsAre(session.errors, outcome.panicked) { PanicsSay(session.errors, outcome.panicked); }
    }

    /** The loop, over everything that will ever happen outside. What was heard
        before the last iteration held no shutdown and was absorbed, all of it;
        a graceful exit leaves the packs holding the analysis of the session. */
    method Loop(session: Session)
      returns (exit: Exit, ghost earlier: seq<WatchEvent>, ghost last: seq<WatchEvent>, ghost taken: seq<Path>, ghost rest: seq<Path>)
      requires session.Valid() && env.Valid() && Current(session, env, {}) && AtRoots(session)
      modifies this, env, session, session.vfs
      ensures session.Valid() && env.Valid()
      ensures env.log == old(env.log) + earlier + last && session.absorbed == old(session.absorbed) + taken + rest
      ensures Shutdown !in earlier && Elements(taken) == PathsOf(earlier) && Elements(rest) <= PathsOf(last)
      ensures exit.Graceful? ==>
                && (Shutdown in last || (env.script == [] && env.queue == []))
                && completed.Some? && persisted == completed && Answers(session, completed.value)
                && exit == Graceful(|completed.value.diagnostics|, |session.errors|)
                && (forall f :: FilePanicked(f) in session.errors <==> f in completed.value.panicked)
    {
      hide Answers, PanicsAre, Recorded, InStep, Tracks, Elements, PathsOf, Environment.Pending, Environment.Remaining, Session.Valid, Session.Contents,
           Session.CurrentInputs, Environment.Valid;
      earlier, taken := [], [];
      NoElements();
      while true
        invariant session.Valid() && env.Valid() && Current(session, env, {}) && AtRoots(session)
        invariant env.log == old(env.log) + earlier && session.absorbed == old(session.absorbed) + taken
        invariant Shutdown !in earlier && Elements(taken) == PathsOf(earlier)
        decreases env.Remaining()
      {
        var flow;
        flow, last, rest := Iteration(session);
        match flow {
          case Break(reason) =>
            exit := reason;
            return;
          case Continue(_) =>
            PathsOfConcat(earlier, last);
            ElementsConcat(taken, rest);
            earlier, taken := earlier + last, taken + rest;
        }
      }
    }
  }

  lemma HeldLater(root: Path, discover: Disk -> Discovery, seen: Picture, disk: Disk, pending: set<Path>,
                  disk': Disk, pending': set<Path>, held: set<Path>, more: set<Path>, burst: set<Path>)
    requires InStep(root, discover, Scene(seen, disk, pending + held))
    requires Later(disk, pending, disk', pending' + more) && burst == held + more
    ensures InStep(root, discover, Scene(seen, disk', pending' + burst))
  {
    LaterInStep(root, discover, seen, disk, pending + held, disk', pending' + burst);
  }

  predicate IsUnwatchable(error: InternalError) { error.PathUnwatchable? }

  function Reportable(unwatchable: seq<UnwatchablePath>): seq<InternalError> {
    if unwatchable == [] then []
    else
      var front, last := unwatchable[..|unwatchable| - 1], unwatchable[|unwatchable| - 1];
      Reportable(front) + if last.IsWorthReporting() then [PathUnwatchable(last.path, last.reason)] else []
  }

  lemma {:induction false} ReportableElements(unwatchable: seq<UnwatchablePath>)
    ensures forall e :: e in Reportable(unwatchable) ==> IsUnwatchable(e)
  {
    if unwatchable == [] {
    } else {
      ReportableElements(unwatchable[..|unwatchable| - 1]);
    }
  }

  lemma {:induction false} ReportableExactly(unwatchable: seq<UnwatchablePath>, e: InternalError)
    ensures e in Reportable(unwatchable) <==>
              e.PathUnwatchable? && exists u :: u in unwatchable && u.path == e.path && u.reason == e.reason && (u.existed || u.declared)
  {
    if unwatchable == [] {
    } else {
      var front, last := unwatchable[..|unwatchable| - 1], unwatchable[|unwatchable| - 1];
      assert unwatchable == front + [last] && last in unwatchable;
      ReportableExactly(front, e);
      if e.PathUnwatchable? {
        if u :| u in front && u.path == e.path && u.reason == e.reason && (u.existed || u.declared) { assert u in unwatchable; }
      }
    }
  }

  lemma PanicsElements(panicked: seq<FileId>)
    ensures AnalysisPanicked !in PanicsOf(panicked)
  {
  }

  lemma FailuresElements(failures: seq<Render.RenderFailure>)
    ensures AnalysisPanicked !in Render.FailureErrors(failures)
    ensures forall f :: FilePanicked(f) !in Render.FailureErrors(failures)
  {
  }

  lemma StillInStep(root: Path, discover: Disk -> Discovery, seen: Picture, disk: Disk, pending: set<Path>,
                    disk': Disk, pending': set<Path>)
    requires Later(disk, pending, disk', pending')
    ensures InStep(root, discover, Scene(seen, disk, pending + {})) ==> InStep(root, discover, Scene(seen, disk', pending' + {}))
  {
    assert pending + {} == pending && pending' + {} == pending';
    if InStep(root, discover, Scene(seen, disk, pending)) { LaterInStep(root, discover, seen, disk, pending, disk', pending'); }
  }

  lemma CurrentLater(root: Path, discover: Disk -> Discovery, seen: Picture, disk: Disk, pending: set<Path>,
                     disk': Disk, pending': set<Path>, held: set<Path>)
    requires InStep(root, discover, Scene(seen, disk, pending + {}))
    requires Later(disk, pending, disk', pending' + held)
    ensures InStep(root, discover, Scene(seen, disk', pending' + held))
  {
    assert pending + {} == pending;
    LaterInStep(root, discover, seen, disk, pending, disk', pending' + held);
  }

  /** The same passes and files are reported to have panicked. */
  ghost predicate SamePanics(errors: seq<InternalError>, errors': seq<InternalError>) {
    && (AnalysisPanicked in errors <==> AnalysisPanicked in errors')
    && forall f :: FilePanicked(f) in errors <==> FilePanicked(f) in errors'
  }

  /** Exactly these files are reported to have panicked. */
  ghost predicate PanicsAre(errors: seq<InternalError>, panicked: seq<FileId>) {
    forall f :: FilePanicked(f) in errors <==> f in panicked
  }

  lemma PanicsSay(errors: seq<InternalError>, panicked: seq<FileId>)
    requires PanicsAre(errors, panicked)
    ensures forall f :: FilePanicked(f) in errors <==> f in panicked
  {
  }

  lemma OthersSamePanics(errors: seq<InternalError>, errors': seq<InternalError>)
    requires SameOtherErrors(errors, errors')
    ensures SamePanics(errors, errors')
  {
  }

  lemma NonePanicked(errors: seq<InternalError>)
    requires forall e :: e in errors ==> !IsPassVerdict(e)
    ensures AnalysisPanicked !in errors && PanicsAre(errors, [])
  {
    forall f ensures FilePanicked(f) !in errors {
      assert IsPassVerdict(FilePanicked(f));
    }
  }

  lemma PassPanics(errors: seq<InternalError>)
    ensures PanicsAre(errors, []) ==> PanicsAre(errors + [AnalysisPanicked], [])
    ensures AnalysisPanicked in errors + [AnalysisPanicked]
  {
  }

  /** The report names this pass's panics, whatever went before. */
  lemma PanicsReported(errors: seq<InternalError>, panicked: seq<FileId>, unwatchable: seq<UnwatchablePath>,
                       failures: seq<Render.RenderFailure>)
    requires PanicsAre(errors, [])
    ensures PanicsAre(Without(errors + PanicsOf(panicked), IsUnwatchable) + Reportable(unwatchable)
                      + Render.FailureErrors(failures), panicked)
  {
    FailuresElements(failures);
    WithoutElements(errors + PanicsOf(panicked), IsUnwatchable);
    ReportableElements(unwatchable);
    forall f ensures FilePanicked(f) in PanicsOf(panicked) <==> f in panicked {
      if f in panicked {
        var i :| 0 <= i < |panicked| && panicked[i] == f;
        assert PanicsOf(panicked)[i] == FilePanicked(f);
      }
    }
  }

  /** Absorbing a held burst leaves only what is still unseen, lost or queued. */
  lemma AbsorbedInStep(root: Path, discover: Disk -> Discovery, seen: Picture, disk: Disk, unseen: set<Path>, lost: set<Path>,
                       queued: set<Path>, changed: seq<Path>)
    requires InStep(root, discover, Scene(seen, disk, unseen + lost + queued + Elements(changed)))
    ensures var after := AbsorbedPicture(root, discover, seen, changed, disk);
            var left := StillUnseen(root, seen.discovery, changed, unseen) + StillStale(root, seen.discovery, changed, lost) + queued;
            InStep(root, discover, Scene(after, disk, left + {}))
  {
    hide Tracks, Kept, AbsorbedPicture;
    StepKeepsInStep(Scene(seen, disk, unseen + lost + queued + Elements(changed)), root, discover, Move.Absorb(changed));
  }

  lemma UnreadIff(queue: seq<WatchEvent>, root: Path, seen: Picture, disk: Disk)
    ensures forall p :: p in Unread(queue, root, seen, disk) <==> p in PathsOf(queue) && !Tracks(root, seen, disk, p)
  {
    hide Tracks, PathsOf;
  }

  /** After a burst with a manifest, what is not in step was written since. */
  lemma WrittenSince(root: Path, discover: Disk -> Discovery, seen: Picture, changed: seq<Path>, disk: Disk, disk': Disk,
                     waiting: seq<WatchEvent>)
    ensures HasManifest(root, changed) ==>
              forall p :: p in Unread(waiting, root, AbsorbedPicture(root, discover, seen, changed, disk), disk')
                          ==> Get(disk, p) != Get(disk', p)
  {
    hide Tracks;
    if HasManifest(root, changed) {
      var after := FromScratch(discover, disk);
      forall p | p in Unread(waiting, root, after, disk') ensures Get(disk, p) != Get(disk', p) {
        ScratchTracks(root, discover, disk, p);
        if Get(disk, p) == Get(disk', p) { WriteTracks(root, after, disk, disk', p); }
      }
    }
  }

  /** Dropping a queue leaves behind only the saves it carried unread. */
  lemma DropsInStep(root: Path, discover: Disk -> Discovery, seen: Picture, disk: Disk, unseen: set<Path>, lost: set<Path>,
                    queue: seq<WatchEvent>)
    requires InStep(root, discover, Scene(seen, disk, unseen + lost + PathsOf(queue) + {}))
    ensures InStep(root, discover, Scene(seen, disk, unseen + (lost + Unread(queue, root, seen, disk)) + PathsOf([]) + {}))
  {
    hide Tracks, Kept;
  }

  // ----- runs that lose what was queued

  function Source(): Path { Path(["src", "a.php"]) }
  function Other(): Path { Path(["src", "b.php"]) }
  function Manifest(): Path { Path(["composer.json"]) }
  function Lockfile(): Path { Path(["composer.lock"]) }

  lemma FourPaths()
    ensures Source() != Other() && Source() != Manifest() && Source() != Lockfile()
    ensures Other() != Manifest() && Other() != Lockfile() && Manifest() != Lockfile()
    ensures IsManifest(Path([]), Manifest()) && !IsManifest(Path([]), Other()) && !IsManifest(Path([]), Source())
  {
    assert [] + ["composer.json"] == ["composer.json"];
    assert Other().components[0] == "src" && Source().components[0] == "src" && Source().components[1] != Other().components[1];
  }

  /** A project with `src`, and `tests` too once it has a manifest. */
  function Autoload(disk: Disk): Discovery {
    Discovery(if Manifest() in disk then [Path(["src"]), Path(["tests"])] else [Path(["src"])], [], Path(["vendor"]), [], (0, 0))
  }

  function Old(): Entry { File([]) }
  function New(): Entry { File([65]) }

  lemma SourceIsWalked(disk: Disk)
    requires Source() in disk && disk[Source()].File?
    ensures Walkable(Autoload(disk), disk, Source())
  {
    assert Source().StartsWith(Path(["src"])) && Path(["src"]) in Autoload(disk).WalkRoots();
  }

  /** A session over one file of `src`, that has heard of a first save and not
      yet absorbed it. */
  method Opened(first: Path, script: seq<Action>) returns (env: Environment, session: Session)
    ensures session.Valid() && env.Valid() && session.root == Path([]) && session.discover == Autoload
    ensures fresh(env) && fresh(session) && fresh(session.vfs)
    ensures session.Seen() == FromScratch(Autoload, map[Source() := Old()])
    ensures Current(session, env, Elements([first]))
    ensures env.disk == map[Source() := Old()][first := Old()] && env.registeredOn == map[Source() := Old()]
    ensures env.script == script && env.queue == [] && env.log == [Changed(first)] && env.dropped == [] && env.lost == {}
    ensures env.retries == multiset{}
  {
    hide Session.Valid, Session.Contents, Environment.Valid, EventsOf, PathsOf, Elements, Later, InStep, FromScratch, Autoload, Source, Old;
    var save := Save(first, Some(Old()), true);
    env := new Environment(map[Source() := Old()], [save] + script, {});
    session := new Session(Path([]), env.disk, Autoload, []);
    NoElements();
    StartedInStep(Path([]), Autoload, env.disk, env.Pending());
    ghost var disk, pending := env.disk, env.Pending();
    assert env.script[0] == save && env.script[1..] == script;
    env.Act();
    LaterInStep(Path([]), Autoload, session.Seen(), disk, pending, env.disk, env.Pending());
    OnePath(first);
    var _ := env.Pop();
  }

  /** Two things that happen outside in one moment, the last of a script. */
  lemma BothHappen(disk: Disk, a: Action, b: Action)
    requires !a.Tick? && !b.Tick?
    ensures [a, b][..Moment([a, b])] == [a, b]
    ensures DiskAfterAll(disk, [a, b]) == DiskAfter(DiskAfter(disk, a), b) && EventsOf([a, b]) == EventOf(a) + EventOf(b)
    ensures (forall d :: DiskAfterAll(d, []) == d) && EventsOf([]) == []
  {
    assert [a, b][1..] == [b] && [b][1..] == [];
    assert Moment([b]) == 1 && Moment([a, b]) == 2;
    hide DiskAfter, EventOf, Moment;
    assert [a, b][..1] == [a] && [a][..0] == [];
    assert DiskAfterAll(disk, [a]) == DiskAfter(disk, a);
    assert EventsOf([a]) == [] + EventOf(a) == EventOf(a);
  }

  /** A session over a watch that refused nothing has heard of a manifest that
      adds a root; an edit and a signal are about to come. */
  method HeldManifest(analyze: Inputs -> AnalysisOutcome) returns (env: Environment, session: Session, watch: Watch)
    ensures session.Valid() && env.Valid() && fresh(env) && fresh(session) && fresh(session.vfs) && fresh(watch)
    ensures session.root == Path([]) && session.discover == Autoload
    ensures watch.env == env && watch.AtRoots(session) && watch.unwatchable == []
    ensures Current(session, env, Elements([Manifest()])) && session.Seen() == FromScratch(Autoload, map[Source() := Old()])
    ensures env.disk == map[Source() := Old(), Manifest() := Old()] && env.script == [Save(Source(), Some(New()), true), Signal]
    ensures env.queue == [] && env.log == [Changed(Manifest())] && env.dropped == [] && env.lost == {}
  {
    hide Session.Valid, Session.Contents, Environment.Valid, EventsOf, PathsOf, Elements, InStep, FromScratch, Autoload,
         Source, Manifest, Old, New, Environment.Pending, Environment.Remaining;
    FourPaths();
    env, session := Opened(Manifest(), [Save(Source(), Some(New()), true), Signal]);
    watch := new Watch(env, analyze, session.discovery.projectWalkRoots, []);
  }

  lemma PlanKept(env: Environment)
    requires env.Valid()
    ensures env.ran + env.script == env.plan
  {
  }

  lemma AllRan(ran: seq<Action>, script: seq<Action>, before: seq<Action>, during: seq<Action>, rest: seq<Action>)
    requires ran + before + during + rest == ran + script && script <= before
    ensures before == script && during == [] && rest == []
  {
    assert |before| + |during| + |rest| == |script|;
  }

  /** `cycle`, overtaken by that burst: the edit and the signal come while the
      worker is joined, and the respawn drops both, unread and unheard. */
  method ManifestRespawnInCycle(analyze: Inputs -> AnalysisOutcome)
    returns (r: Result<Resynchronized, string>, env: Environment, session: Session, watch: Watch)
    ensures session.Valid() && watch.env == env
    ensures r.Ok? ==>
              && env.lost == {Source()} && env.dropped == [Changed(Source()), Shutdown] && env.log == [Changed(Manifest())]
              && Get(session.Contents(), Source()) == Some([]) && Get(env.disk, Source()) == Some(New())
  {
    hide Session.Valid, Session.Contents, Session.CurrentInputs, Environment.Valid, PathsOf, Elements, InStep, Tracks, FromScratch,
         AbsorbedPicture, Autoload, StillStale, HasManifest, Source, Manifest, Old, New, Environment.Pending, Environment.Remaining,
         EventsOf, DiskAfterAll, Moment, Respawns;
    env, session, watch := HeldManifest(analyze);
    ghost var disk, ran, script := env.disk, env.ran, env.script;
    PlanKept(env);
    BothHappen(disk, script[0], script[1]);
    ManifestRun(disk, session.Seen());
    ghost var before, during, gone;
    r, before, during, gone := watch.OvertakeAndFollow(session, [Manifest()], session.CurrentInputs());
    PlanKept(env);
    AllRan(ran, script, before, during, env.script);
    assert [] + EventsOf(before) + EventsOf(during) == [Changed(Source()), Shutdown];
    if r.Ok? { GoneIsSource(session.root, session.Seen(), env.disk, [Changed(Source()), Shutdown], gone); }
  }

  /** `iteration`, absorbing that burst: the edit and the signal come between
      the absorption and the respawn, which drops both just the same. */
  method ManifestRespawnInIteration(analyze: Inputs -> AnalysisOutcome)
    returns (r: Result<Resynchronized, string>, env: Environment, session: Session, watch: Watch)
    ensures session.Valid() && watch.env == env
    ensures r.Ok? ==>
              && env.lost == {Source()} && env.dropped == [Changed(Source()), Shutdown] && env.log == [Changed(Manifest())]
              && Get(session.Contents(), Source()) == Some([]) && Get(env.disk, Source()) == Some(New())
  {
    hide Session.Valid, Session.Contents, Session.CurrentInputs, Environment.Valid, PathsOf, Elements, InStep, Tracks, FromScratch,
         AbsorbedPicture, Autoload, StillStale, HasManifest, Source, Manifest, Old, New, Environment.Pending, Environment.Remaining,
         EventsOf, DiskAfterAll, Moment, Respawns;
    env, session, watch := HeldManifest(analyze);
    ghost var disk, ran, script := env.disk, env.ran, env.script;
    PlanKept(env);
    BothHappen(disk, script[0], script[1]);
    ManifestRun(disk, session.Seen());
    ghost var before, during, gone;
    r, before, during, gone := watch.AbsorbAndFollow(session, [Manifest()]);
    PlanKept(env);
    AllRan(ran, script, before, during, env.script);
    assert [] + EventsOf(before) + EventsOf(during) == [Changed(Source()), Shutdown];
    if r.Ok? { GoneIsSource(session.root, session.Seen(), env.disk, [Changed(Source()), Shutdown], gone); }
  }

  lemma GoneIsSource(root: Path, seen: Picture, disk: Disk, waiting: seq<WatchEvent>, gone: set<Path>)
    requires !Tracks(root, seen, disk, Source())
    requires waiting == [Changed(Source()), Shutdown] || waiting == [Changed(Source())]
    requires forall p :: p in gone <==> p in PathsOf(waiting) && !Tracks(root, seen, disk, p)
    ensures gone == {Source()}
  {
    hide Tracks, Source;
    PathsOfConcat([Changed(Source())], [Shutdown]);
    assert [Changed(Source())] + [Shutdown] == [Changed(Source()), Shutdown];
    OnePath(Source());
    OneShutdown();
  }

  lemma ManifestRun(disk: Disk, seen: Picture)
    requires disk == map[Source() := Old(), Manifest() := Old()] && seen == FromScratch(Autoload, map[Source() := Old()])
    ensures var after := AbsorbedPicture(Path([]), Autoload, seen, [Manifest()], disk);
            var disk' := DiskAfter(DiskAfter(disk, Save(Source(), Some(New()), true)), Signal);
            && (forall d :: Respawns(seen.discovery.projectWalkRoots, [], after.discovery.projectWalkRoots, d))
            && Get(after.contents, Source()) == Some([]) && Get(disk', Source()) == Some(New())
            && !Tracks(Path([]), after, disk', Source())
    ensures StillStale(Path([]), seen.discovery, [Manifest()], {}) == {}
  {
    FourPaths();
    assert Manifest() in [Manifest()];
    assert AbsorbedPicture(Path([]), Autoload, seen, [Manifest()], disk) == FromScratch(Autoload, disk);
    SourceIsWalked(disk);
    SourceIsWalked(disk[Source() := New()]);
    assert [65] != [];
  }

  /** `iteration` with a burst that holds no manifest, over a watch that was
      refused an absent lockfile: the lockfile and an edit appear after the
      absorption, and the respawn that picks the one up drops the other. */
  method RetryRespawnDropsASave(analyze: Inputs -> AnalysisOutcome)
    returns (r: Result<Resynchronized, string>, env: Environment, session: Session, watch: Watch)
    ensures session.Valid() && watch.env == env
    ensures r.Ok? ==>
              && env.lost == {Source()} && env.dropped == [Changed(Source())] && env.log == [Changed(Other())]
              && Get(session.Contents(), Source()) == Some([]) && Get(env.disk, Source()) == Some(New())
  {
    hide Session.Valid, Session.Contents, Session.CurrentInputs, Environment.Valid, PathsOf, Elements, InStep, Tracks, FromScratch,
         AbsorbedPicture, Autoload, StillStale, HasManifest, Source, Other, Lockfile, Old, New, Environment.Pending,
         Environment.Remaining, EventsOf, DiskAfterAll, Moment, Respawns;
    FourPaths();
    env, session := Opened(Other(), [Save(Lockfile(), Some(Old()), false), Save(Source(), Some(New()), true)]);
    watch := new Watch(env, analyze, session.discovery.projectWalkRoots, [UnwatchablePath(Lockfile(), "not found", false, false)]);
    ghost var disk, ran, script := env.disk, env.ran, env.script;
    PlanKept(env);
    BothHappen(disk, script[0], script[1]);
    LockfileRun(disk, session.Seen());
    ghost var before, during, gone;
    r, before, during, gone := watch.AbsorbAndFollow(session, [Other()]);
    PlanKept(env);
    AllRan(ran, script, before, during, env.script);
    assert [] + EventsOf(before) + EventsOf(during) == [Changed(Source())];
    if r.Ok? { GoneIsSource(session.root, session.Seen(), env.disk, [Changed(Source())], gone); }
  }

  lemma LockfileRun(disk: Disk, seen: Picture)
    requires disk == map[Source() := Old()][Other() := Old()] && seen == FromScratch(Autoload, map[Source() := Old()])
    ensures var after := AbsorbedPicture(Path([]), Autoload, seen, [Other()], disk);
            var disk' := DiskAfter(DiskAfter(disk, Save(Lockfile(), Some(Old()), false)), Save(Source(), Some(New()), true));
            && Respawns(seen.discovery.projectWalkRoots, [UnwatchablePath(Lockfile(), "not found", false, false)],
                        after.discovery.projectWalkRoots, disk')
            && Get(after.contents, Source()) == Some([]) && Get(disk', Source()) == Some(New())
            && !Tracks(Path([]), after, disk', Source())
    ensures !HasManifest(Path([]), [Other()]) && StillStale(Path([]), seen.discovery, [Other()], {}) == {}
  {
    FourPaths();
    var refused := UnwatchablePath(Lockfile(), "not found", false, false);
    var disk' := DiskAfter(DiskAfter(disk, Save(Lockfile(), Some(Old()), false)), Save(Source(), Some(New()), true));
    assert refused in [refused] && refused.CanBeRetried(disk');
    SourceIsWalked(map[Source() := Old()]);
    SourceIsWalked(disk');
    AbsorbedAt(seen.contents, [Other()], seen.discovery, disk, Source());
    assert [65] != [];
  }

  // ----- a path retried twice

  function Toml(): Path { Path(["celerrate.toml"]) }

  function Appear(p: Path): Action { Save(p, Some(Old()), false) }

  /** The lockfile appears; it goes as the configuration appears; it appears
      again. Two moments after each, for a respawn. */
  function OnAndOff(): seq<Action> {
    [Appear(Lockfile()), Tick, Tick, Tick, Save(Lockfile(), None, false), Appear(Toml()), Tick, Tick, Tick, Appear(Lockfile())]
  }

  lemma OnAndOffMoments()
    ensures var s := OnAndOff();
            && Moment(s) == 2 && Moments(s[2..], 2) == 2 && s[2..][2..] == s[4..]
            && Moment(s[4..]) == 3 && s[4..][3..] == s[7..] && Moments(s[7..], 2) == 2 && s[7..][2..] == s[9..]
            && Moment(s[9..]) == 1
  {
    var s := OnAndOff();
    assert s[0..] == s && s[10..] == [];
    forall i | 0 <= i < 10 ensures Moment(s[i..]) == if s[i].Tick? then 1 else 1 + Moment(s[i + 1..]) { MomentAt(s, i); }
    hide Moment;
    assert Moment(s[9..]) == 1 + Moment(s[10..]) && Moment(s[6..]) == 1 && Moment(s[5..]) == 2;
    assert Moment(s[2..]) == Moment(s[3..]) == Moment(s[7..]) == Moment(s[8..]) == 1;
    Slices(s, 2, 1);
    Slices(s, 7, 1);
    TwoMoments(s[2..]);
    TwoMoments(s[7..]);
    Slices(s, 2, 2);
    Slices(s, 4, 3);
    Slices(s, 7, 2);
  }

  lemma MomentAt(s: seq<Action>, i: nat)
    requires i < |s|
    ensures Moment(s[i..]) == if s[i].Tick? then 1 else 1 + Moment(s[i + 1..])
    ensures Moment([]) == 0
  {
    assert s[i..][0] == s[i] && s[i..][1..] == s[i + 1..];
  }

  lemma LockfileAppearsTwice(disk: Disk)
    requires Lockfile() !in disk
    ensures Appearances(disk, OnAndOff(), Lockfile()) == 2
  {
    var s, p := OnAndOff(), Lockfile();
    hide Appearances, DiskAfterAll;
    LockfileGoesAgain(disk);
    AppearsStep(disk, s, 5, p);
    AppearsStep(disk, s, 6, p);
    AppearsStep(disk, s, 7, p);
    AppearsStep(disk, s, 8, p);
    AppearsStep(disk, s, 9, p);
    assert s[..10] == s;
  }

  lemma LockfileGoesAgain(disk: Disk)
    requires Lockfile() !in disk
    ensures Appearances(disk, OnAndOff()[..5], Lockfile()) == 1 && Lockfile() !in DiskAfterAll(disk, OnAndOff()[..5])
  {
    var s, p := OnAndOff(), Lockfile();
    hide Appearances, DiskAfterAll;
    assert s[..0] == [];
    AppearsStep(disk, s, 0, p);
    AppearsStep(disk, s, 1, p);
    AppearsStep(disk, s, 2, p);
    AppearsStep(disk, s, 3, p);
    AppearsStep(disk, s, 4, p);
  }

  lemma AppearsStep(disk: Disk, s: seq<Action>, i: nat, p: Path)
    requires i < |s|
    ensures p in DiskAfterAll(disk, s[..i + 1]) <==>
              if s[i].Save? && s[i].path == p then s[i].entry.Some? else p in DiskAfterAll(disk, s[..i])
    ensures Appearances(disk, s[..i + 1], p) == Appearances(disk, s[..i], p)
              + if p !in DiskAfterAll(disk, s[..i]) && p in DiskAfterAll(disk, s[..i + 1]) then 1 else 0
    ensures Appearances(disk, [], p) == 0 && DiskAfterAll(disk, []) == disk
  {
    assert s[..i + 1][..i] == s[..i];
  }

  lemma OnAndOffDisks(disk: Disk)
    requires Lockfile() !in disk && Toml() !in disk
    ensures var s := OnAndOff();
            var d1 := DiskAfterAll(disk, s[..2]);
            var d1' := DiskAfterAll(d1, s[2..][..2]);
            var d2 := DiskAfterAll(d1', s[4..][..3]);
            var d2' := DiskAfterAll(d2, s[7..][..2]);
            var d3 := DiskAfterAll(d2', s[9..][..1]);
            Lockfile() in d1 && Lockfile() !in d2 && Toml() in d2 && Lockfile() in d3
  {
    var s := OnAndOff();
    assert s[..2] == [Appear(Lockfile()), Tick] && s[2..][..2] == [Tick, Tick];
    assert s[4..][..3] == [Save(Lockfile(), None, false), Appear(Toml()), Tick] && s[7..][..2] == [Tick, Tick];
    assert s[9..][..1] == [Appear(Lockfile())];
    assert Lockfile() != Toml();
    SomeActions(disk, Appear(Lockfile()), Tick);
    var d1 := Put(disk, Lockfile(), Some(Old()));
    SomeActions(d1, Tick, Tick);
    SomeActions(d1, Save(Lockfile(), None, false), Appear(Toml()));
    var d2 := Put(Put(d1, Lockfile(), None), Toml(), Some(Old()));
    assert [Save(Lockfile(), None, false), Appear(Toml()), Tick][..2] == [Save(Lockfile(), None, false), Appear(Toml())];
    SomeActions(d2, Tick, Tick);
    assert [Appear(Lockfile())][..0] == [];
  }

  lemma SomeActions(disk: Disk, a: Action, b: Action)
    ensures DiskAfterAll(disk, [a, b]) == DiskAfter(DiskAfter(disk, a), b)
  {
    assert [a, b][..1] == [a] && [a][..0] == [];
    assert DiskAfterAll(disk, [a]) == DiskAfter(disk, a);
  }

  predicate RefusedAbsent(unwatchable: seq<UnwatchablePath>, p: Path) {
    exists u :: u in unwatchable && u.path == p && !u.existed
  }

  /** A moment in which a refused path appears, and the watch following. */
  method PassAndFollow(env: Environment, session: Session, watch: Watch, ghost p: Path) returns (followed: bool)
    requires session.Valid() && env.Valid() && watch.env == env && watch.AtRoots(session)
    requires RefusedAbsent(watch.unwatchable, p) && p in DiskAfterAll(env.disk, env.script[..Moment(env.script)])
    modifies watch`declared, watch`unwatchable, env`disk, env`script, env`queue, env`ran, env`unseen, env`dropped, env`lost,
             env`registeredOn, env`retries
    ensures session.Valid() && env.Valid()
    ensures followed ==>
              var passed, rest := old(env.script)[..Moment(old(env.script))], old(env.script)[Moment(old(env.script))..];
              && watch.AtRoots(session) && env.script == rest[Moments(rest, 2)..]
              && env.disk == DiskAfterAll(DiskAfterAll(old(env.disk), passed), rest[..Moments(rest, 2)])
              && env.retries[p] == old(env.retries)[p] + 1
              && forall q :: q !in DiskAfterAll(old(env.disk), passed) ==> env.retries[q] == old(env.retries)[q]
  {
    hide Session.Valid, Session.Contents, Environment.Valid, Environment.Remaining, Environment.Pending, Later, InStep, EventsOf,
         DiskAfterAll, Moment, Moments, PathsOf, Unread, Shutdowns, Watch.Recorded, RefusedAbsent, Retried;
    var script := env.script;
    env.Advance();
    IsRetried(watch.declared, watch.unwatchable, env.disk, p);
    ghost var during, gone;
    var r;
    r, during, gone := watch.Resynchronize(session);
    followed := r.Ok?;
  }

  lemma IsRetried(roots: seq<Path>, unwatchable: seq<UnwatchablePath>, disk: Disk, p: Path)
    requires RefusedAbsent(unwatchable, p) && p in disk
    ensures Respawns(roots, unwatchable, roots, disk) && p in Retried(roots, unwatchable, roots, disk)
    ensures Retried(roots, unwatchable, roots, disk) <= disk.Keys
  {
    var u :| u in unwatchable && u.path == p && !u.existed;
    assert u.CanBeRetried(disk);
  }

  /** Each path is said to cost one extra respawn at most while the declared
      roots stay the same. Where the operating system refuses what is absent,
      the lockfile costs two: the other respawn refused it anew. */
  method RetriedTwice(env: Environment, session: Session, watch: Watch) returns (refused: bool)
    requires session.Valid() && env.Valid() && watch.env == env && watch.AtRoots(session)
    requires env.script == OnAndOff() && Lockfile() !in env.disk && Toml() !in env.disk && env.retries[Lockfile()] == 0
    requires RefusedAbsent(watch.unwatchable, Lockfile())
    modifies watch`declared, watch`unwatchable, env`disk, env`script, env`queue, env`ran, env`unseen, env`dropped, env`lost,
             env`registeredOn, env`retries
    ensures refused ==> env.retries[Lockfile()] == 2 == Appearances(old(env.disk), OnAndOff(), Lockfile()) && watch.declared == old(watch.declared)
  {
    hide Session.Valid, Session.Contents, Environment.Valid, DiskAfterAll, Moment, Moments, Lockfile, Toml, OnAndOff, RefusedAbsent,
         Watch.Recorded;
    OnAndOffMoments();
    OnAndOffDisks(env.disk);
    LockfileAppearsTwice(env.disk);
    hide Appearances;
    refused := PassAndFollow(env, session, watch, Lockfile());
    if !refused || !RefusedAbsent(watch.unwatchable, Toml()) { return false; }
    refused := PassAndFollow(env, session, watch, Toml());
    if !refused || !RefusedAbsent(watch.unwatchable, Lockfile()) { return false; }
    refused := PassAndFollow(env, session, watch, Lockfile());
  }

  /** With nothing that concerns the session pending, what the next cycle
      analyzes is what a load of the disk under its discovery would give,
      exactly when every path absorbed since discovery ran is listed by the walk
      just if it can be read; and its discovery is a fresh start's exactly when
      the index gives the dependencies the roots it gave before. */
  lemma QuietSessionIsScratch(session: Session, env: Environment, packages: (Path, Option<Entry>) -> seq<Path>)
    requires session.Valid() && Current(session, env, {}) && CaughtUp(session.root, session.Seen(), env.Pending())
    ensures session.Contents() == Scratch(session.discovery, env.disk)
       <==> forall p :: p in session.since ==> Settles(session.discovery, env.disk, p)
    ensures (forall p :: p in session.since ==> Settles(session.discovery, env.disk, p)) ==>
              && (forall s :: s in session.CurrentInputs().files ==> (
                    && s.file < |session.vfs.paths|
                    && Get(Scratch(session.discovery, env.disk), session.vfs.paths[s.file]) == Some(s.bytes)))
              && (forall p :: p in Scratch(session.discovery, env.disk) ==>
                    exists s :: s in session.CurrentInputs().files && s.file < |session.vfs.paths| && session.vfs.paths[s.file] == p)
    ensures DiscoversFrom(session.root, session.discover, packages) ==>
              (session.discovery == session.discover(env.disk) <==> SamePackages(packages, session.Seen(), env.disk))
  {
    hide Session.Valid, Session.Contents, Session.CurrentInputs, Scratch, Settles, Concerns, SamePackages, Environment.Pending, InStep;
    session.InputsAreContents();
    assert env.Pending() + {} == env.Pending();
    var scene := Scene(session.Seen(), env.disk, env.Pending());
    InStepIsScratchIff(session.root, session.discover, scene);
    if DiscoversFrom(session.root, session.discover, packages) {
      ManifestsConcern(session.root, session.Seen(), env.Pending());
      InStepDiscoveryIff(session.root, session.discover, packages, scene);
    }
  }

  lemma ManifestsConcern(root: Path, seen: Picture, stale: set<Path>)
    requires CaughtUp(root, seen, stale)
    ensures forall p :: p in stale ==> !IsManifest(root, p)
  {
  }

  /** What was written between two disks. */
  function WrittenBetween(disk: Disk, disk': Disk): set<Path> {
    set p | p in disk.Keys + disk'.Keys && Get(disk, p) != Get(disk', p)
  }

  lemma StartedLater(root: Path, discover: Disk -> Discovery, disk: Disk, disk': Disk)
    ensures InStep(root, discover, Scene(FromScratch(discover, disk), disk', WrittenBetween(disk, disk') + {} + PathsOf([]) + {}))
  {
    StartedInStep(root, discover, disk, {});
    NoElements();
    LaterInStep(root, discover, FromScratch(discover, disk), disk, {}, disk', WrittenBetween(disk, disk') + {} + PathsOf([]) + {});
  }

  /** A path the watch was refused while absent costs a respawn, over roots
      that have not moved, at most once each time it comes to exist. */
  lemma RetriesAreAppearances(env: Environment)
    requires env.Valid()
    ensures forall p :: env.retries[p] <= Appearances(env.first, env.ran, p)
  {
    hide Appearances;
  }

  /** A session is started, and the watch spawned over it on whatever the disk
      has become by then. What was written in between nothing told of. */
  method Spawn(root: Path, disk: Disk, registered: Disk, discover: Disk -> Discovery, script: seq<Action>,
               analyze: Inputs -> AnalysisOutcome)
    returns (spawned: bool, env: Environment, session: Session, watch: Watch)
    ensures session.Valid() && env.Valid() && watch.env == env && watch.analyze == analyze && session.discover == discover
    ensures fresh(env) && fresh(session) && fresh(session.vfs) && fresh(watch)
    ensures env.plan == script && env.first == registered && env.ran == [] && env.log == [] && session.absorbed == []
    ensures spawned ==> Current(session, env, {}) && watch.AtRoots(session)
  {
    hide Session.Valid, Session.Contents, FromScratch, InStep, EventsOf, RetriesBounded, DiskAfterAll, PathsOf, WrittenBetween;
    env := new Environment(registered, script, WrittenBetween(disk, registered));
    session := new Session(root, disk, discover, []);
    watch := new Watch(env, analyze, session.discovery.projectWalkRoots, []);
    StartedLater(root, discover, disk, registered);
    var built := watch.Build(session);
    spawned := built.Ok?;
    if spawned { watch.unwatchable := built.value; }
  }

  /** `watch`: the loop over a spawned watch. Everything heard before the last
      iteration was absorbed; every signal raised meanwhile was heard, is still
      queued, or went with a channel that a respawn replaced; and no path was
      retried more often than it came to exist. */
  method Start(root: Path, disk: Disk, registered: Disk, discover: Disk -> Discovery, script: seq<Action>,
               analyze: Inputs -> AnalysisOutcome)
    returns (exit: Exit, env: Environment, session: Session, watch: Watch,
             ghost earlier: seq<WatchEvent>, ghost last: seq<WatchEvent>, ghost taken: seq<Path>, ghost rest: seq<Path>)
    ensures session.Valid() && env.ran + env.script == script && env.first == registered
    ensures Signals(env.ran) == Shutdowns(env.log) + Shutdowns(env.queue) + Shutdowns(env.dropped)
    ensures forall p :: env.retries[p] <= Appearances(registered, env.ran, p)
    ensures env.log == earlier + last && session.absorbed == taken + rest
    ensures Shutdown !in earlier && Elements(taken) == PathsOf(earlier) && Elements(rest) <= PathsOf(last)
    ensures exit.Graceful? ==>
              && (Shutdown in last || (env.script == [] && env.queue == []))
              && watch.analyze == analyze && watch.completed.Some? && watch.persisted == watch.completed
              && watch.completed.value == (if AnalysisPanicked in session.errors then Analysis.AnalysisOutcome([], [])
                                           else analyze(session.CurrentInputs()))
              && exit == Graceful(|watch.completed.value.diagnostics|, |session.errors|)
              && (forall f :: FilePanicked(f) in session.errors <==> f in watch.completed.value.panicked)
    ensures forall s :: s in session.CurrentInputs().files ==>
              s.file < |session.vfs.paths| && Get(session.Contents(), session.vfs.paths[s.file]) == Some(s.bytes)
  {
    hide Session.Valid, Session.Contents, Session.CurrentInputs, Current, Environment.Valid, Watch.AtRoots, Watch.Answers,
         Signals, Shutdowns, Appearances, PathsOf, Elements;
    earlier, last, taken, rest := [], [], [], [];
    NoElements();
    var spawned;
    spawned, env, session, watch := Spawn(root, disk, registered, discover, script, analyze);
    if spawned {
      exit, earlier, last, taken, rest := watch.Loop(session);
    } else {
      exit := Unwatchable;
    }
    if exit.Graceful? { watch.AnswerSays(session, watch.completed.value); }
    session.InputsAreContents();
    PlanKept(env);
    SignalsAccounted(env);
    RetriesAreAppearances(env);
  }
}
