/** Ingestion step by step (internal/persistence/store.go): a batch is committed first, outside
    the lock, and reaches the cache in a later step.  Commits, cache steps, prunes and crashes
    with restart interleave freely. */
module TelemetryRuns {
  import opened Sequences
  import opened Rfc3339
  import opened Telemetry
  import opened TelemetryCache
  import opened StableSort

  /** Besides the table and the cache: the committed batches that have not reached the cache yet,
      the log of committed samples and the latest cutoff used so far. */
  datatype System = System(rows: seq<Row>, cache: Cache, pending: seq<seq<Device>>, log: seq<Device>, floor: Instant)

  datatype Event =
    | CommitEvent(devices: seq<Device>, ok: bool)
    | CacheEvent(batch: nat)
    | PruneEvent(cutoff: Instant)
    | RestartEvent(cutoff: Instant)

  /** A failed transaction leaves everything as it was; a crash loses the cache and what was
      still to reach it, and the restart recovers from the table. */
  function NextSystem(s: System, ev: Event): System {
    match ev
    case CommitEvent(devices, ok) =>
      var valid := Filter(IsValid, devices);
      if !ok then s
      else s.(rows := s.rows + Map(Encode, valid), pending := s.pending + [valid], log := s.log + valid)
    case CacheEvent(batch) =>
      if batch >= |s.pending| then s
      else s.(cache := AppendAll(s.cache, s.pending[batch]), pending := Without(s.pending, batch))
    case PruneEvent(cutoff) => s.(rows := Prune(s.rows, cutoff), floor := cutoff)
    case RestartEvent(cutoff) => s.(cache := Recover(s.rows, cutoff), pending := [], floor := cutoff)
  }

  /** Batches of the same host reach the cache in the order of their commits. */
  ghost predicate InTurn(pending: seq<seq<Device>>, batch: nat) {
    batch < |pending| ==>
      forall i, a, b :: 0 <= i < batch && a in pending[i] && b in pending[batch] ==> a.hostname != b.hostname
  }

  /** Cutoffs never go back, each host's committed samples arrive in second order, and its
      batches do not overtake each other on the way to the cache. */
  ghost predicate Admissible(s: System, ev: Event) {
    match ev
    case CommitEvent(devices, ok) => HostsInOrder(NextSystem(s, ev).log)
    case CacheEvent(batch) => InTurn(s.pending, batch)
    case PruneEvent(cutoff) => s.floor <= cutoff
    case RestartEvent(cutoff) => s.floor <= cutoff
  }

  /** The two halves of one ingest, nothing coming in between, are the ingest of the store. */
  lemma SerialIngest(s: System, devices: seq<Device>, ok: bool)
    requires s.pending == []
    ensures var t := NextSystem(s, CommitEvent(devices, ok));
            var u := NextSystem(t, CacheEvent(0));
            var valid := if ok then Filter(IsValid, devices) else [];
            Admissible(t, CacheEvent(0)) && u.pending == [] && u.log == s.log + valid
            && u.rows == s.rows + Map(Encode, valid) && u.cache == AppendAll(s.cache, valid)
  {
  }

  // ----- batches on their way to the cache -----

  function Flat(batches: seq<seq<Device>>): seq<Device> {
    if batches == [] then [] else Flat(batches[..|batches| - 1]) + batches[|batches| - 1]
  }

  lemma {:induction false} FlatConcat(a: seq<seq<Device>>, b: seq<seq<Device>>)
    ensures Flat(a + b) == Flat(a) + Flat(b)
    decreases |b|
  {
    if b == [] {
      assert a + b == a;
    } else {
      assert (a + b)[..|a + b| - 1] == a + b[..|b| - 1];
      FlatConcat(a, b[..|b| - 1]);
    }
  }

  lemma {:induction false} InFlat(batches: seq<seq<Device>>, d: Device)
    requires d in Flat(batches)
    ensures exists i :: 0 <= i < |batches| && d in batches[i]
  {
    if d in Flat(batches[..|batches| - 1]) {
      InFlat(batches[..|batches| - 1], d);
    }
  }

  /** The cache once every pending batch has reached it. */
  function Settled(s: System): System {
    s.(cache := AppendAll(s.cache, Flat(s.pending)), pending := [])
  }

  /** A host's history after more samples depends on its own samples only. */
  function Extended(history: seq<Device>, more: seq<Device>): seq<Device> {
    if more == [] then history else LastN(WINDOW, history + more)
  }

  lemma {:induction false} AppendedHistory(c: Cache, ds: seq<Device>, host: string)
    ensures Samples(AppendAll(c, ds), host) == Extended(Samples(c, host), Filter(From(host), ds))
  {
    if ds != [] {
      var front, d := ds[..|ds| - 1], ds[|ds| - 1];
      AppendedHistory(c, front, host);
      AppendedSamples(AppendAll(c, front), d, host);
      if d.hostname == host {
        var h, g := Samples(c, host), Filter(From(host), front);
        assert h + (g + [d]) == (h + g) + [d];
        LastNAppend(WINDOW, h + g, d);
        assert g == [] ==> h + g == h;
      }
    }
  }

  lemma TurnKeepsHost(before: seq<Device>, batch: seq<Device>, host: string)
    requires forall a, b :: a in before && b in batch ==> a.hostname != b.hostname
    ensures Filter(From(host), before + batch) == Filter(From(host), batch + before)
  {
    FilterConcat(From(host), before, batch);
    FilterConcat(From(host), batch, before);
    if b: Device :| b in batch && b.hostname == host {
      FilterNone(From(host), before);
    } else {
      FilterNone(From(host), batch);
    }
  }

  lemma TurnAmong(a: seq<Device>, b: seq<Device>, c: seq<Device>, host: string)
    requires Filter(From(host), a + b) == Filter(From(host), b + a)
    ensures Filter(From(host), b + (a + c)) == Filter(From(host), a + b + c)
  {
    assert b + (a + c) == (b + a) + c;
    FilterConcat(From(host), b + a, c);
    FilterConcat(From(host), a + b, c);
  }

  lemma FlatApart(a: seq<seq<Device>>, b: seq<Device>, c: seq<seq<Device>>)
    ensures Flat(a + c) == Flat(a) + Flat(c)
    ensures Flat(a + [b] + c) == Flat(a) + b + Flat(c)
  {
    FlatConcat(a, c);
    FlatConcat(a + [b], c);
    assert (a + [b])[..|a|] == a;
  }

  lemma FlatAround(a: seq<seq<Device>>, b: seq<Device>, c: seq<seq<Device>>, host: string)
    requires forall x, y :: x in Flat(a) && y in b ==> x.hostname != y.hostname
    ensures Filter(From(host), b + Flat(a + c)) == Filter(From(host), Flat(a + [b] + c))
  {
    FlatApart(a, b, c);
    TurnKeepsHost(Flat(a), b, host);
    TurnAmong(Flat(a), b, Flat(c), host);
  }

  lemma OthersBefore(pending: seq<seq<Device>>, batch: nat, x: Device, y: Device)
    requires batch < |pending| && InTurn(pending, batch) && x in Flat(pending[..batch]) && y in pending[batch]
    ensures x.hostname != y.hostname
  {
    InFlat(pending[..batch], x);
    var i :| 0 <= i < batch && x in pending[..batch][i];
    assert x in pending[i];
  }

  /** A batch taken in turn leaves every host's samples in the order of their commits. */
  lemma FlatInTurn(pending: seq<seq<Device>>, batch: nat, host: string)
    requires batch < |pending| && InTurn(pending, batch)
    ensures Filter(From(host), pending[batch] + Flat(Without(pending, batch))) == Filter(From(host), Flat(pending))
  {
    var before, after := SplitAt(pending, batch);
    forall x, y | x in Flat(before) && y in pending[batch] ensures x.hostname != y.hostname {
      OthersBefore(pending, batch, x, y);
    }
    FlatAround(before, pending[batch], after, host);
  }

  /** Taking a batch in turn does not change what the cache will hold for any host. */
  lemma CacheStepSettles(s: System, batch: nat, host: string)
    requires InTurn(s.pending, batch)
    ensures Samples(Settled(NextSystem(s, CacheEvent(batch))).cache, host) == Samples(Settled(s).cache, host)
  {
    if batch < |s.pending| {
      AppendAllConcat(s.cache, s.pending[batch], Flat(Without(s.pending, batch)));
      AppendedHistory(s.cache, s.pending[batch] + Flat(Without(s.pending, batch)), host);
      AppendedHistory(s.cache, Flat(s.pending), host);
      FlatInTurn(s.pending, batch, host);
    }
  }

  lemma EndOfExtended(h: seq<Device>, more: seq<Device>, kept: seq<Device>)
    requires more != [] && kept == LastN(if |more| >= WINDOW then 0 else WINDOW - |more|, h)
    ensures Extended(h, more) == kept + LastN(WINDOW, more)
  {
  }

  lemma SameEnd<T>(kept: seq<T>, a: seq<T>, b: seq<T>)
    requires kept + a == kept + b
    ensures a == b
  {
    assert (kept + a)[|kept|..] == a && (kept + b)[|kept|..] == b;
  }

  lemma ExtendedAlike(h: seq<Device>, a: seq<Device>, b: seq<Device>)
    requires |a| == |b|
    ensures Extended(h, a) == Extended(h, b) <==> LastN(WINDOW, a) == LastN(WINDOW, b)
  {
    if a != [] {
      var kept := LastN(if |a| >= WINDOW then 0 else WINDOW - |a|, h);
      EndOfExtended(h, a, kept);
      EndOfExtended(h, b, kept);
      if Extended(h, a) == Extended(h, b) {
        SameEnd(kept, LastN(WINDOW, a), LastN(WINDOW, b));
      }
    }
  }

  lemma HistoryAfterTwo(c: Cache, a: seq<Device>, b: seq<Device>, host: string)
    ensures Samples(AppendAll(AppendAll(c, a), b), host)
         == Extended(Samples(c, host), Filter(From(host), a) + Filter(From(host), b))
  {
    AppendAllConcat(c, a, b);
    AppendedHistory(c, a + b, host);
    FilterConcat(From(host), a, b);
  }

  /** Two batches reaching the cache in either order leave a host the same history exactly when
      its samples read alike in both orders, as far as the cache reaches: overtaking shows. */
  lemma OvertakingShows(c: Cache, a: seq<Device>, b: seq<Device>, host: string)
    ensures Samples(AppendAll(AppendAll(c, b), a), host) == Samples(AppendAll(AppendAll(c, a), b), host)
       <==> LastN(WINDOW, Filter(From(host), a) + Filter(From(host), b))
            == LastN(WINDOW, Filter(From(host), b) + Filter(From(host), a))
  {
    HistoryAfterTwo(c, a, b, host);
    HistoryAfterTwo(c, b, a, host);
    ExtendedAlike(Samples(c, host), Filter(From(host), a) + Filter(From(host), b),
                  Filter(From(host), b) + Filter(From(host), a));
  }

  ghost predicate HostsInOrder(log: seq<Device>) {
    forall host :: InOrder(Filter(From(host), log))
  }

  /** What the table still holds of any window from the floor on is what was committed. */
  ghost predicate TableHolds(s: System) {
    exists kept: seq<Device> :: s.rows == Map(Encode, kept) && Keeps(kept, s.log, s.floor)
  }

  ghost predicate Keeps(kept: seq<Device>, log: seq<Device>, floor: Instant) {
    forall c: Instant :: floor <= c ==> Filter(Since(c), kept) == Filter(Since(c), log)
  }

  /** The cached samples of a host, in any window from the floor on, are the last 90 committed
      ones of that window. */
  ghost predicate HostCached(cached: seq<Device>, committed: seq<Device>, floor: Instant) {
    && InOrder(cached) && (forall d :: d in cached ==> d in committed)
    && forall c: Instant :: floor <= c ==> Filter(Since(c), cached) == LastN(WINDOW, Filter(Since(c), committed))
  }

  ghost predicate CacheHolds(s: System) {
    forall host :: HostCached(Samples(s.cache, host), Filter(From(host), s.log), s.floor)
  }

  ghost predicate Inv(s: System) {
    HostsInOrder(s.log) && TableHolds(s) && CacheHolds(Settled(s)) && LatestIsLast(s.cache)
  }

  lemma SinceUpward(ds: seq<Device>, c: Instant)
    requires InOrder(ds)
    ensures Upward(Since(c), ds)
  {
  }

  lemma {:induction false} LogPrefixInOrder(log: seq<Device>, ds: seq<Device>)
    requires HostsInOrder(log + ds)
    ensures HostsInOrder(log)
  {
    forall host ensures InOrder(Filter(From(host), log)) {
      FilterConcat(From(host), log, ds);
      var a, b := Filter(From(host), log), Filter(From(host), log + ds);
      assert forall i :: 0 <= i < |a| ==> a[i] == b[i];
    }
  }

  lemma CachedAppend(cached: seq<Device>, committed: seq<Device>, d: Device, floor: Instant)
    requires HostCached(cached, committed, floor) && InOrder(committed + [d])
    ensures HostCached(LastN(WINDOW, cached + [d]), committed + [d], floor)
  {
    var all := cached + [d];
    forall i | 0 <= i < |cached| ensures SecondsOf(cached[i].observedAt) <= SecondsOf(d.observedAt) {
      assert cached[i] in committed;
      var k :| 0 <= k < |committed| && committed[k] == cached[i];
      assert (committed + [d])[k] == cached[i] && (committed + [d])[|committed|] == d;
    }
    assert InOrder(all);
    forall c: Instant | floor <= c
      ensures Filter(Since(c), LastN(WINDOW, all)) == LastN(WINDOW, Filter(Since(c), committed + [d]))
    {
      SinceUpward(all, c);
      FilterLastN(Since(c), WINDOW, all);
      FilterAppend(Since(c), cached, d);
      FilterAppend(Since(c), committed, d);
      var f := Filter(Since(c), committed);
      LastNAppend(WINDOW, f, d);
      LastNOfLastN(WINDOW, WINDOW, f);
    }
  }

  lemma {:induction false} CacheAfterIngest(s: System, ds: seq<Device>)
    requires CacheHolds(s) && HostsInOrder(s.log + ds)
    ensures CacheHolds(s.(cache := AppendAll(s.cache, ds), log := s.log + ds))
  {
    if ds == [] {
      assert s.log + ds == s.log;
    } else {
      var front, d := ds[..|ds| - 1], ds[|ds| - 1];
      assert s.log + ds == (s.log + front) + [d];
      LogPrefixInOrder(s.log + front, [d]);
      CacheAfterIngest(s, front);
      var mid := s.(cache := AppendAll(s.cache, front), log := s.log + front);
      forall host ensures HostCached(Samples(Append(mid.cache, d), host), Filter(From(host), mid.log + [d]), s.floor) {
        assert HostCached(Samples(mid.cache, host), Filter(From(host), mid.log), s.floor);
        FilterAppend(From(host), mid.log, d);
        AppendedSamples(mid.cache, d, host);
        if d.hostname == host {
          assert InOrder(Filter(From(host), s.log + ds));
          CachedAppend(Samples(mid.cache, host), Filter(From(host), mid.log), d, s.floor);
        }
      }
    }
  }

  lemma KeepsMore(kept: seq<Device>, log: seq<Device>, ds: seq<Device>, floor: Instant)
    requires Keeps(kept, log, floor)
    ensures Keeps(kept + ds, log + ds, floor)
  {
    forall c: Instant | floor <= c ensures Filter(Since(c), kept + ds) == Filter(Since(c), log + ds) {
      FilterConcat(Since(c), kept, ds);
      FilterConcat(Since(c), log, ds);
    }
  }

  lemma TableAfterIngest(s: System, ds: seq<Device>)
    requires TableHolds(s)
    ensures TableHolds(s.(rows := s.rows + Map(Encode, ds), log := s.log + ds))
  {
    var kept: seq<Device> :| s.rows == Map(Encode, kept) && Keeps(kept, s.log, s.floor);
    KeepsMore(kept, s.log, ds, s.floor);
    assert Map(Encode, kept + ds) == s.rows + Map(Encode, ds);
  }

  lemma TableAfterPrune(s: System, cutoff: Instant)
    requires TableHolds(s) && s.floor <= cutoff
    ensures TableHolds(s.(rows := Prune(s.rows, cutoff), floor := cutoff))
  {
    var kept: seq<Device> :| s.rows == Map(Encode, kept) && Keeps(kept, s.log, s.floor);
    FilterEncoded(kept, cutoff);
    var left := Filter(Since(cutoff), kept);
    forall c: Instant | cutoff <= c ensures Filter(Since(c), left) == Filter(Since(c), s.log) {
      SinceSince(kept, cutoff, c);
    }
    assert Keeps(left, s.log, cutoff);
  }

  /** Telemetry recovery: in any reachable state, recovering the window from the table gives
      every host the last 90 committed samples of that window: exactly what its live history,
      once the pending batches have reached it, holds of the window. */
  lemma RecoveryIsLiveHistory(s: System, cutoff: Instant, host: string)
    requires Inv(s) && s.floor <= cutoff
    ensures Samples(Recover(s.rows, cutoff), host) == Filter(Since(cutoff), Samples(Settled(s).cache, host))
    ensures Samples(Recover(s.rows, cutoff), host) == LastN(WINDOW, Filter(Since(cutoff), Filter(From(host), s.log)))
  {
    var kept: seq<Device> :| s.rows == Map(Encode, kept) && Keeps(kept, s.log, s.floor);
    var committed := Filter(From(host), s.log);
    assert InOrder(committed);
    assert Filter(Since(cutoff), kept) == Filter(Since(cutoff), s.log);
    FilterSwap(s.log, host, cutoff);
    FilterKeepsOrder(committed, cutoff);
    RecoveredInOrder(kept, cutoff, host);
    assert HostCached(Samples(Settled(s).cache, host), committed, s.floor);
  }

  lemma CachedAfterRestart(committed: seq<Device>, cutoff: Instant)
    requires InOrder(committed)
    ensures HostCached(LastN(WINDOW, Filter(Since(cutoff), committed)), committed, cutoff)
  {
    var w := Filter(Since(cutoff), committed);
    FilterKeepsOrder(committed, cutoff);
    var cached := LastN(WINDOW, w);
    forall c: Instant | cutoff <= c ensures Filter(Since(c), cached) == LastN(WINDOW, Filter(Since(c), committed)) {
      SinceUpward(w, c);
      FilterLastN(Since(c), WINDOW, w);
      SinceSince(committed, cutoff, c);
    }
  }

  lemma CommitKeepsInv(s: System, valid: seq<Device>)
    requires Inv(s) && HostsInOrder(s.log + valid)
    ensures Inv(s.(rows := s.rows + Map(Encode, valid), pending := s.pending + [valid], log := s.log + valid))
  {
    CacheAfterIngest(Settled(s), valid);
    TableAfterIngest(s, valid);
    FlatConcat(s.pending, [valid]);
    assert Flat([valid]) == valid;
    AppendAllConcat(s.cache, Flat(s.pending), valid);
  }

  lemma CacheStepKeepsInv(s: System, batch: nat)
    requires Inv(s) && batch < |s.pending| && InTurn(s.pending, batch)
    ensures Inv(NextSystem(s, CacheEvent(batch)))
  {
    var t := NextSystem(s, CacheEvent(batch));
    forall host ensures HostCached(Samples(Settled(t).cache, host), Filter(From(host), s.log), s.floor) {
      CacheStepSettles(s, batch, host);
      assert HostCached(Samples(Settled(s).cache, host), Filter(From(host), s.log), s.floor);
    }
    AppendKeepsLatest(s.cache, s.pending[batch]);
  }

  lemma PruneKeepsInv(s: System, cutoff: Instant)
    requires Inv(s) && s.floor <= cutoff
    ensures Inv(NextSystem(s, PruneEvent(cutoff)))
  {
    TableAfterPrune(s, cutoff);
    forall host ensures HostCached(Samples(Settled(s).cache, host), Filter(From(host), s.log), cutoff) {
      assert HostCached(Samples(Settled(s).cache, host), Filter(From(host), s.log), s.floor);
    }
  }

  lemma RestartCaches(s: System, cutoff: Instant, host: string)
    requires Inv(s) && s.floor <= cutoff
    ensures HostCached(Samples(Recover(s.rows, cutoff), host), Filter(From(host), s.log), cutoff)
  {
    RecoveryIsLiveHistory(s, cutoff, host);
    assert InOrder(Filter(From(host), s.log));
    CachedAfterRestart(Filter(From(host), s.log), cutoff);
  }

  lemma FloorRises(rows: seq<Row>, log: seq<Device>, floor: Instant, cutoff: Instant) returns (kept: seq<Device>)
    requires exists k: seq<Device> :: rows == Map(Encode, k) && Keeps(k, log, floor)
    requires floor <= cutoff
    ensures rows == Map(Encode, kept) && Keeps(kept, log, cutoff)
  {
    kept :| rows == Map(Encode, kept) && Keeps(kept, log, floor);
  }

  lemma SettledRestart(s: System, cutoff: Instant)
    ensures Settled(NextSystem(s, RestartEvent(cutoff))).cache == Recover(s.rows, cutoff)
  {
    assert Flat([]) == [];
  }

  lemma RestartKeepsInv(s: System, cutoff: Instant)
    requires Inv(s) && s.floor <= cutoff
    ensures Inv(NextSystem(s, RestartEvent(cutoff)))
  {
    SettledRestart(s, cutoff);
    forall host ensures HostCached(Samples(Recover(s.rows, cutoff), host), Filter(From(host), s.log), cutoff) {
      RestartCaches(s, cutoff, host);
    }
    var kept := FloorRises(s.rows, s.log, s.floor, cutoff);
    AppendKeepsLatest(NO_SAMPLES, Map(Decode, Sort(ObservedBefore, Filter(NotOlder(cutoff), s.rows))));
  }

  lemma StepKeepsInv(s: System, ev: Event)
    requires Inv(s) && Admissible(s, ev)
    ensures Inv(NextSystem(s, ev))
  {
    match ev
    case CommitEvent(devices, ok) =>
      if ok {
        CommitKeepsInv(s, Filter(IsValid, devices));
      }
    case CacheEvent(batch) =>
      if batch < |s.pending| {
        CacheStepKeepsInv(s, batch);
      }
    case PruneEvent(cutoff) => PruneKeepsInv(s, cutoff);
    case RestartEvent(cutoff) => RestartKeepsInv(s, cutoff);
  }

  function Init(floor: Instant): System {
    System([], NO_SAMPLES, [], [], floor)
  }

  lemma InitInv(floor: Instant)
    ensures Inv(Init(floor))
  {
    var kept: seq<Device> := [];
    assert Map(Encode, kept) == [] && Keeps(kept, [], floor);
  }

  ghost predicate IsRun(run: seq<System>, events: seq<Event>) {
    && |run| == |events| + 1
    && (exists floor: Instant :: run[0] == Init(floor))
    && forall i :: 0 <= i < |events| ==> Admissible(run[i], events[i]) && run[i + 1] == NextSystem(run[i], events[i])
  }

  /** In every interleaved run of commits, cache steps, prunes and crashes, the latest sample of
      a host is the last of its history, and a crash at any moment recovers the live histories,
      completed by the batches still pending, cut to the window. */
  lemma {:induction false} RunRecovers(run: seq<System>, events: seq<Event>, i: nat)
    requires IsRun(run, events) && i <= |events|
    ensures Inv(run[i])
    ensures forall cutoff: Instant, host | run[i].floor <= cutoff ::
              Samples(Recover(run[i].rows, cutoff), host) == Filter(Since(cutoff), Samples(Settled(run[i]).cache, host))
  {
    if i == 0 {
      var floor: Instant :| run[0] == Init(floor);
      InitInv(floor);
    } else {
      RunRecovers(run, events, i - 1);
      StepKeepsInv(run[i - 1], events[i - 1]);
    }
    forall cutoff: Instant, host | run[i].floor <= cutoff
      ensures Samples(Recover(run[i].rows, cutoff), host) == Filter(Since(cutoff), Samples(Settled(run[i]).cache, host))
    {
      RecoveryIsLiveHistory(run[i], cutoff, host);
    }
  }

  /** With nothing pending, the recovered histories are the live ones cut to the window. */
  lemma QuiescentRecovery(run: seq<System>, events: seq<Event>, i: nat, cutoff: Instant, host: string)
    requires IsRun(run, events) && i <= |events| && run[i].pending == [] && run[i].floor <= cutoff
    ensures Samples(Recover(run[i].rows, cutoff), host) == Filter(Since(cutoff), Samples(run[i].cache, host))
  {
    RunRecovers(run, events, i);
  }

  // ----- batches that overtake each other -----

  /** What the cache was after the last restart, the samples committed since, and those that have
      reached the cache since, in the order they did. */
  datatype Arrivals = Arrivals(base: Cache, committed: seq<Device>, arrived: seq<Device>)

  function NextArrivals(a: Arrivals, s: System, ev: Event): Arrivals {
    match ev
    case CommitEvent(devices, ok) => if ok then a.(committed := a.committed + Filter(IsValid, devices)) else a
    case CacheEvent(batch) => if batch < |s.pending| then a.(arrived := a.arrived + s.pending[batch]) else a
    case PruneEvent(_) => a
    case RestartEvent(cutoff) => Arrivals(Recover(s.rows, cutoff), [], [])
  }

  function ArrivalsOf(run: seq<System>, events: seq<Event>, n: nat): Arrivals
    requires n <= |events| < |run|
  {
    if n == 0 then Arrivals(NO_SAMPLES, [], []) else NextArrivals(ArrivalsOf(run, events, n - 1), run[n - 1], events[n - 1])
  }

  /** Runs in which batches may reach the cache in any order. */
  ghost predicate IsFreeRun(run: seq<System>, events: seq<Event>) {
    && |run| == |events| + 1
    && (exists floor: Instant :: run[0] == Init(floor))
    && forall i :: 0 <= i < |events| ==>
         (events[i].CacheEvent? || Admissible(run[i], events[i])) && run[i + 1] == NextSystem(run[i], events[i])
  }

  /** The state as if every batch had reached the cache at its commit. */
  function Punctual(s: System, a: Arrivals): System {
    System(s.rows, AppendAll(a.base, a.committed), [], s.log, s.floor)
  }

  ghost predicate Tracked(s: System, a: Arrivals) {
    Inv(Punctual(s, a)) && s.cache == AppendAll(a.base, a.arrived)
  }

  lemma CommitTracked(s: System, a: Arrivals, devices: seq<Device>)
    requires Tracked(s, a) && Admissible(s, CommitEvent(devices, true))
    ensures Tracked(NextSystem(s, CommitEvent(devices, true)), NextArrivals(a, s, CommitEvent(devices, true)))
  {
    var p, ev := Punctual(s, a), CommitEvent(devices, true);
    SerialIngest(p, devices, true);
    StepKeepsInv(p, ev);
    StepKeepsInv(NextSystem(p, ev), CacheEvent(0));
    AppendAllConcat(a.base, a.committed, Filter(IsValid, devices));
  }

  lemma CacheStepTracked(s: System, a: Arrivals, batch: nat)
    requires Tracked(s, a)
    ensures Tracked(NextSystem(s, CacheEvent(batch)), NextArrivals(a, s, CacheEvent(batch)))
  {
    if batch < |s.pending| {
      AppendAllConcat(a.base, a.arrived, s.pending[batch]);
    }
  }

  lemma StepTracked(s: System, a: Arrivals, ev: Event)
    requires Tracked(s, a) && (ev.CacheEvent? || Admissible(s, ev))
    ensures Tracked(NextSystem(s, ev), NextArrivals(a, s, ev))
  {
    match ev
    case CommitEvent(devices, ok) =>
      if ok {
        CommitTracked(s, a, devices);
      }
    case CacheEvent(batch) => CacheStepTracked(s, a, batch);
    case PruneEvent(_) => StepKeepsInv(Punctual(s, a), ev);
    case RestartEvent(_) => StepKeepsInv(Punctual(s, a), ev);
  }

  lemma {:induction false} RunTracked(run: seq<System>, events: seq<Event>, n: nat)
    requires IsFreeRun(run, events) && n <= |events|
    ensures Tracked(run[n], ArrivalsOf(run, events, n))
  {
    if n == 0 {
      var floor: Instant :| run[0] == Init(floor);
      InitInv(floor);
    } else {
      RunTracked(run, events, n - 1);
      StepTracked(run[n - 1], ArrivalsOf(run, events, n - 1), events[n - 1]);
    }
  }

  lemma TrackedHistories(s: System, a: Arrivals, cutoff: Instant, host: string)
    requires Tracked(s, a) && s.floor <= cutoff
    ensures Samples(Recover(s.rows, cutoff), host)
         == Filter(Since(cutoff), Extended(Samples(a.base, host), Filter(From(host), a.committed)))
    ensures Samples(Settled(s).cache, host)
         == Extended(Samples(a.base, host), Filter(From(host), a.arrived + Flat(s.pending)))
  {
    RecoveryIsLiveHistory(Punctual(s, a), cutoff, host);
    AppendedHistory(a.base, a.committed, host);
    AppendAllConcat(a.base, a.arrived, Flat(s.pending));
    AppendedHistory(a.base, a.arrived + Flat(s.pending), host);
  }

  /** When batches overtake each other: in every run, a crash recovers a host's settled live history cut
      to the window exactly when its samples, in the order they reach the cache and in the order of
      their commits, read alike in the window as far as the cache reaches. */
  lemma OvertakingRecoversIff(run: seq<System>, events: seq<Event>, n: nat, cutoff: Instant, host: string)
    requires IsFreeRun(run, events) && n <= |events| && run[n].floor <= cutoff
    ensures var a := ArrivalsOf(run, events, n);
            var h := Samples(a.base, host);
            Samples(Recover(run[n].rows, cutoff), host) == Filter(Since(cutoff), Samples(Settled(run[n]).cache, host))
            <==> Filter(Since(cutoff), Extended(h, Filter(From(host), a.arrived + Flat(run[n].pending))))
                 == Filter(Since(cutoff), Extended(h, Filter(From(host), a.committed)))
  {
    RunTracked(run, events, n);
    TrackedHistories(run[n], ArrivalsOf(run, events, n), cutoff, host);
  }

  /** A run without restarts in which batches reach the cache in turn; samples may arrive in any
      order. */
  ghost predicate IsFirstRun(run: seq<System>, events: seq<Event>) {
    && |run| == |events| + 1
    && (exists floor: Instant :: run[0] == Init(floor))
    && forall k :: 0 <= k < |events| ==>
         && run[k + 1] == NextSystem(run[k], events[k]) && !events[k].RestartEvent?
         && (events[k].CacheEvent? ==> InTurn(run[k].pending, events[k].batch))
  }

  lemma HistoryAfterStep(s: System, ev: Event, host: string)
    requires Samples(Settled(s).cache, host) == LastN(WINDOW, Filter(From(host), s.log))
    requires !ev.RestartEvent? && (ev.CacheEvent? ==> InTurn(s.pending, ev.batch))
    ensures Samples(Settled(NextSystem(s, ev)).cache, host) == LastN(WINDOW, Filter(From(host), NextSystem(s, ev).log))
  {
    match ev
    case CommitEvent(devices, ok) =>
      if ok {
        CommitExtendsHistory(s, Filter(IsValid, devices), host);
      }
    case CacheEvent(batch) => CacheStepSettles(s, batch, host);
    case PruneEvent(_) =>
  }

  /** Until the first restart, whatever fails and in whatever order samples arrive, each host's
      history, once the pending batches have reached it, is the last 90 of its committed samples. */
  lemma {:induction false} LiveHistory(run: seq<System>, events: seq<Event>, i: nat, host: string)
    requires IsFirstRun(run, events) && i <= |events|
    ensures Samples(Settled(run[i]).cache, host) == LastN(WINDOW, Filter(From(host), run[i].log))
  {
    if i > 0 {
      LiveHistory(run, events, i - 1, host);
      assert run[i - 1 + 1] == NextSystem(run[i - 1], events[i - 1]);
      HistoryAfterStep(run[i - 1], events[i - 1], host);
    }
  }

  lemma CommitExtendsHistory(s: System, valid: seq<Device>, host: string)
    requires Samples(Settled(s).cache, host) == LastN(WINDOW, Filter(From(host), s.log))
    ensures Samples(AppendAll(s.cache, Flat(s.pending + [valid])), host) == LastN(WINDOW, Filter(From(host), s.log + valid))
  {
    FlatConcat(s.pending, [valid]);
    assert Flat([valid]) == valid;
    AppendAllConcat(s.cache, Flat(s.pending), valid);
    AppendedHistory(Settled(s).cache, valid, host);
    FilterConcat(From(host), s.log, valid);
    LastNConcat(WINDOW, Filter(From(host), s.log), Filter(From(host), valid));
  }
}
