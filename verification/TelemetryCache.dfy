/** The telemetry table and the bounded per-host cache (internal/persistence/store.go):
    ingest, pruning and recovery, measured against an unbounded log of committed samples. */
module TelemetryCache {
  import opened Sequences
  import opened Decimal
  import opened Rfc3339
  import opened Telemetry
  import opened StableSort

  /** maxHistoryPerDevice. */
  const WINDOW: nat := 90

  datatype Cache = Cache(latest: map<string, Device>, history: map<string, seq<Device>>)

  const NO_SAMPLES: Cache := Cache(map[], map[])

  function Samples(c: Cache, host: string): seq<Device> {
    if host in c.history then c.history[host] else []
  }

  function Append(c: Cache, d: Device): Cache {
    Cache(c.latest[d.hostname := d], c.history[d.hostname := LastN(WINDOW, Samples(c, d.hostname) + [d])])
  }

  function AppendAll(c: Cache, ds: seq<Device>): Cache {
    if ds == [] then c else Append(AppendAll(c, ds[..|ds| - 1]), ds[|ds| - 1])
  }

  // ----- the table -----

  /** A row: the payload, which keeps full precision, and the observed_at column. */
  datatype Row = Row(sample: Device, observedAt: string)

  function Encode(d: Device): Row {
    Row(d, Format(d.observedAt))
  }

  function Decode(r: Row): Device {
    r.sample
  }

  /** observed_at >= cutoff, as text. */
  function NotOlder(cutoff: Instant): Row -> bool {
    (r: Row) => !TextLess(r.observedAt, Format(cutoff))
  }

  predicate ObservedBefore(a: Row, b: Row) {
    TextLess(a.observedAt, b.observedAt)
  }

  function Prune(rows: seq<Row>, cutoff: Instant): seq<Row> {
    Filter(NotOlder(cutoff), rows)
  }

  function Recover(rows: seq<Row>, cutoff: Instant): Cache {
    AppendAll(NO_SAMPLES, Map(Decode, Sort(ObservedBefore, Filter(NotOlder(cutoff), rows))))
  }

  function From(host: string): Device -> bool {
    (d: Device) => d.hostname == host
  }

  function RowFrom(host: string): Row -> bool {
    (r: Row) => r.sample.hostname == host
  }

  function Since(cutoff: Instant): Device -> bool {
    (d: Device) => SecondsOf(cutoff) <= SecondsOf(d.observedAt)
  }

  // ----- the cache against the log -----

  lemma AppendedSamples(c: Cache, d: Device, host: string)
    ensures Samples(Append(c, d), host)
         == if d.hostname == host then LastN(WINDOW, Samples(c, host) + [d]) else Samples(c, host)
  {
  }

  /** Live history: each host's cache is the last 90 of its samples in the log. */
  lemma {:induction false} CacheIsLast(ds: seq<Device>, host: string)
    ensures Samples(AppendAll(NO_SAMPLES, ds), host) == LastN(90, Filter(From(host), ds))
  {
    if ds != [] {
      var front, d := ds[..|ds| - 1], ds[|ds| - 1];
      CacheIsLast(front, host);
      AppendedSamples(AppendAll(NO_SAMPLES, front), d, host);
      if d.hostname == host {
        LastNAppend(WINDOW, Filter(From(host), front), d);
      }
    }
  }

  /** A known host has a non-empty history, whose end is its latest sample. */
  ghost predicate LatestIsLast(c: Cache) {
    && c.latest.Keys == c.history.Keys
    && forall h :: h in c.history ==> c.history[h] != [] && c.latest[h] == c.history[h][|c.history[h]| - 1]
  }

  lemma {:induction false} AppendKeepsLatest(c: Cache, ds: seq<Device>)
    requires LatestIsLast(c)
    ensures LatestIsLast(AppendAll(c, ds))
  {
    if ds != [] {
      AppendKeepsLatest(c, ds[..|ds| - 1]);
      var mid, d := AppendAll(c, ds[..|ds| - 1]), ds[|ds| - 1];
      var h := LastN(WINDOW, Samples(mid, d.hostname) + [d]);
      assert h[|h| - 1] == d;
    }
  }

  // ----- pruning -----

  lemma OlderStaysOlder(c1: Instant, c2: Instant, text: string)
    requires SecondsOf(c1) <= SecondsOf(c2) && TextLess(text, Format(c1))
    ensures TextLess(text, Format(c2))
  {
    TextOrderIsChronological(c1, c2);
    if Format(c1) != Format(c2) {
      TextLessTransitive(text, Format(c1), Format(c2));
    }
  }

  lemma PrunedFilter(rows: seq<Row>, c1: Instant, c2: Instant)
    requires SecondsOf(c1) <= SecondsOf(c2)
    ensures Filter(NotOlder(c2), Prune(rows, c1)) == Filter(NotOlder(c2), rows)
  {
    forall r: Row ensures NotOlder(c2)(r) <==> NotOlder(c2)(r) && NotOlder(c1)(r) {
      if TextLess(r.observedAt, Format(c1)) {
        OlderStaysOlder(c1, c2, r.observedAt);
      }
    }
    FilterFilter(NotOlder(c2), NotOlder(c1), NotOlder(c2), rows);
  }

  /** Pruning is invisible to every later recovery, whatever the rows contain. */
  lemma PruningIsInvisible(rows: seq<Row>, c1: Instant, c2: Instant)
    requires c1 <= c2
    ensures Recover(Prune(rows, c1), c2) == Recover(rows, c2)
  {
    PrunedFilter(rows, c1, c2);
  }

  lemma RowAge(d: Device, cutoff: Instant)
    ensures NotOlder(cutoff)(Encode(d)) <==> Since(cutoff)(d)
  {
    TextOrderIsChronological(d.observedAt, cutoff);
  }

  /** Pruning deletes no row whose true instant is inside the window, and keeps none that is a
      second or more outside it. */
  lemma PruneBounds(ds: seq<Device>, cutoff: Instant, d: Device)
    requires d in ds
    ensures d.observedAt >= cutoff ==> Encode(d) in Prune(Map(Encode, ds), cutoff)
    ensures d.observedAt <= cutoff - NANOS ==> Encode(d) !in Prune(Map(Encode, ds), cutoff)
  {
    RowAge(d, cutoff);
    var i :| 0 <= i < |ds| && ds[i] == d;
    assert Map(Encode, ds)[i] == Encode(d);
  }

  lemma FilterEncoded(ds: seq<Device>, cutoff: Instant)
    ensures Filter(NotOlder(cutoff), Map(Encode, ds)) == Map(Encode, Filter(Since(cutoff), ds))
  {
    forall d: Device ensures Since(cutoff)(d) <==> NotOlder(cutoff)(Encode(d)) {
      RowAge(d, cutoff);
    }
    FilterMap(NotOlder(cutoff), Encode, Since(cutoff), ds);
  }

  lemma ObservedBeforeIsWeakOrder()
    ensures WeakOrder(ObservedBefore)
  {
    forall a: Row, b: Row | ObservedBefore(a, b) ensures !ObservedBefore(b, a) {
      TextLessTrichotomy(a.observedAt, b.observedAt);
    }
    forall a: Row, b: Row, c: Row | !ObservedBefore(a, b) && !ObservedBefore(b, c) ensures !ObservedBefore(a, c) {
      TextLessWeakOrder(a.observedAt, b.observedAt, c.observedAt);
    }
  }

  // ----- recovery -----

  /** Samples in non-decreasing second order. */
  ghost predicate InOrder(ds: seq<Device>) {
    forall i, j :: 0 <= i < j < |ds| ==> SecondsOf(ds[i].observedAt) <= SecondsOf(ds[j].observedAt)
  }

  lemma EncodedOrder(ds: seq<Device>)
    ensures Sorted(ObservedBefore, Map(Encode, ds)) <==> InOrder(ds)
  {
    forall i, j | 0 <= i < j < |ds|
      ensures ObservedBefore(Map(Encode, ds)[j], Map(Encode, ds)[i])
         <==> SecondsOf(ds[j].observedAt) < SecondsOf(ds[i].observedAt)
    {
      TextOrderIsChronological(ds[j].observedAt, ds[i].observedAt);
    }
  }

  /** A host's recovered samples are its samples in the window, sorted by second. */
  lemma RecoveredSamples(ds: seq<Device>, cutoff: Instant, host: string)
    ensures Samples(Recover(Map(Encode, ds), cutoff), host)
         == LastN(WINDOW, Map(Decode, Sort(ObservedBefore, Map(Encode, Filter(From(host), Filter(Since(cutoff), ds))))))
  {
    var inWindow := Filter(Since(cutoff), ds);
    FilterEncoded(ds, cutoff);
    ObservedBeforeIsWeakOrder();
    var sorted := Sort(ObservedBefore, Map(Encode, inWindow));
    CacheIsLast(Map(Decode, sorted), host);
    FilterMap(From(host), Decode, RowFrom(host), sorted);
    FilterSort(ObservedBefore, RowFrom(host), Map(Encode, inWindow));
    FilterMap(RowFrom(host), Encode, From(host), inWindow);
  }

  lemma DecodeEncode(ds: seq<Device>)
    ensures Map(Decode, Map(Encode, ds)) == ds
  {
  }

  lemma RecoveredInOrder(ds: seq<Device>, cutoff: Instant, host: string)
    requires InOrder(Filter(From(host), Filter(Since(cutoff), ds)))
    ensures Samples(Recover(Map(Encode, ds), cutoff), host)
         == LastN(WINDOW, Filter(From(host), Filter(Since(cutoff), ds)))
  {
    var g := Filter(From(host), Filter(Since(cutoff), ds));
    RecoveredSamples(ds, cutoff, host);
    EncodedOrder(g);
    ObservedBeforeIsWeakOrder();
    SortFixpoint(ObservedBefore, Map(Encode, g));
    DecodeEncode(g);
  }

  lemma SinceSince(ds: seq<Device>, c1: Instant, c2: Instant)
    requires c1 <= c2
    ensures Filter(Since(c2), Filter(Since(c1), ds)) == Filter(Since(c2), ds)
  {
    FilterFilter(Since(c2), Since(c1), Since(c2), ds);
  }

  lemma FilterSwap(log: seq<Device>, host: string, c: Instant)
    ensures Filter(From(host), Filter(Since(c), log)) == Filter(Since(c), Filter(From(host), log))
  {
    var both := (d: Device) => From(host)(d) && Since(c)(d);
    FilterFilter(From(host), Since(c), both, log);
    FilterFilter(Since(c), From(host), both, log);
  }

  lemma {:induction false} FilterKeepsOrder(ds: seq<Device>, c: Instant)
    requires InOrder(ds)
    ensures InOrder(Filter(Since(c), ds))
  {
    if ds != [] {
      var front, d := ds[..|ds| - 1], ds[|ds| - 1];
      FilterKeepsOrder(front, c);
      forall x | x in Filter(Since(c), front) ensures SecondsOf(x.observedAt) <= SecondsOf(d.observedAt) {
        var i :| 0 <= i < |front| && front[i] == x;
        assert ds[i] == x;
      }
    }
  }

  lemma {:induction false} AppendAllConcat(c: Cache, a: seq<Device>, b: seq<Device>)
    ensures AppendAll(c, a + b) == AppendAll(AppendAll(c, a), b)
    decreases |b|
  {
    if b == [] {
      assert a + b == a;
    } else {
      assert (a + b)[..|a + b| - 1] == a + b[..|b| - 1];
      AppendAllConcat(c, a, b[..|b| - 1]);
    }
  }

  lemma EncodeDecode(rows: seq<Row>, g: seq<Device>)
    requires Map(Decode, rows) == g && forall r :: r in rows ==> r == Encode(Decode(r))
    ensures rows == Map(Encode, g)
  {
    forall i | 0 <= i < |rows| ensures rows[i] == Map(Encode, g)[i] {
      assert rows[i] in rows && Map(Decode, rows)[i] == g[i];
    }
  }

  lemma EncodedRows(g: seq<Device>)
    ensures forall r :: r in Sort(ObservedBefore, Map(Encode, g)) ==> r == Encode(Decode(r))
  {
    SortMembers(ObservedBefore, Map(Encode, g));
  }

  /** What the window holds of the samples that have left the cache, and of those in it. */
  function WindowBefore(samples: seq<Device>, cutoff: Instant): seq<Device> {
    Filter(Since(cutoff), samples[..|samples| - |LastN(WINDOW, samples)|])
  }

  function WindowLive(samples: seq<Device>, cutoff: Instant): seq<Device> {
    Filter(Since(cutoff), LastN(WINDOW, samples))
  }

  lemma WindowSplit(samples: seq<Device>, cutoff: Instant)
    ensures Filter(Since(cutoff), samples) == WindowBefore(samples, cutoff) + WindowLive(samples, cutoff)
    ensures |WindowLive(samples, cutoff)| <= WINDOW
  {
    var live := LastN(WINDOW, samples);
    assert samples == samples[..|samples| - |live|] + live;
    FilterConcat(Since(cutoff), samples[..|samples| - |live|], live);
  }

  /** None of `t` was observed in an earlier second than one of `s`. */
  ghost predicate NotEarlier(t: seq<Device>, s: seq<Device>) {
    forall x, y :: x in s && y in t ==> SecondsOf(x.observedAt) <= SecondsOf(y.observedAt)
  }

  lemma EncodedNoneBefore(t: seq<Device>, s: seq<Device>)
    ensures NoneBefore(ObservedBefore, Map(Encode, t), Map(Encode, s)) <==> NotEarlier(t, s)
  {
    forall x: Device, y: Device ensures ObservedBefore(Encode(y), Encode(x)) <==> SecondsOf(y.observedAt) < SecondsOf(x.observedAt) {
      TextOrderIsChronological(y.observedAt, x.observedAt);
    }
    MapMembers(Encode, s);
    MapMembers(Encode, t);
  }

  /** Recovery in terms of the rows of the window: what left the cache, then what is in it. */
  lemma LastRowsDecode(before: seq<Device>, live: seq<Device>)
    requires |live| <= WINDOW
    ensures LastN(WINDOW, Map(Decode, Sort(ObservedBefore, Map(Encode, before + live)))) == live
       <==> InOrder(live) && (before == [] || (|live| == WINDOW && NotEarlier(live, before)))
  {
    var s, t := Map(Encode, before), Map(Encode, live);
    LastDecoded(before + live, live);
    MapConcat(Encode, before, live);
    ObservedBeforeIsWeakOrder();
    LastOfSortedConcat(ObservedBefore, WINDOW, s, t);
    EncodedOrder(live);
    EncodedNoneBefore(live, before);
  }

  /** Decoding loses nothing, so the last rows are the encoded samples when they read as them. */
  lemma LastDecoded(g: seq<Device>, live: seq<Device>)
    ensures var sorted := Sort(ObservedBefore, Map(Encode, g));
            LastN(WINDOW, Map(Decode, sorted)) == live <==> LastN(WINDOW, sorted) == Map(Encode, live)
  {
    var last := LastN(WINDOW, Sort(ObservedBefore, Map(Encode, g)));
    MapLastN(Decode, WINDOW, Sort(ObservedBefore, Map(Encode, g)));
    EncodedRows(g);
    LastNMembers(WINDOW, Sort(ObservedBefore, Map(Encode, g)));
    if Map(Decode, last) == live {
      EncodeDecode(last, live);
    } else if last == Map(Encode, live) {
      DecodeEncode(live);
    }
  }

  /** The order assumption is exact.  Recovery returns the live history cut to the window precisely
      when its samples were committed in non-decreasing second order, and, if the window holds
      samples that have left the cache, they would have left it too: the live ones fill it and
      none of them is earlier. */
  lemma OrderMatters(log: seq<Device>, cutoff: Instant, host: string)
    ensures var samples := Filter(From(host), log);
            var before, live := WindowBefore(samples, cutoff), WindowLive(samples, cutoff);
            (Samples(Recover(Map(Encode, log), cutoff), host)
               == Filter(Since(cutoff), Samples(AppendAll(NO_SAMPLES, log), host)))
            <==> InOrder(live) && (before == [] || (|live| == WINDOW && NotEarlier(live, before)))
  {
    var samples := Filter(From(host), log);
    CacheIsLast(log, host);
    RecoveredSamples(log, cutoff, host);
    FilterSwap(log, host, cutoff);
    WindowSplit(samples, cutoff);
    LastRowsDecode(WindowBefore(samples, cutoff), WindowLive(samples, cutoff));
  }
}
