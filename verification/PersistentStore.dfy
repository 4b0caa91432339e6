/** The durable store (internal/persistence/store.go) as an object: telemetry cache, anomaly
    buffer and incident store in memory, three tables behind them. */
module PersistentStore {
  import opened Sequences
  import opened Decimal
  import opened Rfc3339
  import opened Telemetry
  import Incidents
  import IncidentStore
  import IncidentTables
  import Cache = TelemetryCache
  import Anomalies
  import StableSort

  datatype IngestResult = IngestResult(accepted: nat, rejected: nat, errors: seq<(string, Fault)>, valid: seq<Device>)

  function Rejections(devices: seq<Device>): (r: seq<(string, Fault)>) {
    if devices == [] then []
    else
      var front, d := Rejections(devices[..|devices| - 1]), devices[|devices| - 1];
      if IsValid(d) then front else front + [(d.hostname, Validate(d).value)]
  }

  function IsRejected(): Device -> bool {
    (d: Device) => !IsValid(d)
  }

  function Rejection(): Device -> (string, Option<Fault>) {
    (d: Device) => (d.hostname, Validate(d))
  }

  function Reported(): ((string, Fault)) -> (string, Option<Fault>) {
    (e: (string, Fault)) => (e.0, Some(e.1))
  }

  /** The errors are those of the invalid devices, in batch order, each with its host and its fault. */
  lemma {:induction false} RejectionsAre(devices: seq<Device>)
    ensures Map(Reported(), Rejections(devices)) == Map(Rejection(), Filter(IsRejected(), devices))
  {
    if devices != [] {
      var front, d := devices[..|devices| - 1], devices[|devices| - 1];
      RejectionsAre(front);
      if !IsValid(d) {
        MapAppend(Reported(), Rejections(front), (d.hostname, Validate(d).value));
        MapAppend(Rejection(), Filter(IsRejected(), front), d);
      }
    }
  }

  /** Every device of a batch is accepted or rejected, with one error for each rejection. */
  lemma {:induction false} IngestAccounting(devices: seq<Device>)
    ensures |Filter(IsValid, devices)| + |Rejections(devices)| == |devices|
  {
    if devices != [] {
      IngestAccounting(devices[..|devices| - 1]);
    }
  }

  /** Separates a batch into valid devices and errors, both in batch order. */
  method Classify(devices: seq<Device>) returns (valid: seq<Device>, errors: seq<(string, Fault)>)
    ensures valid == Filter(IsValid, devices) && errors == Rejections(devices)
  {
    valid, errors := [], [];
    for i := 0 to |devices|
      invariant valid == Filter(IsValid, devices[..i]) && errors == Rejections(devices[..i])
    {
      assert devices[..i + 1][..i] == devices[..i];
      var fault := Validate(devices[i]);
      if fault.Some? {
        errors := errors + [(devices[i].hostname, fault.value)];
      } else {
        valid := valid + [devices[i]];
      }
    }
    assert devices[..|devices|] == devices;
  }

  predicate HostBefore(a: Device, b: Device) {
    TextLess(a.hostname, b.hostname)
  }

  /** A listing of the latest samples: one per host, ordered by host name. */
  ghost predicate IsListing(latest: map<string, Device>, out: seq<Device>) {
    && (forall d :: d in out <==> d.hostname in latest && latest[d.hostname] == d)
    && forall i, j :: 0 <= i < j < |out| ==> TextLess(out[i].hostname, out[j].hostname)
  }

  class Store {
    const retention: nat
    const incidents: IncidentStore.Store
    const anomalyHash: Anomalies.Hash
    var tables: IncidentTables.Tables
    var telemetry: seq<Cache.Row>
    var latest: map<string, Device>
    var history: map<string, seq<Device>>
    var anomalies: seq<Anomalies.Anomaly>

    /** A store over existing tables, with nothing in memory yet. */
    constructor (retention: nat, hash: Incidents.Hash, anomalyHash: Anomalies.Hash,
                 tables: IncidentTables.Tables, telemetry: seq<Cache.Row>)
      ensures fresh(incidents) && incidents.hash == hash && incidents.View() == IncidentStore.EMPTY
      ensures this.retention == retention && this.tables == tables && this.telemetry == telemetry
      ensures Samples() == Cache.NO_SAMPLES && anomalies == [] && Named()
    {
      this.retention, this.anomalyHash := retention, anomalyHash;
      incidents := new IncidentStore.Store(hash);
      this.tables, this.telemetry := tables, telemetry;
      latest, history, anomalies := map[], map[], [];
    }

    ghost function Samples(): Cache.Cache
      reads this`latest, this`history
    {
      Cache.Cache(latest, history)
    }

    /** Every known host is listed under its own name. */
    ghost predicate Named()
      reads this`latest
    {
      forall h :: h in latest ==> latest[h].hostname == h
    }

    method AppendHistory(d: Device)
      modifies this`latest, this`history
      ensures Samples() == Cache.Append(old(Samples()), d)
      ensures old(Named()) ==> Named()
    {
      latest := latest[d.hostname := d];
      var h := (if d.hostname in history then history[d.hostname] else []) + [d];
      if |h| > Cache.WINDOW {
        h := h[|h| - Cache.WINDOW..];
      }
      history := history[d.hostname := h];
    }

    method AppendEach(ds: seq<Device>)
      modifies this`latest, this`history
      ensures Samples() == Cache.AppendAll(old(Samples()), ds)
      ensures old(Named()) ==> Named()
    {
      for i := 0 to |ds|
        invariant Samples() == Cache.AppendAll(old(Samples()), ds[..i])
        invariant old(Named()) ==> Named()
      {
        assert ds[..i + 1][..i] == ds[..i];
        AppendHistory(ds[i]);
      }
      assert ds[..|ds|] == ds;
    }

    /** The telemetry half of start-up recovery. */
    method RecoverTelemetry(cutoff: Instant)
      modifies this`latest, this`history
      ensures old(Samples()) == Cache.NO_SAMPLES ==> Samples() == Cache.Recover(telemetry, cutoff)
      ensures old(Named()) ==> Named()
    {
      var rows := StableSort.Sort(Cache.ObservedBefore, Filter(Cache.NotOlder(cutoff), telemetry));
      AppendEach(Map(Cache.Decode, rows));
    }

    /** The incident half; nothing is loaded when a row cannot be read. */
    method RecoverIncidents() returns (ok: bool)
      modifies incidents
      ensures ok <==> IncidentTables.Rebuild(tables).Some?
      ensures old(incidents.View()) == IncidentStore.EMPTY && ok ==> Some(incidents.View()) == IncidentTables.Rebuild(tables)
      ensures !ok ==> incidents.View() == old(incidents.View())
    {
      if !IncidentTables.Readable(tables) {
        return false;
      }
      var rows := Map(IncidentTables.ReadIncident, StableSort.Sort(IncidentTables.RowBefore, tables.incidents));
      var trails := IncidentTables.Trails(IncidentTables.ReadDecision,
                                          StableSort.Sort(IncidentTables.DecisionBefore, tables.decisions));
      incidents.RestoreRows(rows, trails);
      ok := true;
    }

    /** `stored` says whether the transaction commits.  An error leaves table and cache alone. */
    method Ingest(devices: seq<Device>, stored: bool) returns (result: IngestResult, error: bool)
      modifies this`telemetry, this`latest, this`history
      ensures result.accepted == |Filter(IsValid, devices)| && result.rejected == |result.errors|
      ensures result.errors == Rejections(devices)
      ensures error <==> !stored && Filter(IsValid, devices) != []
      ensures if error then result.valid == [] && telemetry == old(telemetry) && Samples() == old(Samples())
              else && result.valid == Filter(IsValid, devices)
                   && telemetry == old(telemetry) + Map(Cache.Encode, result.valid)
                   && Samples() == Cache.AppendAll(old(Samples()), result.valid)
      ensures old(Named()) ==> Named()
    {
      var valid, errors := Classify(devices);
      if |valid| > 0 {
        if !stored {
          return IngestResult(|valid|, |errors|, errors, []), true;
        }
        telemetry := telemetry + Map(Cache.Encode, valid);
      }
      AppendEach(valid);
      result, error := IngestResult(|valid|, |errors|, errors, valid), false;
    }

    method RecordAnomalies(batch: seq<Anomalies.Anomaly>)
      modifies this`anomalies
      ensures anomalies == Anomalies.Record(old(anomalies), batch)
    {
      anomalies := Anomalies.RecordBatch(anomalies, batch);
    }

    /** Deletes the rows older than the window and counts them. */
    method Prune(now: Instant) returns (removed: nat)
      requires retention <= now
      modifies this`telemetry
      ensures telemetry == Cache.Prune(old(telemetry), now - retention)
      ensures removed == |old(telemetry)| - |telemetry|
    {
      var kept := Filter(Cache.NotOlder(now - retention), telemetry);
      removed := |telemetry| - |kept|;
      telemetry := kept;
    }

    /** Memory first, then the insert; `stored` says whether the database executes it.  On an
        error the incident stays in memory. */
    method UpsertIncident(c: Incidents.Candidate, now: Instant, stored: bool)
      returns (incident: Incidents.Incident, created: bool, error: bool)
      modifies this`tables, incidents
      ensures IncidentStore.UpsertResult(incidents.View(), incident, created)
           == IncidentStore.Upsert(old(incidents.View()), c, now, incidents.hash)
      ensures var db := IncidentTables.Commit(old(tables), IncidentTables.InsertIncident(incident));
              if created && stored && db.Some? then !error && tables == db.value
              else error == created && tables == old(tables)
    {
      incident, created := incidents.UpsertCandidate(c, now);
      if !created {
        return incident, false, false;
      }
      var db := IncidentTables.Commit(tables, IncidentTables.InsertIncident(incident));
      if !stored || db.None? {
        return incident, true, true;
      }
      tables := db.value;
      error := false;
    }

    /** Memory first, then one transaction.  Nothing is returned for an unknown incident. */
    method DecideIncident(id: string, status: Incidents.Status, actor: string, now: Instant, stored: bool)
      returns (r: Option<(Incidents.Incident, bool)>, error: bool)
      modifies this`tables, incidents
      ensures match IncidentStore.Decide(old(incidents.View()), id, status, actor, now)
              case NotFound => r == None && error && incidents.View() == old(incidents.View()) && tables == old(tables)
              case Decided(s, inc, wasActive) =>
                && r == Some((inc, wasActive)) && incidents.View() == s && error == !stored
                && tables == if stored then IncidentTables.Commit(old(tables), IncidentTables.RecordDecision(inc, actor)).value
                             else old(tables)
    {
      r := incidents.RecordDecision(id, status, actor, now);
      if r.None? {
        return None, true;
      }
      if !stored {
        return r, true;
      }
      tables := IncidentTables.Commit(tables, IncidentTables.RecordDecision(r.value.0, actor)).value;
      error := false;
    }

    /** Collects the latest samples in no particular order and sorts them by host. */
    method LatestDevices() returns (out: seq<Device>)
      requires Named()
      ensures IsListing(latest, out)
    {
      var items: seq<Device> := [];
      var todo := latest.Keys;
      while todo != {}
        invariant todo <= latest.Keys
        invariant forall d :: d in items <==> d.hostname in latest && d.hostname !in todo && latest[d.hostname] == d
        invariant Distinct(items)
        decreases todo
      {
        var h :| h in todo;
        assert latest[h] !in items;
        todo := todo - {h};
        items := items + [latest[h]];
      }
      out := StableSort.Sort(HostBefore, items);
      ListingSorted(latest, items, out);
    }
  }

  lemma ListingSorted(latest: map<string, Device>, items: seq<Device>, out: seq<Device>)
    requires out == StableSort.Sort(HostBefore, items) && Distinct(items)
    requires forall d :: d in items <==> d.hostname in latest && latest[d.hostname] == d
    ensures IsListing(latest, out)
  {
    assert StableSort.WeakOrder(HostBefore) by {
      forall a: Device, b: Device | HostBefore(a, b) ensures !HostBefore(b, a) {
        TextLessTrichotomy(a.hostname, b.hostname);
      }
      forall a: Device, b: Device, c: Device | !HostBefore(a, b) && !HostBefore(b, c) ensures !HostBefore(a, c) {
        TextLessWeakOrder(a.hostname, b.hostname, c.hostname);
      }
    }
    StableSort.SortSorted(HostBefore, items);
    StableSort.SortMembers(HostBefore, items);
    IncidentStore.DistinctPermutation(items, out);
    forall i, j | 0 <= i < j < |out| ensures TextLess(out[i].hostname, out[j].hostname) {
      assert out[i] in out && out[j] in out && !HostBefore(out[j], out[i]);
      TextLessTrichotomy(out[i].hostname, out[j].hostname);
    }
  }

  /** Two listings of one map end alike. */
  lemma SameEnd(latest: map<string, Device>, a: seq<Device>, b: seq<Device>)
    requires IsListing(latest, a) && IsListing(latest, b) && a != []
    ensures b != [] && a[|a| - 1] == b[|b| - 1]
  {
    assert a[0] in b;
    var x, y := a[|a| - 1], b[|b| - 1];
    assert x in a && y in b;
    LastHost(a, y);
    LastHost(b, x);
    TextLessTrichotomy(x.hostname, y.hostname);
  }

  lemma EmptyListing(latest: map<string, Device>, a: seq<Device>, b: seq<Device>)
    requires IsListing(latest, a) && IsListing(latest, b) && a == []
    ensures b == []
  {
    if b != [] {
      HasMember(b);
    }
  }

  /** The listing does not depend on the order the map is walked in. */
  lemma {:induction false} ListingUnique(latest: map<string, Device>, a: seq<Device>, b: seq<Device>)
    requires IsListing(latest, a) && IsListing(latest, b)
    ensures a == b
    decreases |a|
  {
    if a == [] {
      EmptyListing(latest, a, b);
    } else {
      SameEnd(latest, a, b);
      FrontListing(latest, a);
      FrontListing(latest, b);
      ListingUnique(latest - {a[|a| - 1].hostname}, a[..|a| - 1], b[..|b| - 1]);
      assert a == a[..|a| - 1] + [a[|a| - 1]] && b == b[..|b| - 1] + [b[|b| - 1]];
    }
  }

  lemma LastHost(s: seq<Device>, d: Device)
    requires forall i, j :: 0 <= i < j < |s| ==> TextLess(s[i].hostname, s[j].hostname)
    requires d in s
    ensures d == s[|s| - 1] || TextLess(d.hostname, s[|s| - 1].hostname)
  {
  }

  lemma FrontListing(latest: map<string, Device>, s: seq<Device>)
    requires IsListing(latest, s) && s != []
    ensures IsListing(latest - {s[|s| - 1].hostname}, s[..|s| - 1])
  {
    var x, front := s[|s| - 1], s[..|s| - 1];
    forall d ensures d in front <==> d in s && d.hostname != x.hostname {
      if d in front {
        var i :| 0 <= i < |front| && front[i] == d;
        assert TextLess(s[i].hostname, x.hostname);
        TextLessTrichotomy(d.hostname, x.hostname);
      }
    }
  }

  // ----- the riskiest device -----

  function RiskScore(d: Device): real {
    d.cpu * 0.35 + d.latency * 0.25 + d.loss * 8.0 + d.memory * 0.2
  }

  /** What the score weighs against what: a point of packet loss counts as 32 ms of latency, as 40 points of
      memory, and seven points of latency as five of CPU; only these four count. */
  lemma RiskWeights(d: Device, e: Device, x: real)
    ensures RiskScore(d.(loss := d.loss + x)) == RiskScore(d.(latency := d.latency + 32.0 * x))
         == RiskScore(d.(memory := d.memory + 40.0 * x)) == RiskScore(d) + 8.0 * x
    ensures RiskScore(d.(latency := d.latency + 7.0 * x)) == RiskScore(d.(cpu := d.cpu + 5.0 * x))
    ensures d.cpu == e.cpu && d.memory == e.memory && d.latency == e.latency && d.loss == e.loss ==> RiskScore(d) == RiskScore(e)
    ensures d.cpu == d.memory == d.latency == d.loss == 0.0 ==> RiskScore(d) == 0.0
  {
  }

  /** The default forecast target: the highest score, the first host by name among equals. */
  method RiskiestDevice(devices: seq<Device>) returns (host: string)
    ensures devices == [] ==> host == ""
    ensures devices != [] ==>
              exists k :: 0 <= k < |devices| && host == devices[k].hostname
                && (forall i :: 0 <= i < |devices| ==> RiskScore(devices[i]) <= RiskScore(devices[k]))
                && (forall i :: 0 <= i < k ==> RiskScore(devices[i]) < RiskScore(devices[k]))
  {
    if |devices| == 0 {
      return "";
    }
    var best, bestScore := devices[0], RiskScore(devices[0]);
    ghost var k := 0;
    for i := 1 to |devices|
      invariant 0 <= k < i && best == devices[k] && bestScore == RiskScore(best)
      invariant forall j :: 0 <= j < i ==> RiskScore(devices[j]) <= bestScore
      invariant forall j :: 0 <= j < k ==> RiskScore(devices[j]) < bestScore
    {
      var score := RiskScore(devices[i]);
      if score > bestScore {
        best, bestScore := devices[i], score;
        k := i;
      }
    }
    host := best.hostname;
  }
}
