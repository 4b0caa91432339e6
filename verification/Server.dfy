/** The request handlers (internal/api/handlers.go) over the durable store, with the metrics
    they keep. */
module Server {
  import opened Sequences
  import opened Rfc3339
  import opened Telemetry
  import opened Incidents
  import Lifecycle
  import opened Pipeline
  import IncidentStore
  import Correlation
  import Anomalies
  import PersistentStore
  import TelemetryCache
  import IncidentTables
  import opened StoredWork
  import IncidentContent

  /** The status a decision request may name. */
  function ParseStatus(text: string): Option<Status> {
    if text == "resolved" then Some(Resolved)
    else if text == "ignored" then Some(Ignored)
    else None
  }

  /** What requests read and change, and what an ingest makes of it. */
  datatype Snapshot = Snapshot(
    incidents: IncidentStore.State, counters: Metrics, tables: IncidentTables.Tables,
    telemetry: seq<TelemetryCache.Row>, samples: TelemetryCache.Cache, anomalies: seq<Anomalies.Anomaly>)
  {
    /** Committed samples reach the table and the cache. */
    function Stored(valid: seq<Device>): Snapshot {
      this.(telemetry := telemetry + Map(TelemetryCache.Encode, valid), samples := TelemetryCache.AppendAll(samples, valid))
    }

    /** Detections reach the buffer. */
    function Found(found: seq<Anomalies.Anomaly>): Snapshot {
      this.(anomalies := Anomalies.Record(anomalies, found))
    }

    /** The works of a batch reach the incidents, their tables and the counters. */
    function Batched(works: seq<Work>, hash: Hash): Snapshot {
      this.(incidents := Process(incidents, works, hash), counters := CountAll(incidents, counters, works, hash),
            tables := TablesAfterAll(tables, incidents, works, hash))
    }
  }

  /** What a decision request for a known incident does to it: status and newest trail entry are spelled
      as the request spells them, and everything else about the incidents stays. */
  ghost predicate RulingTaken(s: IncidentStore.State, t: IncidentStore.State, id: string, text: string, actor: string, now: Instant)
    requires id in s.incidents
  {
    && t.byOccurrence == s.byOccurrence && t.incidents.Keys == s.incidents.Keys
    && StatusText(t.incidents[id].status) == text && t.incidents[id].updatedAt == now
    && IncidentContent.SameReport(t.incidents[id], s.incidents[id])
    && (forall other :: other in s.incidents && other != id ==> t.incidents[other] == s.incidents[other])
    && (forall other :: other != id ==> IncidentStore.TrailOf(t, other) == IncidentStore.TrailOf(s, other))
    && var trail := IncidentStore.TrailOf(t, id);
       && |trail| == |IncidentStore.TrailOf(s, id)| + 1 && trail[..|trail| - 1] == IncidentStore.TrailOf(s, id)
       && var d := trail[|trail| - 1];
          d.incidentId == id && StatusText(d.status) == text && d.actor == actor && d.decidedAt == now
  }

  /** What it counts: one resolution when the text is "resolved", and one active incident less when the
      incident was active. */
  ghost predicate RulingCounted(m: Metrics, n: Metrics, was: Incident, text: string) {
    && n.recurred == m.recurred
    && forall sev ::
         && Value(n.resolved, sev) == Value(m.resolved, sev) + (if sev == was.severity && text == "resolved" then 1 else 0)
         && Value(n.active, sev) == Value(m.active, sev) - (if sev == was.severity && StatusText(was.status) == "active" then 1 else 0)
  }

  /** The decision endpoint, in the terms of its request. */
  ghost predicate Answers(was: Snapshot, after: Snapshot, id: string, text: string, actor: string, now: Instant, ok: bool, r: Response) {
    && (r == BadRequest400 <==> text != "resolved" && text != "ignored")
    && (r == Accepted200 <==> (text == "resolved" || text == "ignored") && id in was.incidents.incidents && ok)
    && r != Failed500
    && after.telemetry == was.telemetry && after.samples == was.samples && after.anomalies == was.anomalies
    && (r != Accepted200 ==> after.counters == was.counters && after.tables == was.tables)
    && (r == BadRequest400 || id !in was.incidents.incidents ==> after == was)
    && (r != BadRequest400 && id in was.incidents.incidents ==> RulingTaken(was.incidents, after.incidents, id, text, actor, now))
    && (r == Accepted200 ==> RulingCounted(was.counters, after.counters, was.incidents.incidents[id], text))
  }

  datatype Response = Accepted200 | BadRequest400 | NotFound404 | Failed500

  class Handlers {
    const store: PersistentStore.Store
    const texts: Correlation.RuleTexts
    var active: map<Severity, int>
    var resolved: map<Severity, int>
    var recurred: int

    constructor (store: PersistentStore.Store, texts: Correlation.RuleTexts)
      ensures this.store == store && this.texts == texts && Counters() == Metrics(map[], map[], 0)
    {
      this.store, this.texts := store, texts;
      active, resolved, recurred := map[], map[], 0;
    }

    ghost function Counters(): Metrics
      reads this
    {
      Metrics(active, resolved, recurred)
    }

    ghost function View(): IncidentStore.State
      reads store.incidents
    {
      store.incidents.View()
    }

    /** One detected candidate. */
    method UpsertOne(c: Candidate, now: Instant, ok: bool) returns (created: bool, stored: bool)
      modifies this, store`tables, store.incidents
      ensures View() == IncidentStore.Upsert(old(View()), c, now, store.incidents.hash).state
      ensures created == IncidentStore.Upsert(old(View()), c, now, store.incidents.hash).created
      ensures Counters() == Count(old(View()), old(Counters()), Detected(c, now, stored), store.incidents.hash)
      ensures stored <==> Executes(old(store.tables), old(View()), Detected(c, now, stored), store.incidents.hash, ok)
      ensures store.tables == TablesAfter(old(store.tables), old(View()), Detected(c, now, stored), store.incidents.hash)
    {
      var inc, made, error := store.UpsertIncident(c, now, ok);
      created, stored := made, !error;
      if error {
        return;
      }
      if created {
        active := Added(active, c.severity, 1);
        if inc.sequence > 1 {
          recurred := recurred + 1;
        }
      }
    }

    /** One turn of the loop below. */
    method UpsertNext(ghost s: IncidentStore.State, ghost m: Metrics, ghost db: IncidentTables.Tables, ghost cs: seq<Candidate>,
                      c: Candidate, k: nat, now: Instant, ok: nat -> bool, works: seq<Work>, createdCount: nat)
      returns (works': seq<Work>, createdCount': nat)
      requires k == |cs|
      requires Ran(s, m, db, cs, now, store.incidents.hash, ok, works, createdCount, View(), Counters(), store.tables)
      modifies this, store`tables, store.incidents
      ensures Ran(s, m, db, cs + [c], now, store.incidents.hash, ok, works', createdCount', View(), Counters(), store.tables)
    {
      ghost var s', m', db' := View(), Counters(), store.tables;
      var created, flag := UpsertOne(c, now, ok(k));
      RanNext(s, m, db, cs, c, now, store.incidents.hash, ok, works, createdCount, s', m', db', Detected(c, now, flag));
      works' := works + [Detected(c, now, flag)];
      createdCount' := if created then createdCount + 1 else createdCount;
    }

    /** Upserts every candidate; `ok(i)` says whether the database would execute the insert of
        candidate `i`.  A failed insert does not stop the batch. */
    method UpsertAll(cs: seq<Candidate>, now: Instant, ok: nat -> bool) returns (createdCount: nat, works: seq<Work>)
      modifies this, store`tables, store.incidents
      ensures Ran(old(View()), old(Counters()), old(store.tables), cs, now, store.incidents.hash, ok,
                  works, createdCount, View(), Counters(), store.tables)
    {
      ghost var s, m, db, hash := View(), Counters(), store.tables, store.incidents.hash;
      createdCount, works := 0, [];
      RanNothing(s, m, db, now, hash, ok);
      assert cs[..0] == [];
      for k := 0 to |cs|
        invariant Ran(s, m, db, cs[..k], now, hash, ok, works, createdCount, View(), Counters(), store.tables)
      {
        TakeNext(cs, k);
        works, createdCount := UpsertNext(s, m, db, cs[..k], cs[k], k, now, ok, works, createdCount);
      }
      assert cs[..|cs|] == cs;
    }

    /** Everything a request can change. */
    ghost function Visible(): Snapshot
      reads this, store, store.incidents
    {
      Snapshot(View(), Counters(), store.tables, store.telemetry, store.Samples(), store.anomalies)
    }

    /** Correlates a valid batch and upserts its candidates. */
    method CorrelateIncidents(valid: seq<Device>, now: Instant, ok: nat -> bool) returns (createdCount: nat, works: seq<Work>)
      modifies this, store`tables, store.incidents
      ensures IsBatch(works, Correlation.Candidates(texts, valid, ByHost(valid)), now)
      ensures createdCount == CreatedIn(old(View()), Correlation.Candidates(texts, valid, ByHost(valid)), now, store.incidents.hash)
      ensures FlagsMatch(old(store.tables), old(View()), works, store.incidents.hash, ok)
      ensures Visible() == old(Visible()).Batched(works, store.incidents.hash)
      ensures IncidentContent.BatchContent(old(View()), Correlation.Candidates(texts, valid, ByHost(valid)), now, View())
    {
      ghost var was := Visible();
      var candidates := Correlation.Correlate(texts, valid);
      createdCount, works := UpsertAll(candidates, now, ok);
      AfterBatch(was, Visible(), candidates, now, store.incidents.hash, ok, works, createdCount);
      IncidentContent.BatchReports(was.incidents, works, candidates, now, store.incidents.hash);
    }

    /** A stored decision closes at most one active incident and may resolve it. */
    method CountDecision(inc: Incident, wasActive: bool, status: Status)
      modifies this`active, this`resolved
      ensures active == if wasActive then Added(old(active), inc.severity, -1) else old(active)
      ensures resolved == if status == Resolved then Added(old(resolved), inc.severity, 1) else old(resolved)
    {
      if wasActive {
        active := Added(active, inc.severity, -1);
      }
      if status == Resolved {
        resolved := Added(resolved, inc.severity, 1);
      }
    }

    /** A decision with a known status. */
    method Decide(id: string, status: Status, actor: string, now: Instant, ok: bool) returns (r: Response)
      modifies this, store`tables, store.incidents
      ensures var w := Ruled(id, status, actor, now, ok);
              && (r == if id in old(View()).incidents && ok then Accepted200 else NotFound404)
              && View() == Lifecycle.Step(old(View()), OpOf(w), store.incidents.hash)
              && Counters() == Count(old(View()), old(Counters()), w, store.incidents.hash)
              && store.tables == TablesAfter(old(store.tables), old(View()), w, store.incidents.hash)
    {
      ghost var s, m, db := View(), Counters(), store.tables;
      DecisionWork(db, s, m, id, status, actor, now, ok, store.incidents.hash);
      var updated, error := store.DecideIncident(id, status, actor, now, ok);
      if error {
        return NotFound404;
      }
      CountDecision(updated.value.0, updated.value.1, status);
      r := Accepted200;
    }

    /** The decision endpoint: an unknown status is refused before anything changes, and a
        failed write is answered like an unknown incident although memory has changed. */
    method HandleDecide(id: string, statusText: string, actor: string, now: Instant, ok: bool) returns (r: Response)
      modifies this, store`tables, store.incidents
      ensures var status := ParseStatus(statusText);
              if status.None? then r == BadRequest400 && Visible() == old(Visible())
              else
                var w := Ruled(id, status.value, actor, now, ok);
                && (r == if id in old(View()).incidents && ok then Accepted200 else NotFound404)
                && View() == Lifecycle.Step(old(View()), OpOf(w), store.incidents.hash)
                && Counters() == Count(old(View()), old(Counters()), w, store.incidents.hash)
                && store.tables == TablesAfter(old(store.tables), old(View()), w, store.incidents.hash)
      ensures Answers(old(Visible()), Visible(), id, statusText, actor, now, ok, r)
    {
      var status := ParseStatus(statusText);
      if status.None? {
        return BadRequest400;
      }
      ghost var was := Visible();
      r := Decide(id, status.value, actor, now, ok);
      DecisionAnswers(was, Visible(), id, statusText, status.value, actor, now, ok, store.incidents.hash, r);
    }

    /** Detection over a valid batch. */
    method DetectAnomalies(valid: seq<Device>, now: Instant)
      modifies store`anomalies
      ensures Visible() == old(Visible()).Found(Anomalies.Detected(valid, |valid|, now, store.anomalyHash))
    {
      var found := Anomalies.Detect(valid, now, store.anomalyHash);
      store.RecordAnomalies(found);
    }

    /** What the ingest endpoint does once a batch is committed: detect, then correlate. */
    method ProcessValid(valid: seq<Device>, now: Instant, ok: nat -> bool) returns (works: seq<Work>)
      modifies this, store`anomalies, store`tables, store.incidents
      ensures IsBatch(works, Correlation.Candidates(texts, valid, ByHost(valid)), now)
      ensures FlagsMatch(old(store.tables), old(View()), works, store.incidents.hash, ok)
      ensures Visible() == old(Visible()).Found(Anomalies.Detected(valid, |valid|, now, store.anomalyHash))
                                         .Batched(works, store.incidents.hash)
      ensures IncidentContent.BatchContent(old(View()), Correlation.Candidates(texts, valid, ByHost(valid)), now, View())
    {
      DetectAnomalies(valid, now);
      var createdCount;
      createdCount, works := CorrelateIncidents(valid, now, ok);
    }

    /** The ingest endpoint: commit, detect, correlate.  A failed commit stops the request with
        nothing changed. */
    method HandleIngest(devices: seq<Device>, now: Instant, committed: bool, ok: nat -> bool)
      returns (r: Response, works: seq<Work>)
      modifies this, store, store.incidents
      ensures var valid := Filter(IsValid, devices);
              if !committed && valid != [] then r == Failed500 && Visible() == old(Visible())
              else
                && r == Accepted200
                && IsBatch(works, Correlation.Candidates(texts, valid, ByHost(valid)), now)
                && FlagsMatch(old(store.tables), old(View()), works, store.incidents.hash, ok)
                && Visible() == old(Visible()).Stored(valid).Found(Anomalies.Detected(valid, |valid|, now, store.anomalyHash))
                                              .Batched(works, store.incidents.hash)
                && IncidentContent.BatchContent(old(View()), Correlation.Candidates(texts, valid, ByHost(valid)), now, View())
    {
      var result, error := store.Ingest(devices, committed);
      if error {
        return Failed500, [];
      }
      assert Visible() == old(Visible()).Stored(result.valid);
      works := ProcessValid(result.valid, now, ok);
      r := Accepted200;
    }
  }

  lemma StepTakesRuling(s: IncidentStore.State, id: string, text: string, status: Status, actor: string, now: Instant, hash: Hash)
    requires ParseStatus(text) == Some(status) && id in s.incidents
    ensures RulingTaken(s, Lifecycle.Step(s, Lifecycle.DecideOp(id, status, actor, now), hash), id, text, actor, now)
  {
  }

  lemma CountCountsRuling(s: IncidentStore.State, m: Metrics, id: string, text: string, status: Status, actor: string, now: Instant,
                          hash: Hash)
    requires ParseStatus(text) == Some(status) && id in s.incidents
    ensures RulingCounted(m, Count(s, m, Ruled(id, status, actor, now, true), hash), s.incidents[id], text)
  {
  }

  lemma DecisionAnswers(was: Snapshot, after: Snapshot, id: string, text: string, status: Status, actor: string, now: Instant,
                        ok: bool, hash: Hash, r: Response)
    requires ParseStatus(text) == Some(status) && r == if id in was.incidents.incidents && ok then Accepted200 else NotFound404
    requires after == was.(incidents := after.incidents, counters := after.counters, tables := after.tables)
    requires var w := Ruled(id, status, actor, now, ok);
             && after.incidents == Lifecycle.Step(was.incidents, OpOf(w), hash)
             && after.counters == Count(was.incidents, was.counters, w, hash)
             && after.tables == TablesAfter(was.tables, was.incidents, w, hash)
    ensures Answers(was, after, id, text, actor, now, ok, r)
  {
    if id in was.incidents.incidents {
      StepTakesRuling(was.incidents, id, text, status, actor, now, hash);
      if ok {
        CountCountsRuling(was.incidents, was.counters, id, text, status, actor, now, hash);
      }
    }
  }

  lemma AfterBatch(was: Snapshot, after: Snapshot, cs: seq<Candidate>, now: Instant, hash: Hash, ok: nat -> bool,
                   works: seq<Work>, created: nat)
    requires Ran(was.incidents, was.counters, was.tables, cs, now, hash, ok, works, created, after.incidents, after.counters, after.tables)
    requires after.telemetry == was.telemetry && after.samples == was.samples && after.anomalies == was.anomalies
    ensures IsBatch(works, cs, now) && created == CreatedIn(was.incidents, cs, now, hash)
    ensures FlagsMatch(was.tables, was.incidents, works, hash, ok) && after == was.Batched(works, hash)
  {
  }

  lemma DecisionWork(db: IncidentTables.Tables, s: IncidentStore.State, m: Metrics, id: string, status: Status, actor: string,
                     now: Instant, ok: bool, hash: Hash)
    ensures var w := Ruled(id, status, actor, now, ok);
            match IncidentStore.Decide(s, id, status, actor, now)
            case NotFound =>
              id !in s.incidents && Lifecycle.Step(s, OpOf(w), hash) == s && Count(s, m, w, hash) == m && TablesAfter(db, s, w, hash) == db
            case Decided(s', inc, wasActive) =>
              && id in s.incidents && Lifecycle.Step(s, OpOf(w), hash) == s'
              && TablesAfter(db, s, w, hash)
                 == (if ok then IncidentTables.Commit(db, IncidentTables.RecordDecision(inc, actor)).value else db)
              && Count(s, m, w, hash)
                 == if ok then m.(active := if wasActive then Added(m.active, inc.severity, -1) else m.active,
                                  resolved := if status == Resolved then Added(m.resolved, inc.severity, 1) else m.resolved)
                    else m
  {
  }
}
