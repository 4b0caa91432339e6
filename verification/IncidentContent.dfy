/** What a stored incident says (internal/incidents/store.go, internal/api/handlers.go): the report of
    the candidate it was created from, field by field, from its creation on. */
module IncidentContent {
  import opened Sequences
  import opened Rfc3339
  import opened Telemetry
  import opened Incidents
  import opened IncidentStore
  import opened Lifecycle
  import opened Pipeline
  import opened ActionTexts
  import Correlation

  /** Status and update time aside, which decisions change, the incident is as it was. */
  predicate SameReport(inc: Incident, was: Incident) {
    && inc.id == was.id && inc.key == was.key && inc.sequence == was.sequence && inc.rootCause == was.rootCause
    && inc.severity == was.severity && inc.affected == was.affected && inc.confidence == was.confidence
    && inc.slaMinutes == was.slaMinutes && inc.action == was.action && inc.createdAt == was.createdAt
  }

  // ----- one operation -----

  predicate Reports(op: Op, inc: Incident) {
    op.UpsertOp? && Carries(inc, op.candidate, op.now)
  }

  /** After one operation an incident is as it was, or it is new, active and reports the candidate. */
  lemma StepContent(s: State, op: Op, hash: Hash, id: string)
    requires id in Step(s, op, hash).incidents
    ensures var inc := Step(s, op, hash).incidents[id];
            (id in s.incidents && SameReport(inc, s.incidents[id]))
            || (Reports(op, inc) && inc.status == Active && inc.updatedAt == op.now && inc.id == id)
  {
  }

  // ----- runs -----

  /** Some operation of the run reported the incident. */
  ghost predicate ReportedIn(ops: seq<Op>, inc: Incident) {
    exists i :: 0 <= i < |ops| && Reports(ops[i], inc)
  }

  lemma ReportedLater(ops: seq<Op>, op: Op, was: Incident, inc: Incident)
    requires ReportedIn(ops, was) && SameReport(inc, was)
    ensures ReportedIn(ops + [op], inc)
  {
    var i :| 0 <= i < |ops| && Reports(ops[i], was);
    assert (ops + [op])[i] == ops[i];
  }

  lemma ReportedNow(ops: seq<Op>, op: Op, inc: Incident)
    requires Reports(op, inc)
    ensures ReportedIn(ops + [op], inc)
  {
    assert (ops + [op])[|ops|] == op;
  }

  /** Over every run from the empty store, colliding identifiers included, each stored incident has key,
      root cause, severity, affected hosts, confidence, breach time and action of a candidate the run
      upserted, and was created when it did. */
  lemma {:induction false} RunContent(ops: seq<Op>, hash: Hash, id: string)
    requires id in Run(EMPTY, ops, hash).incidents
    ensures ReportedIn(ops, Run(EMPTY, ops, hash).incidents[id])
  {
    if ops != [] {
      var front, op := ops[..|ops| - 1], ops[|ops| - 1];
      var s, inc := Run(EMPTY, front, hash), Run(EMPTY, ops, hash).incidents[id];
      FrontAndLast(ops);
      StepContent(s, op, hash, id);
      if Reports(op, inc) {
        ReportedNow(front, op, inc);
      } else {
        RunContent(front, hash, id);
        ReportedLater(front, op, s.incidents[id], inc);
      }
    }
  }

  // ----- batches -----

  /** The first candidate of the incident's key is the one it reports. */
  ghost predicate ReportsFirst(cs: seq<Candidate>, now: Instant, inc: Incident) {
    exists k :: 0 <= k < |cs| && Carries(inc, cs[k], now) && forall j :: 0 <= j < k ==> cs[j].key != inc.key
  }

  /** What a batch may have made of the incidents: none is changed but by being created anew, and a
      created one reports the first candidate with its key. */
  ghost predicate BatchContent(s: State, cs: seq<Candidate>, now: Instant, t: State) {
    && (forall id :: id in s.incidents ==> id in t.incidents)
    && (forall id :: id in t.incidents ==>
          (id in s.incidents && t.incidents[id] == s.incidents[id])
          || (ReportsFirst(cs, now, t.incidents[id]) && t.incidents[id].status == Active && t.incidents[id].id == id))
  }

  lemma OngoingStays(s: State, c: Candidate, now: Instant, hash: Hash, key: string)
    requires Ongoing(s, key).Some?
    ensures Ongoing(Upsert(s, c, now, hash).state, key).Some?
  {
  }

  lemma OngoingAfterUpsert(s: State, c: Candidate, now: Instant, hash: Hash)
    ensures Ongoing(Upsert(s, c, now, hash).state, c.key).Some?
  {
  }

  /** The keys of a batch that has been applied are ongoing. */
  ghost predicate AllOngoing(s: State, cs: seq<Candidate>) {
    forall j :: 0 <= j < |cs| ==> Ongoing(s, cs[j].key).Some?
  }

  lemma AllOngoingNext(s: State, cs: seq<Candidate>, c: Candidate, now: Instant, hash: Hash)
    requires AllOngoing(s, cs)
    ensures AllOngoing(Upsert(s, c, now, hash).state, cs + [c])
  {
    OngoingAfterUpsert(s, c, now, hash);
    forall j | 0 <= j < |cs| + 1 ensures Ongoing(Upsert(s, c, now, hash).state, (cs + [c])[j].key).Some? {
      if j < |cs| {
        OngoingStays(s, c, now, hash, cs[j].key);
      }
    }
  }

  lemma FirstLater(cs: seq<Candidate>, c: Candidate, now: Instant, inc: Incident)
    requires ReportsFirst(cs, now, inc)
    ensures ReportsFirst(cs + [c], now, inc)
  {
    var k :| 0 <= k < |cs| && Carries(inc, cs[k], now) && forall j :: 0 <= j < k ==> cs[j].key != inc.key;
    assert (cs + [c])[k] == cs[k] && forall j :: 0 <= j < k ==> (cs + [c])[j] == cs[j];
  }

  lemma FirstNow(s: State, cs: seq<Candidate>, c: Candidate, now: Instant, inc: Incident)
    requires AllOngoing(s, cs) && Ongoing(s, c.key).None? && Carries(inc, c, now)
    ensures ReportsFirst(cs + [c], now, inc)
  {
    assert (cs + [c])[|cs|] == c && forall j :: 0 <= j < |cs| ==> (cs + [c])[j] == cs[j];
  }

  lemma UpsertContent(s: State, mid: State, cs: seq<Candidate>, c: Candidate, now: Instant, hash: Hash)
    requires BatchContent(s, cs, now, mid) && AllOngoing(mid, cs)
    ensures BatchContent(s, cs + [c], now, Upsert(mid, c, now, hash).state)
  {
    var t := Upsert(mid, c, now, hash).state;
    forall id | id in t.incidents
      ensures (id in s.incidents && t.incidents[id] == s.incidents[id])
              || (ReportsFirst(cs + [c], now, t.incidents[id]) && t.incidents[id].status == Active && t.incidents[id].id == id)
    {
      if Ongoing(mid, c.key).None? && id == NewOccurrence(mid, c, now, hash).id {
        FirstNow(mid, cs, c, now, t.incidents[id]);
      } else if ReportsFirst(cs, now, mid.incidents[id]) {
        FirstLater(cs, c, now, mid.incidents[id]);
      }
    }
  }

  /** What an ingest creates reports, field by field, the first of its candidates with that key. */
  lemma {:induction false} BatchReports(s: State, ws: seq<Work>, cs: seq<Candidate>, now: Instant, hash: Hash)
    requires IsBatch(ws, cs, now)
    ensures BatchContent(s, cs, now, Process(s, ws, hash)) && AllOngoing(Process(s, ws, hash), cs)
  {
    if ws != [] {
      var front, c := cs[..|cs| - 1], cs[|cs| - 1];
      BatchReports(s, ws[..|ws| - 1], front, now, hash);
      var mid := Process(s, ws[..|ws| - 1], hash);
      FrontAndLast(cs);
      UpsertContent(s, mid, front, c, now, hash);
      AllOngoingNext(mid, front, c, now, hash);
    }
  }

  // ----- keys -----

  /** The key spells the root cause and the first affected host. */
  predicate Named(inc: Incident) {
    inc.affected != [] && inc.key == inc.rootCause + ":" + inc.affected[0]
  }

  /** A candidate some batch gives rise to. */
  ghost predicate Correlated(texts: Correlation.RuleTexts, c: Candidate) {
    exists devices :: c in Correlation.Candidates(texts, devices, ByHost(devices))
  }

  ghost predicate AllCorrelated(texts: Correlation.RuleTexts, ops: seq<Op>) {
    forall op :: op in ops && op.UpsertOp? ==> Correlated(texts, op.candidate)
  }

  /** Over every run of correlated candidates and decisions, the key of each stored incident is its root
      cause, a colon and its first affected host. */
  lemma KeysNameIncidents(a: Sentences, ops: seq<Op>, hash: Hash, id: string)
    requires AllCorrelated(Correlation.ProgramTexts(a), ops) && id in Run(EMPTY, ops, hash).incidents
    ensures Named(Run(EMPTY, ops, hash).incidents[id])
  {
    var texts := Correlation.ProgramTexts(a);
    Correlation.RootCausesHaveNoColon(a);
    RunContent(ops, hash, id);
    var inc := Run(EMPTY, ops, hash).incidents[id];
    var i :| 0 <= i < |ops| && Reports(ops[i], inc);
    assert ops[i] in ops;
    var devices :| ops[i].candidate in Correlation.Candidates(texts, devices, ByHost(devices));
    var d := Correlation.CandidateOrigin(texts, devices, ByHost(devices), ops[i].candidate);
  }
}
