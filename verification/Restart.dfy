/** A store rebuilt from its tables behaves like the one that went on living: bisimulation up
    to timestamps cut to the second. */
module Restart {
  import opened Sequences
  import opened Rfc3339
  import opened Incidents
  import opened IncidentStore
  import opened Lifecycle
  import opened IncidentTables
  import opened WriteThrough
  import opened WriteOrder
  import opened StableSort

  /** What a caller sees of one operation. */
  datatype Outcome =
    | Upserted(id: string, key: string, sequence: nat, status: Status, created: bool)
    | Recorded(id: string, status: Status, wasActive: bool)
    | Unknown

  function OutcomeOf(s: State, op: Op, hash: Hash): Outcome {
    match op
    case UpsertOp(c, now) =>
      var r := Upsert(s, c, now, hash);
      Upserted(r.incident.id, r.incident.key, r.incident.sequence, r.incident.status, r.created)
    case DecideOp(id, status, actor, now) =>
      var r := Decide(s, id, status, actor, now);
      if r.NotFound? then Unknown else Recorded(r.incident.id, r.incident.status, r.wasActive)
  }

  function Outcomes(s: State, ops: seq<Op>, hash: Hash): seq<Outcome> {
    if ops == [] then []
    else
      var front := ops[..|ops| - 1];
      Outcomes(s, front, hash) + [OutcomeOf(Run(s, front, hash), ops[|ops| - 1], hash)]
  }

  /** Equal when timestamps are cut to the second. */
  ghost predicate Alike(s: State, t: State) {
    TruncState(s) == TruncState(t)
  }

  lemma AlikeFacts(s: State, t: State)
    requires Alike(s, t)
    ensures s.byOccurrence == t.byOccurrence
    ensures forall id :: id in s.incidents <==> id in t.incidents
    ensures forall id :: id in s.incidents ==> TruncIncident(s.incidents[id]) == TruncIncident(t.incidents[id])
    ensures forall id :: Map(TruncDecision, TrailOf(s, id)) == Map(TruncDecision, TrailOf(t, id))
  {
    var a, b := TruncState(s), TruncState(t);
    forall id ensures id in s.incidents <==> id in t.incidents
      ensures id in s.incidents ==> TruncIncident(s.incidents[id]) == TruncIncident(t.incidents[id])
    {
      assert id in a.incidents <==> id in b.incidents;
    }
    forall id ensures Map(TruncDecision, TrailOf(s, id)) == Map(TruncDecision, TrailOf(t, id)) {
      assert id in a.decisions <==> id in b.decisions;
    }
  }

  lemma OngoingAlike(s: State, t: State, key: string)
    requires Alike(s, t)
    ensures HistoryOf(s, key) == HistoryOf(t, key)
    ensures Ongoing(s, key).Some? <==> Ongoing(t, key).Some?
    ensures Ongoing(s, key).Some? ==> TruncIncident(Ongoing(s, key).value) == TruncIncident(Ongoing(t, key).value)
  {
    AlikeFacts(s, t);
    assert forall id :: id in s.incidents ==> TruncIncident(s.incidents[id]).status == s.incidents[id].status;
  }

  lemma UpsertAlike(s: State, t: State, c: Candidate, now: Instant, hash: Hash)
    requires Alike(s, t)
    ensures OutcomeOf(s, UpsertOp(c, now), hash) == OutcomeOf(t, UpsertOp(c, now), hash)
    ensures Alike(Upsert(s, c, now, hash).state, Upsert(t, c, now, hash).state)
  {
    OngoingAlike(s, t, c.key);
    var inc := NewOccurrence(s, c, now, hash);
    assert inc == NewOccurrence(t, c, now, hash);
    TruncApply(s, InsertIncident(inc));
    TruncApply(t, InsertIncident(inc));
  }

  lemma DecideAlike(s: State, t: State, id: string, status: Status, actor: string, now: Instant, hash: Hash)
    requires Alike(s, t)
    ensures OutcomeOf(s, DecideOp(id, status, actor, now), hash) == OutcomeOf(t, DecideOp(id, status, actor, now), hash)
    ensures Alike(Step(s, DecideOp(id, status, actor, now), hash), Step(t, DecideOp(id, status, actor, now), hash))
  {
    AlikeFacts(s, t);
    if id in s.incidents {
      assert TruncIncident(s.incidents[id]).status == s.incidents[id].status;
      assert TruncIncident(s.incidents[id]).id == s.incidents[id].id == t.incidents[id].id;
      var w := RecordDecision(s.incidents[id].(id := id, status := status, updatedAt := now), actor);
      TruncApply(s, w);
      TruncApply(t, w);
    }
  }

  /** The two stores answer every later sequence of operations alike: same created flags,
      identifiers, sequence numbers and wasActive values, and alike states again. */
  lemma {:induction false} AlikeForever(s: State, t: State, ops: seq<Op>, hash: Hash)
    requires Alike(s, t)
    ensures Outcomes(s, ops, hash) == Outcomes(t, ops, hash)
    ensures Alike(Run(s, ops, hash), Run(t, ops, hash))
  {
    if ops != [] {
      var front := ops[..|ops| - 1];
      AlikeForever(s, t, front, hash);
      var a, b := Run(s, front, hash), Run(t, front, hash);
      match ops[|ops| - 1]
      case UpsertOp(c, now) => UpsertAlike(a, b, c, now, hash);
      case DecideOp(id, status, actor, now) => DecideAlike(a, b, id, status, actor, now, hash);
    }
  }

  lemma {:induction false} TruncStateIdempotent(s: State)
    ensures TruncState(TruncState(s)) == TruncState(s)
  {
    var t := TruncState(s);
    forall id | id in t.incidents ensures TruncIncident(t.incidents[id]) == t.incidents[id] {
      TruncIdempotent(s.incidents[id].createdAt);
      TruncIdempotent(s.incidents[id].updatedAt);
    }
    forall id | id in t.decisions ensures Map(TruncDecision, t.decisions[id]) == t.decisions[id] {
      forall i | 0 <= i < |t.decisions[id]| ensures TruncDecision(t.decisions[id][i]) == t.decisions[id][i] {
        TruncIdempotent(s.decisions[id][i].decidedAt);
      }
    }
    assert TruncState(t).incidents == t.incidents;
    assert TruncState(t).decisions == t.decisions;
  }

  /** Restarting at any quiescent moment of any run is invisible to every later caller. */
  lemma RestartBisimulation(run: seq<System>, events: seq<Event>, hash: Hash, i: nat, ops: seq<Op>)
    requires IsRun(run, events, hash) && i <= |events| && run[i].pending == []
    ensures var live, rebuilt := run[i].memory, Rebuild(run[i].tables);
            && rebuilt.Some?
            && Outcomes(live, ops, hash) == Outcomes(rebuilt.value, ops, hash)
            && Alike(Run(live, ops, hash), Run(rebuilt.value, ops, hash))
  {
    QuiescentAgreement(run, events, hash, i);
    TruncStateIdempotent(run[i].memory);
    AlikeForever(run[i].memory, Rebuild(run[i].tables).value, ops, hash);
  }

  function EncodeTrail(trail: seq<Decision>): (rows: seq<DecisionRow>)
    ensures |rows| == |trail| && forall i :: 0 <= i < |rows| ==> rows[i] == EncodeDecision(trail[i])
  {
    Map(EncodeDecision, trail)
  }

  lemma EncodedOrder(trail: seq<Decision>)
    ensures Sorted(DecisionBefore, EncodeTrail(trail)) <==> Ordered(trail)
  {
    var rows := EncodeTrail(trail);
    forall i, j | 0 <= i < j < |trail|
      ensures DecisionBefore(rows[j], rows[i]) <==> SecondsOf(trail[j].decidedAt) < SecondsOf(trail[i].decidedAt)
    {
      TextOrderIsChronological(trail[j].decidedAt, trail[i].decidedAt);
    }
  }

  lemma ReadTrail(trail: seq<Decision>)
    ensures Map(ReadDecision, EncodeTrail(trail)) == Map(TruncDecision, trail)
  {
    forall i | 0 <= i < |trail| ensures ReadDecision(EncodeDecision(trail[i])) == TruncDecision(trail[i]) {
      DecisionRoundTrip(trail[i]);
    }
  }

  /** Every row of a trail, also of a sorted one, encodes what it reads as. */
  lemma TrailEncoded(trail: seq<Decision>, r: DecisionRow)
    requires r in EncodeTrail(trail)
    ensures r == EncodeDecision(ReadDecision(r))
  {
    var i :| 0 <= i < |trail| && r == EncodeDecision(trail[i]);
    DecisionRoundTrip(trail[i]);
    FormatTrunc(trail[i].decidedAt);
  }

  lemma SortedReadsOrdered(trail: seq<Decision>)
    ensures Ordered(Map(ReadDecision, Sort(DecisionBefore, EncodeTrail(trail))))
  {
    var sorted := Sort(DecisionBefore, EncodeTrail(trail));
    DecisionBeforeIsWeakOrder();
    SortSorted(DecisionBefore, EncodeTrail(trail));
    SortMembers(DecisionBefore, EncodeTrail(trail));
    forall i, j | 0 <= i < j < |sorted|
      ensures SecondsOf(ReadDecision(sorted[i]).decidedAt) <= SecondsOf(ReadDecision(sorted[j]).decidedAt)
    {
      TrailEncoded(trail, sorted[i]);
      TrailEncoded(trail, sorted[j]);
      NotBeforeIsNotEarlier(sorted[j], sorted[i]);
    }
  }

  lemma OrderedTrunc(trail: seq<Decision>)
    requires Ordered(Map(TruncDecision, trail))
    ensures Ordered(trail)
  {
    forall i, j | 0 <= i < j < |trail| ensures SecondsOf(trail[i].decidedAt) <= SecondsOf(trail[j].decidedAt) {
      assert SecondsOf(TruncDecision(trail[i]).decidedAt) <= SecondsOf(TruncDecision(trail[j]).decidedAt);
    }
  }

  /** A restart gives an incident its recorded trail, cut to seconds, exactly when the decisions
      were recorded in non-decreasing seconds: without that ORDER BY decided_at returns the
      audit trail in another order. */
  lemma TrailOrderMatters(db: Tables, id: string, trail: seq<Decision>)
    requires Rebuild(db).Some? && Filter(About(id), db.decisions) == EncodeTrail(trail)
    ensures TrailOf(Rebuild(db).value, id) == Map(TruncDecision, trail) <==> Ordered(trail)
  {
    var rows := EncodeTrail(trail);
    DecisionBeforeIsWeakOrder();
    FilterSort(DecisionBefore, About(id), db.decisions);
    RebuiltTrail(db, id, Sort(DecisionBefore, rows));
    if Ordered(trail) {
      EncodedOrder(trail);
      SortFixpoint(DecisionBefore, rows);
      ReadTrail(trail);
    } else {
      SortedReadsOrdered(trail);
      if Map(ReadDecision, Sort(DecisionBefore, rows)) == Map(TruncDecision, trail) {
        OrderedTrunc(trail);
      }
    }
  }
}
