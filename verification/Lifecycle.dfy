/** What every run of upserts and decisions keeps: the occurrence histories are dense, all but
    the last occurrence of a key is closed, and the audit trail determines the status. */
module Lifecycle {
  import opened Sequences
  import opened Rfc3339
  import opened Incidents
  import opened IncidentStore

  /** An incident stands in the history of its key at the position its sequence number says. */
  ghost predicate Placed(s: State, id: string)
    requires id in s.incidents
  {
    var inc := s.incidents[id];
    inc.id == id && 1 <= inc.sequence <= |HistoryOf(s, inc.key)| && HistoryOf(s, inc.key)[inc.sequence - 1] == id
  }

  /** Position `i` of a key's history holds that key's occurrence number i + 1. */
  ghost predicate Dense(s: State, k: string, i: nat)
    requires i < |HistoryOf(s, k)|
  {
    var id := HistoryOf(s, k)[i];
    id in s.incidents && s.incidents[id].key == k && s.incidents[id].sequence == i + 1
  }

  /** Histories and incidents describe each other, position by position. */
  ghost predicate Linked(s: State) {
    && (forall id :: id in s.incidents ==> Placed(s, id))
    && (forall k, i: nat :: i < |HistoryOf(s, k)| ==> Dense(s, k, i))
    && (forall k :: k in s.byOccurrence ==> s.byOccurrence[k] != [])
  }

  /** Only the last occurrence of a key may be active. */
  ghost predicate EarlierClosed(s: State) {
    forall k, i: nat :: i < |HistoryOf(s, k)| - 1 ==> !IsActive(s, HistoryOf(s, k)[i])
  }

  /** An incident is active exactly while its trail is empty; afterwards the last decision
      gives its status and update time. */
  ghost predicate AuditedAt(s: State, id: string)
    requires id in s.incidents
  {
    var inc, trail := s.incidents[id], TrailOf(s, id);
    if trail == [] then inc.status == Active && inc.updatedAt == inc.createdAt
    else
      && inc.status == trail[|trail| - 1].status && inc.updatedAt == trail[|trail| - 1].decidedAt
      && forall i :: 0 <= i < |trail| ==> trail[i].incidentId == id && trail[i].status != Active
  }

  ghost predicate Audited(s: State) {
    && (forall id :: id in s.decisions ==> id in s.incidents && s.decisions[id] != [])
    && (forall id :: id in s.incidents ==> AuditedAt(s, id))
  }

  ghost predicate Inv(s: State) {
    Linked(s) && EarlierClosed(s) && Audited(s)
  }

  /** Nothing recorded is ever lost or rewritten: identity, key, sequence, severity and
      creation data of an incident are fixed, histories and trails only grow at the end. */
  ghost predicate Kept(s: State, t: State, id: string)
    requires id in s.incidents
  {
    && id in t.incidents
    && t.incidents[id].(status := s.incidents[id].status, updatedAt := s.incidents[id].updatedAt) == s.incidents[id]
  }

  ghost predicate Extends(s: State, t: State) {
    && (forall id :: id in s.incidents ==> Kept(s, t, id))
    && (forall k :: HistoryOf(s, k) <= HistoryOf(t, k))
    && (forall id :: TrailOf(s, id) <= TrailOf(t, id))
  }

  lemma ExtendsTransitive(s: State, t: State, u: State)
    requires Extends(s, t) && Extends(t, u)
    ensures Extends(s, u)
  {
    forall id | id in s.incidents ensures Kept(s, u, id) {
      assert Kept(s, t, id) && Kept(t, u, id);
    }
    forall k ensures HistoryOf(s, k) <= HistoryOf(u, k) {
      assert HistoryOf(s, k) <= HistoryOf(t, k) <= HistoryOf(u, k);
    }
    forall id ensures TrailOf(s, id) <= TrailOf(u, id) {
      assert TrailOf(s, id) <= TrailOf(t, id) <= TrailOf(u, id);
    }
  }

  // ----- single steps -----

  /** The incident that the next occurrence of a key may be. */
  ghost predicate Next(s: State, inc: Incident) {
    && inc.id !in s.incidents && inc.sequence == |HistoryOf(s, inc.key)| + 1
    && inc.status == Active && inc.updatedAt == inc.createdAt && Ongoing(s, inc.key) == None
  }

  lemma AddKeepsLinked(s: State, inc: Incident)
    requires Linked(s) && Next(s, inc)
    ensures Linked(AddIncident(s, inc))
  {
    var t := AddIncident(s, inc);
    forall id | id in t.incidents ensures Placed(t, id) {
      if id != inc.id {
        assert Placed(s, id);
      }
    }
    forall k, i: nat | i < |HistoryOf(t, k)| ensures Dense(t, k, i) {
      if i < |HistoryOf(s, k)| {
        assert Dense(s, k, i);
      }
    }
  }

  lemma AddKeepsEarlierClosed(s: State, inc: Incident)
    requires Linked(s) && EarlierClosed(s) && Next(s, inc)
    ensures EarlierClosed(AddIncident(s, inc))
  {
    var t := AddIncident(s, inc);
    forall k, i: nat | i < |HistoryOf(t, k)| - 1 ensures !IsActive(t, HistoryOf(t, k)[i]) {
      assert Dense(s, k, i);
    }
  }

  lemma AddKeepsAudited(s: State, inc: Incident)
    requires Audited(s) && Next(s, inc)
    ensures Audited(AddIncident(s, inc))
  {
    var t := AddIncident(s, inc);
    assert inc.id !in s.decisions;
    forall id | id in t.incidents ensures AuditedAt(t, id) {
      if id != inc.id {
        assert AuditedAt(s, id);
      }
    }
  }

  lemma AddExtends(s: State, inc: Incident)
    requires inc.id !in s.incidents
    ensures Extends(s, AddIncident(s, inc))
  {
  }

  lemma AddKeepsInv(s: State, inc: Incident)
    requires Inv(s) && Next(s, inc)
    ensures Inv(AddIncident(s, inc)) && Extends(s, AddIncident(s, inc))
  {
    AddExtends(s, inc);
    AddKeepsLinked(s, inc);
    AddKeepsEarlierClosed(s, inc);
    AddKeepsAudited(s, inc);
  }

  /** Adding an incident under an identifier already in use breaks the links. */
  lemma CollisionBreaksLinks(s: State, inc: Incident)
    requires Inv(s) && inc.id in s.incidents && inc.sequence == |HistoryOf(s, inc.key)| + 1
    ensures !Linked(AddIncident(s, inc))
  {
    var t, old' := AddIncident(s, inc), s.incidents[inc.id];
    assert Placed(s, inc.id);
    assert HistoryOf(t, old'.key)[old'.sequence - 1] == inc.id;
    assert !Dense(t, old'.key, old'.sequence - 1);
  }

  /** An upsert keeps the invariant exactly when it creates nothing or its new identifier is
      not in use, that is, no stored incident has both its sequence number and its digest. */
  lemma UpsertKeepsInv(s: State, c: Candidate, now: Instant, hash: Hash)
    requires Inv(s)
    ensures var r := Upsert(s, c, now, hash);
            && (Inv(r.state) <==> !r.created || r.incident.id !in s.incidents)
            && (Inv(r.state) ==> Extends(s, r.state))
            && r.created == (Ongoing(s, c.key) == None)
  {
    var r := Upsert(s, c, now, hash);
    if r.created {
      if r.incident.id in s.incidents {
        CollisionBreaksLinks(s, r.incident);
      } else {
        AddKeepsInv(s, r.incident);
      }
    }
  }

  lemma DecisionKeepsLinked(s: State, id: string, status: Status, actor: string, at: Instant)
    requires Linked(s) && id in s.incidents
    ensures Linked(AddDecision(s, id, status, actor, at))
  {
    var t := AddDecision(s, id, status, actor, at);
    forall x | x in t.incidents ensures Placed(t, x) {
      assert Placed(s, x);
    }
    forall k, i: nat | i < |HistoryOf(t, k)| ensures Dense(t, k, i) {
      assert Dense(s, k, i);
    }
  }

  lemma DecisionAudits(s: State, id: string, status: Status, actor: string, at: Instant, x: string)
    requires Audited(s) && id in s.incidents && status != Active && x in s.incidents
    ensures AuditedAt(AddDecision(s, id, status, actor, at), x)
  {
    assert AuditedAt(s, x);
  }

  lemma DecisionKeepsAudited(s: State, id: string, status: Status, actor: string, at: Instant)
    requires Audited(s) && id in s.incidents && status != Active
    ensures Audited(AddDecision(s, id, status, actor, at))
  {
    forall x | x in s.incidents ensures AuditedAt(AddDecision(s, id, status, actor, at), x) {
      DecisionAudits(s, id, status, actor, at, x);
    }
  }

  lemma DecisionKeepsEarlierClosed(s: State, id: string, status: Status, actor: string, at: Instant)
    requires EarlierClosed(s) && id in s.incidents && status != Active
    ensures EarlierClosed(AddDecision(s, id, status, actor, at))
  {
    var t := AddDecision(s, id, status, actor, at);
    forall k, i: nat | i < |HistoryOf(t, k)| - 1 ensures !IsActive(t, HistoryOf(t, k)[i]) {
      assert !IsActive(s, HistoryOf(s, k)[i]);
    }
  }

  lemma DecisionExtends(s: State, id: string, status: Status, actor: string, at: Instant)
    requires id in s.incidents
    ensures Extends(s, AddDecision(s, id, status, actor, at))
  {
  }

  lemma DecisionKeepsInv(s: State, id: string, status: Status, actor: string, at: Instant)
    requires Inv(s) && id in s.incidents && status != Active
    ensures Inv(AddDecision(s, id, status, actor, at)) && Extends(s, AddDecision(s, id, status, actor, at))
  {
    DecisionKeepsLinked(s, id, status, actor, at);
    DecisionKeepsAudited(s, id, status, actor, at);
    DecisionKeepsEarlierClosed(s, id, status, actor, at);
    DecisionExtends(s, id, status, actor, at);
  }

  /** A decision keeps the invariant exactly when it is not a decision back to active, which
      the request handler refuses; and it reports `wasActive` exactly when it is the first. */
  lemma DecideKeepsInv(s: State, id: string, status: Status, actor: string, now: Instant)
    requires Inv(s) && id in s.incidents
    ensures var r := Decide(s, id, status, actor, now);
            && r.Decided?
            && (Inv(r.state) <==> status != Active)
            && (status != Active ==> Extends(s, r.state))
            && (r.wasActive <==> TrailOf(s, id) == [])
  {
    if status != Active {
      DecisionKeepsInv(s, id, status, actor, now);
    } else {
      var t := AddDecision(s, id, status, actor, now);
      assert !AuditedAt(t, id);
    }
  }

  // ----- runs -----

  datatype Op =
    | UpsertOp(candidate: Candidate, now: Instant)
    | DecideOp(id: string, status: Status, actor: string, now: Instant)

  function Step(s: State, op: Op, hash: Hash): State {
    match op
    case UpsertOp(c, now) => Upsert(s, c, now, hash).state
    case DecideOp(id, status, actor, now) =>
      var r := Decide(s, id, status, actor, now);
      if r.Decided? then r.state else s
  }

  function Run(s: State, ops: seq<Op>, hash: Hash): State {
    if ops == [] then s else Step(Run(s, ops[..|ops| - 1], hash), ops[|ops| - 1], hash)
  }

  /** The two things a caller can check before a step: a decision names a closed status (or an
      unknown incident), and a created identifier is unused. */
  predicate Sound(s: State, op: Op, hash: Hash) {
    match op
    case UpsertOp(c, now) => Ongoing(s, c.key) != None || NewOccurrence(s, c, now, hash).id !in s.incidents
    case DecideOp(id, status, actor, now) => id !in s.incidents || status != Active
  }

  predicate SoundRun(s: State, ops: seq<Op>, hash: Hash) {
    ops != [] ==>
      var front := ops[..|ops| - 1];
      SoundRun(s, front, hash) && Sound(Run(s, front, hash), ops[|ops| - 1], hash)
  }

  lemma StepKeepsInv(s: State, op: Op, hash: Hash)
    requires Inv(s)
    ensures Inv(Step(s, op, hash)) <==> Sound(s, op, hash)
    ensures Sound(s, op, hash) ==> Extends(s, Step(s, op, hash))
  {
    match op
    case UpsertOp(c, now) => UpsertKeepsInv(s, c, now, hash);
    case DecideOp(id, status, actor, now) =>
      if id in s.incidents {
        DecideKeepsInv(s, id, status, actor, now);
      }
  }

  lemma {:induction false} SoundRunKeepsInv(s: State, ops: seq<Op>, hash: Hash)
    requires Inv(s) && SoundRun(s, ops, hash)
    ensures Inv(Run(s, ops, hash)) && Extends(s, Run(s, ops, hash))
  {
    if ops != [] {
      var front := ops[..|ops| - 1];
      SoundRunKeepsInv(s, front, hash);
      StepKeepsInv(Run(s, front, hash), ops[|ops| - 1], hash);
      ExtendsTransitive(s, Run(s, front, hash), Run(s, ops, hash));
    }
  }

  /** Every state along a run is consistent. */
  ghost predicate AlwaysInv(s: State, ops: seq<Op>, hash: Hash) {
    Inv(Run(s, ops, hash)) && (ops != [] ==> AlwaysInv(s, ops[..|ops| - 1], hash))
  }

  /** Over any run from a consistent store, every state along the way is consistent exactly
      when every step is sound; and then the run only ever adds. */
  lemma {:induction false} RunKeepsInv(s: State, ops: seq<Op>, hash: Hash)
    requires Inv(s)
    ensures SoundRun(s, ops, hash) <==> AlwaysInv(s, ops, hash)
    ensures SoundRun(s, ops, hash) ==> Extends(s, Run(s, ops, hash))
  {
    if SoundRun(s, ops, hash) {
      SoundRunKeepsInv(s, ops, hash);
    }
    if ops != [] {
      var front := ops[..|ops| - 1];
      RunKeepsInv(s, front, hash);
      if AlwaysInv(s, front, hash) {
        StepKeepsInv(Run(s, front, hash), ops[|ops| - 1], hash);
      }
    }
  }

  lemma EmptyInv()
    ensures Inv(EMPTY)
  {
  }

  /** In a consistent store a key has at most one active occurrence, and it is the last. */
  lemma AtMostOneActive(s: State, a: string, b: string)
    requires Inv(s) && IsActive(s, a) && IsActive(s, b) && s.incidents[a].key == s.incidents[b].key
    ensures a == b
    ensures Ongoing(s, s.incidents[a].key) == Some(s.incidents[a])
  {
    var h := HistoryOf(s, s.incidents[a].key);
    assert Placed(s, a) && Placed(s, b);
    var i, j := s.incidents[a].sequence - 1, s.incidents[b].sequence - 1;
    assert h[i] == a && h[j] == b;
  }

  /** Every stored identifier was generated for its own key and sequence number. */
  ghost predicate Generated(s: State, hash: Hash) {
    forall id :: id in s.incidents ==>
      exists at: Instant :: id == NewIncidentId(hash, s.incidents[id].key, s.incidents[id].sequence, at)
  }

  lemma StepKeepsGenerated(s: State, op: Op, hash: Hash)
    requires Generated(s, hash)
    ensures Generated(Step(s, op, hash), hash)
  {
    var t := Step(s, op, hash);
    forall id | id in t.incidents
      ensures exists at: Instant :: id == NewIncidentId(hash, t.incidents[id].key, t.incidents[id].sequence, at)
    {
      if op.UpsertOp? && Ongoing(s, op.candidate.key) == None && id == NewOccurrence(s, op.candidate, op.now, hash).id {
        assert id == NewIncidentId(hash, t.incidents[id].key, t.incidents[id].sequence, op.now);
      } else {
        var at: Instant :| id == NewIncidentId(hash, s.incidents[id].key, s.incidents[id].sequence, at);
        assert id == NewIncidentId(hash, t.incidents[id].key, t.incidents[id].sequence, at);
      }
    }
  }

  /** The occurrences of one key are numbered apart, so a recurrence can only collide with an
      incident of another key that has the same sequence number and the same digest. */
  lemma CollisionIsAcrossKeys(s: State, c: Candidate, now: Instant, hash: Hash)
    requires Inv(s) && Generated(s, hash) && NewOccurrence(s, c, now, hash).id in s.incidents
    ensures var clash := s.incidents[NewOccurrence(s, c, now, hash).id];
            clash.key != c.key && clash.sequence == |HistoryOf(s, c.key)| + 1
  {
    var id, n := NewOccurrence(s, c, now, hash).id, |HistoryOf(s, c.key)| + 1;
    var clash := s.incidents[id];
    var at: Instant :| id == NewIncidentId(hash, clash.key, clash.sequence, at);
    IdsEqual(hash, c.key, n, now, clash.key, clash.sequence, at);
    assert Placed(s, id);
  }
}
