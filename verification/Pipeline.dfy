/** The request pipeline over the incident store (internal/api/handlers.go): the effect of one
    correlated batch, and the metrics as functions of the incident state. */
module Pipeline {
  import opened Sequences
  import opened Rfc3339
  import opened Incidents
  import opened IncidentStore
  import opened Lifecycle

  // ----- one batch -----

  function ApplyBatch(s: State, cs: seq<Candidate>, now: Instant, hash: Hash): State {
    if cs == [] then s
    else Upsert(ApplyBatch(s, cs[..|cs| - 1], now, hash), cs[|cs| - 1], now, hash).state
  }

  function CreatedIn(s: State, cs: seq<Candidate>, now: Instant, hash: Hash): nat {
    if cs == [] then 0
    else
      var front := cs[..|cs| - 1];
      CreatedIn(s, front, now, hash)
      + (if Upsert(ApplyBatch(s, front, now, hash), cs[|cs| - 1], now, hash).created then 1 else 0)
  }

  /** Every identifier the batch creates is unused when it is created. */
  predicate FreshBatch(s: State, cs: seq<Candidate>, now: Instant, hash: Hash) {
    cs != [] ==>
      var front := cs[..|cs| - 1];
      FreshBatch(s, front, now, hash)
      && Sound(ApplyBatch(s, front, now, hash), UpsertOp(cs[|cs| - 1], now), hash)
  }

  function Keys(cs: seq<Candidate>): set<string> {
    set c | c in cs :: c.key
  }

  /** The keys of the batch that have no active occurrence before it. */
  function Silent(s: State, cs: seq<Candidate>): set<string> {
    set k | k in Keys(cs) && Ongoing(s, k) == None
  }

  lemma OngoingAfterAdd(s: State, inc: Incident, key: string)
    requires Linked(s) && inc.id !in s.incidents && inc.status == Active
    ensures key == inc.key ==> Ongoing(AddIncident(s, inc), key) == Some(inc)
    ensures key != inc.key ==> HistoryOf(AddIncident(s, inc), key) == HistoryOf(s, key)
                               && Ongoing(AddIncident(s, inc), key) == Ongoing(s, key)
  {
    var h := HistoryOf(s, key);
    if h != [] {
      assert Dense(s, key, |h| - 1);
    }
  }

  lemma UpsertOngoing(s: State, c: Candidate, now: Instant, hash: Hash, key: string)
    requires Inv(s) && Sound(s, UpsertOp(c, now), hash)
    ensures var t := Upsert(s, c, now, hash).state;
            && (Ongoing(t, key) == None <==> key != c.key && Ongoing(s, key) == None)
            && (key != c.key ==> HistoryOf(t, key) == HistoryOf(s, key) && Ongoing(t, key) == Ongoing(s, key))
            && t.decisions == s.decisions
            && forall id :: id in s.incidents ==> id in t.incidents && t.incidents[id] == s.incidents[id]
  {
    if Ongoing(s, c.key) == None {
      OngoingAfterAdd(s, NewOccurrence(s, c, now, hash), key);
    }
  }

  lemma KeysAppend(cs: seq<Candidate>, c: Candidate)
    ensures Keys(cs + [c]) == Keys(cs) + {c.key}
  {
    assert forall x :: x in cs + [c] <==> x in cs || x == c;
  }

  /** The key has an active occurrence exactly if it had one or is in the batch, and its
      history is untouched unless the batch woke it. */
  ghost predicate KeyDone(s: State, cs: seq<Candidate>, t: State, key: string) {
    && (Ongoing(t, key) == None <==> key !in Keys(cs) && Ongoing(s, key) == None)
    && (key !in Silent(s, cs) ==> HistoryOf(t, key) == HistoryOf(s, key))
  }

  ghost predicate BatchDone(s: State, cs: seq<Candidate>, t: State) {
    && (forall key :: KeyDone(s, cs, t, key))
    && t.decisions == s.decisions
    && (forall id :: id in s.incidents ==> id in t.incidents && t.incidents[id] == s.incidents[id])
  }

  lemma SilentAppend(s: State, cs: seq<Candidate>, c: Candidate)
    ensures Silent(s, cs + [c]) == Silent(s, cs) + (if Ongoing(s, c.key) == None then {c.key} else {})
  {
    KeysAppend(cs, c);
  }

  lemma KeyStep(s: State, cs: seq<Candidate>, c: Candidate, mid: State, now: Instant, hash: Hash, key: string)
    requires Inv(mid) && Sound(mid, UpsertOp(c, now), hash) && KeyDone(s, cs, mid, key) && KeyDone(s, cs, mid, c.key)
    ensures KeyDone(s, cs + [c], Upsert(mid, c, now, hash).state, key)
    ensures Upsert(mid, c, now, hash).created <==> c.key !in Silent(s, cs) && Ongoing(s, c.key) == None
  {
    UpsertOngoing(mid, c, now, hash, key);
    KeysAppend(cs, c);
    SilentAppend(s, cs, c);
  }

  lemma BatchStep(s: State, cs: seq<Candidate>, c: Candidate, mid: State, now: Instant, hash: Hash)
    requires Inv(mid) && Sound(mid, UpsertOp(c, now), hash) && BatchDone(s, cs, mid)
    ensures BatchDone(s, cs + [c], Upsert(mid, c, now, hash).state)
    ensures |Silent(s, cs + [c])| == |Silent(s, cs)| + if Upsert(mid, c, now, hash).created then 1 else 0
  {
    forall key ensures KeyDone(s, cs + [c], Upsert(mid, c, now, hash).state, key) {
      KeyStep(s, cs, c, mid, now, hash, key);
    }
    KeyStep(s, cs, c, mid, now, hash, c.key);
    UpsertOngoing(mid, c, now, hash, c.key);
    SilentAppend(s, cs, c);
    assert Silent(s, cs + [c]) == if Upsert(mid, c, now, hash).created then Silent(s, cs) + {c.key} else Silent(s, cs);
  }

  /** The exact effect of a batch: afterwards every candidate key has an active occurrence, a
      new one exactly where there was none, and nothing else has changed. */
  lemma {:induction false} BatchEffect(s: State, cs: seq<Candidate>, now: Instant, hash: Hash)
    requires Inv(s) && FreshBatch(s, cs, now, hash)
    ensures Inv(ApplyBatch(s, cs, now, hash))
    ensures BatchDone(s, cs, ApplyBatch(s, cs, now, hash))
    ensures CreatedIn(s, cs, now, hash) == |Silent(s, cs)|
  {
    if cs == [] {
      assert Silent(s, cs) == {};
    } else {
      var front, c := cs[..|cs| - 1], cs[|cs| - 1];
      assert cs == front + [c];
      BatchEffect(s, front, now, hash);
      var mid := ApplyBatch(s, front, now, hash);
      StepKeepsInv(mid, UpsertOp(c, now), hash);
      BatchStep(s, front, c, mid, now, hash);
    }
  }

  /** Replaying a batch, at any later time and any number of times, creates nothing. */
  lemma {:induction false} ReplayIsNoOp(t: State, cs: seq<Candidate>, now: Instant, hash: Hash)
    requires forall c :: c in cs ==> Ongoing(t, c.key) != None
    ensures ApplyBatch(t, cs, now, hash) == t && CreatedIn(t, cs, now, hash) == 0
  {
    if cs != [] {
      ReplayIsNoOp(t, cs[..|cs| - 1], now, hash);
    }
  }

  lemma BatchIsIdempotent(s: State, cs: seq<Candidate>, now: Instant, later: Instant, hash: Hash)
    requires Inv(s) && FreshBatch(s, cs, now, hash)
    ensures var t := ApplyBatch(s, cs, now, hash);
            ApplyBatch(t, cs, later, hash) == t && CreatedIn(t, cs, later, hash) == 0
  {
    BatchEffect(s, cs, now, hash);
    forall c | c in cs ensures Ongoing(ApplyBatch(s, cs, now, hash), c.key) != None {
      assert c.key in Keys(cs) && KeyDone(s, cs, ApplyBatch(s, cs, now, hash), c.key);
    }
    ReplayIsNoOp(ApplyBatch(s, cs, now, hash), cs, later, hash);
  }

  // ----- metrics -----

  /** vyomm_incidents_active and vyomm_incidents_resolved_total per severity, and
      vyomm_incidents_recurred_total. */
  datatype Metrics = Metrics(active: map<Severity, int>, resolved: map<Severity, int>, recurred: int)

  function Value(m: map<Severity, int>, sev: Severity): int {
    if sev in m then m[sev] else 0
  }

  function Added(m: map<Severity, int>, sev: Severity, n: int): map<Severity, int> {
    m[sev := Value(m, sev) + n]
  }

  /** One unit of work: a detected candidate, or a decision that passed the status check.
      `stored` says whether the database half succeeded. */
  datatype Work =
    | Detected(candidate: Candidate, now: Instant, stored: bool)
    | Ruled(id: string, status: Status, actor: string, now: Instant, stored: bool)

  function OpOf(w: Work): Op {
    match w
    case Detected(c, now, _) => UpsertOp(c, now)
    case Ruled(id, status, actor, now, _) => DecideOp(id, status, actor, now)
  }

  /** Metrics move only when the database half succeeded too. */
  function Count(s: State, m: Metrics, w: Work, hash: Hash): Metrics {
    match w
    case Detected(c, now, stored) =>
      var r := Upsert(s, c, now, hash);
      if !r.created || !stored then m
      else m.(active := Added(m.active, c.severity, 1), recurred := m.recurred + if r.incident.sequence > 1 then 1 else 0)
    case Ruled(id, status, actor, now, stored) =>
      var r := Decide(s, id, status, actor, now);
      if r.NotFound? || !stored then m
      else m.(active := if r.wasActive then Added(m.active, r.incident.severity, -1) else m.active,
              resolved := if status == Resolved then Added(m.resolved, r.incident.severity, 1) else m.resolved)
  }

  function Process(s: State, ws: seq<Work>, hash: Hash): State {
    if ws == [] then s else Step(Process(s, ws[..|ws| - 1], hash), OpOf(ws[|ws| - 1]), hash)
  }

  function CountAll(s: State, m: Metrics, ws: seq<Work>, hash: Hash): Metrics {
    if ws == [] then m
    else
      var front := ws[..|ws| - 1];
      Count(Process(s, front, hash), CountAll(s, m, front, hash), ws[|ws| - 1], hash)
  }

  /** The works of one correlated batch: its candidates in order, at one time. */
  ghost predicate IsBatch(ws: seq<Work>, cs: seq<Candidate>, now: Instant) {
    |ws| == |cs| && forall i :: 0 <= i < |ws| ==> ws[i] == Detected(cs[i], now, ws[i].stored)
  }

  /** Processing the works of a batch is applying the batch, failures or not. */
  lemma {:induction false} BatchIsProcess(s: State, ws: seq<Work>, cs: seq<Candidate>, now: Instant, hash: Hash)
    requires IsBatch(ws, cs, now)
    ensures Process(s, ws, hash) == ApplyBatch(s, cs, now, hash)
  {
    if ws != [] {
      BatchIsProcess(s, ws[..|ws| - 1], cs[..|cs| - 1], now, hash);
    }
  }

  lemma ProcessNext(s: State, m: Metrics, ws: seq<Work>, w: Work, hash: Hash)
    ensures Process(s, ws + [w], hash) == Step(Process(s, ws, hash), OpOf(w), hash)
    ensures CountAll(s, m, ws + [w], hash) == Count(Process(s, ws, hash), CountAll(s, m, ws, hash), w, hash)
  {
    assert (ws + [w])[..|ws|] == ws;
  }

  predicate SoundWork(s: State, ws: seq<Work>, hash: Hash) {
    ws != [] ==>
      var front := ws[..|ws| - 1];
      SoundWork(s, front, hash) && Sound(Process(s, front, hash), OpOf(ws[|ws| - 1]), hash)
  }

  /** No database half failed. */
  predicate AllStored(ws: seq<Work>) {
    forall w :: w in ws ==> w.stored
  }

  function ActiveIds(s: State, sev: Severity): set<string> {
    set id | id in s.incidents && s.incidents[id].status == Active && s.incidents[id].severity == sev
  }

  /** Incidents beyond the first of their key. */
  function Recurrences(s: State): set<string> {
    set id | id in s.incidents && s.incidents[id].sequence > 1
  }

  /** Entry `i` of an incident's trail resolves it, and the incident has the severity. */
  predicate Resolves(s: State, id: string, i: int, sev: Severity) {
    && 0 <= i < |TrailOf(s, id)| && TrailOf(s, id)[i].status == Resolved
    && id in s.incidents && s.incidents[id].severity == sev
  }

  /** The places in the audit trails where an incident of the severity was resolved. */
  function Resolutions(s: State, sev: Severity): set<(string, int)> {
    set id, i | id in s.decisions && 0 <= i < |s.decisions[id]| && Resolves(s, id, i, sev) :: (id, i)
  }

  /** What one step changes about the active incidents of a severity. */
  function ActiveChange(s: State, op: Op, sev: Severity, hash: Hash): int {
    match op
    case UpsertOp(c, now) => if Upsert(s, c, now, hash).created && c.severity == sev then 1 else 0
    case DecideOp(id, status, actor, now) =>
      if id in s.incidents && s.incidents[id].status == Active && s.incidents[id].severity == sev then -1 else 0
  }

  function RecurrenceChange(s: State, op: Op, hash: Hash): int {
    match op
    case UpsertOp(c, now) => if Ongoing(s, c.key) == None && HistoryOf(s, c.key) != [] then 1 else 0
    case DecideOp(_, _, _, _) => 0
  }

  function ResolutionChange(s: State, op: Op, sev: Severity): int {
    match op
    case UpsertOp(_, _) => 0
    case DecideOp(id, status, _, _) =>
      if id in s.incidents && s.incidents[id].severity == sev && status == Resolved then 1 else 0
  }

  /** The changes a run makes without the metrics noticing, because the database half failed. */
  function Unnoticed(s: State, ws: seq<Work>, sev: Severity, hash: Hash): int {
    if ws == [] then 0
    else
      var front, w := ws[..|ws| - 1], ws[|ws| - 1];
      Unnoticed(s, front, sev, hash) + (if w.stored then 0 else ActiveChange(Process(s, front, hash), OpOf(w), sev, hash))
  }

  function UnnoticedRecurrences(s: State, ws: seq<Work>, hash: Hash): int {
    if ws == [] then 0
    else
      var front, w := ws[..|ws| - 1], ws[|ws| - 1];
      UnnoticedRecurrences(s, front, hash) + (if w.stored then 0 else RecurrenceChange(Process(s, front, hash), OpOf(w), hash))
  }

  function UnnoticedResolutions(s: State, ws: seq<Work>, sev: Severity, hash: Hash): int {
    if ws == [] then 0
    else
      var front, w := ws[..|ws| - 1], ws[|ws| - 1];
      UnnoticedResolutions(s, front, sev, hash)
      + (if w.stored then 0 else ResolutionChange(Process(s, front, hash), OpOf(w), sev))
  }

  lemma ActiveAfterAdd(s: State, inc: Incident, sev: Severity)
    requires inc.id !in s.incidents && inc.status == Active
    ensures |ActiveIds(AddIncident(s, inc), sev)| == |ActiveIds(s, sev)| + if inc.severity == sev then 1 else 0
  {
    var was, after := ActiveIds(s, sev), ActiveIds(AddIncident(s, inc), sev);
    assert after == if inc.severity == sev then was + {inc.id} else was;
  }

  lemma ActiveAfterUpsert(s: State, c: Candidate, now: Instant, hash: Hash, sev: Severity)
    requires Sound(s, UpsertOp(c, now), hash)
    ensures |ActiveIds(Upsert(s, c, now, hash).state, sev)| == |ActiveIds(s, sev)| + ActiveChange(s, UpsertOp(c, now), sev, hash)
  {
    if Ongoing(s, c.key) == None {
      ActiveAfterAdd(s, NewOccurrence(s, c, now, hash), sev);
    }
  }

  lemma ActiveAfterDecide(s: State, id: string, status: Status, actor: string, now: Instant, hash: Hash, sev: Severity)
    requires Sound(s, DecideOp(id, status, actor, now), hash)
    ensures |ActiveIds(Step(s, DecideOp(id, status, actor, now), hash), sev)|
         == |ActiveIds(s, sev)| + ActiveChange(s, DecideOp(id, status, actor, now), sev, hash)
  {
    var t := Step(s, DecideOp(id, status, actor, now), hash);
    var was, after := ActiveIds(s, sev), ActiveIds(t, sev);
    if id in was {
      assert after == was - {id};
    } else {
      assert after == was;
    }
  }

  lemma RecurrencesAfterAdd(s: State, inc: Incident)
    requires inc.id !in s.incidents
    ensures |Recurrences(AddIncident(s, inc))| == |Recurrences(s)| + if inc.sequence > 1 then 1 else 0
  {
    var was, after := Recurrences(s), Recurrences(AddIncident(s, inc));
    assert after == if inc.sequence > 1 then was + {inc.id} else was;
  }

  lemma RecurrencesAfterDecision(s: State, id: string, status: Status, actor: string, at: Instant)
    ensures Recurrences(AddDecision(s, id, status, actor, at)) == Recurrences(s)
  {
  }

  lemma RecurrencesAfter(s: State, op: Op, hash: Hash)
    requires Sound(s, op, hash)
    ensures |Recurrences(Step(s, op, hash))| == |Recurrences(s)| + RecurrenceChange(s, op, hash)
  {
    match op
    case UpsertOp(c, now) =>
      if Ongoing(s, c.key) == None {
        RecurrencesAfterAdd(s, NewOccurrence(s, c, now, hash));
      }
    case DecideOp(id, status, actor, now) => RecurrencesAfterDecision(s, id, status, actor, now);
  }

  lemma ResolvesAfterDecide(s: State, id: string, d: Decision, sev: Severity, x: string, i: int)
    requires id in s.incidents
    ensures Resolves(AddDecision(s, id, d.status, d.actor, d.decidedAt), x, i, sev)
       <==> Resolves(s, x, i, sev)
            || (x == id && i == |TrailOf(s, id)| && s.incidents[id].severity == sev && d.status == Resolved)
  {
  }

  lemma ResolutionsAfterDecide(s: State, id: string, status: Status, actor: string, at: Instant, sev: Severity)
    requires id in s.incidents
    ensures |Resolutions(AddDecision(s, id, status, actor, at), sev)|
         == |Resolutions(s, sev)| + if s.incidents[id].severity == sev && status == Resolved then 1 else 0
  {
    var t, place := AddDecision(s, id, status, actor, at), (id, |TrailOf(s, id)|);
    var was, after := Resolutions(s, sev), Resolutions(t, sev);
    var grown := if s.incidents[id].severity == sev && status == Resolved then was + {place} else was;
    forall p ensures p in after <==> p in grown {
      ResolvesAfterDecide(s, id, Decision(id, status, actor, at), sev, p.0, p.1);
      InResolutions(s, sev, p);
      InResolutions(t, sev, p);
    }
    assert after == grown;
    InResolutions(s, sev, place);
  }

  lemma InResolutions(s: State, sev: Severity, p: (string, int))
    ensures p in Resolutions(s, sev) <==> Resolves(s, p.0, p.1, sev)
  {
    assert p == (p.0, p.1);
  }

  lemma ResolutionsAfterAdd(s: State, inc: Incident, sev: Severity)
    requires inc.id !in s.incidents && inc.id !in s.decisions
    ensures Resolutions(AddIncident(s, inc), sev) == Resolutions(s, sev)
  {
    forall p ensures p in Resolutions(AddIncident(s, inc), sev) <==> p in Resolutions(s, sev) {
      InResolutions(s, sev, p);
      InResolutions(AddIncident(s, inc), sev, p);
    }
  }

  lemma ResolutionsAfter(s: State, op: Op, hash: Hash, sev: Severity)
    requires Audited(s) && Sound(s, op, hash)
    ensures |Resolutions(Step(s, op, hash), sev)| == |Resolutions(s, sev)| + ResolutionChange(s, op, sev)
  {
    match op
    case UpsertOp(c, now) =>
      if Ongoing(s, c.key) == None {
        ResolutionsAfterAdd(s, NewOccurrence(s, c, now, hash), sev);
      }
    case DecideOp(id, status, actor, now) =>
      if id in s.incidents {
        ResolutionsAfterDecide(s, id, status, actor, now, sev);
      }
  }

  lemma GaugeMoves(s: State, m: Metrics, w: Work, hash: Hash, sev: Severity)
    ensures Value(Count(s, m, w, hash).active, sev)
         == Value(m.active, sev) + if w.stored then ActiveChange(s, OpOf(w), sev, hash) else 0
  {
  }

  lemma RecurredMoves(s: State, m: Metrics, w: Work, hash: Hash)
    ensures Count(s, m, w, hash).recurred == m.recurred + if w.stored then RecurrenceChange(s, OpOf(w), hash) else 0
  {
  }

  lemma ResolvedMoves(s: State, m: Metrics, w: Work, hash: Hash, sev: Severity)
    ensures Value(Count(s, m, w, hash).resolved, sev)
         == Value(m.resolved, sev) + if w.stored then ResolutionChange(s, OpOf(w), sev) else 0
  {
  }

  /** Conservation, failures included: over any sound run the gauge of a severity has moved by
      the change in its active incidents less the changes whose database half failed; and the
      recurrence counter by the incidents beyond the first of their key, likewise. */
  lemma {:induction false} GaugeLaw(s: State, m: Metrics, ws: seq<Work>, hash: Hash, sev: Severity)
    requires Inv(s) && SoundWork(s, ws, hash)
    ensures Inv(Process(s, ws, hash))
    ensures Value(CountAll(s, m, ws, hash).active, sev) - Value(m.active, sev)
         == |ActiveIds(Process(s, ws, hash), sev)| - |ActiveIds(s, sev)| - Unnoticed(s, ws, sev, hash)
    ensures CountAll(s, m, ws, hash).recurred - m.recurred
         == |Recurrences(Process(s, ws, hash))| - |Recurrences(s)| - UnnoticedRecurrences(s, ws, hash)
  {
    if ws != [] {
      var front, w := ws[..|ws| - 1], ws[|ws| - 1];
      GaugeLaw(s, m, front, hash, sev);
      var mid := Process(s, front, hash);
      StepKeepsInv(mid, OpOf(w), hash);
      RecurrencesAfter(mid, OpOf(w), hash);
      GaugeMoves(mid, CountAll(s, m, front, hash), w, hash, sev);
      RecurredMoves(mid, CountAll(s, m, front, hash), w, hash);
      match w
      case Detected(c, now, _) => ActiveAfterUpsert(mid, c, now, hash, sev);
      case Ruled(id, status, actor, now, _) => ActiveAfterDecide(mid, id, status, actor, now, hash, sev);
    }
  }

  /** The resolved counter moves by the resolutions in the audit trails, repeated ones
      included, less those whose database half failed. */
  lemma {:induction false} ResolvedLaw(s: State, m: Metrics, ws: seq<Work>, hash: Hash, sev: Severity)
    requires Inv(s) && SoundWork(s, ws, hash)
    ensures Inv(Process(s, ws, hash))
    ensures Value(CountAll(s, m, ws, hash).resolved, sev) - Value(m.resolved, sev)
         == |Resolutions(Process(s, ws, hash), sev)| - |Resolutions(s, sev)| - UnnoticedResolutions(s, ws, sev, hash)
  {
    if ws != [] {
      var front, w := ws[..|ws| - 1], ws[|ws| - 1];
      ResolvedLaw(s, m, front, hash, sev);
      var mid := Process(s, front, hash);
      StepKeepsInv(mid, OpOf(w), hash);
      ResolvedMoves(mid, CountAll(s, m, front, hash), w, hash, sev);
      ResolutionsAfter(mid, OpOf(w), hash, sev);
    }
  }

  lemma {:induction false} NothingUnnoticed(s: State, ws: seq<Work>, hash: Hash, sev: Severity)
    requires AllStored(ws)
    ensures Unnoticed(s, ws, sev, hash) == 0 && UnnoticedRecurrences(s, ws, hash) == 0
    ensures UnnoticedResolutions(s, ws, sev, hash) == 0
  {
    if ws != [] {
      NothingUnnoticed(s, ws[..|ws| - 1], hash, sev);
    }
  }

  /** Without database failures, and with requests that run one at a time, the gauge of a process that
      started empty is the number of active incidents, the recurrence counter counts the incidents
      beyond the first of their key, and the resolved counter the resolutions on record. */
  lemma GaugeIsExact(ws: seq<Work>, hash: Hash, sev: Severity)
    requires SoundWork(EMPTY, ws, hash) && AllStored(ws)
    ensures var m := CountAll(EMPTY, Metrics(map[], map[], 0), ws, hash);
            && Value(m.active, sev) == |ActiveIds(Process(EMPTY, ws, hash), sev)|
            && m.recurred == |Recurrences(Process(EMPTY, ws, hash))|
            && Value(m.resolved, sev) == |Resolutions(Process(EMPTY, ws, hash), sev)|
  {
    EmptyInv();
    GaugeLaw(EMPTY, Metrics(map[], map[], 0), ws, hash, sev);
    ResolvedLaw(EMPTY, Metrics(map[], map[], 0), ws, hash, sev);
    NothingUnnoticed(EMPTY, ws, hash, sev);
    assert ActiveIds(EMPTY, sev) == {} && Recurrences(EMPTY) == {} && Resolutions(EMPTY, sev) == {};
  }

  // ----- below zero -----

  /** The simplest way below zero: restart with an active incident and resolve it. */
  lemma RestartDrivesGaugeNegative(s: State, id: string, now: Instant, actor: string, hash: Hash)
    requires IsActive(s, id)
    ensures Value(CountAll(s, Metrics(map[], map[], 0), [Ruled(id, Resolved, actor, now, true)], hash).active,
                  s.incidents[id].severity) == -1
  {
    var w := Ruled(id, Resolved, actor, now, true);
    assert [w][..0] == [];
    GaugeMoves(s, Metrics(map[], map[], 0), w, hash, s.incidents[id].severity);
  }

  // ----- the recurrence counter, key by key -----

  /** The recurrences of a key since `s`: occurrences beyond those it had, and beyond the first. */
  function Since(s: State, t: State): string -> int {
    (k: string) =>
      var known := if |HistoryOf(s, k)| > 1 then |HistoryOf(s, k)| else 1;
      if |HistoryOf(t, k)| > known then |HistoryOf(t, k)| - known else 0
  }

  ghost function Sum(f: string -> int, keys: set<string>): int {
    if keys == {} then 0
    else
      var k :| k in keys;
      f(k) + Sum(f, keys - {k})
  }

  lemma {:induction false} SumRemove(f: string -> int, keys: set<string>, k: string)
    requires k in keys
    ensures Sum(f, keys) == f(k) + Sum(f, keys - {k})
    decreases keys
  {
    var x :| x in keys && Sum(f, keys) == f(x) + Sum(f, keys - {x});
    if x != k {
      SumRemove(f, keys - {x}, k);
      SumRemove(f, keys - {k}, x);
      assert keys - {x} - {k} == keys - {k} - {x};
    }
  }

  lemma {:induction false} SumSame(f: string -> int, g: string -> int, keys: set<string>)
    requires forall k :: k in keys ==> f(k) == g(k)
    ensures Sum(f, keys) == Sum(g, keys)
    decreases keys
  {
    if keys != {} {
      var k :| k in keys;
      SumRemove(f, keys, k);
      SumRemove(g, keys, k);
      SumSame(f, g, keys - {k});
    }
  }

  lemma SumZero(f: string -> int, keys: set<string>)
    requires forall k :: k in keys ==> f(k) == 0
    ensures Sum(f, keys) == 0
    decreases keys
  {
    if keys != {} {
      var k :| k in keys;
      SumRemove(f, keys, k);
      SumZero(f, keys - {k});
    }
  }

  /** Adding an occurrence changes the sum in its key only. */
  lemma SumAfterAdd(s: State, t: State, inc: Incident)
    requires |HistoryOf(s, inc.key)| <= |HistoryOf(t, inc.key)|
    ensures Sum(Since(s, AddIncident(t, inc)), AddIncident(t, inc).byOccurrence.Keys)
         == Sum(Since(s, t), t.byOccurrence.Keys) + if HistoryOf(t, inc.key) != [] then 1 else 0
  {
    var u := AddIncident(t, inc);
    var f, g, rest := Since(s, t), Since(s, u), t.byOccurrence.Keys - {inc.key};
    assert u.byOccurrence.Keys - {inc.key} == rest;
    SumRemove(g, u.byOccurrence.Keys, inc.key);
    forall k | k in rest ensures f(k) == g(k) {
      assert HistoryOf(u, k) == HistoryOf(t, k);
    }
    SumSame(f, g, rest);
    if inc.key in t.byOccurrence {
      SumRemove(f, t.byOccurrence.Keys, inc.key);
    } else {
      assert rest == t.byOccurrence.Keys;
    }
  }

  lemma SumAfterStep(s: State, t: State, op: Op, hash: Hash)
    requires Extends(s, t)
    ensures Sum(Since(s, Step(t, op, hash)), Step(t, op, hash).byOccurrence.Keys)
         == Sum(Since(s, t), t.byOccurrence.Keys) + RecurrenceChange(t, op, hash)
  {
    var u := Step(t, op, hash);
    if op.UpsertOp? && Ongoing(t, op.candidate.key) == None {
      assert HistoryOf(s, op.candidate.key) <= HistoryOf(t, op.candidate.key);
      SumAfterAdd(s, t, NewOccurrence(t, op.candidate, op.now, hash));
    } else {
      assert u.byOccurrence == t.byOccurrence;
      forall k | k in t.byOccurrence.Keys ensures Since(s, u)(k) == Since(s, t)(k) {
        assert HistoryOf(u, k) == HistoryOf(t, k);
      }
      SumSame(Since(s, u), Since(s, t), t.byOccurrence.Keys);
    }
  }

  /** The recurrence counter moves by the sum over all keys of max(0, n - max(1, n at the start)),
      n being the length of the key's history, less the recurrences whose insert failed. */
  lemma {:induction false} RecurrenceLaw(s: State, m: Metrics, ws: seq<Work>, hash: Hash)
    requires Inv(s) && SoundWork(s, ws, hash)
    ensures Inv(Process(s, ws, hash)) && Extends(s, Process(s, ws, hash))
    ensures CountAll(s, m, ws, hash).recurred - m.recurred
         == Sum(Since(s, Process(s, ws, hash)), Process(s, ws, hash).byOccurrence.Keys) - UnnoticedRecurrences(s, ws, hash)
  {
    if ws == [] {
      SumZero(Since(s, s), s.byOccurrence.Keys);
    } else {
      var front, w := ws[..|ws| - 1], ws[|ws| - 1];
      RecurrenceLaw(s, m, front, hash);
      var mid := Process(s, front, hash);
      StepKeepsInv(mid, OpOf(w), hash);
      ExtendsTransitive(s, mid, Process(s, ws, hash));
      RecurredMoves(mid, CountAll(s, m, front, hash), w, hash);
      SumAfterStep(s, mid, OpOf(w), hash);
    }
  }

  /** One failed insert is enough: the incident exists in memory, the gauge never counted it,
      and the decision that closes it drives the gauge below zero. */
  lemma FailedInsertDrivesGaugeNegative(c: Candidate, now: Instant, actor: string, hash: Hash)
    ensures var id := NewOccurrence(EMPTY, c, now, hash).id;
            var ws := [Detected(c, now, false), Ruled(id, Resolved, actor, now, true)];
            Value(CountAll(EMPTY, Metrics(map[], map[], 0), ws, hash).active, c.severity) == -1
  {
    var zero := Metrics(map[], map[], 0);
    var inc := NewOccurrence(EMPTY, c, now, hash);
    var d, r := Detected(c, now, false), Ruled(inc.id, Resolved, actor, now, true);
    assert [d, r][..1] == [d] && [d][..0] == [];
    assert Process(EMPTY, [d], hash) == AddIncident(EMPTY, inc);
    assert CountAll(EMPTY, zero, [d], hash) == zero;
  }
}
