/** The incidents and incident_decisions tables, the statements that write them, and the
    recovery that reads them back (internal/persistence/store.go). */
module IncidentTables {
  import opened Sequences
  import opened Decimal
  import opened Rfc3339
  import opened Incidents
  import opened IncidentStore
  import opened Lifecycle
  import opened StableSort

  datatype IncidentRow = IncidentRow(
    id: string, key: string, sequence: nat, severity: Severity, affected: seq<string>, rootCause: string,
    status: Status, createdAt: string, updatedAt: string, confidence: real, slaMinutes: int, action: string)

  datatype DecisionRow = DecisionRow(incidentId: string, status: Status, actor: string, decidedAt: string)

  /** Both tables, each in insertion order. */
  datatype Tables = Tables(incidents: seq<IncidentRow>, decisions: seq<DecisionRow>)

  // ----- columns -----

  function EncodeIncident(inc: Incident): IncidentRow {
    IncidentRow(inc.id, inc.key, inc.sequence, inc.severity, inc.affected, inc.rootCause, inc.status,
                Format(inc.createdAt), Format(inc.updatedAt), inc.confidence, inc.slaMinutes, inc.action)
  }

  function EncodeDecision(d: Decision): DecisionRow {
    DecisionRow(d.incidentId, d.status, d.actor, Format(d.decidedAt))
  }

  function ReadTime(text: string): Instant {
    var t := ParseTime(text);
    if t.Some? then t.value else 0
  }

  function ReadIncident(r: IncidentRow): Incident {
    Incident(r.id, r.key, r.sequence, r.severity, r.affected, r.rootCause, r.status,
             ReadTime(r.createdAt), ReadTime(r.updatedAt), r.confidence, r.slaMinutes, r.action)
  }

  function ReadDecision(r: DecisionRow): Decision {
    Decision(r.incidentId, r.status, r.actor, ReadTime(r.decidedAt))
  }

  /** Recovery fails on a timestamp that does not parse. */
  predicate Readable(db: Tables) {
    && (forall r :: r in db.incidents ==> ParseTime(r.createdAt).Some? && ParseTime(r.updatedAt).Some?)
    && (forall r :: r in db.decisions ==> ParseTime(r.decidedAt).Some?)
  }

  function TruncIncident(inc: Incident): Incident {
    inc.(createdAt := Trunc(inc.createdAt), updatedAt := Trunc(inc.updatedAt))
  }

  function TruncDecision(d: Decision): Decision {
    d.(decidedAt := Trunc(d.decidedAt))
  }

  /** A state with every timestamp cut to the second. */
  function TruncState(s: State): State {
    State(map id | id in s.incidents :: TruncIncident(s.incidents[id]),
          s.byOccurrence,
          map id | id in s.decisions :: Map(TruncDecision, s.decisions[id]))
  }

  lemma IncidentRoundTrip(inc: Incident)
    ensures ReadIncident(EncodeIncident(inc)) == TruncIncident(inc)
  {
    ParseFormat(inc.createdAt);
    ParseFormat(inc.updatedAt);
  }

  lemma DecisionRoundTrip(d: Decision)
    ensures ReadDecision(EncodeDecision(d)) == TruncDecision(d)
  {
    ParseFormat(d.decidedAt);
  }

  // ----- statements -----

  /** The database half of an operation: the insert of a new incident, or the transaction that
      updates an incident's status and appends to its trail (`inc` is the incident after the
      decision). */
  datatype Write = InsertIncident(inc: Incident) | RecordDecision(inc: Incident, actor: string)

  function Updating(id: string, status: Status, updatedAt: string): IncidentRow -> IncidentRow {
    (r: IncidentRow) => if r.id == id then r.(status := status, updatedAt := updatedAt) else r
  }

  /** A duplicate primary key fails; an update of a missing row affects nothing and succeeds. */
  function Commit(db: Tables, w: Write): Option<Tables> {
    match w
    case InsertIncident(inc) =>
      if exists r :: r in db.incidents && r.id == inc.id then None
      else Some(db.(incidents := db.incidents + [EncodeIncident(inc)]))
    case RecordDecision(inc, actor) =>
      Some(Tables(Map(Updating(inc.id, inc.status, Format(inc.updatedAt)), db.incidents),
                  db.decisions + [EncodeDecision(Decision(inc.id, inc.status, actor, inc.updatedAt))]))
  }

  // ----- recovery -----

  /** ORDER BY occurrence_key ASC, occurrence_sequence ASC. */
  predicate RowBefore(a: IncidentRow, b: IncidentRow) {
    TextLess(a.key, b.key) || (a.key == b.key && a.sequence < b.sequence)
  }

  /** ORDER BY decided_at ASC. */
  predicate DecisionBefore(a: DecisionRow, b: DecisionRow) {
    TextLess(a.decidedAt, b.decidedAt)
  }

  /** Decisions grouped by incident, each group in row order. */
  function Trails(read: DecisionRow -> Decision, rows: seq<DecisionRow>): map<string, seq<Decision>> {
    if rows == [] then map[]
    else
      var front, r := Trails(read, rows[..|rows| - 1]), rows[|rows| - 1];
      front[r.incidentId := (if r.incidentId in front then front[r.incidentId] else []) + [read(r)]]
  }

  /** The state a restarting process recovers, or nothing when a row cannot be read. */
  function Rebuild(db: Tables): Option<State> {
    if !Readable(db) then None
    else Some(Restore(EMPTY, Map(ReadIncident, Sort(RowBefore, db.incidents)),
                      Trails(ReadDecision, Sort(DecisionBefore, db.decisions))))
  }

  /** Every timestamp the tables hold. */
  function Timestamps(db: Tables): set<string> {
    (set r | r in db.incidents :: r.createdAt) + (set r | r in db.incidents :: r.updatedAt)
    + (set r | r in db.decisions :: r.decidedAt)
  }

  lemma AllTimestamps(db: Tables, p: string -> bool)
    ensures (forall text :: text in Timestamps(db) ==> p(text)) <==>
              && (forall r :: r in db.incidents ==> p(r.createdAt) && p(r.updatedAt))
              && forall r :: r in db.decisions ==> p(r.decidedAt)
  {
    if forall text :: text in Timestamps(db) ==> p(text) {
      forall r | r in db.incidents ensures p(r.createdAt) && p(r.updatedAt) {
        assert r.createdAt in Timestamps(db) && r.updatedAt in Timestamps(db);
      }
      forall r | r in db.decisions ensures p(r.decidedAt) {
        assert r.decidedAt in Timestamps(db);
      }
    }
  }

  function Parses(): string -> bool {
    (text: string) => ParseTime(text).Some?
  }

  lemma ReadableIff(db: Tables, p: string -> bool)
    requires p == Parses()
    ensures Readable(db) <==>
              && (forall r :: r in db.incidents ==> p(r.createdAt) && p(r.updatedAt))
              && forall r :: r in db.decisions ==> p(r.decidedAt)
  {
  }

  /** Recovery fails exactly when some timestamp of the tables cannot be read. */
  lemma RebuildFailsIff(db: Tables)
    ensures Rebuild(db).Some? <==> forall text :: text in Timestamps(db) ==> Parses()(text)
  {
    AllTimestamps(db, Parses());
    ReadableIff(db, Parses());
  }

  function KeyIs(key: string): IncidentRow -> bool {
    (r: IncidentRow) => r.key == key
  }

  function About(id: string): DecisionRow -> bool {
    (r: DecisionRow) => r.incidentId == id
  }

  function RowIds(rows: seq<IncidentRow>): (ids: seq<string>)
    ensures |ids| == |rows| && forall i :: 0 <= i < |rows| ==> ids[i] == rows[i].id
  {
    seq(|rows|, i requires 0 <= i < |rows| => rows[i].id)
  }

  lemma RowBeforeIsWeakOrder()
    ensures WeakOrder(RowBefore)
  {
    forall a: IncidentRow, b: IncidentRow | RowBefore(a, b) ensures !RowBefore(b, a) {
      TextLessTrichotomy(a.key, b.key);
    }
    forall a: IncidentRow, b: IncidentRow, c: IncidentRow | !RowBefore(a, b) && !RowBefore(b, c) ensures !RowBefore(a, c) {
      TextLessTrichotomy(a.key, b.key);
      TextLessTrichotomy(b.key, c.key);
      TextLessTrichotomy(a.key, c.key);
      TextLessWeakOrder(a.key, b.key, c.key);
    }
  }

  lemma DecisionBeforeIsWeakOrder()
    ensures WeakOrder(DecisionBefore)
  {
    forall a: DecisionRow, b: DecisionRow | DecisionBefore(a, b) ensures !DecisionBefore(b, a) {
      TextLessTrichotomy(a.decidedAt, b.decidedAt);
    }
    forall a: DecisionRow, b: DecisionRow, c: DecisionRow | !DecisionBefore(a, b) && !DecisionBefore(b, c)
      ensures !DecisionBefore(a, c)
    {
      TextLessWeakOrder(a.decidedAt, b.decidedAt, c.decidedAt);
    }
  }

  ghost predicate KeepsIdentity(read: IncidentRow -> Incident) {
    forall r :: read(r).id == r.id && read(r).key == r.key
  }

  lemma AddAllNext(read: IncidentRow -> Incident, rows: seq<IncidentRow>)
    requires rows != []
    ensures AddAll(EMPTY, Map(read, rows))
         == AddIncident(AddAll(EMPTY, Map(read, rows[..|rows| - 1])), read(rows[|rows| - 1]))
  {
    assert Map(read, rows)[..|rows| - 1] == Map(read, rows[..|rows| - 1]);
  }

  /** What adding rows one by one leaves in the three maps. */
  lemma {:induction false} AddedHistory(read: IncidentRow -> Incident, rows: seq<IncidentRow>, key: string)
    requires KeepsIdentity(read)
    ensures var s := AddAll(EMPTY, Map(read, rows));
            && HistoryOf(s, key) == RowIds(Filter(KeyIs(key), rows))
            && (key in s.byOccurrence ==> s.byOccurrence[key] != [])
            && s.decisions == map[]
  {
    if rows != [] {
      AddedHistory(read, rows[..|rows| - 1], key);
      AddAllNext(read, rows);
    }
  }

  lemma {:induction false} AddedIncidents(read: IncidentRow -> Incident, rows: seq<IncidentRow>, id: string)
    requires KeepsIdentity(read)
    ensures var s := AddAll(EMPTY, Map(read, rows));
            && (id in s.incidents <==> exists r :: r in rows && r.id == id)
            && (id in s.incidents ==> exists r :: r in rows && r.id == id && s.incidents[id] == read(r))
  {
    if rows != [] {
      var front, r := rows[..|rows| - 1], rows[|rows| - 1];
      AddedIncidents(read, front, id);
      AddAllNext(read, rows);
      assert forall x :: x in rows <==> x in front || x == r;
    }
  }

  lemma {:induction false} TrailsOf(read: DecisionRow -> Decision, rows: seq<DecisionRow>, id: string)
    ensures var m := Trails(read, rows);
            (if id in m then m[id] else []) == Map(read, Filter(About(id), rows))
    ensures id in Trails(read, rows) ==> Trails(read, rows)[id] != []
  {
    if rows != [] {
      var front, r := rows[..|rows| - 1], rows[|rows| - 1];
      TrailsOf(read, front, id);
      assert rows == front + [r];
      FilterAppend(About(id), front, r);
      MapAppend(read, Filter(About(id), front), r);
    }
  }

  // ----- the tables represent a state -----

  /** Every stored row is the encoding of the incident with its identifier. */
  ghost predicate RowsMatch(db: Tables, s: State) {
    forall r :: r in db.incidents ==> r.id in s.incidents && r == EncodeIncident(s.incidents[r.id])
  }

  /** Per key, the rows stand in insertion order as the history lists them. */
  ghost predicate HistoriesMatch(db: Tables, s: State) {
    forall k :: RowIds(Filter(KeyIs(k), db.incidents)) == HistoryOf(s, k)
  }

  /** Every decision row is the encoding of what it reads as. */
  ghost predicate DecisionsEncoded(rows: seq<DecisionRow>) {
    forall r :: r in rows ==> r == EncodeDecision(ReadDecision(r))
  }

  /** Per incident, the decision rows stand in insertion order as the trail lists them. */
  ghost predicate TrailsListed(rows: seq<DecisionRow>, s: State) {
    forall id :: Map(ReadDecision, Filter(About(id), rows)) == TrailOf(s, id)
  }

  ghost predicate TrailsMatch(db: Tables, s: State) {
    DecisionsEncoded(db.decisions) && TrailsListed(db.decisions, s)
  }

  ghost predicate Ordered(trail: seq<Decision>) {
    forall i, j :: 0 <= i < j < |trail| ==> SecondsOf(trail[i].decidedAt) <= SecondsOf(trail[j].decidedAt)
  }

  ghost predicate WholeTrail(trail: seq<Decision>) {
    forall i :: 0 <= i < |trail| ==> TruncDecision(trail[i]) == trail[i]
  }

  /** Every timestamp is a whole second, and no trail goes back in time. */
  ghost predicate Whole(s: State) {
    && (forall id :: id in s.incidents ==> TruncIncident(s.incidents[id]) == s.incidents[id])
    && (forall id :: id in s.decisions ==> WholeTrail(s.decisions[id]) && Ordered(s.decisions[id]))
  }

  lemma WholeIsTruncated(s: State)
    requires Whole(s)
    ensures TruncState(s) == s
  {
    forall id | id in s.decisions ensures Map(TruncDecision, s.decisions[id]) == s.decisions[id] {
      assert WholeTrail(s.decisions[id]);
    }
    assert TruncState(s).incidents == s.incidents;
    assert TruncState(s).decisions == s.decisions;
  }

  ghost predicate Represents(db: Tables, s: State) {
    Inv(s) && Whole(s) && RowsMatch(db, s) && HistoriesMatch(db, s) && TrailsMatch(db, s)
  }

  lemma GroupInSequence(db: Tables, s: State, key: string)
    requires Represents(db, s)
    ensures Sorted(RowBefore, Filter(KeyIs(key), db.incidents))
  {
    var g := Filter(KeyIs(key), db.incidents);
    assert RowIds(g) == HistoryOf(s, key);
    forall i: nat, j: nat | i < j < |g| ensures !RowBefore(g[j], g[i]) {
      assert g[i] in g && g[j] in g;
      assert Dense(s, key, i) && Dense(s, key, j);
      assert g[i].id == HistoryOf(s, key)[i] && g[j].id == HistoryOf(s, key)[j];
      TextLessTrichotomy(key, key);
    }
  }

  lemma TrailInOrder(db: Tables, s: State, id: string)
    requires TrailsMatch(db, s) && Ordered(TrailOf(s, id))
    ensures Sorted(DecisionBefore, Filter(About(id), db.decisions))
  {
    var g, trail := Filter(About(id), db.decisions), TrailOf(s, id);
    assert Map(ReadDecision, g) == trail;
    forall i, j | 0 <= i < j < |g| ensures !DecisionBefore(g[j], g[i]) {
      assert g[i] in g && g[j] in g;
      assert g[i] == EncodeDecision(trail[i]) && g[j] == EncodeDecision(trail[j]);
      TextOrderIsChronological(trail[j].decidedAt, trail[i].decidedAt);
    }
  }

  lemma RepresentedIsReadable(db: Tables, s: State)
    requires Represents(db, s)
    ensures Readable(db)
  {
    forall r | r in db.incidents ensures ParseTime(r.createdAt).Some? && ParseTime(r.updatedAt).Some? {
      ParseFormat(s.incidents[r.id].createdAt);
      ParseFormat(s.incidents[r.id].updatedAt);
    }
    forall r | r in db.decisions ensures ParseTime(r.decidedAt).Some? {
      ParseFormat(ReadDecision(r).decidedAt);
    }
  }

  function Recovered(db: Tables): State {
    AddAll(EMPTY, Map(ReadIncident, Sort(RowBefore, db.incidents)))
  }

  lemma RecoveredHistory(db: Tables, s: State, key: string)
    requires Represents(db, s)
    ensures HistoryOf(Recovered(db), key) == HistoryOf(s, key)
  {
    RowBeforeIsWeakOrder();
    GroupInSequence(db, s, key);
    SortKeepsOrderedGroup(RowBefore, KeyIs(key), db.incidents);
    AddedHistory(ReadIncident, Sort(RowBefore, db.incidents), key);
  }

  lemma RecoveredShape(rows: seq<IncidentRow>)
    ensures var s := AddAll(EMPTY, Map(ReadIncident, rows));
            s.decisions == map[] && forall k :: k in s.byOccurrence ==> s.byOccurrence[k] != []
  {
    AddedHistory(ReadIncident, rows, "");
    var s := AddAll(EMPTY, Map(ReadIncident, rows));
    forall k | k in s.byOccurrence ensures s.byOccurrence[k] != [] {
      AddedHistory(ReadIncident, rows, k);
    }
  }

  lemma SameHistories(s: State, t: State)
    requires forall k :: HistoryOf(s, k) == HistoryOf(t, k)
    requires forall k :: k in s.byOccurrence ==> s.byOccurrence[k] != []
    requires forall k :: k in t.byOccurrence ==> t.byOccurrence[k] != []
    ensures s.byOccurrence == t.byOccurrence
  {
    forall k ensures k in s.byOccurrence <==> k in t.byOccurrence
      ensures k in s.byOccurrence ==> s.byOccurrence[k] == t.byOccurrence[k]
    {
      assert HistoryOf(s, k) == HistoryOf(t, k);
    }
  }

  lemma RecoveredHistories(db: Tables, s: State)
    requires Represents(db, s)
    ensures Recovered(db).byOccurrence == s.byOccurrence && Recovered(db).decisions == map[]
  {
    RecoveredShape(Sort(RowBefore, db.incidents));
    forall k ensures HistoryOf(Recovered(db), k) == HistoryOf(s, k) {
      RecoveredHistory(db, s, k);
    }
    SameHistories(Recovered(db), s);
  }

  lemma GroupRow(rows: seq<IncidentRow>, key: string, i: nat)
    requires i < |Filter(KeyIs(key), rows)|
    ensures Filter(KeyIs(key), rows)[i] in rows
    ensures RowIds(Filter(KeyIs(key), rows))[i] == Filter(KeyIs(key), rows)[i].id
  {
    assert Filter(KeyIs(key), rows)[i] in Filter(KeyIs(key), rows);
  }

  lemma RowOf(db: Tables, s: State, id: string)
    requires Linked(s) && RowsMatch(db, s) && HistoriesMatch(db, s) && id in s.incidents
    ensures EncodeIncident(s.incidents[id]) in db.incidents
  {
    var key, i := s.incidents[id].key, s.incidents[id].sequence - 1;
    assert Placed(s, id);
    assert RowIds(Filter(KeyIs(key), db.incidents)) == HistoryOf(s, key);
    GroupRow(db.incidents, key, i);
  }

  lemma ReadStored(s: State, id: string)
    requires Whole(s) && id in s.incidents
    ensures ReadIncident(EncodeIncident(s.incidents[id])) == s.incidents[id]
  {
    IncidentRoundTrip(s.incidents[id]);
  }

  lemma RecoveredFrom(db: Tables, id: string)
    ensures id in Recovered(db).incidents ==>
              exists r :: r in db.incidents && r.id == id && Recovered(db).incidents[id] == ReadIncident(r)
    ensures forall r :: r in db.incidents && r.id == id ==> id in Recovered(db).incidents
  {
    SortMembers(RowBefore, db.incidents);
    AddedIncidents(ReadIncident, Sort(RowBefore, db.incidents), id);
  }

  lemma RecoveredIncident(db: Tables, s: State, id: string)
    requires Represents(db, s)
    ensures id in Recovered(db).incidents <==> id in s.incidents
    ensures id in s.incidents ==> Recovered(db).incidents[id] == s.incidents[id]
  {
    RecoveredFrom(db, id);
    if id in s.incidents {
      RowOf(db, s, id);
      ReadStored(s, id);
      assert Placed(s, id);
    }
  }

  lemma RecoveredIncidents(db: Tables, s: State)
    requires Represents(db, s)
    ensures Recovered(db).incidents == s.incidents
  {
    forall id ensures id in Recovered(db).incidents <==> id in s.incidents
      ensures id in s.incidents ==> Recovered(db).incidents[id] == s.incidents[id]
    {
      RecoveredIncident(db, s, id);
    }
  }

  lemma RecoveredTrail(db: Tables, s: State, id: string)
    requires TrailsMatch(db, s) && Ordered(TrailOf(s, id)) && (id in s.decisions ==> s.decisions[id] != [])
    ensures var m := Trails(ReadDecision, Sort(DecisionBefore, db.decisions));
            (id in m <==> id in s.decisions) && (id in m ==> m[id] == s.decisions[id])
  {
    DecisionBeforeIsWeakOrder();
    TrailInOrder(db, s, id);
    SortKeepsOrderedGroup(DecisionBefore, About(id), db.decisions);
    TrailsOf(ReadDecision, Sort(DecisionBefore, db.decisions), id);
    assert Map(ReadDecision, Filter(About(id), db.decisions)) == TrailOf(s, id);
  }

  lemma SameTrails(m: map<string, seq<Decision>>, n: map<string, seq<Decision>>)
    requires forall id :: (id in m <==> id in n) && (id in m ==> m[id] == n[id])
    ensures m == n
  {
  }

  lemma RecoveredTrails(db: Tables, s: State)
    requires Audited(s) && Whole(s) && TrailsMatch(db, s)
    ensures Trails(ReadDecision, Sort(DecisionBefore, db.decisions)) == s.decisions
  {
    var m := Trails(ReadDecision, Sort(DecisionBefore, db.decisions));
    forall id ensures (id in m <==> id in s.decisions) && (id in m ==> m[id] == s.decisions[id]) {
      assert Ordered(TrailOf(s, id));
      RecoveredTrail(db, s, id);
    }
    SameTrails(m, s.decisions);
  }

  lemma RestoreFresh(rows: seq<Incident>, trails: map<string, seq<Decision>>)
    requires AddAll(EMPTY, rows).decisions == map[]
    ensures Restore(EMPTY, rows, trails) == AddAll(EMPTY, rows).(decisions := trails)
  {
    var none: map<string, seq<Decision>> := map[];
    assert none + trails == trails;
  }

  /** Recovery returns exactly the represented state, whatever order the keys come back in. */
  lemma RebuildRepresented(db: Tables, s: State)
    requires Represents(db, s)
    ensures Rebuild(db) == Some(s)
  {
    RepresentedIsReadable(db, s);
    RecoveredIncidents(db, s);
    RecoveredHistories(db, s);
    RecoveredTrails(db, s);
    RestoreFresh(Map(ReadIncident, Sort(RowBefore, db.incidents)), s.decisions);
  }

  // ----- writes preserve the representation -----

  /** The effect of a write on the state the tables represent. */
  function Apply(s: State, w: Write): State {
    match w
    case InsertIncident(inc) => AddIncident(s, inc)
    case RecordDecision(inc, actor) => AddDecision(s, inc.id, inc.status, actor, inc.updatedAt)
  }

  function LastSecond(trail: seq<Decision>): int {
    if trail == [] then 0 else SecondsOf(trail[|trail| - 1].decidedAt)
  }

  /** The write is the next one for its key: the incident is the key's next occurrence, or is
      stored, and then the decision is not earlier than the ones before it. */
  ghost predicate Enabled(s: State, w: Write) {
    match w
    case InsertIncident(inc) => Lifecycle.Next(s, inc)
    case RecordDecision(inc, actor) =>
      && inc.id in s.incidents && s.incidents[inc.id].key == inc.key && inc.status != Active
      && LastSecond(TrailOf(s, inc.id)) <= SecondsOf(inc.updatedAt)
  }

  /** The parameters of a write are whole seconds: they are formatted when it is issued. */
  ghost predicate WholeWrite(w: Write) {
    TruncIncident(w.inc) == w.inc
  }

  lemma ApplyKeepsInv(s: State, w: Write)
    requires Inv(s) && Enabled(s, w)
    ensures Inv(Apply(s, w)) && Extends(s, Apply(s, w))
  {
    match w
    case InsertIncident(inc) => AddKeepsInv(s, inc);
    case RecordDecision(inc, actor) => DecisionKeepsInv(s, inc.id, inc.status, actor, inc.updatedAt);
  }

  lemma ApplyKeepsWhole(s: State, w: Write)
    requires Whole(s) && Enabled(s, w) && WholeWrite(w)
    ensures Whole(Apply(s, w))
  {
    var t := Apply(s, w);
    forall id | id in t.decisions ensures WholeTrail(t.decisions[id]) && Ordered(t.decisions[id]) {
      if w.RecordDecision? && id == w.inc.id {
        var trail := TrailOf(s, id);
        assert WholeTrail(trail) && Ordered(trail);
        assert t.decisions[id] == trail + [Decision(id, w.inc.status, w.actor, w.inc.updatedAt)];
      }
    }
  }

  lemma RowIdsAppend(rows: seq<IncidentRow>, r: IncidentRow)
    ensures RowIds(rows + [r]) == RowIds(rows) + [r.id]
  {
  }

  lemma {:induction false} UpdateKeepsIds(f: IncidentRow -> IncidentRow, rows: seq<IncidentRow>, key: string)
    requires forall r :: f(r).id == r.id && f(r).key == r.key
    ensures RowIds(Filter(KeyIs(key), Map(f, rows))) == RowIds(Filter(KeyIs(key), rows))
  {
    if rows != [] {
      var front, r := rows[..|rows| - 1], rows[|rows| - 1];
      assert rows == front + [r];
      UpdateKeepsIds(f, front, key);
      MapAppend(f, front, r);
      FilterAppend(KeyIs(key), Map(f, front), f(r));
      FilterAppend(KeyIs(key), front, r);
      RowIdsAppend(Filter(KeyIs(key), Map(f, front)), f(r));
      RowIdsAppend(Filter(KeyIs(key), front), r);
    }
  }

  lemma InsertSucceeds(db: Tables, s: State, inc: Incident)
    requires RowsMatch(db, s) && inc.id !in s.incidents
    ensures Commit(db, InsertIncident(inc)) == Some(db.(incidents := db.incidents + [EncodeIncident(inc)]))
  {
  }

  lemma InsertRows(db: Tables, s: State, inc: Incident, row: IncidentRow)
    requires RowsMatch(db, s) && inc.id !in s.incidents && row == EncodeIncident(inc)
    ensures RowsMatch(db.(incidents := db.incidents + [row]), AddIncident(s, inc))
  {
    forall r | r in db.incidents + [row] ensures var t := AddIncident(s, inc); r.id in t.incidents && r == EncodeIncident(t.incidents[r.id]) {
      assert r in db.incidents || r == row;
    }
  }

  lemma InsertHistory(rows: seq<IncidentRow>, s: State, inc: Incident, row: IncidentRow, key: string)
    requires row.id == inc.id && row.key == inc.key && RowIds(Filter(KeyIs(key), rows)) == HistoryOf(s, key)
    ensures RowIds(Filter(KeyIs(key), rows + [row])) == HistoryOf(AddIncident(s, inc), key)
  {
    FilterAppend(KeyIs(key), rows, row);
    RowIdsAppend(Filter(KeyIs(key), rows), row);
  }

  lemma InsertHistories(db: Tables, s: State, inc: Incident, row: IncidentRow)
    requires HistoriesMatch(db, s) && row.id == inc.id && row.key == inc.key
    ensures HistoriesMatch(db.(incidents := db.incidents + [row]), AddIncident(s, inc))
  {
    forall key ensures RowIds(Filter(KeyIs(key), db.incidents + [row])) == HistoryOf(AddIncident(s, inc), key) {
      InsertHistory(db.incidents, s, inc, row, key);
    }
  }

  lemma InsertTrails(db: Tables, s: State, inc: Incident, row: IncidentRow)
    requires TrailsMatch(db, s)
    ensures TrailsMatch(db.(incidents := db.incidents + [row]), AddIncident(s, inc))
  {
    forall id ensures Map(ReadDecision, Filter(About(id), db.decisions)) == TrailOf(AddIncident(s, inc), id) {
      assert TrailOf(AddIncident(s, inc), id) == TrailOf(s, id);
    }
  }

  lemma UpdatedRow(r: IncidentRow, stored: Incident, inc: Incident)
    requires r == EncodeIncident(stored)
    ensures Updating(inc.id, inc.status, Format(inc.updatedAt))(r)
         == EncodeIncident(if stored.id == inc.id then stored.(status := inc.status, updatedAt := inc.updatedAt) else stored)
  {
  }

  lemma UpdatedRowMatches(db: Tables, s: State, inc: Incident, actor: string, was: IncidentRow)
    requires RowsMatch(db, s) && Linked(s) && inc.id in s.incidents && was in db.incidents
    ensures var r, s' := Updating(inc.id, inc.status, Format(inc.updatedAt))(was), Apply(s, RecordDecision(inc, actor));
            r.id in s'.incidents && r == EncodeIncident(s'.incidents[r.id])
  {
    assert Placed(s, was.id);
    UpdatedRow(was, s.incidents[was.id], inc);
  }

  lemma DecisionRowsMatch(db: Tables, s: State, inc: Incident, actor: string)
    requires RowsMatch(db, s) && Linked(s) && inc.id in s.incidents
    ensures RowsMatch(Commit(db, RecordDecision(inc, actor)).value, Apply(s, RecordDecision(inc, actor)))
  {
    var f := Updating(inc.id, inc.status, Format(inc.updatedAt));
    var rows := Map(f, db.incidents);
    forall r | r in rows
      ensures var s' := Apply(s, RecordDecision(inc, actor)); r.id in s'.incidents && r == EncodeIncident(s'.incidents[r.id])
    {
      var i :| 0 <= i < |rows| && rows[i] == r;
      UpdatedRowMatches(db, s, inc, actor, db.incidents[i]);
    }
  }

  lemma DecisionHistories(db: Tables, s: State, inc: Incident, actor: string)
    requires HistoriesMatch(db, s)
    ensures HistoriesMatch(Commit(db, RecordDecision(inc, actor)).value, Apply(s, RecordDecision(inc, actor)))
  {
    var db', s' := Commit(db, RecordDecision(inc, actor)).value, Apply(s, RecordDecision(inc, actor));
    forall k ensures RowIds(Filter(KeyIs(k), db'.incidents)) == HistoryOf(s', k) {
      UpdateKeepsIds(Updating(inc.id, inc.status, Format(inc.updatedAt)), db.incidents, k);
      assert RowIds(Filter(KeyIs(k), db.incidents)) == HistoryOf(s, k);
    }
  }

  lemma DecisionTrail(read: DecisionRow -> Decision, rows: seq<DecisionRow>, s: State, d: Decision, updatedAt: Instant,
                      row: DecisionRow, id: string)
    requires read(row) == d && row.incidentId == d.incidentId && d.decidedAt == updatedAt
    requires Map(read, Filter(About(id), rows)) == TrailOf(s, id)
    ensures Map(read, Filter(About(id), rows + [row])) == TrailOf(AddDecision(s, d.incidentId, d.status, d.actor, updatedAt), id)
  {
    FilterAppend(About(id), rows, row);
    MapAppend(read, Filter(About(id), rows), row);
  }

  lemma DecisionEncoded(rows: seq<DecisionRow>, row: DecisionRow, d: Decision)
    requires DecisionsEncoded(rows) && row == EncodeDecision(d) && ReadDecision(row) == d
    ensures DecisionsEncoded(rows + [row])
  {
  }

  lemma DecisionListed(rows: seq<DecisionRow>, s: State, row: DecisionRow, d: Decision)
    requires TrailsListed(rows, s) && ReadDecision(row) == d && row.incidentId == d.incidentId
    ensures TrailsListed(rows + [row], AddDecision(s, d.incidentId, d.status, d.actor, d.decidedAt))
  {
    forall id ensures Map(ReadDecision, Filter(About(id), rows + [row]))
                   == TrailOf(AddDecision(s, d.incidentId, d.status, d.actor, d.decidedAt), id)
    {
      DecisionTrail(ReadDecision, rows, s, d, d.decidedAt, row, id);
    }
  }

  lemma DecisionTrails(db: Tables, s: State, row: DecisionRow, d: Decision)
    requires TrailsMatch(db, s) && row == EncodeDecision(d) && ReadDecision(row) == d && row.incidentId == d.incidentId
    ensures TrailsMatch(db.(decisions := db.decisions + [row]), AddDecision(s, d.incidentId, d.status, d.actor, d.decidedAt))
  {
    DecisionEncoded(db.decisions, row, d);
    DecisionListed(db.decisions, s, row, d);
  }

  lemma DecisionRepresents(db: Tables, s: State, inc: Incident, actor: string)
    requires Represents(db, s) && Enabled(s, RecordDecision(inc, actor)) && WholeWrite(RecordDecision(inc, actor))
    ensures var w := RecordDecision(inc, actor);
            var db', s' := Commit(db, w).value, Apply(s, w);
            RowsMatch(db', s') && HistoriesMatch(db', s') && TrailsMatch(db', s')
  {
    var d := Decision(inc.id, inc.status, actor, inc.updatedAt);
    DecisionRoundTrip(d);
    DecisionRowsMatch(db, s, inc, actor);
    DecisionHistories(db, s, inc, actor);
    DecisionTrails(db, s, EncodeDecision(d), d);
  }

  /** A write that is next for its key succeeds, and the tables then represent its effect. */
  lemma CommitRepresents(db: Tables, s: State, w: Write)
    requires Represents(db, s) && Enabled(s, w) && WholeWrite(w)
    ensures Commit(db, w).Some? && Represents(Commit(db, w).value, Apply(s, w))
  {
    ApplyKeepsInv(s, w);
    ApplyKeepsWhole(s, w);
    match w
    case InsertIncident(inc) =>
      InsertSucceeds(db, s, inc);
      InsertRows(db, s, inc, EncodeIncident(inc));
      InsertHistories(db, s, inc, EncodeIncident(inc));
      InsertTrails(db, s, inc, EncodeIncident(inc));
    case RecordDecision(inc, actor) => DecisionRepresents(db, s, inc, actor);
  }
}
