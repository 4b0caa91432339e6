/** When a database step leaves the tables in a state a restart can use, and what happens when
    one step overtakes another.  Nothing in internal/persistence/store.go orders the database
    steps of concurrent operations, so the ordering assumption of WriteThrough is a real one. */
module WriteOrder {
  import opened Sequences
  import opened Decimal
  import opened Rfc3339
  import opened Incidents
  import opened IncidentStore
  import opened Lifecycle
  import opened IncidentTables
  import opened StableSort
  import WriteThrough

  /** A restart from the tables finds a consistent store. */
  ghost predicate ConsistentRestart(db: Tables) {
    Rebuild(db).Some? && Inv(Rebuild(db).value)
  }

  /** A write some memory step may have issued, as far as the tables can tell: an insert is of a
      new active incident, a decision closes an incident of its own key. */
  ghost predicate Plausible(s: State, w: Write) {
    match w
    case InsertIncident(inc) => inc.id !in s.incidents && inc.status == Active && inc.updatedAt == inc.createdAt
    case RecordDecision(inc, _) =>
      inc.status != Active && (inc.id in s.incidents ==> s.incidents[inc.id].key == inc.key)
  }

  // ----- reading single facts back -----

  /** An incident read back from some tables has the status of a row with its identifier. */
  lemma StatusFromRow(db: Tables, id: string, row: IncidentRow)
    requires row in db.incidents && row.id == id
    requires forall r :: r in db.incidents && r.id == id ==> r.status == row.status && r.key == row.key
    ensures id in Recovered(db).incidents
    ensures Recovered(db).incidents[id].status == row.status && Recovered(db).incidents[id].key == row.key
  {
    RecoveredFrom(db, id);
  }

  lemma RebuiltIncidents(db: Tables)
    requires Rebuild(db).Some?
    ensures Rebuild(db).value.incidents == Recovered(db).incidents
  {
    RecoveredShape(Sort(RowBefore, db.incidents));
    RestoreFresh(Map(ReadIncident, Sort(RowBefore, db.incidents)), Trails(ReadDecision, Sort(DecisionBefore, db.decisions)));
  }

  lemma RebuiltTrail(db: Tables, id: string, g: seq<DecisionRow>)
    requires Rebuild(db).Some? && g == Filter(About(id), Sort(DecisionBefore, db.decisions))
    ensures TrailOf(Rebuild(db).value, id) == Map(ReadDecision, g)
  {
    RecoveredShape(Sort(RowBefore, db.incidents));
    RestoreFresh(Map(ReadIncident, Sort(RowBefore, db.incidents)), Trails(ReadDecision, Sort(DecisionBefore, db.decisions)));
    TrailsOf(ReadDecision, Sort(DecisionBefore, db.decisions), id);
  }

  // ----- a decision without its incident -----

  /** Decision rows about an incident that has no row of its own break the audit trail. */
  lemma OrphanTrail(db: Tables, id: string, row: DecisionRow)
    requires row in db.decisions && row.incidentId == id
    requires forall r :: r in db.incidents ==> r.id != id
    requires Rebuild(db).Some?
    ensures !Audited(Rebuild(db).value)
  {
    var g := Filter(About(id), Sort(DecisionBefore, db.decisions));
    RebuiltIncidents(db);
    RebuiltTrail(db, id, g);
    RecoveredFrom(db, id);
    SortMembers(DecisionBefore, db.decisions);
    assert row in g;
    assert TrailOf(Rebuild(db).value, id) != [];
  }

  /** The decision is stored while its incident is not: its trail belongs to nothing. */
  lemma DecisionWithoutIncident(db: Tables, decided: Incident, actor: string)
    requires forall r :: r in db.incidents ==> r.id != decided.id
    ensures !ConsistentRestart(Commit(db, RecordDecision(decided, actor)).value)
  {
    var db' := Commit(db, RecordDecision(decided, actor)).value;
    var row := EncodeDecision(Decision(decided.id, decided.status, actor, decided.updatedAt));
    assert db'.decisions[|db.decisions|] == row;
    forall r | r in db'.incidents ensures r.id != decided.id {
      var i :| 0 <= i < |db'.incidents| && db'.incidents[i] == r;
      assert db.incidents[i] in db.incidents;
    }
    if Rebuild(db').Some? {
      OrphanTrail(db', decided.id, row);
    }
  }

  // ----- a decision stored after a later one -----

  lemma LastOfGroup(g: seq<DecisionRow>, r: DecisionRow)
    requires Sorted(DecisionBefore, g) && r in g
    ensures !DecisionBefore(g[|g| - 1], r)
  {
    var i :| 0 <= i < |g| && g[i] == r;
    TextLessTrichotomy(r.decidedAt, r.decidedAt);
  }

  lemma GroupSorted(rows: seq<DecisionRow>, id: string)
    ensures Sorted(DecisionBefore, Filter(About(id), Sort(DecisionBefore, rows)))
  {
    DecisionBeforeIsWeakOrder();
    FilterSort(DecisionBefore, About(id), rows);
    SortSorted(DecisionBefore, Filter(About(id), rows));
  }

  lemma GroupMember(rows: seq<DecisionRow>, id: string, r: DecisionRow)
    ensures r in Filter(About(id), Sort(DecisionBefore, rows)) <==> r in rows && r.incidentId == id
  {
    SortMembers(DecisionBefore, rows);
  }

  lemma NotBeforeIsNotEarlier(a: DecisionRow, b: DecisionRow)
    requires a == EncodeDecision(ReadDecision(a)) && b == EncodeDecision(ReadDecision(b)) && !DecisionBefore(a, b)
    ensures SecondsOf(ReadDecision(b).decidedAt) <= SecondsOf(ReadDecision(a).decidedAt)
  {
    TextOrderIsChronological(ReadDecision(a).decidedAt, ReadDecision(b).decidedAt);
  }

  lemma GroupEnd(rows: seq<DecisionRow>, id: string, r: DecisionRow) returns (last: DecisionRow)
    requires r in rows && r.incidentId == id
    ensures last in rows && !DecisionBefore(last, r)
    ensures var g := Filter(About(id), Sort(DecisionBefore, rows)); g != [] && g[|g| - 1] == last
  {
    var g := Filter(About(id), Sort(DecisionBefore, rows));
    GroupSorted(rows, id);
    GroupMember(rows, id, r);
    last := g[|g| - 1];
    GroupMember(rows, id, last);
    LastOfGroup(g, r);
  }

  /** A trail read from the rows in order ends with one that is not before any of them. */
  lemma TrailEnd(read: DecisionRow -> Decision, rows: seq<DecisionRow>, id: string, r: DecisionRow, trail: seq<Decision>)
    returns (last: DecisionRow)
    requires r in rows && r.incidentId == id && trail == Map(read, Filter(About(id), Sort(DecisionBefore, rows)))
    ensures last in rows && !DecisionBefore(last, r)
    ensures trail != [] && trail[|trail| - 1] == read(last)
  {
    last := GroupEnd(rows, id, r);
  }

  /** Every row of the incident carries the update time of the statement. */
  lemma UpdatedTime(db: Tables, inc: Incident, actor: string, r: IncidentRow)
    requires WholeWrite(RecordDecision(inc, actor))
    requires r in Commit(db, RecordDecision(inc, actor)).value.incidents && r.id == inc.id
    ensures ReadIncident(r).updatedAt == inc.updatedAt
  {
    ParseFormat(inc.updatedAt);
  }

  lemma DecisionsStayEncoded(db: Tables, inc: Incident, actor: string)
    requires DecisionsEncoded(db.decisions) && WholeWrite(RecordDecision(inc, actor))
    ensures DecisionsEncoded(Commit(db, RecordDecision(inc, actor)).value.decisions)
  {
    var d := Decision(inc.id, inc.status, actor, inc.updatedAt);
    DecisionRoundTrip(d);
    DecisionEncoded(db.decisions, EncodeDecision(d), d);
  }

  lemma StoredDecision(rows: seq<DecisionRow>, s: State, id: string) returns (r: DecisionRow)
    requires TrailsListed(rows, s) && TrailOf(s, id) != []
    ensures r in rows && r.incidentId == id && SecondsOf(ReadDecision(r).decidedAt) == LastSecond(TrailOf(s, id))
  {
    var g := Filter(About(id), rows);
    assert Map(ReadDecision, g) == TrailOf(s, id);
    r := g[|g| - 1];
    assert r in g;
  }

  lemma AuditedTime(t: State, id: string)
    requires Audited(t) && id in t.incidents && TrailOf(t, id) != []
    ensures t.incidents[id].updatedAt == TrailOf(t, id)[|TrailOf(t, id)| - 1].decidedAt
  {
    assert AuditedAt(t, id);
  }

  /** An incident restored after a decision carries the decision's time. */
  lemma RestoredTime(db: Tables, inc: Incident, actor: string, db': Tables)
    requires WholeWrite(RecordDecision(inc, actor)) && db' == Commit(db, RecordDecision(inc, actor)).value
    requires Rebuild(db').Some? && inc.id in Rebuild(db').value.incidents
    ensures Rebuild(db').value.incidents[inc.id].updatedAt == inc.updatedAt
  {
    RebuiltIncidents(db');
    RecoveredFrom(db', inc.id);
    var row :| row in db'.incidents && row.id == inc.id && Recovered(db').incidents[inc.id] == ReadIncident(row);
    UpdatedTime(db, inc, actor, row);
  }

  /** The trail of a restored incident ends no earlier than any of its stored decisions. */
  lemma RestoredTrailEnd(db: Tables, id: string, r: DecisionRow, trail: seq<Decision>)
    requires DecisionsEncoded(db.decisions) && r in db.decisions && r.incidentId == id
    requires Rebuild(db).Some? && trail == TrailOf(Rebuild(db).value, id)
    ensures trail != [] && SecondsOf(ReadDecision(r).decidedAt) <= SecondsOf(trail[|trail| - 1].decidedAt)
  {
    RebuiltTrail(db, id, Filter(About(id), Sort(DecisionBefore, db.decisions)));
    var last := TrailEnd(ReadDecision, db.decisions, id, r, trail);
    NotBeforeIsNotEarlier(last, r);
  }

  /** After a consistent restart no stored decision is later than its incident's update time. */
  lemma NoLaterDecision(db: Tables, id: string, r: DecisionRow)
    requires ConsistentRestart(db) && DecisionsEncoded(db.decisions) && r in db.decisions && r.incidentId == id
    ensures id in Rebuild(db).value.incidents
    ensures SecondsOf(ReadDecision(r).decidedAt) <= SecondsOf(Rebuild(db).value.incidents[id].updatedAt)
  {
    var t := Rebuild(db).value;
    RestoredTrailEnd(db, id, r, TrailOf(t, id));
    AuditedTime(t, id);
  }

  lemma AppendedRow(db: Tables, inc: Incident, actor: string, r: DecisionRow)
    requires r in db.decisions
    ensures r in Commit(db, RecordDecision(inc, actor)).value.decisions
  {
  }

  /** A decision stored after a later one on the same incident leaves its time in the row,
      although the trail ends with the later one. */
  lemma DecisionAfterLater(db: Tables, s: State, inc: Incident, actor: string)
    requires TrailsMatch(db, s) && WholeWrite(RecordDecision(inc, actor))
    requires TrailOf(s, inc.id) != [] && SecondsOf(inc.updatedAt) < LastSecond(TrailOf(s, inc.id))
    ensures !ConsistentRestart(Commit(db, RecordDecision(inc, actor)).value)
  {
    var db' := Commit(db, RecordDecision(inc, actor)).value;
    if ConsistentRestart(db') {
      var r := StoredDecision(db.decisions, s, inc.id);
      AppendedRow(db, inc, actor, r);
      DecisionsStayEncoded(db, inc, actor);
      NoLaterDecision(db', inc.id, r);
      RestoredTime(db, inc, actor, db');
      assert false;
    }
  }

  // ----- an insert that is not the next occurrence of its key -----

  ghost predicate OnlyRow(rows: seq<IncidentRow>, row: IncidentRow) {
    row in rows && forall r :: r in rows && r.id == row.id ==> r == row
  }

  lemma AppendKeepsOnly(rows: seq<IncidentRow>, row: IncidentRow, added: IncidentRow)
    requires OnlyRow(rows, row) && forall r :: r in rows ==> r.id != added.id
    ensures OnlyRow(rows + [added], row) && OnlyRow(rows + [added], added)
  {
    assert (rows + [added])[|rows|] == added;
  }

  lemma StoredOnly(db: Tables, s: State, id: string)
    requires Represents(db, s) && id in s.incidents
    ensures OnlyRow(db.incidents, EncodeIncident(s.incidents[id]))
  {
    RowOf(db, s, id);
    assert Placed(s, id);
  }

  /** Two active rows of one key are two active occurrences after a restart. */
  lemma TwoActiveRows(db: Tables, a: IncidentRow, b: IncidentRow)
    requires OnlyRow(db.incidents, a) && OnlyRow(db.incidents, b) && a.id != b.id && a.key == b.key && a.status == b.status == Active
    ensures !ConsistentRestart(db)
  {
    if ConsistentRestart(db) {
      var t := Rebuild(db).value;
      RebuiltIncidents(db);
      StatusFromRow(db, a.id, a);
      StatusFromRow(db, b.id, b);
      AtMostOneActive(t, a.id, b.id);
      assert false;
    }
  }

  lemma InsertBesideActive(db: Tables, inc: Incident, a: IncidentRow)
    requires OnlyRow(db.incidents, a) && a.status == inc.status == Active && a.key == inc.key && a.id != inc.id
    requires forall r :: r in db.incidents ==> r.id != inc.id
    ensures Commit(db, InsertIncident(inc)).Some? && !ConsistentRestart(Commit(db, InsertIncident(inc)).value)
  {
    AppendKeepsOnly(db.incidents, a, EncodeIncident(inc));
    TwoActiveRows(Commit(db, InsertIncident(inc)).value, a, EncodeIncident(inc));
  }

  lemma OngoingIsStored(s: State, key: string)
    requires Linked(s) && Ongoing(s, key).Some?
    ensures var last := Ongoing(s, key).value;
            IsActive(s, last.id) && s.incidents[last.id] == last && last.key == key
  {
    var h := HistoryOf(s, key);
    assert Dense(s, key, |h| - 1) && Placed(s, h[|h| - 1]);
  }

  /** The next occurrence is stored while the last one is still active in the tables: a restart
      finds two active occurrences of one key. */
  lemma RecurrenceBesideActive(db: Tables, s: State, inc: Incident)
    requires Represents(db, s) && inc.id !in s.incidents && inc.status == Active && Ongoing(s, inc.key) != None
    ensures Commit(db, InsertIncident(inc)).Some? && !ConsistentRestart(Commit(db, InsertIncident(inc)).value)
  {
    OngoingIsStored(s, inc.key);
    var last := Ongoing(s, inc.key).value;
    StoredOnly(db, s, last.id);
    InsertBesideActive(db, inc, EncodeIncident(last));
  }

  /** An incident restored from the tables stands in a row with its key and number. */
  lemma RestoredRow(db: Tables, id: string) returns (r: IncidentRow)
    requires Rebuild(db).Some? && id in Rebuild(db).value.incidents
    ensures r in db.incidents && r.id == id
    ensures var inc := Rebuild(db).value.incidents[id]; inc.key == r.key && inc.sequence == r.sequence
  {
    RebuiltIncidents(db);
    RecoveredFrom(db, id);
    r :| r in db.incidents && r.id == id && Recovered(db).incidents[id] == ReadIncident(r);
  }

  lemma RowRestored(db: Tables, row: IncidentRow)
    requires Rebuild(db).Some? && OnlyRow(db.incidents, row)
    ensures row.id in Rebuild(db).value.incidents
    ensures var inc := Rebuild(db).value.incidents[row.id]; inc.key == row.key && inc.sequence == row.sequence
  {
    RebuiltIncidents(db);
    RecoveredFrom(db, row.id);
  }

  lemma SequenceOfRow(db: Tables, s: State, r: IncidentRow)
    requires Linked(s) && RowsMatch(db, s) && r in db.incidents
    ensures 1 <= r.sequence <= |HistoryOf(s, r.key)|
  {
    assert Placed(s, r.id);
  }

  /** In a consistent store every number up to an occurrence's own is taken. */
  lemma NumbersTaken(t: State, id: string, n: nat) returns (x: string)
    requires Linked(t) && id in t.incidents && 1 <= n <= t.incidents[id].sequence
    ensures x in t.incidents && t.incidents[x].key == t.incidents[id].key && t.incidents[x].sequence == n
  {
    assert Placed(t, id);
    assert Dense(t, t.incidents[id].key, n - 1);
    x := HistoryOf(t, t.incidents[id].key)[n - 1];
  }

  /** In a consistent store a key's number names one incident. */
  lemma NumberIsUnique(t: State, x: string, y: string)
    requires Linked(t) && x in t.incidents && y in t.incidents
    requires t.incidents[x].key == t.incidents[y].key && t.incidents[x].sequence == t.incidents[y].sequence
    ensures x == y
  {
    assert Placed(t, x) && Placed(t, y);
  }

  lemma NumberIsPositive(t: State, id: string)
    requires Linked(t) && id in t.incidents
    ensures t.incidents[id].sequence >= 1
  {
    assert Placed(t, id);
  }

  lemma GapStays(db: Tables, s: State, row: IncidentRow, r: IncidentRow)
    requires Linked(s) && RowsMatch(db, s) && row.sequence > |HistoryOf(s, row.key)| + 1
    requires r in db.incidents + [row] && r.key == row.key
    ensures r.sequence != |HistoryOf(s, row.key)| + 1
  {
    if r in db.incidents {
      SequenceOfRow(db, s, r);
    }
  }

  /** A number too high leaves a gap no row fills. */
  lemma GapInHistory(db: Tables, s: State, row: IncidentRow, db': Tables)
    requires Linked(s) && RowsMatch(db, s) && row.sequence > |HistoryOf(s, row.key)| + 1
    requires db'.incidents == db.incidents + [row] && OnlyRow(db'.incidents, row)
    ensures !ConsistentRestart(db')
  {
    if ConsistentRestart(db') {
      var n := |HistoryOf(s, row.key)| + 1;
      RowRestored(db', row);
      var x := NumbersTaken(Rebuild(db').value, row.id, n);
      var r := RestoredRow(db', x);
      GapStays(db, s, row, r);
      assert false;
    }
  }

  /** A number already used puts two incidents in one place. */
  lemma NumberUsedTwice(db: Tables, row: IncidentRow, other: IncidentRow)
    requires OnlyRow(db.incidents, row) && OnlyRow(db.incidents, other)
    requires row.id != other.id && row.key == other.key && row.sequence == other.sequence
    ensures !ConsistentRestart(db)
  {
    if ConsistentRestart(db) {
      RowRestored(db, row);
      RowRestored(db, other);
      NumberIsUnique(Rebuild(db).value, row.id, other.id);
      assert false;
    }
  }

  lemma NumberZero(db: Tables, row: IncidentRow)
    requires OnlyRow(db.incidents, row) && row.sequence == 0
    ensures !ConsistentRestart(db)
  {
    if ConsistentRestart(db) {
      RowRestored(db, row);
      NumberIsPositive(Rebuild(db).value, row.id);
      assert false;
    }
  }

  lemma NewRowIsOnly(db: Tables, s: State, row: IncidentRow)
    requires RowsMatch(db, s) && row.id !in s.incidents
    ensures OnlyRow(db.incidents + [row], row)
    ensures forall r :: OnlyRow(db.incidents, r) ==> OnlyRow(db.incidents + [row], r)
  {
    assert (db.incidents + [row])[|db.incidents|] == row;
  }

  lemma UsedNumber(db: Tables, s: State, row: IncidentRow, db': Tables)
    requires Represents(db, s) && row.id !in s.incidents && 1 <= row.sequence <= |HistoryOf(s, row.key)|
    requires db'.incidents == db.incidents + [row]
    ensures !ConsistentRestart(db')
  {
    assert Dense(s, row.key, row.sequence - 1);
    var id := HistoryOf(s, row.key)[row.sequence - 1];
    StoredOnly(db, s, id);
    NewRowIsOnly(db, s, row);
    assert Placed(s, id);
    NumberUsedTwice(db', row, EncodeIncident(s.incidents[id]));
  }

  /** An occurrence that is not the next of its key, as far as the tables go, breaks the history. */
  lemma OutOfSequence(db: Tables, s: State, inc: Incident)
    requires Represents(db, s) && inc.id !in s.incidents && inc.sequence != |HistoryOf(s, inc.key)| + 1
    ensures Commit(db, InsertIncident(inc)).Some? && !ConsistentRestart(Commit(db, InsertIncident(inc)).value)
  {
    InsertSucceeds(db, s, inc);
    var db' := Commit(db, InsertIncident(inc)).value;
    NewRowIsOnly(db, s, EncodeIncident(inc));
    if inc.sequence == 0 {
      NumberZero(db', EncodeIncident(inc));
    } else if inc.sequence <= |HistoryOf(s, inc.key)| {
      UsedNumber(db, s, EncodeIncident(inc), db');
    } else {
      GapInHistory(db, s, EncodeIncident(inc), db');
    }
  }

  // ----- one statement -----

  lemma InsertIsConsistent(db: Tables, s: State, inc: Incident)
    requires Represents(db, s) && WholeWrite(InsertIncident(inc)) && Plausible(s, InsertIncident(inc))
    ensures Commit(db, InsertIncident(inc)).Some?
    ensures !Enabled(s, InsertIncident(inc)) ==> !ConsistentRestart(Commit(db, InsertIncident(inc)).value)
  {
    InsertSucceeds(db, s, inc);
    if inc.sequence != |HistoryOf(s, inc.key)| + 1 {
      OutOfSequence(db, s, inc);
    } else if Ongoing(s, inc.key) != None {
      RecurrenceBesideActive(db, s, inc);
    }
  }

  lemma DecisionIsConsistent(db: Tables, s: State, inc: Incident, actor: string)
    requires Represents(db, s) && WholeWrite(RecordDecision(inc, actor)) && Plausible(s, RecordDecision(inc, actor))
    requires !Enabled(s, RecordDecision(inc, actor))
    ensures !ConsistentRestart(Commit(db, RecordDecision(inc, actor)).value)
  {
    if inc.id !in s.incidents {
      DecisionWithoutIncident(db, inc, actor);
    } else {
      DecisionAfterLater(db, s, inc, actor);
    }
  }

  /** Storing a write leaves tables a restart can use exactly when the write is next for its key
      as far as the tables go: an insert continues the stored history, whose last occurrence is
      closed; a decision finds its incident and is not earlier than the stored ones. */
  lemma CommitIsConsistent(db: Tables, s: State, w: Write)
    requires Represents(db, s) && WholeWrite(w) && Plausible(s, w)
    ensures Commit(db, w).Some?
    ensures ConsistentRestart(Commit(db, w).value) <==> Enabled(s, w)
  {
    if Enabled(s, w) {
      CommitRepresents(db, s, w);
      RebuildRepresented(Commit(db, w).value, Apply(s, w));
    } else {
      match w
      case InsertIncident(inc) => InsertIsConsistent(db, s, inc);
      case RecordDecision(inc, actor) => DecisionIsConsistent(db, s, inc, actor);
    }
  }

  // ----- two statements -----

  /** Two writes of which `b` needs `a` to have reached the tables: the decision on the incident
      `a` inserts, or an insert for a key whose last stored occurrence is still active. */
  predicate Depends(s: State, a: Write, b: Write) {
    || (a.InsertIncident? && b.RecordDecision? && a.inc.id == b.inc.id)
    || (b.InsertIncident? && Ongoing(s, b.inc.key) != None)
  }

  /** Two different decisions on one incident. */
  predicate Conflict(a: Write, b: Write) {
    && a.RecordDecision? && b.RecordDecision? && a.inc.id == b.inc.id
    && (a.inc.status != b.inc.status || a.actor != b.actor || a.inc.updatedAt != b.inc.updatedAt)
  }

  lemma EnabledWithout(s: State, a: Write, b: Write)
    requires Inv(s) && Enabled(s, a) && Enabled(Apply(s, a), b)
    ensures Enabled(s, b) <==> !Depends(s, a, b)
  {
  }

  lemma PlausibleWithout(s: State, a: Write, b: Write)
    requires Inv(s) && Enabled(s, a) && Enabled(Apply(s, a), b)
    ensures Plausible(s, b)
  {
  }

  /** When the first of two writes is lost, the second leaves tables a restart can use exactly
      when it does not depend on the first. */
  lemma LostWriteIsSafe(db: Tables, s: State, a: Write, b: Write)
    requires Represents(db, s) && WholeWrite(b) && Enabled(s, a) && Enabled(Apply(s, a), b)
    ensures Commit(db, b).Some?
    ensures ConsistentRestart(Commit(db, b).value) <==> !Depends(s, a, b)
  {
    EnabledWithout(s, a, b);
    PlausibleWithout(s, a, b);
    CommitIsConsistent(db, s, b);
  }

  /** What two writes that arrive in the other order have to leave: between them a restart finds
      a consistent store that is a prefix of memory, and after them it finds memory. */
  ghost predicate SafeOvertaking(db: Tables, a: Write, b: Write, memory: State) {
    && Commit(db, b).Some?
    && var between := Commit(db, b).value;
       && ConsistentRestart(between) && Extends(Rebuild(between).value, memory)
       && Commit(between, a).Some? && Rebuild(Commit(between, a).value) == Some(memory)
  }

  lemma SameKeyEnabled(s: State, a: Write, b: Write)
    requires Inv(s) && a.inc.key == b.inc.key && a.inc.id != b.inc.id
    requires Enabled(s, a) && Enabled(Apply(s, a), b) && !Depends(s, a, b)
    ensures Enabled(Apply(s, b), a) && !(a.InsertIncident? && b.InsertIncident?)
  {
  }

  lemma IndependentSwap(s: State, a: Write, b: Write)
    requires Inv(s) && Enabled(s, a) && Enabled(Apply(s, a), b) && !Depends(s, a, b) && !Conflict(a, b)
    ensures Enabled(s, b) && Enabled(Apply(s, b), a) && Apply(Apply(s, a), b) == Apply(Apply(s, b), a)
  {
    EnabledWithout(s, a, b);
    if a.inc.key != b.inc.key {
      WriteThrough.SwapWrites(s, a, b);
    } else if a.inc.id != b.inc.id {
      SameKeyEnabled(s, a, b);
      WriteThrough.ApplyCommutes(s, a, b);
    }
  }

  lemma IndependentIsSafe(db: Tables, s: State, a: Write, b: Write)
    requires Represents(db, s) && WholeWrite(a) && WholeWrite(b) && Enabled(s, a) && Enabled(Apply(s, a), b)
    requires !Depends(s, a, b) && !Conflict(a, b)
    ensures SafeOvertaking(db, a, b, Apply(Apply(s, a), b))
  {
    IndependentSwap(s, a, b);
    CommitRepresents(db, s, b);
    var between := Commit(db, b).value;
    RebuildRepresented(between, Apply(s, b));
    CommitRepresents(between, Apply(s, b), a);
    RebuildRepresented(Commit(between, a).value, Apply(Apply(s, b), a));
    ApplyKeepsInv(Apply(s, b), a);
  }

  lemma RestartElsewhere(db: Tables, s: State, a: Write, memory: State)
    requires Represents(db, s) && WholeWrite(a) && Plausible(s, a) && Inv(memory) && Apply(s, a) != memory
    ensures Commit(db, a).Some? && Rebuild(Commit(db, a).value) != Some(memory)
  {
    CommitIsConsistent(db, s, a);
    if Enabled(s, a) {
      CommitRepresents(db, s, a);
      RebuildRepresented(Commit(db, a).value, Apply(s, a));
    }
  }

  /** Two different decisions stored in the other order: with different seconds the row and the
      trail disagree, within one second the trail comes back in the wrong order. */
  lemma ConflictShows(db: Tables, s: State, a: Write, b: Write)
    requires Represents(db, s) && WholeWrite(a) && WholeWrite(b) && Enabled(s, a) && Enabled(Apply(s, a), b)
    requires Conflict(a, b)
    ensures !SafeOvertaking(db, a, b, Apply(Apply(s, a), b))
  {
    ApplyKeepsInv(s, a);
    ApplyKeepsInv(Apply(s, a), b);
    CommitRepresents(db, s, b);
    SwappedTrail(s, a, b);
    RestartElsewhere(Commit(db, b).value, Apply(s, b), a, Apply(Apply(s, a), b));
  }

  lemma SwappedTrail(s: State, a: Write, b: Write)
    requires Conflict(a, b)
    ensures Apply(Apply(s, a), b) != Apply(Apply(s, b), a)
  {
    var id, n := a.inc.id, |TrailOf(s, a.inc.id)|;
    assert TrailOf(Apply(Apply(s, a), b), id)[n] == Decision(id, a.inc.status, a.actor, a.inc.updatedAt);
    assert TrailOf(Apply(Apply(s, b), a), id)[n] == Decision(id, b.inc.status, b.actor, b.inc.updatedAt);
  }

  /** Of two writes issued in the order `a`, `b`, the second may reach the tables first exactly
      when it does not depend on the first and they are not different decisions on one incident. */
  lemma OvertakingIsSafe(db: Tables, s: State, a: Write, b: Write)
    requires Represents(db, s) && WholeWrite(a) && WholeWrite(b) && Enabled(s, a) && Enabled(Apply(s, a), b)
    ensures SafeOvertaking(db, a, b, Apply(Apply(s, a), b)) <==> !Depends(s, a, b) && !Conflict(a, b)
  {
    LostWriteIsSafe(db, s, a, b);
    if Conflict(a, b) {
      ConflictShows(db, s, a, b);
    } else if !Depends(s, a, b) {
      IndependentIsSafe(db, s, a, b);
    }
  }
}
