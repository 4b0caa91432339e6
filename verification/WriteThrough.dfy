/** The write-through protocol (internal/persistence/store.go) as interleaved steps.  An
    operation changes memory under the lock and writes to the database outside it, so other
    operations, a crash or a restart may come in between. */
module WriteThrough {
  import opened Sequences
  import opened Rfc3339
  import opened Incidents
  import opened IncidentStore
  import opened Lifecycle
  import opened IncidentTables

  /** `pending` holds the writes of finished memory steps that have not reached the database,
      in memory-step order. */
  datatype System = System(memory: State, tables: Tables, pending: seq<Write>, clock: Instant)

  datatype Event =
    | UpsertEvent(candidate: Candidate, now: Instant)
    | DecideEvent(id: string, status: Status, actor: string, now: Instant)
    | CommitEvent(index: nat)
    | FailEvent(index: nat)
    | CrashEvent

  function TruncWrite(w: Write): Write {
    w.(inc := TruncIncident(w.inc))
  }

  /** The write an operation leaves to be done, if its memory step changed anything. */
  function WriteOf(s: State, ev: Event, hash: Hash): Option<Write> {
    match ev
    case UpsertEvent(c, now) =>
      var r := Upsert(s, c, now, hash);
      if r.created then Some(InsertIncident(r.incident)) else None
    case DecideEvent(id, status, actor, now) =>
      var r := Decide(s, id, status, actor, now);
      if r.Decided? then Some(RecordDecision(r.incident, actor)) else None
    case _ => None
  }

  function OpOf(ev: Event): Op
    requires ev.UpsertEvent? || ev.DecideEvent?
  {
    match ev
    case UpsertEvent(c, now) => UpsertOp(c, now)
    case DecideEvent(id, status, actor, now) => DecideOp(id, status, actor, now)
  }

  function NowOf(ev: Event): Instant
    requires ev.UpsertEvent? || ev.DecideEvent?
  {
    match ev
    case UpsertEvent(c, now) => now
    case DecideEvent(id, status, actor, now) => now
  }

  /** One step.  A failing statement is given up: the caller gets an error and memory keeps the
      change.  A crash loses memory and every pending write and recovers from the tables. */
  function NextSystem(sys: System, ev: Event, hash: Hash): Option<System> {
    match ev
    case CommitEvent(i) =>
      if i >= |sys.pending| then None
      else
        var db := Commit(sys.tables, sys.pending[i]);
        if db.None? then None else Some(sys.(tables := db.value, pending := Without(sys.pending, i)))
    case FailEvent(i) =>
      if i >= |sys.pending| then None else Some(sys.(pending := Without(sys.pending, i)))
    case CrashEvent =>
      var s := Rebuild(sys.tables);
      if s.None? then None else Some(sys.(memory := s.value, pending := []))
    case _ =>
      var w := WriteOf(sys.memory, ev, hash);
      Some(sys.(memory := Step(sys.memory, OpOf(ev), hash), clock := NowOf(ev),
                pending := if w.None? then sys.pending else sys.pending + [TruncWrite(w.value)]))
  }

  /** No earlier pending write belongs to the same occurrence key. */
  predicate FirstOfKey(pending: seq<Write>, i: nat)
    requires i < |pending|
  {
    forall j :: 0 <= j < i ==> pending[j].inc.key != pending[i].inc.key
  }

  /** The protocol's assumptions: sound operations at non-decreasing times, and writes for one
      occurrence key reaching the database in the order of their memory steps, none failing.
      WriteOrder and WriteFaults say what their absence costs. */
  predicate Admissible(sys: System, ev: Event, hash: Hash) {
    match ev
    case CommitEvent(i) => i < |sys.pending| && FirstOfKey(sys.pending, i)
    case FailEvent(_) => false
    case CrashEvent => true
    case _ => sys.clock <= NowOf(ev) && Sound(sys.memory, OpOf(ev), hash)
  }

  // ----- pending writes -----

  function ApplyAll(s: State, ws: seq<Write>): State
    decreases |ws|
  {
    if ws == [] then s else ApplyAll(Apply(s, ws[0]), ws[1..])
  }

  /** Each write is next for its key when its turn comes. */
  ghost predicate Runs(s: State, ws: seq<Write>)
    decreases |ws|
  {
    ws != [] ==> Enabled(s, ws[0]) && WholeWrite(ws[0]) && Runs(Apply(s, ws[0]), ws[1..])
  }

  lemma {:induction false} RunsAppend(s: State, ws: seq<Write>, w: Write)
    requires Runs(s, ws) && Enabled(ApplyAll(s, ws), w) && WholeWrite(w)
    ensures Runs(s, ws + [w]) && ApplyAll(s, ws + [w]) == Apply(ApplyAll(s, ws), w)
    decreases |ws|
  {
    if ws == [] {
      assert [w][1..] == [];
    } else {
      assert (ws + [w])[1..] == ws[1..] + [w];
      RunsAppend(Apply(s, ws[0]), ws[1..], w);
    }
  }

  /** Writes that wait never lose anything the tables already hold. */
  lemma {:induction false} RunsExtend(s: State, ws: seq<Write>)
    requires Inv(s) && Runs(s, ws)
    ensures Inv(ApplyAll(s, ws)) && Extends(s, ApplyAll(s, ws))
    decreases |ws|
  {
    if ws != [] {
      ApplyKeepsInv(s, ws[0]);
      RunsExtend(Apply(s, ws[0]), ws[1..]);
      ExtendsTransitive(s, Apply(s, ws[0]), ApplyAll(s, ws));
    }
  }

  /** Writes of different keys touch different incidents. */
  lemma DifferentIncidents(s: State, a: Write, b: Write)
    requires Inv(s) && a.inc.key != b.inc.key && Enabled(s, a) && Enabled(Apply(s, a), b)
    ensures a.inc.id != b.inc.id
  {
  }

  lemma OngoingDependsOnLast(s: State, t: State, key: string)
    requires HistoryOf(s, key) == HistoryOf(t, key)
    requires var h := HistoryOf(s, key);
             h != [] ==> var last := h[|h| - 1]; last in s.incidents && last in t.incidents && s.incidents[last] == t.incidents[last]
    ensures Ongoing(s, key) == Ongoing(t, key)
  {
  }

  lemma HistoryKeepsStatus(s: State, a: Write, key: string)
    requires Linked(s) && Enabled(s, a) && key != a.inc.key
    ensures HistoryOf(Apply(s, a), key) == HistoryOf(s, key)
    ensures Ongoing(Apply(s, a), key) == Ongoing(s, key)
  {
    var h := HistoryOf(s, key);
    if h != [] {
      assert Dense(s, key, |h| - 1);
      assert h[|h| - 1] != a.inc.id;
    }
    OngoingDependsOnLast(s, Apply(s, a), key);
  }

  lemma EnabledEarlier(s: State, a: Write, b: Write)
    requires Inv(s) && a.inc.key != b.inc.key && Enabled(s, a) && Enabled(Apply(s, a), b)
    ensures Enabled(s, b)
  {
    DifferentIncidents(s, a, b);
    HistoryKeepsStatus(s, a, b.inc.key);
  }

  lemma EnabledLater(s: State, a: Write, b: Write)
    requires Inv(s) && a.inc.key != b.inc.key && a.inc.id != b.inc.id && Enabled(s, a) && Enabled(s, b)
    ensures Enabled(Apply(s, b), a)
  {
    HistoryKeepsStatus(s, b, a.inc.key);
  }

  lemma AddsCommute(s: State, a: Incident, b: Incident)
    requires a.key != b.key && a.id != b.id
    ensures AddIncident(AddIncident(s, a), b) == AddIncident(AddIncident(s, b), a)
  {
    var x, y := AddIncident(AddIncident(s, a), b), AddIncident(AddIncident(s, b), a);
    assert x.incidents == y.incidents && x.byOccurrence == y.byOccurrence;
  }

  lemma AddAndDecideCommute(s: State, a: Incident, b: Incident, actor: string)
    requires a.id != b.id
    ensures AddDecision(AddIncident(s, a), b.id, b.status, actor, b.updatedAt)
         == AddIncident(AddDecision(s, b.id, b.status, actor, b.updatedAt), a)
  {
    var x := AddDecision(AddIncident(s, a), b.id, b.status, actor, b.updatedAt);
    var y := AddIncident(AddDecision(s, b.id, b.status, actor, b.updatedAt), a);
    assert x.incidents == y.incidents;
  }

  lemma DecisionsCommute(s: State, a: Incident, b: Incident, actor: string, actor': string)
    requires a.id != b.id
    ensures AddDecision(AddDecision(s, a.id, a.status, actor, a.updatedAt), b.id, b.status, actor', b.updatedAt)
         == AddDecision(AddDecision(s, b.id, b.status, actor', b.updatedAt), a.id, a.status, actor, a.updatedAt)
  {
    var x := AddDecision(AddDecision(s, a.id, a.status, actor, a.updatedAt), b.id, b.status, actor', b.updatedAt);
    var y := AddDecision(AddDecision(s, b.id, b.status, actor', b.updatedAt), a.id, a.status, actor, a.updatedAt);
    assert x.incidents == y.incidents && x.decisions == y.decisions;
  }

  lemma ApplyCommutes(s: State, a: Write, b: Write)
    requires a.inc.id != b.inc.id && (a.inc.key != b.inc.key || !(a.InsertIncident? && b.InsertIncident?))
    ensures Apply(Apply(s, a), b) == Apply(Apply(s, b), a)
  {
    match (a, b)
    case (InsertIncident(x), InsertIncident(y)) => AddsCommute(s, x, y);
    case (InsertIncident(x), RecordDecision(y, actor)) => AddAndDecideCommute(s, x, y, actor);
    case (RecordDecision(x, actor), InsertIncident(y)) => AddAndDecideCommute(s, y, x, actor);
    case (RecordDecision(x, actor), RecordDecision(y, actor')) => DecisionsCommute(s, x, y, actor, actor');
  }

  /** Two neighbouring writes of different keys may change places. */
  lemma SwapWrites(s: State, a: Write, b: Write)
    requires Inv(s) && a.inc.key != b.inc.key && Enabled(s, a) && Enabled(Apply(s, a), b)
    ensures Enabled(s, b) && Enabled(Apply(s, b), a) && Apply(Apply(s, a), b) == Apply(Apply(s, b), a)
  {
    DifferentIncidents(s, a, b);
    EnabledEarlier(s, a, b);
    EnabledLater(s, a, b);
    ApplyCommutes(s, a, b);
  }

  lemma RunsCons(s: State, a: Write, rest: seq<Write>)
    requires Enabled(s, a) && WholeWrite(a) && Runs(Apply(s, a), rest)
    ensures Runs(s, [a] + rest) && ApplyAll(s, [a] + rest) == ApplyAll(Apply(s, a), rest)
  {
    assert ([a] + rest)[1..] == rest;
  }

  lemma WithoutCons(ws: seq<Write>, i: nat)
    requires 0 < i < |ws|
    ensures Without(ws, i) == [ws[0]] + Without(ws[1..], i - 1) && ws[1..][i - 1] == ws[i]
    ensures FirstOfKey(ws, i) ==> FirstOfKey(ws[1..], i - 1)
  {
  }

  /** A write of another key may go before `a` when it may go right after it. */
  lemma GoBefore(s: State, a: Write, w: Write, rest: seq<Write>)
    requires Inv(s) && Enabled(s, a) && WholeWrite(a) && a.inc.key != w.inc.key
    requires Enabled(Apply(s, a), w) && Runs(Apply(Apply(s, a), w), rest)
    ensures Enabled(s, w) && Runs(Apply(s, w), [a] + rest)
    ensures ApplyAll(Apply(s, w), [a] + rest) == ApplyAll(Apply(Apply(s, a), w), rest)
  {
    SwapWrites(s, a, w);
    RunsCons(Apply(s, w), a, rest);
  }

  lemma WithoutFirst(ws: seq<Write>)
    requires ws != []
    ensures Without(ws, 0) == ws[1..]
  {
  }

  /** A write that is the first of its key may go before everything that is waiting. */
  lemma {:induction false} CommitOutOfOrder(s: State, ws: seq<Write>, i: nat)
    requires Inv(s) && i < |ws| && Runs(s, ws) && FirstOfKey(ws, i)
    ensures Enabled(s, ws[i]) && WholeWrite(ws[i])
    ensures Runs(Apply(s, ws[i]), Without(ws, i))
    ensures ApplyAll(Apply(s, ws[i]), Without(ws, i)) == ApplyAll(s, ws)
    decreases |ws|
  {
    if i == 0 {
      WithoutFirst(ws);
    } else {
      ApplyKeepsInv(s, ws[0]);
      WithoutCons(ws, i);
      CommitOutOfOrder(Apply(s, ws[0]), ws[1..], i - 1);
      GoBefore(s, ws[0], ws[i], Without(ws[1..], i - 1));
    }
  }

  // ----- truncation -----

  lemma TruncApply(s: State, w: Write)
    ensures TruncState(Apply(s, w)) == Apply(TruncState(s), TruncWrite(w))
  {
    var x, y := TruncState(Apply(s, w)), Apply(TruncState(s), TruncWrite(w));
    assert x.incidents == y.incidents;
    assert x.byOccurrence == y.byOccurrence;
    forall id | id in x.decisions ensures id in y.decisions && x.decisions[id] == y.decisions[id] {
      if w.RecordDecision? && id == w.inc.id {
        MapAppend(TruncDecision, TrailOf(s, id), Decision(id, w.inc.status, w.actor, w.inc.updatedAt));
      }
    }
    assert x.decisions == y.decisions;
  }

  lemma TruncEnabled(s: State, w: Write)
    requires Enabled(s, w)
    ensures Enabled(TruncState(s), TruncWrite(w)) && WholeWrite(TruncWrite(w))
  {
    var t := TruncState(s);
    assert HistoryOf(t, w.inc.key) == HistoryOf(s, w.inc.key);
    assert forall id :: IsActive(t, id) <==> IsActive(s, id);
    assert TrailOf(t, w.inc.id) == Map(TruncDecision, TrailOf(s, w.inc.id));
    TruncIdempotent(w.inc.createdAt);
    TruncIdempotent(w.inc.updatedAt);
  }

  // ----- the invariant -----

  /** No decision in memory is later than the clock. */
  ghost predicate NotLater(s: State, clock: Instant) {
    forall id, d :: d in TrailOf(s, id) ==> SecondsOf(d.decidedAt) <= SecondsOf(clock)
  }

  /** The tables hold a consistent state, and the writes that wait turn it into memory's. */
  ghost predicate Backs(db: Tables, pending: seq<Write>, memory: State) {
    && Rebuild(db).Some?
    && Represents(db, Rebuild(db).value)
    && Runs(Rebuild(db).value, pending)
    && ApplyAll(Rebuild(db).value, pending) == TruncState(memory)
  }

  ghost predicate Synchronized(sys: System) {
    Inv(sys.memory) && NotLater(sys.memory, sys.clock) && Backs(sys.tables, sys.pending, sys.memory)
  }

  lemma MemoryStepClock(s: State, ev: Event, hash: Hash, clock: Instant)
    requires ev.UpsertEvent? || ev.DecideEvent?
    requires NotLater(s, clock) && clock <= NowOf(ev)
    ensures NotLater(Step(s, OpOf(ev), hash), NowOf(ev))
  {
    var t := Step(s, OpOf(ev), hash);
    forall id, d | d in TrailOf(t, id) ensures SecondsOf(d.decidedAt) <= SecondsOf(NowOf(ev)) {
      assert d in TrailOf(s, id) || d.decidedAt == NowOf(ev);
    }
  }

  lemma MemoryStepWrite(s: State, ev: Event, hash: Hash, clock: Instant)
    requires ev.UpsertEvent? || ev.DecideEvent?
    requires Linked(s) && NotLater(s, clock) && clock <= NowOf(ev) && Sound(s, OpOf(ev), hash)
    ensures var w, t := WriteOf(s, ev, hash), Step(s, OpOf(ev), hash);
            if w.None? then t == s else Enabled(s, w.value) && t == Apply(s, w.value)
  {
    if ev.DecideEvent? && ev.id in s.incidents {
      var trail := TrailOf(s, ev.id);
      assert Placed(s, ev.id);
      assert trail != [] ==> trail[|trail| - 1] in trail;
    }
  }

  lemma BacksMemoryStep(db: Tables, pending: seq<Write>, memory: State, w: Write)
    requires Inv(memory) && Backs(db, pending, memory) && Enabled(memory, w)
    ensures Backs(db, pending + [TruncWrite(w)], Apply(memory, w))
  {
    TruncEnabled(memory, w);
    TruncApply(memory, w);
    RunsAppend(Rebuild(db).value, pending, TruncWrite(w));
  }

  lemma BacksCommit(db: Tables, pending: seq<Write>, memory: State, i: nat)
    requires Backs(db, pending, memory) && i < |pending| && FirstOfKey(pending, i)
    ensures Commit(db, pending[i]).Some? && Backs(Commit(db, pending[i]).value, Without(pending, i), memory)
  {
    var s, w := Rebuild(db).value, pending[i];
    CommitOutOfOrder(s, pending, i);
    CommitRepresents(db, s, w);
    RebuildRepresented(Commit(db, w).value, Apply(s, w));
  }

  /** Decisions of a restored state are decisions memory held, cut to the second. */
  lemma RestoredNotLater(s: State, memory: State, clock: Instant)
    requires NotLater(memory, clock) && Extends(s, TruncState(memory))
    ensures NotLater(s, clock)
  {
    forall id, d | d in TrailOf(s, id) ensures SecondsOf(d.decidedAt) <= SecondsOf(clock) {
      var trail := TrailOf(memory, id);
      assert TrailOf(s, id) <= TrailOf(TruncState(memory), id) == Map(TruncDecision, trail);
      var i :| 0 <= i < |TrailOf(s, id)| && TrailOf(s, id)[i] == d;
      assert d == TruncDecision(trail[i]) && trail[i] in trail;
    }
  }

  lemma BacksCrash(db: Tables, pending: seq<Write>, memory: State)
    requires Backs(db, pending, memory)
    ensures Backs(db, [], Rebuild(db).value)
    ensures Inv(Rebuild(db).value) && Extends(Rebuild(db).value, TruncState(memory))
  {
    WholeIsTruncated(Rebuild(db).value);
    RunsExtend(Rebuild(db).value, pending);
  }

  lemma NextOfCrash(sys: System, hash: Hash, s: State)
    requires Rebuild(sys.tables) == Some(s)
    ensures NextSystem(sys, CrashEvent, hash) == Some(System(s, sys.tables, [], sys.clock))
  {
  }

  lemma CrashKeepsSynchronized(sys: System, hash: Hash)
    requires Synchronized(sys)
    ensures NextSystem(sys, CrashEvent, hash).Some? && Synchronized(NextSystem(sys, CrashEvent, hash).value)
  {
    BacksCrash(sys.tables, sys.pending, sys.memory);
    RestoredNotLater(Rebuild(sys.tables).value, sys.memory, sys.clock);
    NextOfCrash(sys, hash, Rebuild(sys.tables).value);
  }

  lemma NextOfCommit(sys: System, i: nat, hash: Hash, db: Tables)
    requires i < |sys.pending| && Commit(sys.tables, sys.pending[i]) == Some(db)
    ensures NextSystem(sys, CommitEvent(i), hash) == Some(System(sys.memory, db, Without(sys.pending, i), sys.clock))
  {
  }

  lemma CommitKeepsSynchronized(sys: System, i: nat, hash: Hash)
    requires Synchronized(sys) && i < |sys.pending| && FirstOfKey(sys.pending, i)
    ensures NextSystem(sys, CommitEvent(i), hash).Some? && Synchronized(NextSystem(sys, CommitEvent(i), hash).value)
  {
    BacksCommit(sys.tables, sys.pending, sys.memory, i);
    NextOfCommit(sys, i, hash, Commit(sys.tables, sys.pending[i]).value);
  }

  lemma MemoryStepKeepsSynchronized(sys: System, ev: Event, hash: Hash)
    requires (ev.UpsertEvent? || ev.DecideEvent?) && Synchronized(sys) && Admissible(sys, ev, hash)
    ensures NextSystem(sys, ev, hash).Some? && Synchronized(NextSystem(sys, ev, hash).value)
  {
    StepKeepsInv(sys.memory, OpOf(ev), hash);
    MemoryStepClock(sys.memory, ev, hash, sys.clock);
    MemoryStepWrite(sys.memory, ev, hash, sys.clock);
    var w := WriteOf(sys.memory, ev, hash);
    if w.Some? {
      BacksMemoryStep(sys.tables, sys.pending, sys.memory, w.value);
    }
  }

  /** Every admissible step is possible and keeps "tables plus pending writes is memory". */
  lemma StepKeepsSynchronized(sys: System, ev: Event, hash: Hash)
    requires Synchronized(sys) && Admissible(sys, ev, hash)
    ensures NextSystem(sys, ev, hash).Some? && Synchronized(NextSystem(sys, ev, hash).value)
  {
    match ev
    case CommitEvent(i) => CommitKeepsSynchronized(sys, i, hash);
    case CrashEvent => CrashKeepsSynchronized(sys, hash);
    case _ => MemoryStepKeepsSynchronized(sys, ev, hash);
  }

  // ----- runs -----

  function Init(clock: Instant): System {
    System(EMPTY, Tables([], []), [], clock)
  }

  lemma InitSynchronized(clock: Instant)
    ensures Synchronized(Init(clock))
  {
    var db := Tables([], []);
    EmptyInv();
    RebuildRepresented(db, EMPTY);
    WholeIsTruncated(EMPTY);
  }

  /** The states a run passes through, each step admissible. */
  ghost predicate IsRun(run: seq<System>, events: seq<Event>, hash: Hash) {
    && |run| == |events| + 1
    && (exists clock: Instant :: run[0] == Init(clock))
    && forall i :: 0 <= i < |events| ==>
         Admissible(run[i], events[i], hash) && NextSystem(run[i], events[i], hash) == Some(run[i + 1])
  }

  /** In every state of every run, however the database steps of different keys interleave and
      wherever crashes fall, the tables plus the pending writes make up memory. */
  lemma {:induction false} RunSynchronized(run: seq<System>, events: seq<Event>, hash: Hash, i: nat)
    requires IsRun(run, events, hash) && i <= |events|
    ensures Synchronized(run[i])
  {
    if i == 0 {
      var clock: Instant :| run[0] == Init(clock);
      InitSynchronized(clock);
    } else {
      RunSynchronized(run, events, hash, i - 1);
      StepKeepsSynchronized(run[i - 1], events[i - 1], hash);
    }
  }

  /** With nothing pending, a restart recovers memory exactly, up to truncation to seconds. */
  lemma QuiescentAgreement(run: seq<System>, events: seq<Event>, hash: Hash, i: nat)
    requires IsRun(run, events, hash) && i <= |events| && run[i].pending == []
    ensures Rebuild(run[i].tables) == Some(TruncState(run[i].memory))
  {
    RunSynchronized(run, events, hash, i);
  }

  lemma PrefixOfMemory(s: State, memory: State)
    requires Extends(s, TruncState(memory))
    ensures forall k :: HistoryOf(s, k) <= HistoryOf(memory, k)
  {
    forall k ensures HistoryOf(s, k) <= HistoryOf(memory, k) {
      assert HistoryOf(s, k) <= HistoryOf(TruncState(memory), k);
    }
  }

  /** A crash at any moment leaves a consistent store in which every key's history, and every
      incident's trail, is a prefix of what memory held; so histories stay dense and a key
      still has at most one active occurrence. */
  lemma CrashSafety(run: seq<System>, events: seq<Event>, hash: Hash, i: nat)
    requires IsRun(run, events, hash) && i <= |events|
    ensures var after := NextSystem(run[i], CrashEvent, hash);
            && after.Some?
            && Inv(after.value.memory)
            && Extends(after.value.memory, TruncState(run[i].memory))
            && forall k :: HistoryOf(after.value.memory, k) <= HistoryOf(run[i].memory, k)
  {
    RunSynchronized(run, events, hash, i);
    var s := Rebuild(run[i].tables).value;
    BacksCrash(run[i].tables, run[i].pending, run[i].memory);
    NextOfCrash(run[i], hash, s);
    PrefixOfMemory(s, run[i].memory);
  }

  // ----- serial operation -----

  /** The statement carries the same text whether its times are cut to seconds or not. */
  lemma FormatTrunc(t: Instant)
    ensures Format(Trunc(t)) == Format(t)
  {
    TextOrderIsChronological(Trunc(t), t);
  }

  lemma CommitTrunc(db: Tables, w: Write)
    ensures Commit(db, TruncWrite(w)) == Commit(db, w)
  {
    FormatTrunc(w.inc.createdAt);
    FormatTrunc(w.inc.updatedAt);
  }

  /** The tables stand for memory cut to seconds; a restart would recover just that. */
  ghost predicate Durable(db: Tables, memory: State) {
    Represents(db, TruncState(memory))
  }

  /** An operation that finishes its database half before the next one starts keeps the tables
      durable: its statement succeeds, and a restart right after it recovers memory. */
  lemma SerialOperation(db: Tables, memory: State, ev: Event, hash: Hash, clock: Instant)
    requires ev.UpsertEvent? || ev.DecideEvent?
    requires Durable(db, memory) && Inv(memory) && NotLater(memory, clock)
    requires clock <= NowOf(ev) && Sound(memory, OpOf(ev), hash)
    ensures var w, after := WriteOf(memory, ev, hash), Step(memory, OpOf(ev), hash);
            && (w.Some? ==> Commit(db, w.value).Some?)
            && var db' := if w.None? then db else Commit(db, w.value).value;
               Durable(db', after) && Rebuild(db') == Some(TruncState(after))
  {
    MemoryStepWrite(memory, ev, hash, clock);
    var w := WriteOf(memory, ev, hash);
    if w.Some? {
      TruncEnabled(memory, w.value);
      TruncApply(memory, w.value);
      CommitTrunc(db, w.value);
      CommitRepresents(db, TruncState(memory), TruncWrite(w.value));
      RebuildRepresented(Commit(db, w.value).value, TruncState(Step(memory, OpOf(ev), hash)));
    } else {
      RebuildRepresented(db, TruncState(memory));
    }
  }
}
