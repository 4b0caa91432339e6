/** What the units of work of the request pipeline leave in the incident tables
    (internal/persistence/store.go, internal/api/handlers.go). */
module StoredWork {
  import opened Rfc3339
  import opened Incidents
  import opened IncidentStore
  import opened Lifecycle
  import opened IncidentTables
  import opened WriteThrough
  import opened Pipeline

  function EventOf(w: Work): Event {
    match w
    case Detected(c, now, _) => UpsertEvent(c, now)
    case Ruled(id, status, actor, now, _) => DecideEvent(id, status, actor, now)
  }

  /** The statement a unit of work issues in a state, if any, succeeds: the database would execute
      it (`ok`) and it violates no key. */
  predicate Executes(db: Tables, s: State, w: Work, hash: Hash, ok: bool) {
    var write := WriteOf(s, EventOf(w), hash);
    write.None? || (ok && Commit(db, write.value).Some?)
  }

  /** A unit of work that was stored leaves its write in the tables, one that was not leaves them. */
  function TablesAfter(db: Tables, s: State, w: Work, hash: Hash): Tables {
    var write := WriteOf(s, EventOf(w), hash);
    if write.Some? && w.stored && Commit(db, write.value).Some? then Commit(db, write.value).value else db
  }

  function TablesAfterAll(db: Tables, s: State, ws: seq<Work>, hash: Hash): Tables {
    if ws == [] then db
    else
      var front := ws[..|ws| - 1];
      TablesAfter(TablesAfterAll(db, s, front, hash), Process(s, front, hash), ws[|ws| - 1], hash)
  }

  /** Each flag says whether the statement succeeded; `ok(i)` whether the database would execute
      the one of work `i`. */
  predicate FlagsMatch(db: Tables, s: State, ws: seq<Work>, hash: Hash, ok: nat -> bool) {
    ws != [] ==>
      var front, w := ws[..|ws| - 1], ws[|ws| - 1];
      && FlagsMatch(db, s, front, hash, ok)
      && (w.stored <==> Executes(TablesAfterAll(db, s, front, hash), Process(s, front, hash), w, hash, ok(|front|)))
  }

  lemma StoredNext(db: Tables, s: State, ws: seq<Work>, w: Work, hash: Hash, ok: nat -> bool)
    ensures TablesAfterAll(db, s, ws + [w], hash) == TablesAfter(TablesAfterAll(db, s, ws, hash), Process(s, ws, hash), w, hash)
    ensures FlagsMatch(db, s, ws + [w], hash, ok) <==>
              && FlagsMatch(db, s, ws, hash, ok)
              && (w.stored <==> Executes(TablesAfterAll(db, s, ws, hash), Process(s, ws, hash), w, hash, ok(|ws|)))
  {
    assert (ws + [w])[..|ws|] == ws;
  }

  /** A unit of work the database executes keeps the tables durable. */
  lemma WorkStaysDurable(db: Tables, s: State, w: Work, hash: Hash, clock: Instant)
    requires Durable(db, s) && Inv(s) && NotLater(s, clock) && clock <= w.now && Sound(s, Pipeline.OpOf(w), hash)
    ensures Executes(db, s, w, hash, true)
    ensures w.stored ==> Durable(TablesAfter(db, s, w, hash), Step(s, Pipeline.OpOf(w), hash))
  {
    SerialOperation(db, s, EventOf(w), hash, clock);
  }

  lemma WorkClock(s: State, w: Work, hash: Hash, clock: Instant)
    requires NotLater(s, clock) && clock <= w.now
    ensures NotLater(Step(s, Pipeline.OpOf(w), hash), w.now)
  {
    MemoryStepClock(s, EventOf(w), hash, clock);
  }

  lemma LastOfBatch(s: State, ws: seq<Work>, cs: seq<Candidate>, now: Instant, hash: Hash)
    requires ws != [] && IsBatch(ws, cs, now) && FreshBatch(s, cs, now, hash)
    ensures IsBatch(ws[..|ws| - 1], cs[..|cs| - 1], now) && FreshBatch(s, cs[..|cs| - 1], now, hash)
    ensures var w := ws[|ws| - 1]; w.Detected? && w.now == now && Sound(Process(s, ws[..|ws| - 1], hash), Pipeline.OpOf(w), hash)
  {
    BatchIsProcess(s, ws[..|ws| - 1], cs[..|cs| - 1], now, hash);
  }

  lemma FlagOfLast(db: Tables, s: State, ws: seq<Work>, hash: Hash, ok: nat -> bool)
    requires ws != [] && FlagsMatch(db, s, ws, hash, ok) && ok(|ws| - 1)
    requires var front := ws[..|ws| - 1];
             Executes(TablesAfterAll(db, s, front, hash), Process(s, front, hash), ws[|ws| - 1], hash, true)
    ensures ws[|ws| - 1].stored
  {
  }

  /** Tables and memory after some works of one time, with which serial operation goes on. */
  ghost predicate Settled(db: Tables, s: State, now: Instant) {
    Durable(db, s) && Inv(s) && NotLater(s, now)
  }

  lemma WorkStaysSettled(db: Tables, s: State, w: Work, now: Instant, hash: Hash)
    requires Settled(db, s, now) && w.Detected? && w.now == now && Sound(s, Pipeline.OpOf(w), hash)
    ensures Executes(db, s, w, hash, true)
    ensures w.stored ==> Settled(TablesAfter(db, s, w, hash), Step(s, Pipeline.OpOf(w), hash), now)
  {
    WorkStaysDurable(db, s, w, hash, now);
    WorkClock(s, w, hash, now);
    StepKeepsInv(s, Pipeline.OpOf(w), hash);
  }

  lemma AllStoredLast(ws: seq<Work>)
    requires ws != [] && AllStored(ws[..|ws| - 1]) && ws[|ws| - 1].stored
    ensures AllStored(ws)
  {
  }

  /** When the database executes every statement of a batch, every insert succeeds and a restart
      after the batch recovers memory, cut to seconds. */
  lemma {:induction false} BatchStaysDurable(db: Tables, s: State, ws: seq<Work>, cs: seq<Candidate>, now: Instant,
                                             hash: Hash, ok: nat -> bool)
    requires Settled(db, s, now) && FreshBatch(s, cs, now, hash) && IsBatch(ws, cs, now) && FlagsMatch(db, s, ws, hash, ok)
    requires forall i :: 0 <= i < |ws| ==> ok(i)
    ensures AllStored(ws) && Settled(TablesAfterAll(db, s, ws, hash), Process(s, ws, hash), now)
  {
    if ws != [] {
      var front, w := ws[..|ws| - 1], ws[|ws| - 1];
      LastOfBatch(s, ws, cs, now, hash);
      BatchStaysDurable(db, s, front, cs[..|cs| - 1], now, hash, ok);
      WorkStaysSettled(TablesAfterAll(db, s, front, hash), Process(s, front, hash), w, now, hash);
      FlagOfLast(db, s, ws, hash, ok);
      AllStoredLast(ws);
    }
  }

  // ----- a batch -----

  /** What processing a batch has done to memory, metrics and tables: one work for each candidate, in
      order, each flag saying whether its insert succeeded. */
  ghost predicate Ran(s: State, m: Metrics, db: Tables, cs: seq<Candidate>, now: Instant, hash: Hash, ok: nat -> bool,
                      ws: seq<Work>, created: nat, s': State, m': Metrics, db': Tables)
  {
    && IsBatch(ws, cs, now) && created == CreatedIn(s, cs, now, hash) && FlagsMatch(db, s, ws, hash, ok)
    && s' == Process(s, ws, hash) && m' == CountAll(s, m, ws, hash) && db' == TablesAfterAll(db, s, ws, hash)
  }

  lemma RanNothing(s: State, m: Metrics, db: Tables, now: Instant, hash: Hash, ok: nat -> bool)
    ensures Ran(s, m, db, [], now, hash, ok, [], 0, s, m, db)
  {
  }

  lemma RanNext(s: State, m: Metrics, db: Tables, cs: seq<Candidate>, c: Candidate, now: Instant, hash: Hash, ok: nat -> bool,
                  ws: seq<Work>, created: nat, s': State, m': Metrics, db': Tables, w: Work)
    requires Ran(s, m, db, cs, now, hash, ok, ws, created, s', m', db')
    requires w == Detected(c, now, w.stored) && (w.stored <==> Executes(db', s', w, hash, ok(|cs|)))
    ensures Ran(s, m, db, cs + [c], now, hash, ok, ws + [w], created + if Upsert(s', c, now, hash).created then 1 else 0,
                  Step(s', Pipeline.OpOf(w), hash), Count(s', m', w, hash), TablesAfter(db', s', w, hash))
  {
    assert (cs + [c])[..|cs|] == cs;
    BatchIsProcess(s, ws, cs, now, hash);
    ProcessNext(s, m, ws, w, hash);
    StoredNext(db, s, ws, w, hash, ok);
  }
}
