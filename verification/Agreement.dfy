/** When memory and the tables agree (internal/persistence/store.go): over runs in which statements
    arrive in any order and may fail, what a restart would find against what memory holds. */
module Agreement {
  import opened Sequences
  import opened Rfc3339
  import opened Incidents
  import opened IncidentStore
  import opened Lifecycle
  import opened IncidentTables
  import opened WriteThrough
  import opened WriteOrder
  import opened WriteFaults

  // ----- what has happened since the last crash -----

  /** A stretch of a run: the state after the last crash, and the writes issued, stored and lost since,
      each in the order it happened. */
  datatype Ledger = Ledger(base: State, issued: seq<Write>, stored: seq<Write>, lost: seq<Write>)

  function Noted(l: Ledger, sys: System, ev: Event, next: System, hash: Hash): Ledger {
    match ev
    case CommitEvent(i) => if i < |sys.pending| then l.(stored := l.stored + [sys.pending[i]]) else l
    case FailEvent(i) => if i < |sys.pending| then l.(lost := l.lost + [sys.pending[i]]) else l
    case CrashEvent => Ledger(next.memory, [], [], [])
    case _ =>
      var w := WriteOf(sys.memory, ev, hash);
      if w.Some? then l.(issued := l.issued + [TruncWrite(w.value)]) else l
  }

  /** The ledger of the first `n` steps of a run. */
  function LedgerOf(run: seq<System>, events: seq<Event>, hash: Hash, n: nat): Ledger
    requires |run| == |events| + 1 && n <= |events|
  {
    if n == 0 then Ledger(run[0].memory, [], [], [])
    else Noted(LedgerOf(run, events, hash, n - 1), run[n - 1], events[n - 1], run[n], hash)
  }

  /** The decisions on an incident among some writes, in order. */
  function Rulings(id: string, ws: seq<Write>): seq<Decision> {
    if ws == [] then []
    else
      var front, w := Rulings(id, ws[..|ws| - 1]), ws[|ws| - 1];
      if w.RecordDecision? && w.inc.id == id then front + [Decision(id, w.inc.status, w.actor, w.inc.updatedAt)] else front
  }

  lemma RulingsAppend(id: string, ws: seq<Write>, w: Write)
    ensures Rulings(id, ws + [w])
         == Rulings(id, ws) + (if w.RecordDecision? && w.inc.id == id
                               then [Decision(id, w.inc.status, w.actor, w.inc.updatedAt)] else [])
  {
    assert (ws + [w])[..|ws|] == ws;
  }

  lemma {:induction false} RulingsConcat(id: string, a: seq<Write>, b: seq<Write>)
    ensures |Rulings(id, a + b)| == |Rulings(id, a)| + |Rulings(id, b)|
    decreases |b|
  {
    if b == [] {
      assert a + b == a;
    } else {
      var front, w := b[..|b| - 1], b[|b| - 1];
      RulingsConcat(id, a, front);
      ConcatAssociative(a, front, [w]);
      assert front + [w] == b;
      RulingsAppend(id, a + front, w);
      RulingsAppend(id, front, w);
    }
  }

  /** Taking a write out takes its decision out. */
  lemma RulingsWithout(id: string, ws: seq<Write>, i: nat)
    requires i < |ws|
    ensures |Rulings(id, ws)| == |Rulings(id, Without(ws, i))| + |Rulings(id, [ws[i]])|
  {
    var before, after := SplitAt(ws, i);
    RulingsConcat(id, before + [ws[i]], after);
    RulingsConcat(id, before, [ws[i]]);
    RulingsConcat(id, before, after);
  }

  predicate Inserts(id: string, ws: seq<Write>) {
    exists w :: w in ws && w.InsertIncident? && w.inc.id == id
  }

  // ----- the books balance -----

  /** The trails, memory's cut to seconds, are those of the start and the decisions since. */
  ghost predicate TrailsBooked(l: Ledger, memory: State, s: State) {
    && (forall id :: Map(TruncDecision, TrailOf(memory, id)) == TrailOf(l.base, id) + Rulings(id, l.issued))
    && (forall id :: TrailOf(s, id) == TrailOf(l.base, id) + Rulings(id, l.stored))
  }

  /** Every decision issued is stored, waiting or lost. */
  ghost predicate RulingsBooked(l: Ledger, pending: seq<Write>) {
    forall id :: |Rulings(id, l.issued)| == |Rulings(id, l.stored)| + |Rulings(id, pending)| + |Rulings(id, l.lost)|
  }

  /** Every incident of memory is stored, waiting or lost, and a lost one stays lost. */
  ghost predicate InsertsBooked(l: Ledger, memory: State, s: State, pending: seq<Write>) {
    && (forall id :: id in memory.incidents ==> id in s.incidents || Inserts(id, pending) || Inserts(id, l.lost))
    && (forall id :: Inserts(id, l.lost) ==> id in memory.incidents && id !in s.incidents && !Inserts(id, pending))
  }

  /** Equal but for status and update time, the creation time cut to seconds. */
  predicate SameRecord(a: Incident, b: Incident) {
    a.(status := b.status, updatedAt := b.updatedAt) == b.(createdAt := Trunc(b.createdAt))
  }

  ghost predicate RecordsMatch(memory: State, s: State, pending: seq<Write>) {
    && (forall id :: id in s.incidents ==> id in memory.incidents && SameRecord(s.incidents[id], memory.incidents[id]))
    && (forall w :: w in pending && w.InsertIncident? ==>
          w.inc.id in memory.incidents && SameRecord(w.inc, memory.incidents[w.inc.id]))
  }

  ghost predicate Balanced(l: Ledger, memory: State, s: State, pending: seq<Write>) {
    && TrailsBooked(l, memory, s) && RulingsBooked(l, pending)
    && InsertsBooked(l, memory, s, pending) && RecordsMatch(memory, s, pending)
  }

  // ----- memory steps -----

  lemma TrailAfterMemoryWrite(before: seq<Decision>, issued: seq<Write>, memory: State, w: Write, id: string)
    requires Map(TruncDecision, TrailOf(memory, id)) == before + Rulings(id, issued)
    ensures Map(TruncDecision, TrailOf(Apply(memory, w), id)) == before + Rulings(id, issued + [TruncWrite(w)])
  {
    RulingsAppend(id, issued, TruncWrite(w));
    if w.RecordDecision? && w.inc.id == id {
      var d := Decision(id, w.inc.status, w.actor, w.inc.updatedAt);
      MapAppend(TruncDecision, TrailOf(memory, id), d);
      ConcatAssociative(before, Rulings(id, issued), [TruncDecision(d)]);
    }
  }

  lemma TrailsAfterMemoryWrite(l: Ledger, memory: State, s: State, w: Write)
    requires TrailsBooked(l, memory, s)
    ensures TrailsBooked(l.(issued := l.issued + [TruncWrite(w)]), Apply(memory, w), s)
  {
    forall id
      ensures Map(TruncDecision, TrailOf(Apply(memory, w), id)) == TrailOf(l.base, id) + Rulings(id, l.issued + [TruncWrite(w)])
    {
      TrailAfterMemoryWrite(TrailOf(l.base, id), l.issued, memory, w, id);
    }
  }

  lemma RulingsAfterMemoryWrite(l: Ledger, pending: seq<Write>, w: Write)
    requires RulingsBooked(l, pending)
    ensures RulingsBooked(l.(issued := l.issued + [w]), pending + [w])
  {
    forall id ensures |Rulings(id, l.issued + [w])|
                   == |Rulings(id, l.stored)| + |Rulings(id, pending + [w])| + |Rulings(id, l.lost)| {
      RulingsAppend(id, l.issued, w);
      RulingsAppend(id, pending, w);
    }
  }

  lemma InsertsAppend(id: string, ws: seq<Write>, w: Write)
    ensures Inserts(id, ws + [w]) <==> Inserts(id, ws) || (w.InsertIncident? && w.inc.id == id)
  {
    assert forall x :: x in ws + [w] <==> x in ws || x == w;
  }

  lemma InsertsAfterMemoryWrite(l: Ledger, memory: State, s: State, pending: seq<Write>, w: Write)
    requires InsertsBooked(l, memory, s, pending)
    requires if w.InsertIncident? then w.inc.id !in memory.incidents && w.inc.id !in s.incidents else w.inc.id in memory.incidents
    ensures InsertsBooked(l.(issued := l.issued + [TruncWrite(w)]), Apply(memory, w), s, pending + [TruncWrite(w)])
  {
    forall id ensures Inserts(id, pending + [TruncWrite(w)]) <==> Inserts(id, pending) || (w.InsertIncident? && w.inc.id == id) {
      InsertsAppend(id, pending, TruncWrite(w));
    }
  }

  lemma RecordsAfterMemoryWrite(memory: State, s: State, pending: seq<Write>, w: Write)
    requires RecordsMatch(memory, s, pending)
    requires if w.InsertIncident? then w.inc.id !in memory.incidents else w.inc.id in memory.incidents
    ensures RecordsMatch(Apply(memory, w), s, pending + [TruncWrite(w)])
  {
    var after := Apply(memory, w);
    forall x | x in pending + [TruncWrite(w)] && x.InsertIncident?
      ensures x.inc.id in after.incidents && SameRecord(x.inc, after.incidents[x.inc.id])
    {
      assert x in pending || x == TruncWrite(w);
    }
  }

  lemma MemoryWriteKind(memory: State, ev: Event, hash: Hash)
    requires (ev.UpsertEvent? || ev.DecideEvent?) && Linked(memory) && Sound(memory, OpOf(ev), hash)
    ensures var w, after := WriteOf(memory, ev, hash), Step(memory, OpOf(ev), hash);
            if w.None? then after == memory
            else
              && after == Apply(memory, w.value)
              && if w.value.InsertIncident? then w.value.inc.id !in memory.incidents else w.value.inc.id in memory.incidents
  {
    if ev.DecideEvent? && ev.id in memory.incidents {
      assert Placed(memory, ev.id);
    }
  }

  lemma MemoryStepBalances(l: Ledger, sys: System, s: State, ev: Event, next: System, hash: Hash)
    requires (ev.UpsertEvent? || ev.DecideEvent?) && Linked(sys.memory) && Sound(sys.memory, OpOf(ev), hash)
    requires Balanced(l, sys.memory, s, sys.pending) && NextSystem(sys, ev, hash) == Some(next)
    requires forall id :: id in s.incidents ==> id in sys.memory.incidents
    ensures Balanced(Noted(l, sys, ev, next, hash), next.memory, s, next.pending)
  {
    MemoryWriteKind(sys.memory, ev, hash);
    var w := WriteOf(sys.memory, ev, hash);
    if w.Some? {
      TrailsAfterMemoryWrite(l, sys.memory, s, w.value);
      RulingsAfterMemoryWrite(l, sys.pending, TruncWrite(w.value));
      InsertsAfterMemoryWrite(l, sys.memory, s, sys.pending, w.value);
      RecordsAfterMemoryWrite(sys.memory, s, sys.pending, w.value);
    }
  }

  // ----- statements -----

  lemma InsertsWithout(id: string, ws: seq<Write>, i: nat)
    requires i < |ws|
    requires forall j, k :: 0 <= j < k < |ws| && ws[j].InsertIncident? && ws[k].InsertIncident? ==> ws[j].inc.id != ws[k].inc.id
    ensures Inserts(id, ws) <==> Inserts(id, Without(ws, i)) || (ws[i].InsertIncident? && ws[i].inc.id == id)
    ensures ws[i].InsertIncident? && ws[i].inc.id == id ==> !Inserts(id, Without(ws, i))
  {
    var rest := Without(ws, i);
    forall k | 0 <= k < |rest| ensures rest[k] == ws[if k < i then k else k + 1] {
      WithoutAt(ws, i, k);
    }
    if Inserts(id, ws) {
      var w :| w in ws && w.InsertIncident? && w.inc.id == id;
      var j :| 0 <= j < |ws| && ws[j] == w;
      if j != i {
        assert rest[if j < i then j else j - 1] == w;
      }
    }
  }

  lemma TrailAfterCommit(before: seq<Decision>, stored: seq<Write>, s: State, w: Write, id: string)
    requires TrailOf(s, id) == before + Rulings(id, stored)
    ensures TrailOf(Apply(s, w), id) == before + Rulings(id, stored + [w])
  {
    RulingsAppend(id, stored, w);
    if w.RecordDecision? && w.inc.id == id {
      ConcatAssociative(before, Rulings(id, stored), [Decision(id, w.inc.status, w.actor, w.inc.updatedAt)]);
    }
  }

  lemma TrailsAfterCommit(l: Ledger, memory: State, s: State, w: Write)
    requires TrailsBooked(l, memory, s)
    ensures TrailsBooked(l.(stored := l.stored + [w]), memory, Apply(s, w))
  {
    forall id ensures TrailOf(Apply(s, w), id) == TrailOf(l.base, id) + Rulings(id, l.stored + [w]) {
      TrailAfterCommit(TrailOf(l.base, id), l.stored, s, w, id);
    }
  }

  lemma RulingsAfterCommit(l: Ledger, pending: seq<Write>, i: nat)
    requires RulingsBooked(l, pending) && i < |pending|
    ensures RulingsBooked(l.(stored := l.stored + [pending[i]]), Without(pending, i))
    ensures RulingsBooked(l.(lost := l.lost + [pending[i]]), Without(pending, i))
  {
    forall id
      ensures |Rulings(id, l.stored + [pending[i]])| == |Rulings(id, l.stored)| + |Rulings(id, [pending[i]])|
      ensures |Rulings(id, l.lost + [pending[i]])| == |Rulings(id, l.lost)| + |Rulings(id, [pending[i]])|
      ensures |Rulings(id, pending)| == |Rulings(id, Without(pending, i))| + |Rulings(id, [pending[i]])|
    {
      RulingsWithout(id, pending, i);
      RulingsConcat(id, l.stored, [pending[i]]);
      RulingsConcat(id, l.lost, [pending[i]]);
    }
  }

  /** Each waiting insert is the only one of its incident. */
  ghost predicate OneInsertEach(ws: seq<Write>) {
    forall j, k :: 0 <= j < k < |ws| && ws[j].InsertIncident? && ws[k].InsertIncident? ==> ws[j].inc.id != ws[k].inc.id
  }

  lemma InsertsAfterCommit(l: Ledger, memory: State, s: State, pending: seq<Write>, i: nat)
    requires InsertsBooked(l, memory, s, pending) && i < |pending| && OneInsertEach(pending)
    requires pending[i].RecordDecision? ==> pending[i].inc.id in s.incidents
    ensures InsertsBooked(l.(stored := l.stored + [pending[i]]), memory, Apply(s, pending[i]), Without(pending, i))
  {
    var w, rest := pending[i], Without(pending, i);
    forall id
      ensures Inserts(id, pending) <==> Inserts(id, rest) || (w.InsertIncident? && w.inc.id == id)
      ensures id in Apply(s, w).incidents <==> id in s.incidents || (w.InsertIncident? && w.inc.id == id)
    {
      InsertsWithout(id, pending, i);
    }
  }

  lemma InsertsAfterFailure(l: Ledger, memory: State, s: State, pending: seq<Write>, i: nat)
    requires InsertsBooked(l, memory, s, pending) && i < |pending| && OneInsertEach(pending)
    requires pending[i].InsertIncident? ==> pending[i].inc.id in memory.incidents && pending[i].inc.id !in s.incidents
    ensures InsertsBooked(l.(lost := l.lost + [pending[i]]), memory, s, Without(pending, i))
  {
    var w, rest := pending[i], Without(pending, i);
    forall id
      ensures Inserts(id, pending) <==> Inserts(id, rest) || (w.InsertIncident? && w.inc.id == id)
      ensures Inserts(id, l.lost + [w]) <==> Inserts(id, l.lost) || (w.InsertIncident? && w.inc.id == id)
      ensures w.InsertIncident? && w.inc.id == id ==> !Inserts(id, rest)
    {
      InsertsWithout(id, pending, i);
      InsertsAppend(id, l.lost, w);
    }
  }

  lemma RecordsWithout(memory: State, s: State, pending: seq<Write>, i: nat)
    requires RecordsMatch(memory, s, pending) && i < |pending|
    ensures RecordsMatch(memory, s, Without(pending, i))
  {
  }

  lemma RecordsAfterCommit(memory: State, s: State, pending: seq<Write>, i: nat)
    requires RecordsMatch(memory, s, pending) && i < |pending|
    requires pending[i].RecordDecision? ==> pending[i].inc.id in s.incidents
    ensures RecordsMatch(memory, Apply(s, pending[i]), Without(pending, i))
  {
    RecordsWithout(memory, s, pending, i);
    assert pending[i] in pending;
  }

  lemma CommitBalances(l: Ledger, memory: State, s: State, pending: seq<Write>, i: nat)
    requires Balanced(l, memory, s, pending) && i < |pending| && OneInsertEach(pending)
    requires pending[i].RecordDecision? ==> pending[i].inc.id in s.incidents
    ensures Balanced(l.(stored := l.stored + [pending[i]]), memory, Apply(s, pending[i]), Without(pending, i))
  {
    TrailsAfterCommit(l, memory, s, pending[i]);
    RulingsAfterCommit(l, pending, i);
    InsertsAfterCommit(l, memory, s, pending, i);
    RecordsAfterCommit(memory, s, pending, i);
  }

  lemma FailureBalances(l: Ledger, memory: State, s: State, pending: seq<Write>, i: nat)
    requires Balanced(l, memory, s, pending) && i < |pending| && OneInsertEach(pending)
    requires pending[i].InsertIncident? ==> pending[i].inc.id in memory.incidents && pending[i].inc.id !in s.incidents
    ensures Balanced(l.(lost := l.lost + [pending[i]]), memory, s, Without(pending, i))
  {
    RulingsAfterCommit(l, pending, i);
    InsertsAfterFailure(l, memory, s, pending, i);
    RecordsWithout(memory, s, pending, i);
  }

  /** A fresh start: memory is what the tables hold. */
  lemma FreshBalances(s: State)
    requires Whole(s)
    ensures Balanced(Ledger(s, [], [], []), s, s, [])
  {
    WholeIsTruncated(s);
    forall id ensures Map(TruncDecision, TrailOf(s, id)) == TrailOf(s, id) + [] {
      if id in s.decisions {
        assert WholeTrail(s.decisions[id]);
      }
    }
    forall id | id in s.incidents ensures SameRecord(s.incidents[id], s.incidents[id]) {
      assert TruncIncident(s.incidents[id]) == s.incidents[id];
    }
  }

  // ----- runs -----

  lemma KnownFacts(memory: State, s: State, pending: seq<Write>, i: nat)
    requires Known(memory, s, pending) && i < |pending|
    ensures OneInsertEach(pending) && pending[i].inc.id in memory.incidents
    ensures pending[i].InsertIncident? ==> pending[i].inc.id !in s.incidents
  {
    assert Registered(memory, pending[i]);
  }

  lemma StoredState(db: Tables, s: State, w: Write)
    requires Represents(db, s) && Enabled(s, w) && WholeWrite(w)
    ensures Commit(db, w).Some? && Rebuild(Commit(db, w).value) == Some(Apply(s, w))
  {
    CommitRepresents(db, s, w);
    RebuildRepresented(Commit(db, w).value, Apply(s, w));
  }

  lemma StoredBalances(l: Ledger, sys: System, s: State, i: nat)
    requires Represents(sys.tables, s) && Known(sys.memory, s, sys.pending) && i < |sys.pending| && Enabled(s, sys.pending[i])
    requires Balanced(l, sys.memory, s, sys.pending)
    ensures Commit(sys.tables, sys.pending[i]).Some?
    ensures Rebuild(Commit(sys.tables, sys.pending[i]).value) == Some(Apply(s, sys.pending[i]))
    ensures Balanced(l.(stored := l.stored + [sys.pending[i]]), sys.memory, Apply(s, sys.pending[i]), Without(sys.pending, i))
  {
    KnownIsPlausible(sys.memory, s, sys.pending, i);
    KnownFacts(sys.memory, s, sys.pending, i);
    StoredState(sys.tables, s, sys.pending[i]);
    CommitBalances(l, sys.memory, s, sys.pending, i);
  }

  /** The books after a step balance against the next state, in which the tables hold `s'`. */
  ghost predicate StepBooked(l: Ledger, sys: System, ev: Event, next: System, hash: Hash, s': State) {
    Rebuild(next.tables) == Some(s') && Balanced(Noted(l, sys, ev, next, hash), next.memory, s', next.pending)
  }

  lemma CommitStepBalances(l: Ledger, sys: System, s: State, i: nat, next: System, hash: Hash)
    requires Usable(sys) && Rebuild(sys.tables) == Some(s) && i < |sys.pending| && Enabled(s, sys.pending[i])
    requires NextSystem(sys, CommitEvent(i), hash) == Some(next) && Balanced(l, sys.memory, s, sys.pending)
    ensures StepBooked(l, sys, CommitEvent(i), next, hash, Apply(s, sys.pending[i]))
  {
    StoredBalances(l, sys, s, i);
    NextOfCommit(sys, i, hash, Commit(sys.tables, sys.pending[i]).value);
  }

  lemma FailStepBalances(l: Ledger, sys: System, s: State, i: nat, next: System, hash: Hash)
    requires Known(sys.memory, s, sys.pending) && Rebuild(sys.tables) == Some(s) && i < |sys.pending|
    requires NextSystem(sys, FailEvent(i), hash) == Some(next) && Balanced(l, sys.memory, s, sys.pending)
    ensures StepBooked(l, sys, FailEvent(i), next, hash, s)
  {
    KnownFacts(sys.memory, s, sys.pending, i);
    FailureBalances(l, sys.memory, s, sys.pending, i);
  }

  lemma CrashStepBalances(l: Ledger, sys: System, s: State, next: System, hash: Hash)
    requires Whole(s) && Rebuild(sys.tables) == Some(s) && NextSystem(sys, CrashEvent, hash) == Some(next)
    ensures StepBooked(l, sys, CrashEvent, next, hash, s)
  {
    NextOfCrash(sys, hash, s);
    FreshBalances(s);
  }

  lemma StepBalances(l: Ledger, sys: System, ev: Event, next: System, hash: Hash, s: State) returns (s': State)
    requires Usable(sys) && Possible(sys, ev, hash) && InStep(sys, ev) && NextSystem(sys, ev, hash) == Some(next)
    requires Rebuild(sys.tables) == Some(s) && Balanced(l, sys.memory, s, sys.pending)
    ensures StepBooked(l, sys, ev, next, hash, s')
  {
    s' := s;
    match ev
    case CommitEvent(i) =>
      s' := Apply(s, sys.pending[i]);
      CommitStepBalances(l, sys, s, i, next, hash);
    case FailEvent(i) => FailStepBalances(l, sys, s, i, next, hash);
    case CrashEvent => CrashStepBalances(l, sys, s, next, hash);
    case _ => MemoryStepBalances(l, sys, s, ev, next, hash);
  }

  lemma {:induction false} RunBalances(run: seq<System>, events: seq<Event>, hash: Hash, n: nat)
    requires IsFaultyRun(run, events, hash) && n <= |events| && AlwaysInStep(run, events, n)
    ensures Usable(run[n])
    ensures Balanced(LedgerOf(run, events, hash, n), run[n].memory, Rebuild(run[n].tables).value, run[n].pending)
  {
    UsableWhileInStep(run, events, hash, n);
    if n == 0 {
      var clock: Instant :| run[0] == Init(clock);
      InitSynchronized(clock);
      FreshBalances(EMPTY);
    } else {
      RunBalances(run, events, hash, n - 1);
      var s := StepBalances(LedgerOf(run, events, hash, n - 1), run[n - 1], events[n - 1], run[n], hash,
                            Rebuild(run[n - 1].tables).value);
    }
  }

  // ----- agreement -----

  lemma TruncKeepsLinked(s: State)
    requires Linked(s)
    ensures Linked(TruncState(s))
  {
    var t := TruncState(s);
    assert forall k :: HistoryOf(t, k) == HistoryOf(s, k);
    forall id | id in t.incidents ensures Placed(t, id) {
      assert Placed(s, id);
    }
    forall k, i: nat | i < |HistoryOf(t, k)| ensures Dense(t, k, i) {
      assert Dense(s, k, i);
    }
  }

  lemma TruncKeepsClosed(s: State)
    requires EarlierClosed(s)
    ensures EarlierClosed(TruncState(s))
  {
    assert forall k :: HistoryOf(TruncState(s), k) == HistoryOf(s, k);
    assert forall id :: IsActive(TruncState(s), id) <==> IsActive(s, id);
  }

  lemma TruncKeepsAuditedAt(s: State, id: string)
    requires id in s.incidents && AuditedAt(s, id)
    ensures AuditedAt(TruncState(s), id)
  {
    assert TrailOf(TruncState(s), id) == Map(TruncDecision, TrailOf(s, id));
  }

  lemma TruncKeepsInv(s: State)
    requires Inv(s)
    ensures Inv(TruncState(s))
  {
    TruncKeepsLinked(s);
    TruncKeepsClosed(s);
    forall id | id in s.incidents ensures AuditedAt(TruncState(s), id) {
      TruncKeepsAuditedAt(s, id);
    }
  }

  lemma NumberIsBounded(t: State, id: string)
    requires Linked(t) && id in t.incidents
    ensures t.incidents[id].sequence <= |HistoryOf(t, t.incidents[id].key)|
  {
    assert Placed(t, id);
  }

  lemma HistoryNotLonger(s: State, t: State, k: string)
    requires Linked(s) && Linked(t) && s.incidents == t.incidents
    ensures |HistoryOf(s, k)| <= |HistoryOf(t, k)|
  {
    var a, b := HistoryOf(s, k), HistoryOf(t, k);
    if |a| > |b| {
      assert Dense(s, k, |b|);
      NumberIsBounded(t, a[|b|]);
      assert false;
    }
  }

  lemma HistoriesFollow(s: State, t: State, k: string)
    requires Linked(s) && Linked(t) && s.incidents == t.incidents
    ensures HistoryOf(s, k) == HistoryOf(t, k)
  {
    HistoryNotLonger(s, t, k);
    HistoryNotLonger(t, s, k);
    forall i: nat | i < |HistoryOf(s, k)| ensures HistoryOf(s, k)[i] == HistoryOf(t, k)[i] {
      assert Dense(s, k, i);
      assert Placed(t, HistoryOf(s, k)[i]);
    }
  }

  lemma IncidentFollows(s: State, t: State, id: string)
    requires id in s.incidents && id in t.incidents && AuditedAt(s, id) && AuditedAt(t, id) && TrailOf(s, id) == TrailOf(t, id)
    requires s.incidents[id].(status := t.incidents[id].status, updatedAt := t.incidents[id].updatedAt) == t.incidents[id]
    ensures s.incidents[id] == t.incidents[id]
  {
  }

  lemma TrailFollows(s: State, t: State, id: string)
    requires Audited(s) && Audited(t) && TrailOf(s, id) == TrailOf(t, id)
    ensures (id in s.decisions <==> id in t.decisions) && (id in s.decisions ==> s.decisions[id] == t.decisions[id])
  {
  }

  lemma RestFollows(s: State, t: State)
    requires Inv(s) && Inv(t) && s.incidents == t.incidents && forall id :: TrailOf(s, id) == TrailOf(t, id)
    ensures s == t
  {
    forall k ensures HistoryOf(s, k) == HistoryOf(t, k) {
      HistoriesFollow(s, t, k);
    }
    SameHistories(s, t);
    forall id ensures (id in s.decisions <==> id in t.decisions) && (id in s.decisions ==> s.decisions[id] == t.decisions[id]) {
      TrailFollows(s, t, id);
    }
    SameTrails(s.decisions, t.decisions);
  }

  /** A consistent store is determined by its incidents, up to status and update time, and its trails. */
  lemma StateFollows(s: State, t: State)
    requires Inv(s) && Inv(t) && s.incidents.Keys == t.incidents.Keys
    requires forall id :: id in s.incidents ==>
               s.incidents[id].(status := t.incidents[id].status, updatedAt := t.incidents[id].updatedAt) == t.incidents[id]
    requires forall id :: TrailOf(s, id) == TrailOf(t, id)
    ensures s == t
  {
    forall id | id in s.incidents ensures s.incidents[id] == t.incidents[id] {
      IncidentFollows(s, t, id);
    }
    RestFollows(s, t);
  }

  /** No statement was lost, and each incident's decisions were stored in the order of their issue, up
      to equal ones. */
  ghost predicate StoredAsIssued(l: Ledger) {
    l.lost == [] && forall id :: Rulings(id, l.stored) == Rulings(id, l.issued)
  }

  lemma NothingMissing(l: Ledger, memory: State, s: State)
    requires InsertsBooked(l, memory, s, []) && RecordsMatch(memory, s, []) && l.lost == []
    ensures s.incidents.Keys == TruncState(memory).incidents.Keys
  {
    forall id ensures id in s.incidents <==> id in memory.incidents {
      assert !Inserts(id, []);
    }
  }

  lemma TrailsFollow(l: Ledger, memory: State, s: State, id: string)
    requires TrailsBooked(l, memory, s) && Rulings(id, l.stored) == Rulings(id, l.issued)
    ensures TrailOf(s, id) == TrailOf(TruncState(memory), id)
  {
    assert TrailOf(TruncState(memory), id) == Map(TruncDecision, TrailOf(memory, id));
  }

  lemma RecordFollows(memory: State, s: State, id: string)
    requires RecordsMatch(memory, s, []) && id in s.incidents
    ensures var a, b := s.incidents[id], TruncState(memory).incidents[id];
            a.(status := b.status, updatedAt := b.updatedAt) == b
  {
  }

  lemma StoredAsIssuedAgrees(l: Ledger, memory: State, s: State)
    requires Inv(memory) && Inv(s) && Balanced(l, memory, s, []) && StoredAsIssued(l)
    ensures s == TruncState(memory)
  {
    TruncKeepsInv(memory);
    NothingMissing(l, memory, s);
    forall id ensures TrailOf(s, id) == TrailOf(TruncState(memory), id) {
      TrailsFollow(l, memory, s, id);
    }
    forall id | id in s.incidents
      ensures var a, b := s.incidents[id], TruncState(memory).incidents[id];
              a.(status := b.status, updatedAt := b.updatedAt) == b
    {
      RecordFollows(memory, s, id);
    }
    StateFollows(s, TruncState(memory));
  }

  lemma LostInsertShows(l: Ledger, memory: State, s: State, w: Write)
    requires InsertsBooked(l, memory, s, []) && w in l.lost && w.InsertIncident?
    ensures s != TruncState(memory)
  {
    assert Inserts(w.inc.id, l.lost);
  }

  lemma LostDecisionShows(l: Ledger, memory: State, s: State, i: nat)
    requires TrailsBooked(l, memory, s) && RulingsBooked(l, []) && i < |l.lost| && l.lost[i].RecordDecision?
    ensures s != TruncState(memory)
  {
    var id := l.lost[i].inc.id;
    RulingsWithout(id, l.lost, i);
    assert |Rulings(id, [l.lost[i]])| == 1 && |Rulings(id, [])| == 0;
    if s == TruncState(memory) {
      TrailsAgree(l, memory, s, id);
    }
  }

  lemma LostShows(l: Ledger, memory: State, s: State)
    requires Balanced(l, memory, s, []) && l.lost != []
    ensures s != TruncState(memory)
  {
    if l.lost[0].InsertIncident? {
      LostInsertShows(l, memory, s, l.lost[0]);
    } else {
      LostDecisionShows(l, memory, s, 0);
    }
  }

  lemma TrailsAgree(l: Ledger, memory: State, s: State, id: string)
    requires TrailsBooked(l, memory, s) && s == TruncState(memory)
    ensures Rulings(id, l.stored) == Rulings(id, l.issued)
  {
    var a, b := TrailOf(l.base, id) + Rulings(id, l.stored), TrailOf(l.base, id) + Rulings(id, l.issued);
    assert TrailOf(s, id) == Map(TruncDecision, TrailOf(memory, id));
    assert a == b && a[|TrailOf(l.base, id)|..] == Rulings(id, l.stored) && b[|TrailOf(l.base, id)|..] == Rulings(id, l.issued);
  }

  lemma AgreesIff(l: Ledger, memory: State, s: State)
    requires Inv(memory) && Inv(s) && Balanced(l, memory, s, [])
    ensures s == TruncState(memory) <==> StoredAsIssued(l)
  {
    if l.lost != [] {
      LostShows(l, memory, s);
    }
    if s == TruncState(memory) {
      forall id ensures Rulings(id, l.stored) == Rulings(id, l.issued) {
        TrailsAgree(l, memory, s, id);
      }
    }
    if StoredAsIssued(l) {
      StoredAsIssuedAgrees(l, memory, s);
    }
  }

  /** Memory and the tables agree.  In any run with statements in any order, failures and crashes that
      stays in step, a restart at a quiescent moment recovers memory, cut to seconds, exactly when no
      statement has failed since the last crash and each incident's decisions were stored in the
      order of their issue, up to equal ones. */
  lemma QuiescentAgreementIff(run: seq<System>, events: seq<Event>, hash: Hash, n: nat)
    requires IsFaultyRun(run, events, hash) && n <= |events| && AlwaysInStep(run, events, n) && run[n].pending == []
    ensures Rebuild(run[n].tables) == Some(TruncState(run[n].memory)) <==> StoredAsIssued(LedgerOf(run, events, hash, n))
  {
    RunBalances(run, events, hash, n);
    AgreesIff(LedgerOf(run, events, hash, n), run[n].memory, Rebuild(run[n].tables).value);
  }
}
