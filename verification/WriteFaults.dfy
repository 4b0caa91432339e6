/** Failing database steps (internal/persistence/store.go).  A failed statement is reported to the
    caller and never repeated, while memory keeps the change, so the tables go on without it. */
module WriteFaults {
  import opened Sequences
  import opened Rfc3339
  import opened Incidents
  import opened IncidentStore
  import opened Lifecycle
  import opened IncidentTables
  import opened WriteThrough
  import opened WriteOrder

  // ----- what a lost write costs the later ones -----

  /** No later write decides the incident or inserts another occurrence of its key. */
  predicate Untouched(rest: seq<Write>, id: string, key: string) {
    forall w :: w in rest ==> !(w.RecordDecision? && w.inc.id == id) && !(w.InsertIncident? && w.inc.key == key)
  }

  /** Another decision on the incident comes before the next occurrence of its key. */
  predicate ClosedFirst(rest: seq<Write>, id: string, key: string)
    decreases |rest|
  {
    if rest == [] || (rest[0].RecordDecision? && rest[0].inc.id == id) then true
    else if rest[0].InsertIncident? && rest[0].inc.key == key then false
    else ClosedFirst(rest[1..], id, key)
  }

  /** A lost insert is harmless when nothing later builds on the incident; a lost decision when it
      was not the one that closed the incident, or another closes it in time. */
  predicate HarmlessLoss(s: State, lost: Write, rest: seq<Write>) {
    match lost
    case InsertIncident(inc) => Untouched(rest, inc.id, inc.key)
    case RecordDecision(inc, _) => IsActive(s, inc.id) ==> ClosedFirst(rest, inc.id, inc.key)
  }

  lemma EnabledWithoutInsert(s: State, inc: Incident, w: Write)
    requires Inv(s) && Lifecycle.Next(s, inc) && Enabled(AddIncident(s, inc), w)
    ensures Enabled(s, w) <==> !(w.RecordDecision? && w.inc.id == inc.id) && !(w.InsertIncident? && w.inc.key == inc.key)
  {
  }

  lemma NextAfterDecision(s: State, inc: Incident, id: string, status: Status, actor: string, at: Instant)
    requires Lifecycle.Next(s, inc) && id in s.incidents && status != Active
    ensures Lifecycle.Next(AddDecision(s, id, status, actor, at), inc)
  {
  }

  lemma NextAfterInsert(s: State, inc: Incident, other: Incident)
    requires Inv(s) && Lifecycle.Next(s, inc) && Lifecycle.Next(s, other) && inc.id != other.id && inc.key != other.key
    ensures Lifecycle.Next(AddIncident(s, other), inc)
  {
    HistoryKeepsStatus(s, InsertIncident(other), inc.key);
  }

  lemma StillNext(s: State, inc: Incident, w: Write)
    requires Inv(s) && Lifecycle.Next(s, inc) && Enabled(s, w) && Enabled(AddIncident(s, inc), w)
    requires !(w.RecordDecision? && w.inc.id == inc.id) && !(w.InsertIncident? && w.inc.key == inc.key)
    ensures Lifecycle.Next(Apply(s, w), inc) && Apply(AddIncident(s, inc), w) == AddIncident(Apply(s, w), inc)
  {
    match w
    case InsertIncident(other) =>
      NextAfterInsert(s, inc, other);
      AddsCommute(s, inc, other);
    case RecordDecision(d, actor) =>
      NextAfterDecision(s, inc, d.id, d.status, actor, d.updatedAt);
      AddAndDecideCommute(s, inc, d, actor);
  }

  lemma UntouchedCons(rest: seq<Write>, id: string, key: string)
    requires rest != []
    ensures Untouched(rest, id, key)
       <==> !(rest[0].RecordDecision? && rest[0].inc.id == id) && !(rest[0].InsertIncident? && rest[0].inc.key == key)
            && Untouched(rest[1..], id, key)
  {
    assert forall x :: x in rest <==> x == rest[0] || x in rest[1..];
  }

  lemma {:induction false} LostInsert(s: State, inc: Incident, rest: seq<Write>)
    requires Inv(s) && Lifecycle.Next(s, inc) && Runs(AddIncident(s, inc), rest)
    ensures Runs(s, rest) <==> Untouched(rest, inc.id, inc.key)
    decreases |rest|
  {
    if rest != [] {
      var w := rest[0];
      EnabledWithoutInsert(s, inc, w);
      UntouchedCons(rest, inc.id, inc.key);
      if Enabled(s, w) {
        StillNext(s, inc, w);
        ApplyKeepsInv(s, w);
        LostInsert(Apply(s, w), inc, rest[1..]);
      }
    }
  }

  /** `s` lacks a decision on `id` that `t` has; nothing else differs. */
  ghost predicate Behind(s: State, t: State, id: string) {
    && s.byOccurrence == t.byOccurrence && s.incidents.Keys == t.incidents.Keys
    && (forall x :: x in s.incidents && x != id ==> s.incidents[x] == t.incidents[x])
    && (forall x :: x != id ==> TrailOf(s, x) == TrailOf(t, x))
    && id in s.incidents && s.incidents[id].key == t.incidents[id].key && t.incidents[id].status != Active
    && LastSecond(TrailOf(s, id)) <= LastSecond(TrailOf(t, id))
  }

  lemma DecisionPutsBehind(s: State, inc: Incident, actor: string)
    requires Inv(s) && Enabled(s, RecordDecision(inc, actor))
    ensures Behind(s, Apply(s, RecordDecision(inc, actor)), inc.id)
  {
  }

  lemma ActiveIsLast(s: State, id: string)
    requires Inv(s) && IsActive(s, id)
    ensures Ongoing(s, s.incidents[id].key) == Some(s.incidents[id])
  {
    AtMostOneActive(s, id, id);
  }

  lemma SameLast(s: State, t: State, id: string, key: string)
    requires Linked(s) && Behind(s, t, id) && Ongoing(s, key) != None && Ongoing(t, key) == None
    ensures IsActive(s, id) && key == s.incidents[id].key
  {
    var h := HistoryOf(s, key);
    assert Dense(s, key, |h| - 1);
  }

  /** Being behind does not show in the last occurrence of a key, unless it is the incident. */
  lemma OngoingBehind(s: State, t: State, id: string, key: string)
    requires Inv(s) && Behind(s, t, id) && Ongoing(t, key) == None
    ensures Ongoing(s, key) == None <==> !(IsActive(s, id) && key == s.incidents[id].key)
  {
    if Ongoing(s, key) != None {
      SameLast(s, t, id, key);
    } else if IsActive(s, id) {
      ActiveIsLast(s, id);
    }
  }

  lemma InsertBehind(s: State, t: State, id: string, inc: Incident)
    requires Inv(s) && Behind(s, t, id) && Lifecycle.Next(t, inc)
    ensures Lifecycle.Next(s, inc) <==> !(IsActive(s, id) && inc.key == s.incidents[id].key)
  {
    OngoingBehind(s, t, id, inc.key);
  }

  lemma DecisionBehind(s: State, t: State, id: string, inc: Incident, actor: string)
    requires Behind(s, t, id) && Enabled(t, RecordDecision(inc, actor))
    ensures Enabled(s, RecordDecision(inc, actor))
  {
    if inc.id != id {
      assert TrailOf(s, inc.id) == TrailOf(t, inc.id);
      assert s.incidents[inc.id] == t.incidents[inc.id];
    }
  }

  lemma EnabledBehind(s: State, t: State, id: string, w: Write)
    requires Inv(s) && Behind(s, t, id) && Enabled(t, w)
    ensures Enabled(s, w) <==> !(IsActive(s, id) && w.InsertIncident? && w.inc.key == s.incidents[id].key)
  {
    match w
    case InsertIncident(inc) => InsertBehind(s, t, id, inc);
    case RecordDecision(inc, actor) => DecisionBehind(s, t, id, inc, actor);
  }

  lemma InsertStaysBehind(s: State, t: State, id: string, inc: Incident)
    requires Behind(s, t, id) && inc.id !in s.incidents
    ensures Behind(AddIncident(s, inc), AddIncident(t, inc), id)
  {
    var s', t' := AddIncident(s, inc), AddIncident(t, inc);
    assert HistoryOf(s, inc.key) == HistoryOf(t, inc.key);
    assert s'.incidents.Keys == s.incidents.Keys + {inc.id} && t'.incidents.Keys == t.incidents.Keys + {inc.id};
    forall x ensures TrailOf(s', x) == TrailOf(s, x) && TrailOf(t', x) == TrailOf(t, x) {
    }
  }

  lemma DecisionStaysBehind(s: State, t: State, id: string, x: string, status: Status, actor: string, at: Instant)
    requires Behind(s, t, id) && x in s.incidents && status != Active
    ensures Behind(AddDecision(s, x, status, actor, at), AddDecision(t, x, status, actor, at), id)
  {
    var s', t' := AddDecision(s, x, status, actor, at), AddDecision(t, x, status, actor, at);
    assert s'.incidents.Keys == s.incidents.Keys && t'.incidents.Keys == t.incidents.Keys;
    forall y | y != id ensures TrailOf(s', y) == TrailOf(t', y) {
      assert TrailOf(s, y) == TrailOf(t, y);
    }
    forall y | y in s'.incidents && y != id ensures s'.incidents[y] == t'.incidents[y] {
      assert s.incidents[y] == t.incidents[y];
    }
  }

  lemma StaysBehind(s: State, t: State, id: string, w: Write)
    requires Behind(s, t, id) && Enabled(s, w)
    ensures Behind(Apply(s, w), Apply(t, w), id)
  {
    match w
    case InsertIncident(inc) => InsertStaysBehind(s, t, id, inc);
    case RecordDecision(inc, actor) => DecisionStaysBehind(s, t, id, inc.id, inc.status, actor, inc.updatedAt);
  }

  lemma StatusAfter(s: State, id: string, w: Write)
    requires id in s.incidents && Enabled(s, w)
    ensures id in Apply(s, w).incidents && Apply(s, w).incidents[id].key == s.incidents[id].key
    ensures IsActive(Apply(s, w), id) <==> IsActive(s, id) && !(w.RecordDecision? && w.inc.id == id)
  {
  }

  lemma {:induction false} LostDecision(s: State, t: State, id: string, rest: seq<Write>)
    requires Inv(s) && Inv(t) && Behind(s, t, id) && Runs(t, rest)
    ensures Runs(s, rest) <==> (IsActive(s, id) ==> ClosedFirst(rest, id, s.incidents[id].key))
    decreases |rest|
  {
    if rest != [] {
      var w := rest[0];
      EnabledBehind(s, t, id, w);
      if Enabled(s, w) {
        StaysBehind(s, t, id, w);
        StatusAfter(s, id, w);
        ApplyKeepsInv(s, w);
        ApplyKeepsInv(t, w);
        LostDecision(Apply(s, w), Apply(t, w), id, rest[1..]);
      }
    }
  }

  /** Writes issued after a lost one stay next for their keys, each in turn, exactly when the loss
      is harmless. */
  lemma LossIsHarmless(s: State, lost: Write, rest: seq<Write>)
    requires Inv(s) && Enabled(s, lost) && Runs(Apply(s, lost), rest)
    ensures Runs(s, rest) <==> HarmlessLoss(s, lost, rest)
  {
    match lost
    case InsertIncident(inc) => LostInsert(s, inc, rest);
    case RecordDecision(inc, actor) =>
      ApplyKeepsInv(s, lost);
      DecisionPutsBehind(s, inc, actor);
      LostDecision(s, Apply(s, lost), inc.id, rest);
  }

  // ----- what the tables go through -----

  /** Memory has registered what a write is about. */
  ghost predicate Registered(memory: State, w: Write) {
    && WholeWrite(w)
    && w.inc.id in memory.incidents && memory.incidents[w.inc.id].key == w.inc.key
    && match w
       case InsertIncident(inc) => inc.status == Active && inc.updatedAt == inc.createdAt
       case RecordDecision(inc, _) => inc.status != Active
  }

  /** The tables and the writes that wait hold nothing memory does not know, and each insert that
      waits is the only one of its incident. */
  ghost predicate Known(memory: State, s: State, ws: seq<Write>) {
    && (forall id :: id in s.incidents ==> id in memory.incidents && memory.incidents[id].key == s.incidents[id].key)
    && (forall w :: w in ws ==> Registered(memory, w))
    && (forall i :: 0 <= i < |ws| && ws[i].InsertIncident? ==> ws[i].inc.id !in s.incidents)
    && (forall i, j :: 0 <= i < j < |ws| && ws[i].InsertIncident? && ws[j].InsertIncident? ==> ws[i].inc.id != ws[j].inc.id)
  }

  lemma KnownIsPlausible(memory: State, s: State, ws: seq<Write>, i: nat)
    requires Known(memory, s, ws) && i < |ws|
    ensures Plausible(s, ws[i]) && WholeWrite(ws[i])
  {
    assert Registered(memory, ws[i]);
  }

  lemma WithoutAt<T>(ws: seq<T>, i: nat, k: nat)
    requires i < |ws| && k < |Without(ws, i)|
    ensures Without(ws, i)[k] == ws[if k < i then k else k + 1]
  {
  }

  lemma KnownWithout(memory: State, s: State, ws: seq<Write>, i: nat)
    requires Known(memory, s, ws) && i < |ws|
    ensures Known(memory, s, Without(ws, i))
    ensures forall k :: 0 <= k < |Without(ws, i)| && Without(ws, i)[k].InsertIncident? && ws[i].InsertIncident? ==>
              Without(ws, i)[k].inc.id != ws[i].inc.id
  {
    var rest := Without(ws, i);
    forall k | 0 <= k < |rest| ensures rest[k] == ws[if k < i then k else k + 1] {
      WithoutAt(ws, i, k);
    }
  }

  lemma KnownAfterCommit(memory: State, s: State, ws: seq<Write>, i: nat)
    requires Known(memory, s, ws) && i < |ws| && Enabled(s, ws[i])
    ensures Known(memory, Apply(s, ws[i]), Without(ws, i))
  {
    KnownWithout(memory, s, ws, i);
    assert Registered(memory, ws[i]);
  }

  lemma KnownAfterMemoryStep(memory: State, memory': State, s: State, ws: seq<Write>)
    requires Known(memory, s, ws) && Extends(memory, memory')
    ensures Known(memory', s, ws)
  {
    forall id | id in memory.incidents ensures id in memory'.incidents && memory'.incidents[id].key == memory.incidents[id].key {
      assert Kept(memory, memory', id);
    }
    forall w | w in ws ensures Registered(memory', w) {
      assert Registered(memory, w);
    }
  }

  lemma KnownAppend(memory: State, s: State, ws: seq<Write>, w: Write)
    requires Known(memory, s, ws) && Registered(memory, w)
    requires w.InsertIncident? ==> w.inc.id !in s.incidents && forall x :: x in ws ==> x.inc.id != w.inc.id
    ensures Known(memory, s, ws + [w])
  {
    forall x | x in ws + [w] ensures Registered(memory, x) {
      assert x in ws || x == w;
    }
  }

  /** The invariant of runs with failures and in any order: memory and tables are consistent, but
      need not agree. */
  ghost predicate Usable(sys: System) {
    && Inv(sys.memory) && Rebuild(sys.tables).Some?
    && Represents(sys.tables, Rebuild(sys.tables).value)
    && Known(sys.memory, Rebuild(sys.tables).value, sys.pending)
  }

  /** Any interleaving of sound operations, statements that succeed or fail in whatever order, and
      crashes. */
  predicate Possible(sys: System, ev: Event, hash: Hash) {
    match ev
    case CommitEvent(i) => i < |sys.pending|
    case FailEvent(i) => i < |sys.pending|
    case CrashEvent => true
    case _ => Sound(sys.memory, OpOf(ev), hash)
  }

  /** A statement that succeeds finds its write next for its key in the tables. */
  ghost predicate InStep(sys: System, ev: Event) {
    ev.CommitEvent? ==>
      && Rebuild(sys.tables).Some? && ev.index < |sys.pending|
      && Enabled(Rebuild(sys.tables).value, sys.pending[ev.index])
  }

  lemma MemoryWrite(memory: State, ev: Event, hash: Hash)
    requires (ev.UpsertEvent? || ev.DecideEvent?) && Inv(memory) && Sound(memory, OpOf(ev), hash)
    ensures var w, after := WriteOf(memory, ev, hash), Step(memory, OpOf(ev), hash);
            w.Some? ==> Registered(after, TruncWrite(w.value)) && (w.value.InsertIncident? ==> w.value.inc.id !in memory.incidents)
  {
    var w := WriteOf(memory, ev, hash);
    if w.Some? {
      TruncIdempotent(w.value.inc.createdAt);
      TruncIdempotent(w.value.inc.updatedAt);
      if ev.DecideEvent? {
        assert Placed(memory, ev.id);
      }
    }
  }

  lemma MemoryStepStaysUsable(sys: System, ev: Event, hash: Hash)
    requires (ev.UpsertEvent? || ev.DecideEvent?) && Usable(sys) && Possible(sys, ev, hash)
    ensures NextSystem(sys, ev, hash).Some? && Usable(NextSystem(sys, ev, hash).value)
  {
    var s, after, w := Rebuild(sys.tables).value, Step(sys.memory, OpOf(ev), hash), WriteOf(sys.memory, ev, hash);
    StepKeepsInv(sys.memory, OpOf(ev), hash);
    KnownAfterMemoryStep(sys.memory, after, s, sys.pending);
    if w.Some? {
      MemoryWrite(sys.memory, ev, hash);
      forall x | x in sys.pending ensures x.inc.id in sys.memory.incidents {
        assert Registered(sys.memory, x);
      }
      KnownAppend(after, s, sys.pending, TruncWrite(w.value));
    }
  }

  lemma CommitStaysUsable(sys: System, i: nat, hash: Hash)
    requires Usable(sys) && i < |sys.pending|
    ensures var next := NextSystem(sys, CommitEvent(i), hash);
            && next.Some?
            && (InStep(sys, CommitEvent(i)) ==> Usable(next.value))
            && (ConsistentRestart(next.value.tables) <==> InStep(sys, CommitEvent(i)))
  {
    var s, w := Rebuild(sys.tables).value, sys.pending[i];
    KnownIsPlausible(sys.memory, s, sys.pending, i);
    CommitIsConsistent(sys.tables, s, w);
    NextOfCommit(sys, i, hash, Commit(sys.tables, w).value);
    if Enabled(s, w) {
      CommitRepresents(sys.tables, s, w);
      RebuildRepresented(Commit(sys.tables, w).value, Apply(s, w));
      KnownAfterCommit(sys.memory, s, sys.pending, i);
    }
  }

  lemma CrashStaysUsable(sys: System, hash: Hash)
    requires Usable(sys)
    ensures NextSystem(sys, CrashEvent, hash).Some? && Usable(NextSystem(sys, CrashEvent, hash).value)
  {
    NextOfCrash(sys, hash, Rebuild(sys.tables).value);
  }

  lemma StepStaysUsable(sys: System, ev: Event, hash: Hash)
    requires Usable(sys) && Possible(sys, ev, hash)
    ensures var next := NextSystem(sys, ev, hash);
            && next.Some?
            && (InStep(sys, ev) ==> Usable(next.value))
            && (ConsistentRestart(next.value.tables) <==> InStep(sys, ev))
  {
    match ev
    case CommitEvent(i) => CommitStaysUsable(sys, i, hash);
    case FailEvent(i) => KnownWithout(sys.memory, Rebuild(sys.tables).value, sys.pending, i);
    case CrashEvent => CrashStaysUsable(sys, hash);
    case _ => MemoryStepStaysUsable(sys, ev, hash);
  }

  ghost predicate IsFaultyRun(run: seq<System>, events: seq<Event>, hash: Hash) {
    && |run| == |events| + 1
    && (exists clock: Instant :: run[0] == Init(clock))
    && forall i :: 0 <= i < |events| ==>
         Possible(run[i], events[i], hash) && NextSystem(run[i], events[i], hash) == Some(run[i + 1])
  }

  lemma StepOfRun(run: seq<System>, events: seq<Event>, hash: Hash, i: nat)
    requires IsFaultyRun(run, events, hash) && i < |events| && Usable(run[i])
    ensures InStep(run[i], events[i]) ==> Usable(run[i + 1])
    ensures ConsistentRestart(run[i + 1].tables) <==> InStep(run[i], events[i])
  {
    StepStaysUsable(run[i], events[i], hash);
  }

  lemma StartOfRun(run: seq<System>, events: seq<Event>, hash: Hash)
    requires IsFaultyRun(run, events, hash)
    ensures Usable(run[0])
  {
    var clock: Instant :| run[0] == Init(clock);
    InitSynchronized(clock);
  }

  ghost predicate AlwaysConsistent(run: seq<System>, n: nat)
    requires n < |run|
  {
    ConsistentRestart(run[n].tables) && (n > 0 ==> AlwaysConsistent(run, n - 1))
  }

  ghost predicate AlwaysInStep(run: seq<System>, events: seq<Event>, n: nat)
    requires n < |run| && n <= |events|
  {
    n > 0 ==> InStep(run[n - 1], events[n - 1]) && AlwaysInStep(run, events, n - 1)
  }

  lemma {:induction false} UsableWhileInStep(run: seq<System>, events: seq<Event>, hash: Hash, n: nat)
    requires IsFaultyRun(run, events, hash) && n <= |events| && AlwaysInStep(run, events, n)
    ensures Usable(run[n])
  {
    if n == 0 {
      StartOfRun(run, events, hash);
    } else {
      UsableWhileInStep(run, events, hash, n - 1);
      StepOfRun(run, events, hash, n - 1);
    }
  }

  /** Whatever order statements arrive in, whichever of them fail and wherever crashes fall: a
      restart would be consistent at every moment of a run exactly when every statement that
      succeeded found its write next for its key in the tables. */
  lemma {:induction false} RunStaysConsistent(run: seq<System>, events: seq<Event>, hash: Hash, n: nat)
    requires IsFaultyRun(run, events, hash) && n <= |events|
    ensures AlwaysConsistent(run, n) <==> AlwaysInStep(run, events, n)
  {
    if n == 0 {
      StartOfRun(run, events, hash);
    } else {
      RunStaysConsistent(run, events, hash, n - 1);
      if AlwaysInStep(run, events, n - 1) {
        UsableWhileInStep(run, events, hash, n - 1);
        StepOfRun(run, events, hash, n - 1);
      }
    }
  }

  // ----- one failure in a synchronized run -----

  lemma {:induction false} RunsSplit(s: State, a: seq<Write>, b: seq<Write>)
    ensures Runs(s, a + b) <==> Runs(s, a) && Runs(ApplyAll(s, a), b)
    ensures ApplyAll(s, a + b) == ApplyAll(ApplyAll(s, a), b)
    decreases |a|
  {
    if a == [] {
      assert a + b == b;
    } else {
      assert (a + b)[1..] == a[1..] + b;
      RunsSplit(Apply(s, a[0]), a[1..], b);
    }
  }

  /** The remaining writes are stored in order, and a restart is consistent after each. */
  ghost predicate StoresCleanly(db: Tables, ws: seq<Write>)
    decreases |ws|
  {
    && ConsistentRestart(db)
    && (ws != [] ==> Commit(db, ws[0]).Some? && StoresCleanly(Commit(db, ws[0]).value, ws[1..]))
  }

  lemma KnownAfterFirst(memory: State, s: State, ws: seq<Write>)
    requires Known(memory, s, ws) && ws != [] && Enabled(s, ws[0])
    ensures Known(memory, Apply(s, ws[0]), ws[1..])
  {
    KnownAfterCommit(memory, s, ws, 0);
    assert Without(ws, 0) == ws[1..];
  }

  lemma FirstStored(db: Tables, s: State, w: Write)
    requires Represents(db, s) && WholeWrite(w) && Plausible(s, w)
    ensures Commit(db, w).Some?
    ensures ConsistentRestart(Commit(db, w).value) <==> Enabled(s, w)
    ensures Enabled(s, w) ==> Represents(Commit(db, w).value, Apply(s, w))
  {
    CommitIsConsistent(db, s, w);
    if Enabled(s, w) {
      CommitRepresents(db, s, w);
    }
  }

  lemma CleanlyCons(db: Tables, ws: seq<Write>)
    requires ConsistentRestart(db) && ws != [] && Commit(db, ws[0]).Some?
    ensures StoresCleanly(db, ws) <==> StoresCleanly(Commit(db, ws[0]).value, ws[1..])
    ensures StoresCleanly(db, ws) ==> ConsistentRestart(Commit(db, ws[0]).value)
  {
  }

  /** Storing writes in order keeps restarts consistent exactly when each is next for its key in
      its turn. */
  lemma {:induction false} StoresCleanlyIffRuns(db: Tables, s: State, ws: seq<Write>, memory: State)
    requires Represents(db, s) && Known(memory, s, ws)
    ensures StoresCleanly(db, ws) <==> Runs(s, ws)
    decreases |ws|
  {
    RebuildRepresented(db, s);
    if ws != [] {
      KnownIsPlausible(memory, s, ws, 0);
      FirstStored(db, s, ws[0]);
      CleanlyCons(db, ws);
      if Enabled(s, ws[0]) {
        KnownAfterFirst(memory, s, ws);
        StoresCleanlyIffRuns(Commit(db, ws[0]).value, Apply(s, ws[0]), ws[1..], memory);
      }
    }
  }

  lemma LossAmong(s: State, before: seq<Write>, lost: Write, after: seq<Write>)
    requires Inv(s) && Runs(s, before + [lost] + after)
    ensures Runs(s, before + after) <==> HarmlessLoss(ApplyAll(s, before), lost, after)
  {
    RunsSplit(s, before + [lost], after);
    RunsSplit(s, before, [lost]);
    RunsSplit(s, before, after);
    var mid := ApplyAll(s, before);
    assert [lost][1..] == [];
    RunsExtend(s, before);
    LossIsHarmless(mid, lost, after);
  }

  lemma OrderedIsInStep(sys: System, ev: Event, hash: Hash)
    requires Synchronized(sys) && Admissible(sys, ev, hash)
    ensures InStep(sys, ev)
  {
    if ev.CommitEvent? {
      CommitOutOfOrder(Rebuild(sys.tables).value, sys.pending, ev.index);
    }
  }

  lemma OrderedIsFaulty(run: seq<System>, events: seq<Event>, hash: Hash)
    requires IsRun(run, events, hash)
    ensures IsFaultyRun(run, events, hash)
  {
  }

  /** In a run that keeps the order of each key and in which no statement fails, every statement
      finds its write next for its key. */
  lemma {:induction false} OrderedRunIsInStep(run: seq<System>, events: seq<Event>, hash: Hash, n: nat)
    requires IsRun(run, events, hash) && n <= |events|
    ensures AlwaysInStep(run, events, n)
  {
    if n > 0 {
      OrderedRunIsInStep(run, events, hash, n - 1);
      RunSynchronized(run, events, hash, n - 1);
      OrderedIsInStep(run[n - 1], events[n - 1], hash);
    }
  }

  lemma LossInSystem(sys: System, i: nat, s: State)
    requires Usable(sys) && i < |sys.pending| && Rebuild(sys.tables) == Some(s) && Runs(s, sys.pending)
    ensures StoresCleanly(sys.tables, Without(sys.pending, i))
       <==> HarmlessLoss(ApplyAll(s, sys.pending[..i]), sys.pending[i], sys.pending[i + 1..])
  {
    var before, after := SplitAt(sys.pending, i);
    KnownWithout(sys.memory, s, sys.pending, i);
    StoresCleanlyIffRuns(sys.tables, s, Without(sys.pending, i), sys.memory);
    LossAmong(s, before, sys.pending[i], after);
  }

  /** When one statement fails in a run that was ordered and free of failures until then, the
      writes still waiting are stored cleanly exactly when the loss is harmless to them. */
  lemma FailedStatement(run: seq<System>, events: seq<Event>, hash: Hash, n: nat, i: nat)
    requires IsRun(run, events, hash) && n <= |events| && i < |run[n].pending|
    ensures Rebuild(run[n].tables).Some?
    ensures var s, pending := Rebuild(run[n].tables).value, run[n].pending;
            StoresCleanly(run[n].tables, Without(pending, i))
            <==> HarmlessLoss(ApplyAll(s, pending[..i]), pending[i], pending[i + 1..])
  {
    RunSynchronized(run, events, hash, n);
    OrderedIsFaulty(run, events, hash);
    OrderedRunIsInStep(run, events, hash, n);
    UsableWhileInStep(run, events, hash, n);
    LossInSystem(run[n], i, Rebuild(run[n].tables).value);
  }
}
