/** The metrics under concurrent requests (internal/api/handlers.go).  A request changes memory under
    the lock of the incident store and counts what it did only after its statement has returned, so
    other requests see the incident in between and may count before it does. */
module MetricSteps {
  import opened Sequences
  import opened Rfc3339
  import opened Incidents
  import opened IncidentStore
  import opened Lifecycle
  import opened Pipeline

  /** What a request still has to count. */
  datatype Tick =
    | Creation(id: string, severity: Severity, recurrence: bool)
    | Ruling(id: string, severity: Severity, closes: bool, resolves: bool)

  datatype System = System(memory: State, metrics: Metrics, waiting: seq<Tick>)

  /** The memory step of a request; the count of one whose statement succeeded; and the end of one
      whose statement failed, which counts nothing. */
  datatype Event =
    | MemoryEvent(op: Op)
    | CountEvent(index: nat)
    | DropEvent(index: nat)

  function TickOf(s: State, op: Op, hash: Hash): Option<Tick> {
    match op
    case UpsertOp(c, now) =>
      var r := Upsert(s, c, now, hash);
      if r.created then Some(Creation(r.incident.id, c.severity, r.incident.sequence > 1)) else None
    case DecideOp(id, status, actor, now) =>
      var r := Decide(s, id, status, actor, now);
      if r.Decided? then Some(Ruling(id, s.incidents[id].severity, r.wasActive, status == Resolved)) else None
  }

  function Counted(m: Metrics, t: Tick): Metrics {
    match t
    case Creation(_, severity, recurrence) =>
      m.(active := Added(m.active, severity, 1), recurred := m.recurred + if recurrence then 1 else 0)
    case Ruling(_, severity, closes, resolves) =>
      m.(active := if closes then Added(m.active, severity, -1) else m.active,
         resolved := if resolves then Added(m.resolved, severity, 1) else m.resolved)
  }

  function NextSystem(sys: System, ev: Event, hash: Hash): System {
    match ev
    case MemoryEvent(op) =>
      var t := TickOf(sys.memory, op, hash);
      sys.(memory := Step(sys.memory, op, hash), waiting := if t.Some? then sys.waiting + [t.value] else sys.waiting)
    case CountEvent(i) =>
      if i >= |sys.waiting| then sys
      else sys.(metrics := Counted(sys.metrics, sys.waiting[i]), waiting := Without(sys.waiting, i))
    case DropEvent(i) =>
      if i >= |sys.waiting| then sys else sys.(waiting := Without(sys.waiting, i))
  }

  function After(sys: System, events: seq<Event>, hash: Hash): System {
    if events == [] then sys else NextSystem(After(sys, events[..|events| - 1], hash), events[|events| - 1], hash)
  }

  predicate SoundEvent(sys: System, ev: Event, hash: Hash) {
    ev.MemoryEvent? ==> Sound(sys.memory, ev.op, hash)
  }

  predicate SoundEvents(sys: System, events: seq<Event>, hash: Hash) {
    events != [] ==>
      var front := events[..|events| - 1];
      SoundEvents(sys, front, hash) && SoundEvent(After(sys, front, hash), events[|events| - 1], hash)
  }

  lemma AfterNext(sys: System, events: seq<Event>, ev: Event, hash: Hash)
    ensures After(sys, events + [ev], hash) == NextSystem(After(sys, events, hash), ev, hash)
    ensures SoundEvents(sys, events + [ev], hash) <==> SoundEvents(sys, events, hash) && SoundEvent(After(sys, events, hash), ev, hash)
  {
    assert (events + [ev])[..|events|] == events;
  }

  /** A request that nothing comes in between of does what one unit of serial work does. */
  lemma SerialWork(s: State, m: Metrics, w: Work, hash: Hash)
    ensures var begun := NextSystem(System(s, m, []), MemoryEvent(Pipeline.OpOf(w)), hash);
            var done := NextSystem(begun, if w.stored then CountEvent(0) else DropEvent(0), hash);
            done == System(Step(s, Pipeline.OpOf(w), hash), Count(s, m, w, hash), [])
  {
  }

  // ----- incidents whose counts are outstanding -----

  /** Incidents of the severity whose creation is still to be counted. */
  function Creating(ws: seq<Tick>, sev: Severity): set<string> {
    set t | t in ws && t.Creation? && t.severity == sev :: t.id
  }

  /** Incidents of the severity whose closure is still to be counted. */
  function Closing(ws: seq<Tick>, sev: Severity): set<string> {
    set t | t in ws && t.Ruling? && t.closes && t.severity == sev :: t.id
  }

  /** Incidents of the severity whose closure has not been counted. */
  function Unclosed(s: State, ws: seq<Tick>, sev: Severity): set<string> {
    ActiveIds(s, sev) + Closing(ws, sev)
  }

  /** Counted as created and not as closed: what the gauge should show. */
  function Open(sys: System, sev: Severity): set<string> {
    Unclosed(sys.memory, sys.waiting, sev) - Creating(sys.waiting, sev)
  }

  /** Counted as closed and not as created: what the gauge is short of. */
  function Overtaken(sys: System, sev: Severity): set<string> {
    Creating(sys.waiting, sev) - Unclosed(sys.memory, sys.waiting, sev)
  }

  /** What the gauge shows beyond that. */
  function Surplus(sys: System, sev: Severity): int {
    Value(sys.metrics.active, sev) - |Open(sys, sev)| + |Overtaken(sys, sev)|
  }

  /** Each incident is created once and closed once, and the ticks tell its severity. */
  ghost predicate Tidy(s: State, ws: seq<Tick>) {
    && (forall t :: t in ws ==> t.id in s.incidents && s.incidents[t.id].severity == t.severity)
    && (forall t :: t in ws && t.Ruling? && t.closes ==> s.incidents[t.id].status != Active)
    && (forall i, j :: 0 <= i < j < |ws| && ws[i].Creation? && ws[j].Creation? ==> ws[i].id != ws[j].id)
    && (forall i, j :: 0 <= i < j < |ws| && Closes(ws[i]) && Closes(ws[j]) ==> ws[i].id != ws[j].id)
  }

  predicate Closes(t: Tick) {
    t.Ruling? && t.closes
  }

  lemma CreatingAppend(ws: seq<Tick>, t: Tick, sev: Severity)
    ensures Creating(ws + [t], sev) == Creating(ws, sev) + (if t.Creation? && t.severity == sev then {t.id} else {})
    ensures Closing(ws + [t], sev) == Closing(ws, sev) + (if Closes(t) && t.severity == sev then {t.id} else {})
  {
    assert forall x :: x in ws + [t] <==> x in ws || x == t;
  }

  lemma InWithout(ws: seq<Tick>, i: nat)
    requires i < |ws|
    ensures forall t :: t in ws <==> t in Without(ws, i) || t == ws[i]
  {
    var before, after := SplitAt(ws, i);
    assert forall t :: t in before + [ws[i]] + after <==> t in before || t == ws[i] || t in after;
  }

  lemma LeftOnce(ws: seq<Tick>, i: nat)
    requires i < |ws|
    requires forall j, k :: 0 <= j < k < |ws| && ws[j].Creation? && ws[k].Creation? ==> ws[j].id != ws[k].id
    requires forall j, k :: 0 <= j < k < |ws| && Closes(ws[j]) && Closes(ws[k]) ==> ws[j].id != ws[k].id
    ensures forall t :: t in Without(ws, i) && t.Creation? && ws[i].Creation? ==> t.id != ws[i].id
    ensures forall t :: t in Without(ws, i) && Closes(t) && Closes(ws[i]) ==> t.id != ws[i].id
  {
    forall t | t in Without(ws, i) ensures t.Creation? && ws[i].Creation? ==> t.id != ws[i].id
      ensures Closes(t) && Closes(ws[i]) ==> t.id != ws[i].id
    {
      var k :| 0 <= k < |Without(ws, i)| && Without(ws, i)[k] == t;
      assert t == ws[if k < i then k else k + 1];
    }
  }

  lemma CreatingWithout(s: State, ws: seq<Tick>, i: nat, sev: Severity)
    requires Tidy(s, ws) && i < |ws|
    ensures Creating(Without(ws, i), sev) == Creating(ws, sev) - (if ws[i].Creation? && ws[i].severity == sev then {ws[i].id} else {})
    ensures Closing(Without(ws, i), sev) == Closing(ws, sev) - (if Closes(ws[i]) && ws[i].severity == sev then {ws[i].id} else {})
  {
    InWithout(ws, i);
    LeftOnce(ws, i);
  }

  lemma TidyWithout(s: State, ws: seq<Tick>, i: nat)
    requires Tidy(s, ws) && i < |ws|
    ensures Tidy(s, Without(ws, i))
  {
    var rest := Without(ws, i);
    InWithout(ws, i);
    forall k | 0 <= k < |rest| ensures rest[k] == ws[if k < i then k else k + 1] {
    }
  }

  // ----- memory steps -----

  lemma TidyAfterUpsert(s: State, ws: seq<Tick>, inc: Incident, t: Tick)
    requires Tidy(s, ws) && inc.id !in s.incidents && t.Creation? && t.id == inc.id && t.severity == inc.severity
    ensures Tidy(AddIncident(s, inc), ws + [t])
  {
    forall i | 0 <= i < |ws| ensures ws[i].id != inc.id {
      assert ws[i] in ws;
    }
    assert forall x :: x in ws + [t] <==> x in ws || x == t;
  }

  lemma TidyAfterDecision(s: State, ws: seq<Tick>, id: string, status: Status, actor: string, at: Instant, t: Tick)
    requires Tidy(s, ws) && id in s.incidents && status != Active
    requires t.Ruling? && t.id == id && t.severity == s.incidents[id].severity && (t.closes <==> s.incidents[id].status == Active)
    ensures Tidy(AddDecision(s, id, status, actor, at), ws + [t])
  {
    forall i | 0 <= i < |ws| && Closes(ws[i]) && t.closes ensures ws[i].id != id {
      assert ws[i] in ws;
    }
    assert forall x :: x in ws + [t] <==> x in ws || x == t;
  }

  /** A creation is neither open nor overtaken before it is counted. */
  lemma UpsertKeepsSets(s: State, ws: seq<Tick>, inc: Incident, t: Tick, sev: Severity)
    requires Tidy(s, ws) && inc.id !in s.incidents && inc.status == Active
    requires t.Creation? && t.id == inc.id && t.severity == inc.severity
    ensures Unclosed(AddIncident(s, inc), ws + [t], sev) - Creating(ws + [t], sev) == Unclosed(s, ws, sev) - Creating(ws, sev)
    ensures Creating(ws + [t], sev) - Unclosed(AddIncident(s, inc), ws + [t], sev) == Creating(ws, sev) - Unclosed(s, ws, sev)
  {
    CreatingAppend(ws, t, sev);
    assert ActiveIds(AddIncident(s, inc), sev) == ActiveIds(s, sev) + if inc.severity == sev then {inc.id} else {};
    assert inc.id !in Creating(ws, sev) && inc.id !in Closing(ws, sev);
  }

  /** A closure is open until it is counted. */
  lemma DecisionKeepsSets(s: State, ws: seq<Tick>, id: string, status: Status, actor: string, at: Instant, t: Tick, sev: Severity)
    requires id in s.incidents && status != Active
    requires t.Ruling? && t.id == id && t.severity == s.incidents[id].severity && (t.closes <==> s.incidents[id].status == Active)
    ensures Unclosed(AddDecision(s, id, status, actor, at), ws + [t], sev) == Unclosed(s, ws, sev)
    ensures Creating(ws + [t], sev) == Creating(ws, sev)
  {
    CreatingAppend(ws, t, sev);
    var after := AddDecision(s, id, status, actor, at);
    assert ActiveIds(after, sev) == ActiveIds(s, sev) - {id};
    assert id in ActiveIds(s, sev) <==> t.closes && t.severity == sev;
  }

  lemma MemoryStepKeepsSurplus(sys: System, op: Op, hash: Hash, sev: Severity)
    requires Tidy(sys.memory, sys.waiting) && Sound(sys.memory, op, hash)
    ensures var next := NextSystem(sys, MemoryEvent(op), hash);
            && Tidy(next.memory, next.waiting) && next.metrics == sys.metrics
            && Open(next, sev) == Open(sys, sev) && Overtaken(next, sev) == Overtaken(sys, sev)
  {
    var s, t := sys.memory, TickOf(sys.memory, op, hash);
    match op
    case UpsertOp(c, now) =>
      if t.Some? {
        var inc := NewOccurrence(s, c, now, hash);
        TidyAfterUpsert(s, sys.waiting, inc, t.value);
        UpsertKeepsSets(s, sys.waiting, inc, t.value, sev);
      }
    case DecideOp(id, status, actor, now) =>
      if t.Some? {
        TidyAfterDecision(s, sys.waiting, id, status, actor, now, t.value);
        DecisionKeepsSets(s, sys.waiting, id, status, actor, now, t.value, sev);
      }
  }

  // ----- counting -----

  function Delta(t: Tick, sev: Severity): int {
    if t.severity != sev then 0 else if t.Creation? then 1 else if t.closes then -1 else 0
  }

  lemma CountedValue(m: Metrics, t: Tick, sev: Severity)
    ensures Value(Counted(m, t).active, sev) == Value(m.active, sev) + Delta(t, sev)
  {
  }

  /** Taking a creation out opens the incident or makes up for its closure. */
  lemma CreationOut(unclosed: set<string>, creating: set<string>, id: string)
    requires id in creating
    ensures |unclosed - (creating - {id})| - |(creating - {id}) - unclosed| == |unclosed - creating| - |creating - unclosed| + 1
    ensures (creating - {id}) - unclosed <= creating - unclosed
  {
    if id in unclosed {
      assert unclosed - (creating - {id}) == (unclosed - creating) + {id};
      assert (creating - {id}) - unclosed == creating - unclosed;
    } else {
      assert unclosed - (creating - {id}) == unclosed - creating;
      assert (creating - {id}) - unclosed == (creating - unclosed) - {id};
    }
  }

  /** Taking a closure out settles an open incident, or overtakes the count of its creation. */
  lemma ClosureOut(unclosed: set<string>, creating: set<string>, id: string)
    requires id in unclosed
    ensures |(unclosed - {id}) - creating| - |creating - (unclosed - {id})| == |unclosed - creating| - |creating - unclosed| - 1
    ensures id !in creating ==> creating - (unclosed - {id}) == creating - unclosed
    ensures id in creating ==> creating - (unclosed - {id}) == (creating - unclosed) + {id}
  {
    if id in creating {
      assert (unclosed - {id}) - creating == unclosed - creating;
    } else {
      assert (unclosed - {id}) - creating == (unclosed - creating) - {id};
    }
  }

  lemma UnclosedWithout(s: State, ws: seq<Tick>, i: nat, sev: Severity)
    requires Tidy(s, ws) && i < |ws|
    ensures Unclosed(s, Without(ws, i), sev)
         == Unclosed(s, ws, sev) - (if Closes(ws[i]) && ws[i].severity == sev then {ws[i].id} else {})
  {
    CreatingWithout(s, ws, i, sev);
    assert ws[i] in ws;
  }

  function CreationId(t: Tick, sev: Severity): set<string> {
    if t.Creation? && t.severity == sev then {t.id} else {}
  }

  function ClosureId(t: Tick, sev: Severity): set<string> {
    if Closes(t) && t.severity == sev then {t.id} else {}
  }

  /** What a tick moves when it leaves: `unclosed` and `creating` without it. */
  ghost predicate MovedBy(unclosed: set<string>, creating: set<string>, u: set<string>, c: set<string>, t: Tick, sev: Severity) {
    && |u - c| - |c - u| == |unclosed - creating| - |creating - unclosed| + Delta(t, sev)
    && (ClosureId(t, sev) !! creating ==> c - u <= creating - unclosed)
    && (ClosureId(t, sev) !! creating && CreationId(t, sev) == {} ==> c - u == creating - unclosed)
    && (!(ClosureId(t, sev) !! creating) ==> |c - u| == |creating - unclosed| + 1)
  }

  lemma CreationMoves(unclosed: set<string>, creating: set<string>, t: Tick, sev: Severity)
    requires t.severity == sev && t.Creation? && t.id in creating
    ensures MovedBy(unclosed, creating, unclosed, creating - {t.id}, t, sev)
  {
    CreationOut(unclosed, creating, t.id);
    assert t.id in CreationId(t, sev);
  }

  lemma ClosureMoves(unclosed: set<string>, creating: set<string>, t: Tick, sev: Severity)
    requires t.severity == sev && Closes(t) && t.id in unclosed
    ensures MovedBy(unclosed, creating, unclosed - {t.id}, creating, t, sev)
  {
    ClosureOut(unclosed, creating, t.id);
    assert t.id in ClosureId(t, sev);
  }

  lemma NothingMoves(unclosed: set<string>, creating: set<string>, t: Tick, sev: Severity)
    requires CreationId(t, sev) == {} && ClosureId(t, sev) == {}
    ensures MovedBy(unclosed, creating, unclosed - ClosureId(t, sev), creating - CreationId(t, sev), t, sev)
  {
    assert unclosed - ClosureId(t, sev) == unclosed && creating - CreationId(t, sev) == creating;
  }

  lemma SetsOut(unclosed: set<string>, creating: set<string>, t: Tick, sev: Severity)
    requires CreationId(t, sev) <= creating && ClosureId(t, sev) <= unclosed
    ensures MovedBy(unclosed, creating, unclosed - ClosureId(t, sev), creating - CreationId(t, sev), t, sev)
  {
    if t.severity == sev && t.Creation? {
      assert t.id in CreationId(t, sev);
      CreationMoves(unclosed, creating, t, sev);
      assert unclosed - ClosureId(t, sev) == unclosed;
    } else if t.severity == sev && t.closes {
      assert t.id in ClosureId(t, sev);
      ClosureMoves(unclosed, creating, t, sev);
      assert creating - CreationId(t, sev) == creating;
    } else {
      NothingMoves(unclosed, creating, t, sev);
    }
  }

  /** A closure is in turn when the creation of its incident has been counted. */
  predicate InTurn(sys: System, ev: Event, sev: Severity) {
    ev.CountEvent? && ev.index < |sys.waiting| ==> ClosureId(sys.waiting[ev.index], sev) !! Creating(sys.waiting, sev)
  }

  lemma TickMoves(sys: System, i: nat, next: System, sev: Severity)
    requires Tidy(sys.memory, sys.waiting) && i < |sys.waiting|
    requires next.memory == sys.memory && next.waiting == Without(sys.waiting, i)
    ensures Tidy(next.memory, next.waiting)
    ensures MovedBy(Unclosed(sys.memory, sys.waiting, sev), Creating(sys.waiting, sev),
                    Unclosed(next.memory, next.waiting, sev), Creating(next.waiting, sev), sys.waiting[i], sev)
  {
    CreatingWithout(sys.memory, sys.waiting, i, sev);
    UnclosedWithout(sys.memory, sys.waiting, i, sev);
    TidyWithout(sys.memory, sys.waiting, i);
    assert sys.waiting[i] in sys.waiting;
    SetsOut(Unclosed(sys.memory, sys.waiting, sev), Creating(sys.waiting, sev), sys.waiting[i], sev);
  }

  lemma TickOut(sys: System, i: nat, next: System, sev: Severity)
    requires Tidy(sys.memory, sys.waiting) && i < |sys.waiting|
    requires next.memory == sys.memory && next.waiting == Without(sys.waiting, i)
    ensures Tidy(next.memory, next.waiting)
    ensures |Open(next, sev)| - |Overtaken(next, sev)| == |Open(sys, sev)| - |Overtaken(sys, sev)| + Delta(sys.waiting[i], sev)
    ensures InTurn(sys, CountEvent(i), sev) ==> Overtaken(next, sev) <= Overtaken(sys, sev)
    ensures InTurn(sys, CountEvent(i), sev) && Closes(sys.waiting[i]) ==> Overtaken(next, sev) == Overtaken(sys, sev)
    ensures !InTurn(sys, CountEvent(i), sev) ==> |Overtaken(next, sev)| == |Overtaken(sys, sev)| + 1
  {
    TickMoves(sys, i, next, sev);
  }

  /** What a failed request would have counted. */
  function Dropped(sys: System, ev: Event, sev: Severity): int {
    if ev.DropEvent? && ev.index < |sys.waiting| then Delta(sys.waiting[ev.index], sev) else 0
  }

  lemma SurplusMoves(sys: System, next: System, d: int, v: int, sev: Severity)
    requires |Open(next, sev)| - |Overtaken(next, sev)| == |Open(sys, sev)| - |Overtaken(sys, sev)| + d
    requires Value(next.metrics.active, sev) == Value(sys.metrics.active, sev) + v
    ensures Surplus(next, sev) == Surplus(sys, sev) + v - d
  {
  }

  lemma CountKeepsSurplus(sys: System, i: nat, next: System, sev: Severity)
    requires Tidy(sys.memory, sys.waiting) && i < |sys.waiting|
    requires next == System(sys.memory, Counted(sys.metrics, sys.waiting[i]), Without(sys.waiting, i))
    ensures Tidy(next.memory, next.waiting) && Surplus(next, sev) == Surplus(sys, sev)
    ensures InTurn(sys, CountEvent(i), sev) ==> Overtaken(next, sev) <= Overtaken(sys, sev)
    ensures !InTurn(sys, CountEvent(i), sev) ==> |Overtaken(next, sev)| == |Overtaken(sys, sev)| + 1
  {
    TickOut(sys, i, next, sev);
    CountedValue(sys.metrics, sys.waiting[i], sev);
    SurplusMoves(sys, next, Delta(sys.waiting[i], sev), Delta(sys.waiting[i], sev), sev);
  }

  lemma DropKeepsSurplus(sys: System, i: nat, next: System, sev: Severity)
    requires Tidy(sys.memory, sys.waiting) && i < |sys.waiting|
    requires next == System(sys.memory, sys.metrics, Without(sys.waiting, i))
    ensures Tidy(next.memory, next.waiting) && Surplus(next, sev) == Surplus(sys, sev) - Delta(sys.waiting[i], sev)
  {
    TickOut(sys, i, next, sev);
    SurplusMoves(sys, next, Delta(sys.waiting[i], sev), 0, sev);
  }

  lemma MemoryKeepsSurplus(sys: System, op: Op, hash: Hash, next: System, sev: Severity)
    requires Tidy(sys.memory, sys.waiting) && Sound(sys.memory, op, hash) && next == NextSystem(sys, MemoryEvent(op), hash)
    ensures Tidy(next.memory, next.waiting) && Surplus(next, sev) == Surplus(sys, sev)
    ensures Overtaken(next, sev) == Overtaken(sys, sev)
  {
    MemoryStepKeepsSurplus(sys, op, hash, sev);
    SurplusMoves(sys, next, 0, 0, sev);
  }

  /** Conservation, one step: the surplus changes only when a request fails. */
  lemma StepKeepsSurplus(sys: System, ev: Event, next: System, hash: Hash, sev: Severity)
    requires Tidy(sys.memory, sys.waiting) && SoundEvent(sys, ev, hash) && next == NextSystem(sys, ev, hash)
    ensures Tidy(next.memory, next.waiting) && Surplus(next, sev) == Surplus(sys, sev) - Dropped(sys, ev, sev)
  {
    match ev
    case MemoryEvent(op) => MemoryKeepsSurplus(sys, op, hash, next, sev);
    case CountEvent(i) =>
      if i < |sys.waiting| {
        CountKeepsSurplus(sys, i, next, sev);
      }
    case DropEvent(i) =>
      if i < |sys.waiting| {
        DropKeepsSurplus(sys, i, next, sev);
      }
  }

  /** Only a closure counted out of turn overtakes. */
  lemma StepOvertakes(sys: System, ev: Event, next: System, hash: Hash, sev: Severity)
    requires Tidy(sys.memory, sys.waiting) && SoundEvent(sys, ev, hash) && next == NextSystem(sys, ev, hash) && !ev.DropEvent?
    ensures InTurn(sys, ev, sev) ==> Overtaken(next, sev) <= Overtaken(sys, sev)
    ensures !InTurn(sys, ev, sev) ==> |Overtaken(next, sev)| == |Overtaken(sys, sev)| + 1
  {
    match ev
    case MemoryEvent(op) => MemoryKeepsSurplus(sys, op, hash, next, sev);
    case CountEvent(i) =>
      if i < |sys.waiting| {
        CountKeepsSurplus(sys, i, next, sev);
      }
  }

  // ----- runs -----

  function DroppedIn(sys: System, events: seq<Event>, hash: Hash, sev: Severity): int {
    if events == [] then 0
    else
      var front := events[..|events| - 1];
      DroppedIn(sys, front, hash, sev) + Dropped(After(sys, front, hash), events[|events| - 1], sev)
  }

  lemma {:induction false} RunKeepsSurplus(sys: System, events: seq<Event>, hash: Hash, sev: Severity)
    requires Tidy(sys.memory, sys.waiting) && SoundEvents(sys, events, hash)
    ensures var after := After(sys, events, hash);
            Tidy(after.memory, after.waiting) && Surplus(after, sev) == Surplus(sys, sev) - DroppedIn(sys, events, hash, sev)
  {
    if events != [] {
      var front := events[..|events| - 1];
      RunKeepsSurplus(sys, front, hash, sev);
      StepKeepsSurplus(After(sys, front, hash), events[|events| - 1], After(sys, events, hash), hash, sev);
    }
  }

  /** A process between requests: nothing waits to be counted. */
  function Start(s: State, m: Metrics): System {
    System(s, m, [])
  }

  lemma StartSurplus(s: State, m: Metrics, sev: Severity)
    ensures Tidy(s, [])
    ensures Surplus(Start(s, m), sev) == Value(m.active, sev) - |ActiveIds(s, sev)| && Overtaken(Start(s, m), sev) == {}
  {
    assert Open(Start(s, m), sev) == ActiveIds(s, sev);
  }

  /** Conservation over every interleaving of requests, failed ones included: the gauge is the number of
      open incidents less the overtaken ones, plus what it was off by at the start, less what the
      failed requests would have counted. */
  lemma InterleavedGauge(s: State, m: Metrics, events: seq<Event>, hash: Hash, sev: Severity)
    requires SoundEvents(Start(s, m), events, hash)
    ensures var after := After(Start(s, m), events, hash);
            Value(after.metrics.active, sev) - |Open(after, sev)| + |Overtaken(after, sev)|
            == Value(m.active, sev) - |ActiveIds(s, sev)| - DroppedIn(Start(s, m), events, hash, sev)
  {
    StartSurplus(s, m, sev);
    RunKeepsSurplus(Start(s, m), events, hash, sev);
  }

  predicate NoDrop(events: seq<Event>) {
    forall ev :: ev in events ==> !ev.DropEvent?
  }

  lemma {:induction false} NothingDropped(sys: System, events: seq<Event>, hash: Hash, sev: Severity)
    requires NoDrop(events)
    ensures DroppedIn(sys, events, hash, sev) == 0
  {
    if events != [] {
      NothingDropped(sys, events[..|events| - 1], hash, sev);
    }
  }

  /** Once no request is outstanding and none has failed, an exact gauge is exact again, however the
      requests were interleaved. */
  lemma QuiescentGauge(s: State, m: Metrics, events: seq<Event>, hash: Hash, sev: Severity)
    requires SoundEvents(Start(s, m), events, hash) && NoDrop(events) && After(Start(s, m), events, hash).waiting == []
    ensures var after := After(Start(s, m), events, hash);
            Value(after.metrics.active, sev) - Value(m.active, sev) == |ActiveIds(after.memory, sev)| - |ActiveIds(s, sev)|
  {
    InterleavedGauge(s, m, events, hash, sev);
    NothingDropped(Start(s, m), events, hash, sev);
    var after := After(Start(s, m), events, hash);
    StartSurplus(after.memory, after.metrics, sev);
    assert after == Start(after.memory, after.metrics);
  }

  /** From an exact start and without failures, the gauge is below zero exactly while more incidents
      are overtaken than open. */
  lemma NegativeIff(s: State, m: Metrics, events: seq<Event>, hash: Hash, sev: Severity)
    requires SoundEvents(Start(s, m), events, hash) && NoDrop(events) && Value(m.active, sev) == |ActiveIds(s, sev)|
    ensures var after := After(Start(s, m), events, hash);
            Value(after.metrics.active, sev) < 0 <==> |Open(after, sev)| < |Overtaken(after, sev)|
  {
    InterleavedGauge(s, m, events, hash, sev);
    NothingDropped(Start(s, m), events, hash, sev);
  }

  // ----- when the gauge can be trusted -----

  /** Every closure is counted after the creation of its incident. */
  predicate AllInTurn(sys: System, events: seq<Event>, hash: Hash, sev: Severity) {
    events != [] ==>
      var front := events[..|events| - 1];
      AllInTurn(sys, front, hash, sev) && InTurn(After(sys, front, hash), events[|events| - 1], sev)
  }

  /** No failure and no closure counted out of turn takes the gauge below zero from here on. */
  ghost predicate Trusted(sys: System, hash: Hash, sev: Severity) {
    forall events :: SoundEvents(sys, events, hash) && NoDrop(events) && AllInTurn(sys, events, hash, sev) ==>
      Value(After(sys, events, hash).metrics.active, sev) >= 0
  }

  lemma SubsetSize(a: set<string>, b: set<string>)
    requires a <= b
    ensures |a| <= |b|
  {
    assert b == a + (b - a);
  }

  lemma {:induction false} OvertakenShrinks(sys: System, events: seq<Event>, hash: Hash, sev: Severity)
    requires Tidy(sys.memory, sys.waiting) && SoundEvents(sys, events, hash) && NoDrop(events) && AllInTurn(sys, events, hash, sev)
    ensures Overtaken(After(sys, events, hash), sev) <= Overtaken(sys, sev)
  {
    if events != [] {
      var front := events[..|events| - 1];
      OvertakenShrinks(sys, front, hash, sev);
      RunKeepsSurplus(sys, front, hash, sev);
      StepOvertakes(After(sys, front, hash), events[|events| - 1], After(sys, events, hash), hash, sev);
    }
  }

  lemma StaysAbove(sys: System, events: seq<Event>, hash: Hash, sev: Severity)
    requires Tidy(sys.memory, sys.waiting) && SoundEvents(sys, events, hash) && NoDrop(events) && AllInTurn(sys, events, hash, sev)
    requires Value(sys.metrics.active, sev) >= |Open(sys, sev)|
    ensures Value(After(sys, events, hash).metrics.active, sev) >= 0
  {
    OvertakenShrinks(sys, events, hash, sev);
    RunKeepsSurplus(sys, events, hash, sev);
    NothingDropped(sys, events, hash, sev);
    SubsetSize(Overtaken(After(sys, events, hash), sev), Overtaken(sys, sev));
  }

  /** A continuation: sound, free of failures and in turn. */
  ghost predicate Proper(sys: System, events: seq<Event>, hash: Hash, sev: Severity) {
    SoundEvents(sys, events, hash) && NoDrop(events) && AllInTurn(sys, events, hash, sev)
  }

  lemma ProperNext(sys: System, events: seq<Event>, ev: Event, hash: Hash, sev: Severity)
    requires Proper(sys, events, hash, sev) && !ev.DropEvent?
    requires SoundEvent(After(sys, events, hash), ev, hash) && InTurn(After(sys, events, hash), ev, sev)
    ensures Proper(sys, events + [ev], hash, sev)
    ensures After(sys, events + [ev], hash) == NextSystem(After(sys, events, hash), ev, hash)
  {
    AfterNext(sys, events, ev, hash);
    assert (events + [ev])[..|events|] == events;
  }

  /** Counting a closure whose creation has been counted settles an open incident. */
  lemma CountOpen(sys: System, i: nat, next: System, sev: Severity)
    requires Tidy(sys.memory, sys.waiting) && i < |sys.waiting|
    requires next == System(sys.memory, Counted(sys.metrics, sys.waiting[i]), Without(sys.waiting, i))
    requires Closes(sys.waiting[i]) && sys.waiting[i].severity == sev && sys.waiting[i].id !in Creating(sys.waiting, sev)
    ensures InTurn(sys, CountEvent(i), sev) && Overtaken(next, sev) == Overtaken(sys, sev)
    ensures Value(next.metrics.active, sev) == Value(sys.metrics.active, sev) - 1
  {
    TickOut(sys, i, next, sev);
    CountedValue(sys.metrics, sys.waiting[i], sev);
  }

  /** An active incident can be decided; its closure then waits. */
  lemma CloseActive(sys: System, id: string, now: Instant, hash: Hash) returns (op: Op)
    requires IsActive(sys.memory, id)
    ensures Sound(sys.memory, op, hash)
    ensures var next := NextSystem(sys, MemoryEvent(op), hash);
            next.waiting == sys.waiting + [Ruling(id, sys.memory.incidents[id].severity, true, true)]
  {
    op := DecideOp(id, Resolved, "", now);
  }

  lemma InOpen(sys: System, id: string, sev: Severity)
    requires id in Open(sys, sev)
    ensures id !in Creating(sys.waiting, sev)
    ensures id in ActiveIds(sys.memory, sev) || exists i :: 0 <= i < |sys.waiting| && Closes(sys.waiting[i])
                                                           && sys.waiting[i].severity == sev && sys.waiting[i].id == id
  {
    if id !in ActiveIds(sys.memory, sev) {
      var t :| t in sys.waiting && t.Ruling? && t.closes && t.severity == sev && t.id == id;
      var i :| 0 <= i < |sys.waiting| && sys.waiting[i] == t;
    }
  }

  /** An open incident can have its closure waiting, in turn. */
  lemma BringClosure(sys: System, events: seq<Event>, id: string, hash: Hash, sev: Severity)
    returns (events': seq<Event>, i: nat)
    requires Tidy(sys.memory, sys.waiting) && Proper(sys, events, hash, sev) && id in Open(After(sys, events, hash), sev)
    ensures Proper(sys, events', hash, sev)
    ensures var was, after := After(sys, events, hash), After(sys, events', hash);
            && after.metrics == was.metrics && Open(after, sev) == Open(was, sev) && Overtaken(after, sev) == Overtaken(was, sev)
            && Tidy(after.memory, after.waiting)
            && i < |after.waiting| && Closes(after.waiting[i]) && after.waiting[i].severity == sev && after.waiting[i].id == id
  {
    var was := After(sys, events, hash);
    RunKeepsSurplus(sys, events, hash, sev);
    InOpen(was, id, sev);
    if id in ActiveIds(was.memory, sev) {
      var op := CloseActive(was, id, 0, hash);
      MemoryStepKeepsSurplus(was, op, hash, sev);
      ProperNext(sys, events, MemoryEvent(op), hash, sev);
      events', i := events + [MemoryEvent(op)], |was.waiting|;
    } else {
      events' := events;
      i :| 0 <= i < |was.waiting| && Closes(was.waiting[i]) && was.waiting[i].severity == sev && was.waiting[i].id == id;
    }
  }

  /** One open incident less. */
  lemma SettleOne(sys: System, events: seq<Event>, id: string, hash: Hash, sev: Severity) returns (more: seq<Event>)
    requires Tidy(sys.memory, sys.waiting) && Proper(sys, events, hash, sev) && id in Open(After(sys, events, hash), sev)
    ensures Proper(sys, more, hash, sev)
    ensures var was, after := After(sys, events, hash), After(sys, more, hash);
            && Value(after.metrics.active, sev) == Value(was.metrics.active, sev) - 1
            && |Open(after, sev)| == |Open(was, sev)| - 1
  {
    var events', i := BringClosure(sys, events, id, hash, sev);
    var mid := After(sys, events', hash);
    var next := NextSystem(mid, CountEvent(i), hash);
    assert id !in Creating(mid.waiting, sev);
    CountOpen(mid, i, next, sev);
    StepKeepsSurplus(mid, CountEvent(i), next, hash, sev);
    ProperNext(sys, events', CountEvent(i), hash, sev);
    more := events' + [CountEvent(i)];
  }

  /** When more incidents are open than the gauge shows, settling them takes it below zero. */
  lemma SettleAll(sys: System, events: seq<Event>, hash: Hash, sev: Severity) returns (all: seq<Event>)
    requires Tidy(sys.memory, sys.waiting) && Proper(sys, events, hash, sev)
    requires Value(After(sys, events, hash).metrics.active, sev) < |Open(After(sys, events, hash), sev)|
    ensures Proper(sys, all, hash, sev) && Value(After(sys, all, hash).metrics.active, sev) < 0
    decreases |Open(After(sys, events, hash), sev)|
  {
    var now := After(sys, events, hash);
    if Open(now, sev) == {} {
      all := events;
    } else {
      var id :| id in Open(now, sev);
      var events' := SettleOne(sys, events, id, hash, sev);
      all := SettleAll(sys, events', hash, sev);
    }
  }

  /** The gauge can be trusted exactly when it shows at least the open incidents. */
  lemma TrustedIff(sys: System, hash: Hash, sev: Severity)
    requires Tidy(sys.memory, sys.waiting)
    ensures Trusted(sys, hash, sev) <==> Value(sys.metrics.active, sev) >= |Open(sys, sev)|
  {
    if Value(sys.metrics.active, sev) >= |Open(sys, sev)| {
      forall events | Proper(sys, events, hash, sev) ensures Value(After(sys, events, hash).metrics.active, sev) >= 0 {
        StaysAbove(sys, events, hash, sev);
      }
    } else {
      var all := SettleAll(sys, [], hash, sev);
    }
  }

  /** A new process starts with fresh metrics over what it restored, so its gauge can be trusted exactly
      when no active incident of the severity was restored. */
  lemma TrustedAfterRestart(s: State, hash: Hash, sev: Severity)
    ensures Trusted(Start(s, Metrics(map[], map[], 0)), hash, sev) <==> ActiveIds(s, sev) == {}
  {
    var start := Start(s, Metrics(map[], map[], 0));
    StartSurplus(s, start.metrics, sev);
    TrustedIff(start, hash, sev);
    assert Open(start, sev) == ActiveIds(s, sev);
  }

  /** After any interleaved run with failures the gauge can be trusted exactly when what it was off by at
      the start, less what the failed requests would have counted, covers the overtaken incidents. */
  lemma TrustedAfterRun(s: State, m: Metrics, events: seq<Event>, hash: Hash, sev: Severity)
    requires SoundEvents(Start(s, m), events, hash)
    ensures var after := After(Start(s, m), events, hash);
            Trusted(after, hash, sev)
            <==> Value(m.active, sev) - |ActiveIds(s, sev)| >= DroppedIn(Start(s, m), events, hash, sev) + |Overtaken(after, sev)|
  {
    StartSurplus(s, m, sev);
    RunKeepsSurplus(Start(s, m), events, hash, sev);
    TrustedIff(After(Start(s, m), events, hash), hash, sev);
  }

  /** The gauge can be trusted in every state along a run. */
  ghost predicate AlwaysTrusted(sys: System, events: seq<Event>, hash: Hash, sev: Severity) {
    Trusted(After(sys, events, hash), hash, sev) && (events != [] ==> AlwaysTrusted(sys, events[..|events| - 1], hash, sev))
  }

  /** From an exact start and without failures: the gauge can be trusted throughout exactly when every
      closure is counted after the creation of its incident. */
  lemma {:induction false} TrustedIffInTurn(s: State, m: Metrics, events: seq<Event>, hash: Hash, sev: Severity)
    requires SoundEvents(Start(s, m), events, hash) && NoDrop(events) && Value(m.active, sev) == |ActiveIds(s, sev)|
    ensures AlwaysTrusted(Start(s, m), events, hash, sev) <==> AllInTurn(Start(s, m), events, hash, sev)
    ensures AllInTurn(Start(s, m), events, hash, sev) ==> Value(After(Start(s, m), events, hash).metrics.active, sev) >= 0
  {
    var sys := Start(s, m);
    TrustedAfterRun(s, m, events, hash, sev);
    NothingDropped(sys, events, hash, sev);
    StartSurplus(s, m, sev);
    if AllInTurn(sys, events, hash, sev) {
      OvertakenShrinks(sys, events, hash, sev);
      StaysAbove(sys, events, hash, sev);
    }
    if events != [] {
      var front := events[..|events| - 1];
      TrustedIffInTurn(s, m, front, hash, sev);
      RunKeepsSurplus(sys, front, hash, sev);
      StepOvertakes(After(sys, front, hash), events[|events| - 1], After(sys, events, hash), hash, sev);
    }
  }

  lemma RunOfThree(sys: System, a: Event, b: Event, d: Event, hash: Hash)
    ensures var one := NextSystem(sys, a, hash);
            var two := NextSystem(one, b, hash);
            && After(sys, [a, b, d], hash) == NextSystem(two, d, hash)
            && (SoundEvents(sys, [a, b, d], hash) <==> SoundEvent(sys, a, hash) && SoundEvent(one, b, hash) && SoundEvent(two, d, hash))
  {
    AfterNext(sys, [], a, hash);
    AfterNext(sys, [a], b, hash);
    AfterNext(sys, [a, b], d, hash);
    assert [] + [a] == [a] && [a] + [b] == [a, b] && [a, b] + [d] == [a, b, d];
  }

  lemma CreationWaits(start: System, c: Candidate, now: Instant, hash: Hash)
    requires start.memory == EMPTY && start.waiting == []
    ensures var inc := NewOccurrence(EMPTY, c, now, hash);
            NextSystem(start, MemoryEvent(UpsertOp(c, now)), hash)
            == System(AddIncident(EMPTY, inc), start.metrics, [Creation(inc.id, c.severity, false)])
  {
  }

  lemma ClosureWaits(sys: System, id: string, actor: string, now: Instant, hash: Hash, t: Tick)
    requires IsActive(sys.memory, id) && sys.waiting == [t]
    ensures var next := NextSystem(sys, MemoryEvent(DecideOp(id, Resolved, actor, now)), hash);
            next.metrics == sys.metrics && next.waiting == [t, Ruling(id, sys.memory.incidents[id].severity, true, true)]
  {
  }

  /** The race: a decision completes between the memory step and the count of the creation it is about.
      Nothing fails and nothing restarts, and the gauge shows -1. */
  lemma RaceDrivesGaugeNegative(c: Candidate, now: Instant, actor: string, hash: Hash)
    ensures var id := NewOccurrence(EMPTY, c, now, hash).id;
            var events := [MemoryEvent(UpsertOp(c, now)), MemoryEvent(DecideOp(id, Resolved, actor, now)), CountEvent(1)];
            && SoundEvents(Start(EMPTY, Metrics(map[], map[], 0)), events, hash) && NoDrop(events)
            && Value(After(Start(EMPTY, Metrics(map[], map[], 0)), events, hash).metrics.active, c.severity) == -1
  {
    var inc, start := NewOccurrence(EMPTY, c, now, hash), Start(EMPTY, Metrics(map[], map[], 0));
    var a, b, d := MemoryEvent(UpsertOp(c, now)), MemoryEvent(DecideOp(inc.id, Resolved, actor, now)), CountEvent(1);
    RunOfThree(start, a, b, d, hash);
    CreationWaits(start, c, now, hash);
    ClosureWaits(NextSystem(start, a, hash), inc.id, actor, now, hash, Creation(inc.id, c.severity, false));
    CountedValue(start.metrics, Ruling(inc.id, c.severity, true, true), c.severity);
  }

  // ----- the counters -----

  function IsRecurrence(): Tick -> bool {
    (t: Tick) => t.Creation? && t.recurrence
  }

  function IsResolution(sev: Severity): Tick -> bool {
    (t: Tick) => t.Ruling? && t.resolves && t.severity == sev
  }

  lemma FilterWithout<T(!new)>(p: T -> bool, s: seq<T>, i: nat)
    requires i < |s|
    ensures |Filter(p, Without(s, i))| == |Filter(p, s)| - if p(s[i]) then 1 else 0
  {
    var before, after := SplitAt(s, i);
    FilterConcat(p, before + [s[i]], after);
    FilterAppend(p, before, s[i]);
    FilterConcat(p, before, after);
  }

  /** How far the two counters, with what waits, are ahead of the state. */
  function RecurredAhead(sys: System): int {
    sys.metrics.recurred + |Filter(IsRecurrence(), sys.waiting)| - |Recurrences(sys.memory)|
  }

  function ResolvedAhead(sys: System, sev: Severity): int {
    Value(sys.metrics.resolved, sev) + |Filter(IsResolution(sev), sys.waiting)| - |Resolutions(sys.memory, sev)|
  }

  lemma FilterGrows<T(!new)>(p: T -> bool, s: seq<T>, t: Option<T>, s': seq<T>)
    requires s' == if t.Some? then s + [t.value] else s
    ensures |Filter(p, s')| == |Filter(p, s)| + if t.Some? && p(t.value) then 1 else 0
  {
    if t.Some? {
      FilterAppend(p, s, t.value);
    }
  }

  lemma TickChanges(s: State, op: Op, hash: Hash, sev: Severity)
    ensures var t := TickOf(s, op, hash);
            && RecurrenceChange(s, op, hash) == (if t.Some? && IsRecurrence()(t.value) then 1 else 0)
            && ResolutionChange(s, op, sev) == (if t.Some? && IsResolution(sev)(t.value) then 1 else 0)
  {
  }

  lemma MemoryKeepsRecurred(s: State, s': State, op: Op, t: Option<Tick>, waiting: seq<Tick>, waiting': seq<Tick>, hash: Hash)
    requires Sound(s, op, hash) && s' == Step(s, op, hash) && t == TickOf(s, op, hash)
    requires waiting' == if t.Some? then waiting + [t.value] else waiting
    ensures |Filter(IsRecurrence(), waiting')| - |Recurrences(s')| == |Filter(IsRecurrence(), waiting)| - |Recurrences(s)|
  {
    RecurrencesAfter(s, op, hash);
    TickChanges(s, op, hash, Low);
    FilterGrows(IsRecurrence(), waiting, t, waiting');
  }

  lemma MemoryKeepsResolved(s: State, s': State, op: Op, t: Option<Tick>, waiting: seq<Tick>, waiting': seq<Tick>, hash: Hash,
                            sev: Severity)
    requires Audited(s) && Sound(s, op, hash) && s' == Step(s, op, hash) && t == TickOf(s, op, hash)
    requires waiting' == if t.Some? then waiting + [t.value] else waiting
    ensures |Filter(IsResolution(sev), waiting')| - |Resolutions(s', sev)| == |Filter(IsResolution(sev), waiting)| - |Resolutions(s, sev)|
  {
    ResolutionsAfter(s, op, hash, sev);
    TickChanges(s, op, hash, sev);
    FilterGrows(IsResolution(sev), waiting, t, waiting');
  }

  lemma NextOfMemory(sys: System, op: Op, hash: Hash, t: Option<Tick>)
    requires t == TickOf(sys.memory, op, hash)
    ensures NextSystem(sys, MemoryEvent(op), hash)
         == System(Step(sys.memory, op, hash), sys.metrics, if t.Some? then sys.waiting + [t.value] else sys.waiting)
  {
  }

  lemma MemoryKeepsAhead(sys: System, op: Op, next: System, hash: Hash, sev: Severity)
    requires Audited(sys.memory) && Sound(sys.memory, op, hash) && next == NextSystem(sys, MemoryEvent(op), hash)
    ensures RecurredAhead(next) == RecurredAhead(sys) && ResolvedAhead(next, sev) == ResolvedAhead(sys, sev)
  {
    var t := TickOf(sys.memory, op, hash);
    NextOfMemory(sys, op, hash, t);
    MemoryKeepsRecurred(sys.memory, next.memory, op, t, sys.waiting, next.waiting, hash);
    MemoryKeepsResolved(sys.memory, next.memory, op, t, sys.waiting, next.waiting, hash, sev);
  }

  lemma CountKeepsAhead(sys: System, i: nat, next: System, sev: Severity)
    requires i < |sys.waiting|
    requires next == System(sys.memory, Counted(sys.metrics, sys.waiting[i]), Without(sys.waiting, i))
    ensures RecurredAhead(next) == RecurredAhead(sys) && ResolvedAhead(next, sev) == ResolvedAhead(sys, sev)
  {
    FilterWithout(IsRecurrence(), sys.waiting, i);
    FilterWithout(IsResolution(sev), sys.waiting, i);
  }

  lemma StepKeepsAhead(sys: System, ev: Event, next: System, hash: Hash, sev: Severity)
    requires Audited(sys.memory) && SoundEvent(sys, ev, hash) && next == NextSystem(sys, ev, hash) && !ev.DropEvent?
    ensures RecurredAhead(next) == RecurredAhead(sys) && ResolvedAhead(next, sev) == ResolvedAhead(sys, sev)
  {
    match ev
    case MemoryEvent(op) => MemoryKeepsAhead(sys, op, next, hash, sev);
    case CountEvent(i) =>
      if i < |sys.waiting| {
        CountKeepsAhead(sys, i, next, sev);
      }
  }

  lemma StepKeepsMemory(sys: System, ev: Event, hash: Hash)
    requires Lifecycle.Inv(sys.memory) && SoundEvent(sys, ev, hash)
    ensures Lifecycle.Inv(NextSystem(sys, ev, hash).memory)
  {
    if ev.MemoryEvent? {
      StepKeepsInv(sys.memory, ev.op, hash);
    }
  }

  /** The recurrence and resolved counters, with the counts that wait, keep their distance from the state
      over every interleaving in which no request fails. */
  lemma {:induction false} CountersKeepUp(sys: System, events: seq<Event>, hash: Hash, sev: Severity)
    requires Lifecycle.Inv(sys.memory) && SoundEvents(sys, events, hash) && NoDrop(events)
    ensures Lifecycle.Inv(After(sys, events, hash).memory)
    ensures RecurredAhead(After(sys, events, hash)) == RecurredAhead(sys)
    ensures ResolvedAhead(After(sys, events, hash), sev) == ResolvedAhead(sys, sev)
  {
    if events != [] {
      var front, ev := events[..|events| - 1], events[|events| - 1];
      CountersKeepUp(sys, front, hash, sev);
      StepKeepsMemory(After(sys, front, hash), ev, hash);
      StepKeepsAhead(After(sys, front, hash), ev, After(sys, events, hash), hash, sev);
    }
  }
}
