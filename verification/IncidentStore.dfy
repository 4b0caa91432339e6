/** The in-memory incident store (internal/incidents/store.go): its three linked maps, the
    meaning of each operation, and the class that updates the maps in place. */
module IncidentStore {
  import opened Sequences
  import opened Rfc3339
  import opened Incidents
  import StableSort

  /** Incidents by identifier; per occurrence key, the identifiers of its occurrences, oldest
      first; per incident, its decisions, oldest first. */
  datatype State = State(
    incidents: map<string, Incident>,
    byOccurrence: map<string, seq<string>>,
    decisions: map<string, seq<Decision>>)

  const EMPTY: State := State(map[], map[], map[])

  function HistoryOf(s: State, key: string): seq<string> {
    if key in s.byOccurrence then s.byOccurrence[key] else []
  }

  function TrailOf(s: State, id: string): seq<Decision> {
    if id in s.decisions then s.decisions[id] else []
  }

  predicate IsActive(s: State, id: string) {
    id in s.incidents && s.incidents[id].status == Active
  }

  /** The most recent occurrence of a key, if it is still active. */
  function Ongoing(s: State, key: string): Option<Incident> {
    var history := HistoryOf(s, key);
    if history != [] && IsActive(s, history[|history| - 1]) then Some(s.incidents[history[|history| - 1]]) else None
  }

  function NewOccurrence(s: State, c: Candidate, now: Instant, hash: Hash): Incident {
    var sequence := |HistoryOf(s, c.key)| + 1;
    Incident(NewIncidentId(hash, c.key, sequence, now), c.key, sequence, c.severity, c.affected, c.rootCause,
             Active, now, now, c.confidence, c.slaMinutes, c.action)
  }

  function AddIncident(s: State, inc: Incident): State {
    s.(incidents := s.incidents[inc.id := inc],
       byOccurrence := s.byOccurrence[inc.key := HistoryOf(s, inc.key) + [inc.id]])
  }

  datatype UpsertResult = UpsertResult(state: State, incident: Incident, created: bool)

  function Upsert(s: State, c: Candidate, now: Instant, hash: Hash): UpsertResult {
    match Ongoing(s, c.key)
    case Some(inc) => UpsertResult(s, inc, false)
    case None =>
      var inc := NewOccurrence(s, c, now, hash);
      UpsertResult(AddIncident(s, inc), inc, true)
  }

  datatype DecideResult = NotFound | Decided(state: State, incident: Incident, wasActive: bool)

  function AddDecision(s: State, id: string, status: Status, actor: string, at: Instant): State {
    var d := Decision(id, status, actor, at);
    s.(incidents := if id in s.incidents then s.incidents[id := s.incidents[id].(status := status, updatedAt := at)]
                    else s.incidents,
       decisions := s.decisions[id := TrailOf(s, id) + [d]])
  }

  function Decide(s: State, id: string, status: Status, actor: string, now: Instant): DecideResult {
    if id !in s.incidents then NotFound
    else
      var s' := AddDecision(s, id, status, actor, now);
      Decided(s', s'.incidents[id], s.incidents[id].status == Active)
  }

  /** Restoring adds the rows one after another, then installs the decision trails. */
  function AddAll(s: State, rows: seq<Incident>): State {
    if rows == [] then s else AddIncident(AddAll(s, rows[..|rows| - 1]), rows[|rows| - 1])
  }

  function Restore(s: State, rows: seq<Incident>, trails: map<string, seq<Decision>>): State {
    var s' := AddAll(s, rows);
    s'.(decisions := s'.decisions + trails)
  }

  /** Newest creation time first. */
  predicate CreatedAfter(a: Incident, b: Incident) {
    a.createdAt > b.createdAt
  }

  /** What a listing of all incidents is: each stored incident once, newest first. */
  ghost predicate IsListing(s: State, out: seq<Incident>) {
    && (forall inc :: inc in out <==> inc.id in s.incidents && s.incidents[inc.id] == inc)
    && Distinct(out)
    && StableSort.Sorted(CreatedAfter, out)
  }

  /** Identifiers index their own incidents. */
  ghost predicate Indexed(s: State) {
    forall id :: id in s.incidents ==> s.incidents[id].id == id
  }

  /** An incident with status active, none being created later; Active's answer. */
  ghost predicate IsLatestActive(s: State, inc: Incident) {
    && inc.id in s.incidents && s.incidents[inc.id] == inc && inc.status == Active
    && forall id :: id in s.incidents && s.incidents[id].status == Active ==> s.incidents[id].createdAt <= inc.createdAt
  }

  /** The first active entry of a listing was created when Active's answer was. */
  lemma ListingAgreesWithActive(s: State, out: seq<Incident>, k: nat, latest: Incident)
    requires Indexed(s) && IsListing(s, out) && k < |out| && out[k].status == Active
    requires forall i :: 0 <= i < k ==> out[i].status != Active
    requires IsLatestActive(s, latest)
    ensures out[k].createdAt == latest.createdAt && IsLatestActive(s, out[k])
  {
    assert latest in out && out[k] in out;
    var j :| 0 <= j < |out| && out[j] == latest;
    assert k <= j;
    assert k < j ==> !CreatedAfter(out[j], out[k]);
  }

  class Store {
    var incidents: map<string, Incident>
    var byOccurrence: map<string, seq<string>>
    var decisions: map<string, seq<Decision>>
    const hash: Hash

    constructor (hash: Hash)
      ensures View() == EMPTY && this.hash == hash
    {
      incidents, byOccurrence, decisions := map[], map[], map[];
      this.hash := hash;
    }

    ghost function View(): State
      reads this
    {
      State(incidents, byOccurrence, decisions)
    }

    method UpsertCandidate(c: Candidate, now: Instant) returns (incident: Incident, created: bool)
      modifies this
      ensures UpsertResult(View(), incident, created) == Upsert(old(View()), c, now, hash)
      ensures created ==> Carries(incident, c, now) && incident.status == Active && incident.updatedAt == now
    {
      var history := if c.key in byOccurrence then byOccurrence[c.key] else [];
      if |history| > 0 {
        var lastId := history[|history| - 1];
        if lastId in incidents && incidents[lastId].status == Active {
          return incidents[lastId], false;
        }
      }
      var seqNo := |history| + 1;
      var id := NewIncidentId(hash, c.key, seqNo, now);
      incident := Incident(id, c.key, seqNo, c.severity, c.affected, c.rootCause, Active, now, now,
                           c.confidence, c.slaMinutes, c.action);
      incidents := incidents[id := incident];
      byOccurrence := byOccurrence[c.key := history + [id]];
      created := true;
    }

    method RecordDecision(id: string, status: Status, actor: string, now: Instant)
      returns (r: Option<(Incident, bool)>)
      modifies this
      ensures match Decide(old(View()), id, status, actor, now)
              case NotFound => r == None && View() == old(View())
              case Decided(s, inc, wasActive) => r == Some((inc, wasActive)) && View() == s
    {
      if id !in incidents {
        return None;
      }
      var existing := incidents[id];
      var wasActive := existing.status == Active;
      existing := existing.(status := status, updatedAt := now);
      incidents := incidents[id := existing];
      var trail := if id in decisions then decisions[id] else [];
      decisions := decisions[id := trail + [Decision(id, status, actor, now)]];
      r := Some((existing, wasActive));
    }

    method RestoreRows(rows: seq<Incident>, trails: map<string, seq<Decision>>)
      modifies this
      ensures View() == Restore(old(View()), rows, trails)
    {
      for i := 0 to |rows|
        invariant View() == AddAll(old(View()), rows[..i])
      {
        assert rows[..i + 1][..i] == rows[..i];
        var inc := rows[i];
        incidents := incidents[inc.id := inc];
        var history := if inc.key in byOccurrence then byOccurrence[inc.key] else [];
        byOccurrence := byOccurrence[inc.key := history + [inc.id]];
      }
      assert rows[..|rows|] == rows;
      decisions := decisions + trails;
    }

    /** Scans the incidents in no particular order. */
    method LatestActive() returns (latest: Option<Incident>)
      requires Indexed(View())
      ensures latest.Some? ==> IsLatestActive(View(), latest.value)
      ensures latest.None? ==> forall id :: id in incidents ==> incidents[id].status != Active
    {
      latest := None;
      var todo := incidents.Keys;
      while todo != {}
        invariant todo <= incidents.Keys
        invariant latest.Some? ==> latest.value.id in incidents && incidents[latest.value.id] == latest.value
        invariant latest.Some? ==> latest.value.status == Active
        invariant forall id :: id in incidents && id !in todo && incidents[id].status == Active ==>
                    latest.Some? && incidents[id].createdAt <= latest.value.createdAt
        decreases todo
      {
        var id :| id in todo;
        todo := todo - {id};
        var inc := incidents[id];
        if inc.status == Active && (latest == None || inc.createdAt > latest.value.createdAt) {
          latest := Some(inc);
        }
      }
    }

    /** Collects the incidents in no particular order. */
    method Collect() returns (out: seq<Incident>)
      requires Indexed(View())
      ensures forall inc :: inc in out <==> inc.id in incidents && incidents[inc.id] == inc
      ensures Distinct(out)
    {
      out := [];
      var todo := incidents.Keys;
      while todo != {}
        invariant todo <= incidents.Keys
        invariant forall inc :: inc in out <==> inc.id in incidents && inc.id !in todo && incidents[inc.id] == inc
        invariant Distinct(out)
        decreases todo
      {
        var id :| id in todo;
        assert incidents[id] !in out;
        todo := todo - {id};
        out := out + [incidents[id]];
      }
    }

    method List() returns (out: array<Incident>)
      requires Indexed(View())
      ensures fresh(out) && IsListing(View(), out[..])
    {
      var items := Collect();
      out := new Incident[|items|](i requires 0 <= i < |items| => items[i]);
      assert out[..] == items;
      SortNewestFirst(out);
      CreatedAfterIsWeakOrder();
      StableSort.SortSorted(CreatedAfter, items);
      StableSort.SortMembers(CreatedAfter, items);
      DistinctPermutation(items, out[..]);
    }
  }

  lemma CreatedAfterIsWeakOrder()
    ensures StableSort.WeakOrder(CreatedAfter)
  {
  }

  lemma DistinctPermutation<T(!new)>(s: seq<T>, t: seq<T>)
    requires Distinct(s) && multiset(s) == multiset(t)
    ensures Distinct(t)
  {
    forall i, j | 0 <= i < j < |t| ensures t[i] != t[j] {
      if t[i] == t[j] {
        var x := t[i];
        assert t == t[..i] + [x] + t[i + 1..j] + [x] + t[j + 1..];
        assert multiset(t)[x] >= 2;
        DistinctCount(s, x);
      }
    }
  }

  lemma {:induction false} DistinctCount<T(!new)>(s: seq<T>, x: T)
    requires Distinct(s)
    ensures multiset(s)[x] <= 1
  {
    if s != [] {
      assert s == s[..|s| - 1] + [s[|s| - 1]];
      DistinctCount(s[..|s| - 1], x);
    }
  }

  /** The array while `x` travels left through `front`: it stands at position `j`. */
  function Travelling(front: seq<Incident>, x: Incident, tail: seq<Incident>, j: nat): seq<Incident>
    requires j <= |front|
  {
    front[..j] + [x] + front[j..] + tail
  }

  lemma TravelStep(front: seq<Incident>, x: Incident, tail: seq<Incident>, j: nat)
    requires 0 < j <= |front|
    ensures var t := Travelling(front, x, tail, j);
            Travelling(front, x, tail, j - 1) == t[j := t[j - 1]][j - 1 := t[j]]
  {
  }

  lemma InsertStep(front: seq<Incident>, x: Incident, j: nat)
    requires 0 < j <= |front| && CreatedAfter(x, front[j - 1])
    ensures StableSort.Insert(CreatedAfter, front[..j], x) + front[j..]
         == StableSort.Insert(CreatedAfter, front[..j - 1], x) + front[j - 1..]
  {
    assert front[..j][..j - 1] == front[..j - 1];
    assert front[j - 1..] == [front[j - 1]] + front[j..];
  }

  /** The inner loop: swaps the element at `i` left into place among those before it. */
  method SiftLeft(a: array<Incident>, i: nat, ghost front: seq<Incident>, ghost x: Incident, ghost tail: seq<Incident>)
    requires i < a.Length && |front| == i && a[..] == front + [x] + tail
    modifies a
    ensures a[..] == StableSort.Insert(CreatedAfter, front, x) + tail
  {
    var j := i;
    assert front[..i] == front && front[i..] == [];
    while j > 0 && CreatedAfter(a[j], a[j - 1])
      invariant 0 <= j <= i
      invariant a[..] == Travelling(front, x, tail, j)
      invariant StableSort.Insert(CreatedAfter, front, x) == StableSort.Insert(CreatedAfter, front[..j], x) + front[j..]
    {
      ghost var was := a[..];
      assert a[j] == was[j] == x && a[j - 1] == was[j - 1] == front[j - 1];
      a[j], a[j - 1] := a[j - 1], a[j];
      assert a[..] == was[j := was[j - 1]][j - 1 := was[j]];
      TravelStep(front, x, tail, j);
      InsertStep(front, x, j);
      j := j - 1;
    }
    assert a[j] == a[..][j] == x;
    assert j > 0 ==> a[j - 1] == a[..][j - 1] == front[j - 1];
  }

  lemma SortNext(was: seq<Incident>, i: nat)
    requires i < |was|
    ensures var front := StableSort.Sort(CreatedAfter, was[..i]);
            && front + was[i..] == front + [was[i]] + was[i + 1..]
            && StableSort.Sort(CreatedAfter, was[..i + 1]) == StableSort.Insert(CreatedAfter, front, was[i])
  {
    assert was[..i + 1][..i] == was[..i];
  }

  /** The in-place insertion sort of the listing: each element is swapped to the left while
      it was created after its left neighbour. */
  method SortNewestFirst(a: array<Incident>)
    modifies a
    ensures a[..] == StableSort.Sort(CreatedAfter, old(a[..]))
  {
    ghost var was := a[..];
    var i := 0;
    while i < a.Length
      invariant i <= a.Length
      invariant a[..] == StableSort.Sort(CreatedAfter, was[..i]) + was[i..]
    {
      SortNext(was, i);
      SiftLeft(a, i, StableSort.Sort(CreatedAfter, was[..i]), was[i], was[i + 1..]);
      i := i + 1;
    }
    assert was[..a.Length] == was;
  }
}
