/** The original if/elif cascade (backend/app/analytics.py) and its equivalence with the
    table-driven port. */
module PythonCascade {
  import opened Sequences
  import opened Decimal
  import opened Telemetry
  import opened Incidents
  import opened Neighbors
  import opened Correlation
  import opened ActionTexts
  import opened PythonNeighbors

  datatype Finding = Finding(incidentType: string, severity: Severity, action: string, sla: string)

  datatype PyIncident = PyIncident(rootCause: string, severity: Severity, affected: seq<string>,
                                   confidence: real, sla: string, action: string)

  datatype Branch = CongestionBranch | FirewallBranch | MemoryBranch | LossBranch | HeatBranch | BgpBranch

  /** The branch of the if/elif chain taken for a device and the worst signals around it. */
  function BranchTaken(d: Device, neighborLatency: real, neighborLoss: real): Option<Branch> {
    if d.role == Router && d.cpu > 95.0 && neighborLatency > 100.0 && neighborLoss > 5.0 then Some(CongestionBranch)
    else if d.role == Firewall && (d.cpu > 90.0 || d.bandwidth > 92.0) && d.latency > 90.0 then Some(FirewallBranch)
    else if d.memory > 94.0 && d.cpu > 80.0 then Some(MemoryBranch)
    else if d.loss > 7.0 && d.latency > 120.0 then Some(LossBranch)
    else if d.temperature > 84.0 && d.role == Switch then Some(HeatBranch)
    else if d.role == Gateway && d.latency > 140.0 && d.loss > 4.0 then Some(BgpBranch)
    else None
  }

  /** What the branch assigns; severity, action and breach time keep their defaults unless
      the branch overrides them. */
  function CongestionFinding(a: Sentences): Finding {
    Finding("Congestion Incident", Critical, a.drain, "22 minutes")
  }

  function FirewallFinding(a: Sentences): Finding {
    Finding("Firewall Saturation", High, a.standby, "18 minutes")
  }

  function MemoryFinding(a: Sentences): Finding {
    Finding("Memory Leak", High, a.failOver, "22 minutes")
  }

  function LossFinding(a: Sentences): Finding {
    Finding("Packet Loss Degradation", High, a.interfaces, "22 minutes")
  }

  function HeatFinding(a: Sentences): Finding {
    Finding("Switch Overheating", High, a.airflow, "12 minutes")
  }

  function BgpFinding(a: Sentences): Finding {
    Finding("BGP Edge Instability", Critical, a.edgeRoute, "15 minutes")
  }

  datatype Outcomes = Outcomes(congestion: Finding, firewall: Finding, memory: Finding,
                               loss: Finding, heat: Finding, bgp: Finding)

  function Assigned(outcomes: Outcomes, b: Branch): Finding {
    match b
    case CongestionBranch => outcomes.congestion
    case FirewallBranch => outcomes.firewall
    case MemoryBranch => outcomes.memory
    case LossBranch => outcomes.loss
    case HeatBranch => outcomes.heat
    case BgpBranch => outcomes.bgp
  }

  function ProgramOutcomes(a: Sentences): Outcomes {
    Outcomes(CongestionFinding(a), FirewallFinding(a), MemoryFinding(a),
             LossFinding(a), HeatFinding(a), BgpFinding(a))
  }

  /** max(values, default=fallback) */
  function PyMax(values: seq<real>, fallback: real): real {
    if values == [] then fallback
    else if |values| == 1 then values[0]
    else
      var m, last := PyMax(values[..|values| - 1], fallback), values[|values| - 1];
      if last > m then last else m
  }

  function Latencies(n: seq<Device>): (r: seq<real>)
    ensures |r| == |n| && forall i :: 0 <= i < |n| ==> r[i] == n[i].latency
  {
    seq(|n|, i requires 0 <= i < |n| => n[i].latency)
  }

  function Losses(n: seq<Device>): (r: seq<real>)
    ensures |r| == |n| && forall i :: 0 <= i < |n| ==> r[i] == n[i].loss
  {
    seq(|n|, i requires 0 <= i < |n| => n[i].loss)
  }

  /** The branch taken next to some neighbours. */
  function BranchAmong(d: Device, n: seq<Device>): Option<Branch> {
    BranchTaken(d, PyMax(Latencies(n), d.latency), PyMax(Losses(n), d.loss))
  }

  function PyMin(a: real, b: real): real {
    if b < a then b else a
  }

  /** The confidence before it is rounded. */
  function PyConfidence(d: Device): real {
    0.78 + PyMin(0.18, (d.cpu + d.latency / 2.0 + d.loss * 6.0) / 1000.0)
  }

  /** The host and the first two of the list. */
  function PyAffected(d: Device, n: seq<Device>): seq<string> {
    if |n| == 0 then [d.hostname]
    else if |n| == 1 then [d.hostname, n[0].hostname]
    else [d.hostname, n[0].hostname, n[1].hostname]
  }

  function PyIncidentFor(f: Finding, d: Device, n: seq<Device>): PyIncident {
    PyIncident(f.incidentType, f.severity, PyAffected(d, n), PyConfidence(d), f.sla, f.action)
  }

  /** {d.hostname: d for d in devices}, one entry after the other. */
  function PyByHost(devices: seq<Device>): map<string, Device> {
    WithEntries(map[], devices)
  }

  function WithEntries(known: map<string, Device>, devices: seq<Device>): map<string, Device>
    decreases |devices|
  {
    if devices == [] then known else WithEntries(known[devices[0].hostname := devices[0]], devices[1..])
  }

  /** What one device contributes; nothing when reading its number raises. */
  function PyIncidentsOf(script: Script, outcomes: Outcomes, d: Device, byHost: map<string, Device>): Option<seq<PyIncident>> {
    match NeighborsPython(script, d, byHost)
    case None => None
    case Some(n) =>
      match BranchAmong(d, n)
      case None => Some([])
      case Some(b) => Some([PyIncidentFor(Assigned(outcomes, b), d, n)])
  }

  function Joined<T>(front: Option<seq<T>>, last: Option<seq<T>>): Option<seq<T>> {
    if front.None? || last.None? then None else Some(front.value + last.value)
  }

  /** What every device finds, in device order; nothing when one of them raises. */
  function Gather<T>(find: Device -> Option<seq<T>>, devices: seq<Device>): Option<seq<T>> {
    if devices == [] then Some([])
    else Joined(Gather(find, devices[..|devices| - 1]), find(devices[|devices| - 1]))
  }

  function Finder(script: Script, outcomes: Outcomes, byHost: map<string, Device>): Device -> Option<seq<PyIncident>> {
    d => PyIncidentsOf(script, outcomes, d, byHost)
  }

  /** The incidents of a batch before the cut; a host that cannot be read fails the whole batch. */
  function PyIncidents(script: Script, outcomes: Outcomes, devices: seq<Device>, byHost: map<string, Device>)
    : Option<seq<PyIncident>>
  {
    Gather(Finder(script, outcomes, byHost), devices)
  }

  function FirstFour<T>(s: seq<T>): seq<T> {
    if |s| <= 4 then s else s[..4]
  }

  function FirstFourOf<T>(s: Option<seq<T>>): Option<seq<T>> {
    if s.None? then None else Some(FirstFour(s.value))
  }

  lemma GatherNext<T>(find: Device -> Option<seq<T>>, devices: seq<Device>, d: Device)
    ensures Gather(find, devices + [d]) == Joined(Gather(find, devices), find(d))
  {
    assert (devices + [d])[..|devices|] == devices;
  }

  lemma GatherTwo<T>(find: Device -> Option<seq<T>>, d: Device, e: Device)
    ensures Gather(find, [d]) == find(d) && Gather(find, [d, e]) == Joined(find(d), find(e))
  {
    GatherNext(find, [], d);
    GatherNext(find, [d], e);
    OneAndTwo(d, e);
    assert find(d).Some? ==> [] + find(d).value == find(d).value;
  }

  lemma {:induction false} GatherFails<T>(find: Device -> Option<seq<T>>, devices: seq<Device>, k: nat)
    requires k <= |devices| && Gather(find, devices[..k]).None?
    ensures Gather(find, devices).None?
    decreases |devices|
  {
    if k == |devices| {
      assert devices[..k] == devices;
    } else {
      assert devices[..|devices| - 1][..k] == devices[..k];
      GatherFails(find, devices[..|devices| - 1], k);
    }
  }

  /** Nothing is returned when int raises. */
  method CorrelateIncidents(script: Script, outcomes: Outcomes, devices: seq<Device>) returns (r: Option<seq<PyIncident>>)
    ensures r == FirstFourOf(PyIncidents(script, outcomes, devices, PyByHost(devices)))
  {
    var byHost := PyByHost(devices);
    ghost var find := Finder(script, outcomes, byHost);
    var incidents := [];
    for k := 0 to |devices|
      invariant Gather(find, devices[..k]) == Some(incidents)
    {
      TakeNext(devices, k);
      GatherNext(find, devices[..k], devices[k]);
      var found := PyIncidentsOf(script, outcomes, devices[k], byHost);
      if found.None? {
        GatherFails(find, devices, k + 1);
        return None;
      }
      incidents := incidents + found.value;
    }
    assert devices[..|devices|] == devices;
    r := Some(FirstFour(incidents));
  }

  function Hundredths(k: int): real {
    k as real / 100.0
  }

  /** `x` is `v` to two decimals, halves upward; below zero, where no confidence of a valid sample
      lies, the port rounds a step too high. */
  ghost predicate ToTwo(x: real, v: real) {
    exists k :: x == Hundredths(k) && if v >= -0.005 then -0.005 <= v - x < 0.005 else -0.015 < v - x <= -0.005
  }

  lemma RoundedToTwo(v: real)
    ensures ToTwo(Round2(v), v)
  {
    var k := Truncated(v * 100.0 + 0.5);
    assert Round2(v) == Hundredths(k);
  }

  /** One Go candidate carries what one Python incident does.  Python may list a neighbour
      twice, so its affected list deduplicates to a prefix of Go's. */
  ghost predicate SameFinding(go: Candidate, py: PyIncident) {
    && go.rootCause == py.rootCause
    && go.severity == py.severity
    && go.action == py.action
    && go.slaMinutes >= 0 && py.sla == Print(go.slaMinutes) + " minutes"
    && ToTwo(go.confidence, py.confidence)
    && Dedupe(py.affected) <= go.affected
  }

  lemma BreachTimes()
    ensures Print(22) == "22" && Print(18) == "18" && Print(12) == "12" && Print(15) == "15"
  {
    assert Digit(2) == '2' && Digit(1) == '1' && Digit(8) == '8' && Digit(5) == '5';
  }

  ghost predicate SameText(t: RuleText, f: Finding) {
    && f.incidentType == t.rootCause
    && f.severity == t.severity
    && f.action == t.action
    && f.sla == Print(t.slaMinutes) + " minutes"
  }

  function RuleOf(b: Branch): Rule {
    match b
    case CongestionBranch => Congestion
    case FirewallBranch => Saturation
    case MemoryBranch => Leak
    case LossBranch => Degradation
    case HeatBranch => Heat
    case BgpBranch => Instability
  }

  ghost predicate SameTexts(texts: RuleTexts, outcomes: Outcomes) {
    && SameText(texts.congestion, outcomes.congestion)
    && SameText(texts.saturation, outcomes.firewall)
    && SameText(texts.leak, outcomes.memory)
    && SameText(texts.degradation, outcomes.loss)
    && SameText(texts.heat, outcomes.heat)
    && SameText(texts.instability, outcomes.bgp)
  }

  lemma SameTextOf(texts: RuleTexts, outcomes: Outcomes, b: Branch)
    requires SameTexts(texts, outcomes)
    ensures SameText(Lookup(texts, RuleOf(b)), Assigned(outcomes, b))
  {
  }

  /** The texts of the two programs agree, rule by rule. */
  lemma TextsAgree(a: Sentences)
    ensures SameTexts(ProgramTexts(a), ProgramOutcomes(a))
  {
    BreachTimes();
  }

  lemma {:induction false} MaxLatency(n: seq<Device>, fallback: real)
    ensures PyMax(Latencies(n), fallback) == MaxSignal(LatencyOf, n, fallback)
  {
    if |n| > 1 {
      assert Latencies(n)[..|n| - 1] == Latencies(n[..|n| - 1]);
      MaxLatency(n[..|n| - 1], fallback);
    }
  }

  lemma {:induction false} MaxLoss(n: seq<Device>, fallback: real)
    ensures PyMax(Losses(n), fallback) == MaxSignal(LossOf, n, fallback)
  {
    if |n| > 1 {
      assert Losses(n)[..|n| - 1] == Losses(n[..|n| - 1]);
      MaxLoss(n[..|n| - 1], fallback);
    }
  }

  /** The two programs find the same maxima. */
  lemma BranchAmongIs(d: Device, n: seq<Device>)
    ensures BranchAmong(d, n) == BranchTaken(d, MaxSignal(LatencyOf, n, d.latency), MaxSignal(LossOf, n, d.loss))
  {
    MaxLatency(n, d.latency);
    MaxLoss(n, d.loss);
  }

  lemma BranchOfSameMembers(d: Device, s: seq<Device>, t: seq<Device>)
    requires forall x :: x in s <==> x in t
    ensures BranchAmong(d, s) == BranchAmong(d, t)
  {
    BranchAmongIs(d, s);
    BranchAmongIs(d, t);
    MaxSignalOfSameMembers(LatencyOf, s, t, d.latency);
    MaxSignalOfSameMembers(LossOf, s, t, d.loss);
  }

  lemma WithEntriesNext(known: map<string, Device>, devices: seq<Device>, d: Device)
    ensures WithEntries(known, devices + [d]) == WithEntries(known, devices)[d.hostname := d]
    decreases |devices|
  {
    if devices == [] {
      assert ([] + [d])[1..] == [];
    } else {
      assert (devices + [d])[1..] == devices[1..] + [d];
      WithEntriesNext(known[devices[0].hostname := devices[0]], devices[1..], d);
    }
  }

  /** Both programs keep the last sample of each host. */
  lemma {:induction false} PyByHostIs(devices: seq<Device>)
    ensures PyByHost(devices) == ByHost(devices)
  {
    if devices != [] {
      PyByHostIs(devices[..|devices| - 1]);
      WithEntriesNext(map[], devices[..|devices| - 1], devices[|devices| - 1]);
      FrontAndLast(devices);
    }
  }

  lemma PyAffectedIs(d: Device, n: seq<Device>)
    ensures PyAffected(d, n) == Affected(d.hostname, n)
  {
  }

  lemma CascadeIsTable(d: Device, n: seq<Device>)
    ensures var b := BranchTaken(d, MaxSignal(LatencyOf, n, d.latency), MaxSignal(LossOf, n, d.loss));
            FirstMatch(d, n, 0) == if b.None? then None else Some(RuleOf(b.value))
  {
    assert FirstMatch(d, n, 3) == if Lossy(d, n) then Some(Degradation) else if Overheating(d, n) then Some(Heat)
                                  else if EdgeUnstable(d, n) then Some(Instability) else None;
    assert FirstMatch(d, n, 0) == if Congested(d, n) then Some(Congestion) else if Saturated(d, n) then Some(Saturation)
                                  else if Leaking(d, n) then Some(Leak) else FirstMatch(d, n, 3);
  }

  /** The rule table and the cascade decide alike in the same surroundings. */
  lemma TableIsCascade(d: Device, n: seq<Device>)
    ensures FirstMatch(d, n, 0) == if BranchAmong(d, n).None? then None else Some(RuleOf(BranchAmong(d, n).value))
  {
    BranchAmongIs(d, n);
    CascadeIsTable(d, n);
  }

  /** Deduplicating hosts is deduplicating devices when a host names one device. */
  lemma {:induction false} DedupeHostsOf(s: seq<Device>)
    requires forall d, e :: d in s && e in s && d.hostname == e.hostname ==> d == e
    ensures Dedupe(Hosts(s)) == Hosts(Dedupe(s))
  {
    if s != [] {
      var s', d := s[..|s| - 1], s[|s| - 1];
      DedupeHostsOf(s');
      assert Hosts(s)[..|s| - 1] == Hosts(s');
      HostMember(s', d);
    }
  }

  lemma HostMember(s: seq<Device>, d: Device)
    requires forall e :: e in s && d.hostname == e.hostname ==> d == e
    ensures d.hostname in Hosts(s) <==> d in s
  {
    if d.hostname in Hosts(s) {
      var i :| 0 <= i < |s| && Hosts(s)[i] == d.hostname;
      assert s[i] in s;
    }
    if d in s {
      var i :| 0 <= i < |s| && s[i] == d;
      assert Hosts(s)[i] == d.hostname;
    }
  }

  lemma FirstTwoDeduped(py: seq<Device>)
    ensures Hosts(Dedupe(FirstTwo(py))) <= Hosts(FirstTwo(Dedupe(py)))
  {
    var n := |FirstTwo(py)|;
    assert py[..n] == FirstTwo(py);
    DedupeOfPrefix(py, n);
  }

  /** Python's list of names, with repetitions, against the same list without them. */
  lemma AffectedPrefix(host: string, py: seq<Device>)
    requires forall d :: d in py ==> d.hostname != host
    requires forall d, e :: d in py && e in py && d.hostname == e.hostname ==> d == e
    ensures Dedupe(Affected(host, py)) <= Affected(host, Dedupe(py))
  {
    var two := FirstTwo(py);
    FirstTwoDeduped(py);
    DedupeHostsOf(two);
    forall i | 0 <= i < |two| ensures Hosts(two)[i] != host {
      assert two[i] in py;
    }
    DedupeCons(host, Hosts(two));
  }

  lemma RepeatingMembers(names: seq<string>, host: string, byHost: map<string, Device>)
    requires Keyed(byHost)
    ensures forall d :: d in ResolveAll(names, host, byHost) ==>
              d.hostname != host && d.hostname in byHost && byHost[d.hostname] == d
  {
    ResolvedMembers(names, host, byHost);
    ResolveDedupes(names, |names|, host, byHost);
    assert forall d :: d in ResolveAll(names, host, byHost) ==> d in Resolve(names, host, byHost);
  }

  ghost predicate SameFindings(go: seq<Candidate>, py: seq<PyIncident>) {
    |go| == |py| && forall i :: 0 <= i < |go| ==> SameFinding(go[i], py[i])
  }

  lemma AffectedAgrees(script: Script, d: Device, py: seq<Device>, byHost: map<string, Device>)
    requires Keyed(byHost) && Plain(script, d.hostname) && NeighborsPython(script, d, byHost) == Some(py)
    ensures Dedupe(PyAffected(d, py)) <= Dedupe(Affected(d.hostname, NeighborsOf(d, byHost)))
  {
    NeighborsAgree(script, d, byHost);
    RepeatingMembers(PyNames(SuffixUnbounded(d.hostname)), d.hostname, byHost);
    AffectedPrefix(d.hostname, py);
    PyAffectedIs(d, py);
    AffectedDistinct(d, byHost);
  }

  lemma ConfidenceAgrees(d: Device)
    ensures ToTwo(Round2(RawConfidence(d)), PyConfidence(d))
  {
    RoundedToTwo(RawConfidence(d));
  }

  lemma SameFindingOf(t: RuleText, f: Finding, d: Device, go: seq<Device>, py: seq<Device>)
    requires SameText(t, f) && Dedupe(PyAffected(d, py)) <= Dedupe(Affected(d.hostname, go))
    requires ToTwo(Round2(RawConfidence(d)), PyConfidence(d))
    ensures SameFinding(CandidateFor(t, d, go), PyIncidentFor(f, d, py))
  {
  }

  lemma FindingAgrees(script: Script, t: RuleText, f: Finding, d: Device, py: seq<Device>, byHost: map<string, Device>)
    requires SameText(t, f) && Keyed(byHost) && Plain(script, d.hostname) && NeighborsPython(script, d, byHost) == Some(py)
    ensures SameFinding(CandidateFor(t, d, NeighborsOf(d, byHost)), PyIncidentFor(f, d, py))
  {
    AffectedAgrees(script, d, py, byHost);
    ConfidenceAgrees(d);
    SameFindingOf(t, f, d, NeighborsOf(d, byHost), py);
  }

  /** Python raises nothing, and finds what Go does. */
  ghost predicate SameResults(go: seq<Candidate>, py: Option<seq<PyIncident>>) {
    py.Some? && SameFindings(go, py.value)
  }

  lemma DeviceAgrees(script: Script, texts: RuleTexts, outcomes: Outcomes, d: Device, byHost: map<string, Device>)
    requires SameTexts(texts, outcomes) && Keyed(byHost) && Plain(script, d.hostname)
    ensures SameResults(CandidatesOf(texts, d, byHost), PyIncidentsOf(script, outcomes, d, byHost))
  {
    NeighborsAgree(script, d, byHost);
    var py, go := NeighborsPython(script, d, byHost).value, NeighborsOf(d, byHost);
    BranchOfSameMembers(d, py, go);
    TableIsCascade(d, go);
    var b := BranchAmong(d, py);
    if b.Some? {
      SameTextOf(texts, outcomes, b.value);
      FindingAgrees(script, Lookup(texts, RuleOf(b.value)), Assigned(outcomes, b.value), d, py, byHost);
    }
  }

  lemma ResultsJoin(go: seq<Candidate>, py: Option<seq<PyIncident>>, go': seq<Candidate>, py': Option<seq<PyIncident>>)
    requires SameResults(go, py) && SameResults(go', py')
    ensures SameResults(go + go', Joined(py, py'))
  {
  }

  lemma CandidatesLast(texts: RuleTexts, front: seq<Device>, d: Device, byHost: map<string, Device>)
    ensures Candidates(texts, front + [d], byHost) == Candidates(texts, front, byHost) + CandidatesOf(texts, d, byHost)
  {
    assert (front + [d])[..|front|] == front;
  }

  lemma MatchNext(find: Device -> Option<seq<PyIncident>>, texts: RuleTexts, front: seq<Device>, d: Device, byHost: map<string, Device>)
    requires SameResults(Candidates(texts, front, byHost), Gather(find, front))
    requires SameResults(CandidatesOf(texts, d, byHost), find(d))
    ensures SameResults(Candidates(texts, front + [d], byHost), Gather(find, front + [d]))
  {
    CandidatesLast(texts, front, d, byHost);
    GatherNext(find, front, d);
    ResultsJoin(Candidates(texts, front, byHost), Gather(find, front), CandidatesOf(texts, d, byHost), find(d));
  }

  /** Programs that agree device by device agree on the batch. */
  lemma {:induction false} BatchMatches(find: Device -> Option<seq<PyIncident>>, texts: RuleTexts, devices: seq<Device>,
                                        byHost: map<string, Device>)
    requires forall d :: d in devices ==> SameResults(CandidatesOf(texts, d, byHost), find(d))
    ensures SameResults(Candidates(texts, devices, byHost), Gather(find, devices))
  {
    if devices != [] {
      var front, d := devices[..|devices| - 1], devices[|devices| - 1];
      BatchMatches(find, texts, front, byHost);
      MatchNext(find, texts, front, d, byHost);
      FrontAndLast(devices);
    }
  }

  lemma BatchAgrees(script: Script, texts: RuleTexts, outcomes: Outcomes, devices: seq<Device>, byHost: map<string, Device>)
    requires SameTexts(texts, outcomes) && Keyed(byHost)
    requires forall d :: d in devices ==> Plain(script, d.hostname)
    ensures SameResults(Candidates(texts, devices, byHost), PyIncidents(script, outcomes, devices, byHost))
  {
    var find := Finder(script, outcomes, byHost);
    forall d | d in devices ensures SameResults(CandidatesOf(texts, d, byHost), find(d)) {
      DeviceAgrees(script, texts, outcomes, d, byHost);
    }
    BatchMatches(find, texts, devices, byHost);
  }

  /** The Python program returns, and its result is the first four Go candidates, finding for finding. */
  ghost predicate PortAgrees(script: Script, texts: RuleTexts, outcomes: Outcomes, devices: seq<Device>) {
    SameFirstFour(Candidates(texts, devices, ByHost(devices)), FirstFourOf(PyIncidents(script, outcomes, devices, PyByHost(devices))))
  }

  ghost predicate SameFirstFour(go: seq<Candidate>, py: Option<seq<PyIncident>>) {
    && py.Some? && |py.value| == (if |go| <= 4 then |go| else 4)
    && forall i :: 0 <= i < |py.value| ==> SameFinding(go[i], py.value[i])
  }

  lemma FirstFourAgree(go: seq<Candidate>, py: Option<seq<PyIncident>>)
    requires SameResults(go, py)
    ensures SameFirstFour(go, FirstFourOf(py))
  {
  }

  /** The port: for every batch of plain hosts. */
  lemma PortEquivalence(script: Script, texts: RuleTexts, outcomes: Outcomes, devices: seq<Device>)
    requires SameTexts(texts, outcomes)
    requires forall d :: d in devices ==> Plain(script, d.hostname)
    ensures PortAgrees(script, texts, outcomes, devices)
  {
    PyByHostIs(devices);
    BatchAgrees(script, texts, outcomes, devices, ByHost(devices));
    FirstFourAgree(Candidates(texts, devices, ByHost(devices)), PyIncidents(script, outcomes, devices, ByHost(devices)));
  }

  // ----- where the port ends -----

  lemma BatchOfTwo(d: Device, e: Device)
    requires d.hostname != e.hostname
    ensures ByHost([d, e]) == map[d.hostname := d, e.hostname := e]
  {
    assert [d, e][..1] == [d] && [d][..0] == [];
    assert ByHost([d]) == map[d.hostname := d];
  }

  lemma CandidatesOfTwo(texts: RuleTexts, d: Device, e: Device, byHost: map<string, Device>)
    ensures Candidates(texts, [d, e], byHost) == CandidatesOf(texts, d, byHost) + CandidatesOf(texts, e, byHost)
  {
    OneAndTwo(d, e);
    CandidatesLast(texts, [], d, byHost);
    CandidatesLast(texts, [d], e, byHost);
  }

  /** The number of incidents found, when the batch can be read. */
  function Found(s: Option<seq<PyIncident>>): nat {
    if s.None? then 0 else |s.value|
  }

  /** A busy router whose own signals are fine, and a disturbed but otherwise quiet router. */
  ghost predicate Telling(d: Device, e: Device) {
    && d.role == Router && d.cpu == 96.0 && d.memory == d.loss == d.latency == d.temperature == d.bandwidth == 0.0
    && e.role == Router && e.loss == 6.0 && e.latency == 110.0 && e.cpu == e.memory == e.temperature == e.bandwidth == 0.0
  }

  lemma OneNeighbor(signal: Device -> real, n: seq<Device>, e: Device, fallback: real)
    requires forall x :: x in n <==> x == e
    ensures MaxSignal(signal, n, fallback) == signal(e)
  {
    assert e in n;
  }

  /** With the disturbed router next to it the busy one is congested, alone it is not. */
  lemma BusyRouter(d: Device, e: Device, n: seq<Device>)
    requires Telling(d, e) && ((forall x :: x in n <==> x == e) || n == [])
    ensures if n == [] then BranchAmong(d, n) == None else BranchAmong(d, n).Some?
  {
    BranchAmongIs(d, n);
    if n != [] {
      OneNeighbor(LatencyOf, n, e, d.latency);
      OneNeighbor(LossOf, n, e, d.loss);
    }
  }

  lemma QuietRouter(d: Device, e: Device, n: seq<Device>)
    requires Telling(d, e)
    ensures BranchAmong(e, n) == None
  {
  }

  lemma GoCount(texts: RuleTexts, d: Device, byHost: map<string, Device>, n: seq<Device>)
    requires n == NeighborsOf(d, byHost)
    ensures |CandidatesOf(texts, d, byHost)|
         == if BranchAmong(d, n).Some? then 1 else 0
  {
    TableIsCascade(d, n);
  }

  lemma PyCount(script: Script, outcomes: Outcomes, d: Device, byHost: map<string, Device>, n: seq<Device>)
    requires NeighborsPython(script, d, byHost) == Some(n)
    ensures Found(PyIncidentsOf(script, outcomes, d, byHost))
         == if BranchAmong(d, n).Some? then 1 else 0
  {
  }

  /** Among two hosts a name list finds the other one exactly when it holds its name. */
  lemma SeesOther(names: seq<string>, d: Device, e: Device, byHost: map<string, Device>)
    requires byHost == map[d.hostname := d, e.hostname := e] && d.hostname != e.hostname
    ensures if e.hostname in names then forall x :: x in Resolve(names, d.hostname, byHost) <==> x == e
            else Resolve(names, d.hostname, byHost) == []
    ensures if e.hostname in names then forall x :: x in ResolveAll(names, d.hostname, byHost) <==> x == e
            else ResolveAll(names, d.hostname, byHost) == []
  {
    ResolvedMembers(names, d.hostname, byHost);
    ResolveDedupes(names, |names|, d.hostname, byHost);
    assert forall x :: x in ResolveAll(names, d.hostname, byHost) <==> x in Resolve(names, d.hostname, byHost);
    if e.hostname !in names {
      NoneFound(names, |names|, d.hostname, byHost);
    }
  }

  lemma GoOnBusy(texts: RuleTexts, d: Device, e: Device, byHost: map<string, Device>, n: seq<Device>)
    requires Telling(d, e) && n == NeighborsOf(d, byHost) && ((forall x :: x in n <==> x == e) || n == [])
    ensures |CandidatesOf(texts, d, byHost)| == if n == [] then 0 else 1
  {
    BusyRouter(d, e, n);
    GoCount(texts, d, byHost, n);
  }

  lemma GoOnQuiet(texts: RuleTexts, d: Device, e: Device, byHost: map<string, Device>, n: seq<Device>)
    requires Telling(d, e) && n == NeighborsOf(e, byHost)
    ensures |CandidatesOf(texts, e, byHost)| == 0
  {
    QuietRouter(d, e, n);
    GoCount(texts, e, byHost, n);
  }

  lemma GoOnTwo(texts: RuleTexts, d: Device, e: Device, byHost: map<string, Device>, n: seq<Device>)
    requires Telling(d, e) && n == NeighborsOf(d, byHost) && ((forall x :: x in n <==> x == e) || n == [])
    ensures |Candidates(texts, [d, e], byHost)| == if n == [] then 0 else 1
  {
    GoOnBusy(texts, d, e, byHost, n);
    GoOnQuiet(texts, d, e, byHost, NeighborsOf(e, byHost));
    CandidatesOfTwo(texts, d, e, byHost);
  }

  lemma PythonOnBusy(script: Script, outcomes: Outcomes, d: Device, e: Device, byHost: map<string, Device>, n: seq<Device>)
    requires Telling(d, e) && NeighborsPython(script, d, byHost) == Some(n) && ((forall x :: x in n <==> x == e) || n == [])
    ensures Found(PyIncidentsOf(script, outcomes, d, byHost)) == if n == [] then 0 else 1
  {
    BusyRouter(d, e, n);
    PyCount(script, outcomes, d, byHost, n);
  }

  lemma PythonOnQuiet(script: Script, outcomes: Outcomes, d: Device, e: Device, byHost: map<string, Device>, n: seq<Device>)
    requires Telling(d, e) && NeighborsPython(script, e, byHost) == Some(n)
    ensures Found(PyIncidentsOf(script, outcomes, e, byHost)) == 0
  {
    QuietRouter(d, e, n);
    PyCount(script, outcomes, e, byHost, n);
  }

  lemma PythonOnTwo(script: Script, outcomes: Outcomes, d: Device, e: Device, byHost: map<string, Device>,
                    n: seq<Device>, m: seq<Device>)
    requires Telling(d, e) && ((forall x :: x in n <==> x == e) || n == [])
    requires NeighborsPython(script, d, byHost) == Some(n) && NeighborsPython(script, e, byHost) == Some(m)
    requires PyIncidents(script, outcomes, [d, e], byHost).Some?
    ensures Found(PyIncidents(script, outcomes, [d, e], byHost)) == if n == [] then 0 else 1
  {
    PythonOnBusy(script, outcomes, d, e, byHost, n);
    PythonOnQuiet(script, outcomes, d, e, byHost, m);
    GatherTwo(Finder(script, outcomes, byHost), d, e);
  }

  lemma Disagree(script: Script, texts: RuleTexts, outcomes: Outcomes, devices: seq<Device>)
    requires PyIncidents(script, outcomes, devices, ByHost(devices)).Some? ==>
               Found(PyIncidents(script, outcomes, devices, ByHost(devices))) + |Candidates(texts, devices, ByHost(devices))| == 1
    ensures !PortAgrees(script, texts, outcomes, devices)
  {
    PyByHostIs(devices);
  }

  /** One program finds the second device next to the first and the other does not. */
  lemma ListsTell(script: Script, texts: RuleTexts, outcomes: Outcomes, d: Device, e: Device,
                  go: seq<Device>, py: seq<Device>, m: seq<Device>)
    requires Telling(d, e) && (go == [] <==> py != [])
    requires ((forall x :: x in go <==> x == e) || go == []) && ((forall x :: x in py <==> x == e) || py == [])
    requires NeighborsOf(d, ByHost([d, e])) == go
    requires NeighborsPython(script, d, ByHost([d, e])) == Some(py) && NeighborsPython(script, e, ByHost([d, e])) == Some(m)
    ensures !PortAgrees(script, texts, outcomes, [d, e])
  {
    GoOnTwo(texts, d, e, ByHost([d, e]), go);
    if PyIncidents(script, outcomes, [d, e], ByHost([d, e])).Some? {
      PythonOnTwo(script, outcomes, d, e, ByHost([d, e]), py, m);
    }
    Disagree(script, texts, outcomes, [d, e]);
  }

  lemma NeighborTells(script: Script, texts: RuleTexts, outcomes: Outcomes, d: Device, e: Device, n: nat, m: nat)
    requires Telling(d, e) && d.hostname != e.hostname
    requires PySuffix(script, d.hostname) == Some(n) && PySuffix(script, e.hostname) == Some(m)
    requires e.hostname in ProbeNames64(Suffix64(d.hostname)) <==> e.hostname !in ProbeNames(n)
    ensures !PortAgrees(script, texts, outcomes, [d, e])
  {
    var byHost := ByHost([d, e]);
    BatchOfTwo(d, e);
    SeesOther(ProbeNames64(Suffix64(d.hostname)), d, e, byHost);
    SeesOther(ProbeNames(n), d, e, byHost);
    PyNamesAre(n);
    PyNamesAre(m);
    ListsTell(script, texts, outcomes, d, e, Resolve(ProbeNames64(Suffix64(d.hostname)), d.hostname, byHost),
              ResolveAll(ProbeNames(n), d.hostname, byHost), ResolveAll(ProbeNames(m), e.hostname, byHost));
  }

  function Sample(hostname: string, cpu: real, latency: real, loss: real): Device {
    Device(hostname, Router, cpu, 0.0, 0.0, 0.0, latency, loss, 0, Health.Healthy, 0, "", "")
  }

  lemma SampleIsValid(hostname: string, cpu: real, latency: real, loss: real)
    requires hostname != "" && 0.0 <= cpu <= 100.0 && 0.0 <= latency && 0.0 <= loss
    ensures IsValid(Sample(hostname, cpu, latency, loss))
  {
  }

  lemma TellingSamples(host: string, other: string)
    ensures Telling(Sample(host, 96.0, 0.0, 0.0), Sample(other, 0.0, 110.0, 6.0))
  {
  }

  /** Valid samples of plain hosts, and of one host more. */
  ghost predicate PlainBut(script: Script, devices: seq<Device>, host: string) {
    forall d :: d in devices ==> IsValid(d) && (d.hostname == host || Plain(script, d.hostname))
  }

  lemma UnreadTells(script: Script, texts: RuleTexts, outcomes: Outcomes, host: string)
    requires host != "" && PySuffix(script, host).None?
    ensures PlainBut(script, [Sample(host, 0.0, 0.0, 0.0)], host)
    ensures !PortAgrees(script, texts, outcomes, [Sample(host, 0.0, 0.0, 0.0)])
  {
    var d := Sample(host, 0.0, 0.0, 0.0);
    SampleIsValid(host, 0.0, 0.0, 0.0);
    GatherTwo(Finder(script, outcomes, PyByHost([d])), d, d);
  }

  lemma SamplesPlainBut(script: Script, host: string, other: string)
    requires host != "" && other != "" && Plain(script, other)
    ensures PlainBut(script, [Sample(host, 96.0, 0.0, 0.0), Sample(other, 0.0, 110.0, 6.0)], host)
  {
    SampleIsValid(host, 96.0, 0.0, 0.0);
    SampleIsValid(other, 0.0, 110.0, 6.0);
  }

  lemma ReadTells(script: Script, texts: RuleTexts, outcomes: Outcomes, host: string, n: nat) returns (d: Device, e: Device)
    requires ReadsAscii(script) && host != "" && PySuffix(script, host) == Some(n) && !Plain(script, host)
    ensures PlainBut(script, [d, e], host) && !PortAgrees(script, texts, outcomes, [d, e])
  {
    var other := SomeNameTells(script, host, n, 0);
    d, e := Sample(host, 96.0, 0.0, 0.0), Sample(other, 0.0, 110.0, 6.0);
    TellingSamples(host, other);
    NeighborTells(script, texts, outcomes, d, e, n, SuffixUnbounded(other));
    SamplesPlainBut(script, host, other);
  }

  /** The port is exact: a host may stand among plain hosts in every valid batch without the programs
      differing exactly when it is plain itself. */
  lemma PortEquivalenceIff(script: Script, texts: RuleTexts, outcomes: Outcomes, host: string)
    requires ReadsAscii(script) && SameTexts(texts, outcomes) && host != ""
    ensures (forall devices :: PlainBut(script, devices, host) ==> PortAgrees(script, texts, outcomes, devices)) <==> Plain(script, host)
  {
    if Plain(script, host) {
      forall devices | PlainBut(script, devices, host) ensures PortAgrees(script, texts, outcomes, devices) {
        PortEquivalence(script, texts, outcomes, devices);
      }
    } else if PySuffix(script, host).None? {
      UnreadTells(script, texts, outcomes, host);
    } else {
      var d, e := ReadTells(script, texts, outcomes, host, PySuffix(script, host).value);
    }
  }

  /** The two programs, given their sentences, agree on all valid batches of plain hosts and `host`. */
  ghost predicate PortAgreesWith(script: Script, go: Sentences, py: Sentences, host: string) {
    forall devices :: PlainBut(script, devices, host) ==> PortAgrees(script, ProgramTexts(go), ProgramOutcomes(py), devices)
  }

  lemma PortOfSameSentences(script: Script, go: Sentences, py: Sentences, host: string)
    requires SameSentences(go, py) && ReadsAscii(script) && host != ""
    ensures PortAgreesWith(script, go, py, host) <==> Plain(script, host)
  {
    TextsAgree(go);
    PortEquivalenceIff(script, ProgramTexts(go), ProgramOutcomes(py), host);
  }

  /** The port of the two programs as they are, each with the sentences it carries. */
  lemma PortOfPrograms(script: Script, host: string)
    requires ReadsAscii(script) && host != ""
    ensures PortAgreesWith(script, ActionSentences(), PythonSentences(), host) <==> Plain(script, host)
  {
    SentencesAgree();
    PortOfSameSentences(script, ActionSentences(), PythonSentences(), host);
  }
}
