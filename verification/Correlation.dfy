/** The correlation engine (internal/incidents/incidents.go): an ordered rule table, first
    match wins per device. */
module Correlation {
  import opened Sequences
  import opened Telemetry
  import opened Incidents
  import opened Neighbors
  import opened ActionTexts

  function LatencyOf(d: Device): real { d.latency }

  function LossOf(d: Device): real { d.loss }

  /** The largest signal among the neighbours, or the fallback when there are none. */
  function MaxSignal(signal: Device -> real, neighbors: seq<Device>, fallback: real): (m: real)
    ensures neighbors == [] ==> m == fallback
    ensures forall d :: d in neighbors ==> signal(d) <= m
    ensures neighbors != [] ==> exists d :: d in neighbors && signal(d) == m
  {
    if neighbors == [] then fallback
    else if |neighbors| == 1 then
      assert neighbors[0] in neighbors;
      signal(neighbors[0])
    else
      var front, last := neighbors[..|neighbors| - 1], neighbors[|neighbors| - 1];
      var m := MaxSignal(signal, front, fallback);
      assert forall d :: d in neighbors <==> d in front || d == last;
      if signal(last) > m then signal(last) else m
  }

  method MaxOf(signal: Device -> real, neighbors: seq<Device>, fallback: real) returns (m: real)
    ensures m == MaxSignal(signal, neighbors, fallback)
  {
    if |neighbors| == 0 {
      return fallback;
    }
    m := signal(neighbors[0]);
    for i := 1 to |neighbors|
      invariant m == MaxSignal(signal, neighbors[..i], fallback)
    {
      assert neighbors[..i + 1][..i] == neighbors[..i];
      if signal(neighbors[i]) > m {
        m := signal(neighbors[i]);
      }
    }
    assert neighbors[..|neighbors|] == neighbors;
  }

  /** The maximum depends only on which devices are neighbours, not on order or repetition. */
  lemma MaxSignalOfSameMembers(signal: Device -> real, s: seq<Device>, t: seq<Device>, fallback: real)
    requires forall d :: d in s <==> d in t
    ensures MaxSignal(signal, s, fallback) == MaxSignal(signal, t, fallback)
  {
    if s == [] || t == [] {
      assert s != [] ==> s[0] in s;
      assert t != [] ==> t[0] in t;
    }
  }

  // ----- the rule table -----

  predicate Congested(d: Device, n: seq<Device>) {
    d.role == Router && d.cpu > 95.0 && MaxSignal(LatencyOf, n, d.latency) > 100.0 && MaxSignal(LossOf, n, d.loss) > 5.0
  }

  /** Congestion in the measurements: a busy router next to some device with high latency and some device
      that loses packets; alone, the router itself. */
  ghost predicate BusyAmongSlow(d: Device, n: seq<Device>) {
    && d.role == Router && d.cpu > 95.0
    && if n == [] then d.latency > 100.0 && d.loss > 5.0
       else (exists x :: x in n && x.latency > 100.0) && (exists x :: x in n && x.loss > 5.0)
  }

  lemma CongestedIff(d: Device, n: seq<Device>)
    ensures Congested(d, n) <==> BusyAmongSlow(d, n)
  {
  }

  predicate Saturated(d: Device, n: seq<Device>) {
    d.role == Firewall && (d.cpu > 90.0 || d.bandwidth > 92.0) && d.latency > 90.0
  }

  predicate Leaking(d: Device, n: seq<Device>) {
    d.memory > 94.0 && d.cpu > 80.0
  }

  predicate Lossy(d: Device, n: seq<Device>) {
    d.loss > 7.0 && d.latency > 120.0
  }

  predicate Overheating(d: Device, n: seq<Device>) {
    d.temperature > 84.0 && d.role == Switch
  }

  predicate EdgeUnstable(d: Device, n: seq<Device>) {
    d.role == Gateway && d.latency > 140.0 && d.loss > 4.0
  }

  datatype Rule = Congestion | Saturation | Leak | Degradation | Heat | Instability

  /** The rules in evaluation order. */
  const RULES: seq<Rule> := [Congestion, Saturation, Leak, Degradation, Heat, Instability]

  predicate Matches(r: Rule, d: Device, n: seq<Device>) {
    match r
    case Congestion => Congested(d, n)
    case Saturation => Saturated(d, n)
    case Leak => Leaking(d, n)
    case Degradation => Lossy(d, n)
    case Heat => Overheating(d, n)
    case Instability => EdgeUnstable(d, n)
  }

  /** What a rule reports.  The engine is generic in the table of these texts; ProgramTexts
      below is the table of the program. */
  datatype RuleText = RuleText(rootCause: string, severity: Severity, slaMinutes: nat, action: string)

  datatype RuleTexts = RuleTexts(congestion: RuleText, saturation: RuleText, leak: RuleText,
                                 degradation: RuleText, heat: RuleText, instability: RuleText)

  function Lookup(texts: RuleTexts, r: Rule): RuleText {
    match r
    case Congestion => texts.congestion
    case Saturation => texts.saturation
    case Leak => texts.leak
    case Degradation => texts.degradation
    case Heat => texts.heat
    case Instability => texts.instability
  }

  function CongestionText(a: Sentences): RuleText {
    RuleText("Congestion Incident", Critical, 22, a.drain)
  }

  function SaturationText(a: Sentences): RuleText {
    RuleText("Firewall Saturation", High, 18, a.standby)
  }

  function LeakText(a: Sentences): RuleText {
    RuleText("Memory Leak", High, 22, a.failOver)
  }

  function DegradationText(a: Sentences): RuleText {
    RuleText("Packet Loss Degradation", High, 22, a.interfaces)
  }

  function HeatText(a: Sentences): RuleText {
    RuleText("Switch Overheating", High, 12, a.airflow)
  }

  function InstabilityText(a: Sentences): RuleText {
    RuleText("BGP Edge Instability", Critical, 15, a.edgeRoute)
  }

  function ProgramTexts(a: Sentences): RuleTexts {
    RuleTexts(CongestionText(a), SaturationText(a), LeakText(a),
              DegradationText(a), HeatText(a), InstabilityText(a))
  }

  /** The first rule from position `i` on that matches. */
  function FirstMatch(d: Device, n: seq<Device>, i: nat): (r: Option<Rule>)
    requires i <= |RULES|
    decreases |RULES| - i
  {
    if i == |RULES| then None
    else if Matches(RULES[i], d, n) then Some(RULES[i])
    else FirstMatch(d, n, i + 1)
  }

  // ----- candidates -----

  function OccurrenceKey(rootCause: string, hostname: string): string {
    rootCause + ":" + hostname
  }

  /** Conversion to int drops the fraction, toward zero. */
  function Truncated(v: real): int {
    if v >= 0.0 then v.Floor else -((-v).Floor)
  }

  function Round2(v: real): real {
    Truncated(v * 100.0 + 0.5) as real / 100.0
  }

  function Smaller(a: real, b: real): real {
    if a < b then a else b
  }

  function RawConfidence(d: Device): real {
    0.78 + Smaller(0.18, (d.cpu + d.latency / 2.0 + d.loss * 6.0) / 1000.0)
  }

  function FirstTwo(s: seq<Device>): seq<Device> {
    if |s| > 2 then s[..2] else s
  }

  /** The host and its first two neighbours. */
  function Affected(host: string, neighbors: seq<Device>): seq<string> {
    [host] + Hosts(FirstTwo(neighbors))
  }

  function CandidateFor(t: RuleText, d: Device, neighbors: seq<Device>): Candidate {
    Candidate(OccurrenceKey(t.rootCause, d.hostname), t.rootCause, t.severity,
              Dedupe(Affected(d.hostname, neighbors)), Round2(RawConfidence(d)), t.slaMinutes, t.action)
  }

  function CandidatesOf(texts: RuleTexts, d: Device, byHost: map<string, Device>): seq<Candidate> {
    var n := NeighborsOf(d, byHost);
    match FirstMatch(d, n, 0)
    case None => []
    case Some(r) => [CandidateFor(Lookup(texts, r), d, n)]
  }

  function Candidates(texts: RuleTexts, devices: seq<Device>, byHost: map<string, Device>): seq<Candidate> {
    if devices == [] then []
    else Candidates(texts, devices[..|devices| - 1], byHost) + CandidatesOf(texts, devices[|devices| - 1], byHost)
  }

  /** Drops repeated hosts, keeping first positions. */
  method DedupeHosts(hosts: seq<string>) returns (out: seq<string>)
    ensures out == Dedupe(hosts)
  {
    var seen := {};
    out := [];
    for i := 0 to |hosts|
      invariant out == Dedupe(hosts[..i])
      invariant forall h :: h in seen <==> h in hosts[..i]
    {
      assert hosts[..i + 1][..i] == hosts[..i];
      if hosts[i] !in seen {
        seen := seen + {hosts[i]};
        out := out + [hosts[i]];
      }
    }
    assert hosts[..|hosts|] == hosts;
  }

  method CandidateOf(t: RuleText, d: Device, neighbors: seq<Device>) returns (c: Candidate)
    ensures c == CandidateFor(t, d, neighbors)
  {
    var affected := [d.hostname];
    var i := 0;
    while i < |neighbors|
      invariant i <= |neighbors| && i <= 2
      invariant affected == [d.hostname] + Hosts(neighbors[..i])
    {
      if i >= 2 {
        break;
      }
      affected := affected + [neighbors[i].hostname];
      i := i + 1;
    }
    assert affected == Affected(d.hostname, neighbors) by {
      assert neighbors[..|neighbors|] == neighbors;
    }
    affected := DedupeHosts(affected);
    c := Candidate(OccurrenceKey(t.rootCause, d.hostname), t.rootCause, t.severity, affected,
                   Round2(RawConfidence(d)), t.slaMinutes, t.action);
  }

  /** Evaluates the rules in order and stops at the first match. */
  method FirstRule(d: Device, neighbors: seq<Device>) returns (r: Option<Rule>)
    ensures r == FirstMatch(d, neighbors, 0)
  {
    var i := 0;
    while i < |RULES| && !Matches(RULES[i], d, neighbors)
      invariant i <= |RULES|
      invariant FirstMatch(d, neighbors, 0) == FirstMatch(d, neighbors, i)
    {
      i := i + 1;
    }
    r := if i < |RULES| then Some(RULES[i]) else None;
  }

  /** The candidate one device contributes, if any. */
  method CandidateStep(texts: RuleTexts, d: Device, byHost: map<string, Device>) returns (cs: seq<Candidate>)
    requires Keyed(byHost)
    ensures cs == CandidatesOf(texts, d, byHost)
  {
    var neighbors := ResolveNeighbors(d, byHost);
    var r := FirstRule(d, neighbors);
    if r.None? {
      return [];
    }
    var c := CandidateOf(Lookup(texts, r.value), d, neighbors);
    cs := [c];
  }

  lemma CandidatesNext(texts: RuleTexts, devices: seq<Device>, k: nat, byHost: map<string, Device>)
    requires k < |devices|
    ensures Candidates(texts, devices[..k + 1], byHost)
         == Candidates(texts, devices[..k], byHost) + CandidatesOf(texts, devices[k], byHost)
  {
    assert devices[..k + 1][..k] == devices[..k];
  }

  method Correlate(texts: RuleTexts, devices: seq<Device>) returns (out: seq<Candidate>)
    ensures out == Candidates(texts, devices, ByHost(devices))
  {
    var byHost := ByHost(devices);
    out := [];
    for k := 0 to |devices|
      invariant out == Candidates(texts, devices[..k], byHost)
    {
      CandidatesNext(texts, devices, k, byHost);
      var cs := CandidateStep(texts, devices[k], byHost);
      out := out + cs;
    }
    assert devices[..|devices|] == devices;
  }

  // ----- properties -----

  lemma AffectedIsDistinct(host: string, n: seq<Device>)
    requires Distinct(Hosts(n)) && host !in Hosts(n)
    ensures Dedupe(Affected(host, n)) == Affected(host, n)
  {
    var a := Affected(host, n);
    forall i, j | 0 <= i < j < |a| ensures a[i] != a[j] {
      assert a[j] == Hosts(n)[j - 1];
      assert i > 0 ==> a[i] == Hosts(n)[i - 1];
    }
    DedupeOfDistinct(a);
  }

  /** The deduplication of affected hosts never drops anything: neighbours are already
      distinct and never include the host. */
  lemma AffectedDistinct(d: Device, byHost: map<string, Device>)
    requires Keyed(byHost)
    ensures Dedupe(Affected(d.hostname, NeighborsOf(d, byHost))) == Affected(d.hostname, NeighborsOf(d, byHost))
  {
    NeighborsDistinct(d, byHost);
    AffectedIsDistinct(d.hostname, NeighborsOf(d, byHost));
  }

  ghost predicate NoColons(texts: RuleTexts) {
    forall r :: ':' !in Lookup(texts, r).rootCause
  }

  lemma RootCausesHaveNoColon(a: Sentences)
    ensures NoColons(ProgramTexts(a))
  {
    assert ':' !in "Congestion Incident" && ':' !in "Firewall Saturation" && ':' !in "Memory Leak";
    assert ':' !in "Packet Loss Degradation" && ':' !in "Switch Overheating" && ':' !in "BGP Edge Instability";
  }

  /** No root cause contains the separator, so a key determines both of its parts. */
  lemma KeyInjective(a: string, x: string, b: string, y: string)
    requires ':' !in a && ':' !in b
    requires OccurrenceKey(a, x) == OccurrenceKey(b, y)
    ensures a == b && x == y
  {
    var k := OccurrenceKey(a, x);
    assert k[|a|] == ':' && k[|b|] == ':';
    assert k[..|a|] == a && k[..|b|] == b;
    assert k[|a| + 1..] == x && k[|b| + 1..] == y;
  }

  /** What a candidate of some rule and host looks like from outside. */
  ghost predicate Names(c: Candidate, host: string) {
    && ':' !in c.rootCause
    && c.key == OccurrenceKey(c.rootCause, host)
    && c.affected != [] && c.affected[0] == host
  }

  lemma CandidateNames(t: RuleText, d: Device, n: seq<Device>)
    requires ':' !in t.rootCause && Distinct(Hosts(n)) && d.hostname !in Hosts(n)
    ensures Names(CandidateFor(t, d, n), d.hostname)
  {
    AffectedIsDistinct(d.hostname, n);
  }

  /** Every candidate names a device of the batch. */
  lemma {:induction false} CandidateOrigin(texts: RuleTexts, devices: seq<Device>, byHost: map<string, Device>, c: Candidate)
    returns (d: Device)
    requires NoColons(texts) && Keyed(byHost) && c in Candidates(texts, devices, byHost)
    ensures d in devices && Names(c, d.hostname)
  {
    var front, last := devices[..|devices| - 1], devices[|devices| - 1];
    if c in Candidates(texts, front, byHost) {
      d := CandidateOrigin(texts, front, byHost, c);
    } else {
      d := last;
      var n := NeighborsOf(d, byHost);
      NeighborsDistinct(d, byHost);
      CandidateNames(Lookup(texts, FirstMatch(d, n, 0).value), d, n);
    }
  }

  /** Two candidates of one batch share an occurrence key exactly when they name the same
      root cause and the same host. */
  lemma CandidateKeys(texts: RuleTexts, devices: seq<Device>, a: Candidate, b: Candidate)
    requires NoColons(texts)
    requires a in Candidates(texts, devices, ByHost(devices)) && b in Candidates(texts, devices, ByHost(devices))
    ensures a.affected != [] && b.affected != []
    ensures a.key == b.key <==> a.rootCause == b.rootCause && a.affected[0] == b.affected[0]
  {
    var d := CandidateOrigin(texts, devices, ByHost(devices), a);
    var e := CandidateOrigin(texts, devices, ByHost(devices), b);
    if a.key == b.key {
      KeyInjective(a.rootCause, d.hostname, b.rootCause, e.hostname);
    }
  }

  ghost predicate CongestionStandsOut(texts: RuleTexts) {
    forall r :: r != Congestion ==> Lookup(texts, r).rootCause != texts.congestion.rootCause
  }

  lemma ProgramCongestionStandsOut(a: Sentences)
    ensures CongestionStandsOut(ProgramTexts(a))
  {
    var own := "Congestion Incident";
    assert own[0] != "Firewall Saturation"[0] && own[0] != "Memory Leak"[0] && own[0] != "Packet Loss Degradation"[0];
    assert own[0] != "Switch Overheating"[0] && own[0] != "BGP Edge Instability"[0];
  }

  /** A device is reported under a root cause. */
  ghost predicate Reported(cs: seq<Candidate>, rootCause: string) {
    exists c :: c in cs && c.rootCause == rootCause
  }

  lemma CongestionReportedIff(texts: RuleTexts, d: Device, byHost: map<string, Device>)
    requires CongestionStandsOut(texts)
    ensures Reported(CandidatesOf(texts, d, byHost), texts.congestion.rootCause) <==> BusyAmongSlow(d, NeighborsOf(d, byHost))
  {
    var n := NeighborsOf(d, byHost);
    CongestedIff(d, n);
    ReportedIff(texts, d, n, CandidatesOf(texts, d, byHost));
  }

  lemma ReportedIff(texts: RuleTexts, d: Device, n: seq<Device>, cs: seq<Candidate>)
    requires CongestionStandsOut(texts)
    requires cs == match FirstMatch(d, n, 0) case None => [] case Some(r) => [CandidateFor(Lookup(texts, r), d, n)]
    ensures Reported(cs, texts.congestion.rootCause) <==> Congested(d, n)
  {
    if Congested(d, n) {
      assert FirstMatch(d, n, 0) == Some(Congestion) && CandidateFor(texts.congestion, d, n) in cs;
    }
  }

  /** The program reports a congestion incident for a device exactly when it is a router above 95 % CPU
      with a neighbour above 100 ms and a neighbour above 5 % loss, or is so itself and has no neighbour. */
  lemma CongestionMeans(a: Sentences, d: Device, byHost: map<string, Device>)
    ensures Reported(CandidatesOf(ProgramTexts(a), d, byHost), "Congestion Incident") <==> BusyAmongSlow(d, NeighborsOf(d, byHost))
  {
    ProgramCongestionStandsOut(a);
    CongestionReportedIff(ProgramTexts(a), d, byHost);
  }

  /** Confidence of a valid sample lies between the base and the cap. */
  lemma ConfidenceBounds(d: Device)
    requires IsValid(d)
    ensures 0.78 <= Round2(RawConfidence(d)) <= 0.96
  {
    var v := RawConfidence(d);
    assert 0.78 <= v <= 0.96;
    assert 78.5 <= v * 100.0 + 0.5 <= 96.5;
  }
}
