/** Device telemetry samples and their validation (internal/telemetry/model.go). */
module Telemetry {
  import opened Sequences
  import opened Rfc3339

  datatype Role = Router | Switch | Firewall | Gateway | UnknownRole(name: string)

  datatype Health = Healthy | Warning | CriticalHealth | UnknownHealth(name: string)

  datatype Device = Device(
    hostname: string, role: Role,
    cpu: real, memory: real, bandwidth: real, temperature: real, latency: real, loss: real,
    uptimeSeconds: int, status: Health, observedAt: Instant, source: string, mode: string)

  datatype Fault =
    | EmptyHostname | InvalidRole | InvalidStatus
    | CpuOutOfRange | MemoryOutOfRange | BandwidthOutOfRange
    | NegativeLoss | NegativeLatency | MissingTimestamp

  /** Go's zero time, 0001-01-01T00:00:00Z. */
  const ZERO_TIME: Instant := 366 * DAY * NANOS

  /** The first failed check, in the order the checks are made. */
  function Validate(d: Device): Option<Fault> {
    if d.hostname == "" then Some(EmptyHostname)
    else if d.role.UnknownRole? then Some(InvalidRole)
    else if d.status.UnknownHealth? then Some(InvalidStatus)
    else if d.cpu < 0.0 || d.cpu > 100.0 then Some(CpuOutOfRange)
    else if d.memory < 0.0 || d.memory > 100.0 then Some(MemoryOutOfRange)
    else if d.bandwidth < 0.0 || d.bandwidth > 100.0 then Some(BandwidthOutOfRange)
    else if d.loss < 0.0 then Some(NegativeLoss)
    else if d.latency < 0.0 then Some(NegativeLatency)
    else if d.observedAt == ZERO_TIME then Some(MissingTimestamp)
    else None
  }

  predicate IsValid(d: Device) {
    Validate(d) == None
  }

  /** What each fault means for a sample. */
  predicate HasFault(d: Device, f: Fault) {
    match f
    case EmptyHostname => |d.hostname| == 0
    case InvalidRole => d.role !in {Router, Switch, Firewall, Gateway}
    case InvalidStatus => d.status !in {Healthy, Warning, CriticalHealth}
    case CpuOutOfRange => !(0.0 <= d.cpu <= 100.0)
    case MemoryOutOfRange => !(0.0 <= d.memory <= 100.0)
    case BandwidthOutOfRange => !(0.0 <= d.bandwidth <= 100.0)
    case NegativeLoss => !(0.0 <= d.loss)
    case NegativeLatency => !(0.0 <= d.latency)
    case MissingTimestamp => d.observedAt == 366 * 86_400 * 1_000_000_000
  }

  /** The place of each check in the order they are made. */
  function Place(f: Fault): nat {
    match f
    case EmptyHostname => 0
    case InvalidRole => 1
    case InvalidStatus => 2
    case CpuOutOfRange => 3
    case MemoryOutOfRange => 4
    case BandwidthOutOfRange => 5
    case NegativeLoss => 6
    case NegativeLatency => 7
    case MissingTimestamp => 8
  }

  /** The fault is there and no check before it fails. */
  ghost predicate FirstFault(d: Device, f: Fault) {
    HasFault(d, f) && forall g :: Place(g) < Place(f) ==> !HasFault(d, g)
  }

  /** A sample is valid exactly when it has none of the faults, and otherwise the first one in the order
      of the checks is reported. */
  lemma ValidateFindsFirst(d: Device)
    ensures IsValid(d) <==> forall f :: !HasFault(d, f)
    ensures forall f :: Validate(d) == Some(f) <==> FirstFault(d, f)
  {
    if Validate(d).Some? {
      ReportedIsFirst(d);
    } else {
      NoneReported(d);
    }
  }

  lemma ReportedIsFirst(d: Device)
    requires Validate(d).Some?
    ensures FirstFault(d, Validate(d).value) && forall f :: FirstFault(d, f) ==> f == Validate(d).value
  {
    forall f | FirstFault(d, f) ensures f == Validate(d).value {
      assert !(Place(Validate(d).value) < Place(f));
    }
  }

  lemma NoneReported(d: Device)
    requires Validate(d).None?
    ensures forall f :: !HasFault(d, f)
  {
  }

  /** The latest sample of each host in a batch: a later entry replaces an earlier one. */
  function ByHost(devices: seq<Device>): (m: map<string, Device>)
    ensures forall h :: h in m ==> m[h] in devices && m[h].hostname == h
    ensures forall d :: d in devices ==> d.hostname in m
  {
    if devices == [] then map[]
    else
      var d := devices[|devices| - 1];
      ByHost(devices[..|devices| - 1])[d.hostname := d]
  }

  /** Of two samples of one host the last one stays. */
  lemma {:induction false} ByHostKeepsLast(devices: seq<Device>, i: nat)
    requires i < |devices| && forall j :: i < j < |devices| ==> devices[j].hostname != devices[i].hostname
    ensures ByHost(devices)[devices[i].hostname] == devices[i]
  {
    if i < |devices| - 1 {
      ByHostKeepsLast(devices[..|devices| - 1], i);
    }
  }
}
