/** Anomaly detection in the Python program (backend/app/analytics.py), and its agreement with the Go
    port, check by check. */
module PythonDetection {
  import opened Sequences
  import opened Rfc3339
  import opened Telemetry
  import opened Anomalies

  type Threshold = r: real | r > 0.0 witness 1.0

  /** One entry of the list of checks built for a device. */
  datatype PyCheck = PyCheck(signal: string, value: real, warning: real, critical: Threshold)

  /** Digests are taken over host, signal and bucket; the score is the one before rounding. */
  datatype PyAnomaly = PyAnomaly(device: string, signal: string, score: real, severity: string, bucket: int, timestamp: Instant)

  function ChecksFor(d: Device): seq<PyCheck> {
    [PyCheck("CPU saturation", d.cpu, 88.0, 97.0),
     PyCheck("Memory pressure", d.memory, 86.0, 96.0),
     PyCheck("High latency", d.latency, 85.0, 150.0),
     PyCheck("Packet loss", d.loss, 3.5, 8.0),
     PyCheck("Thermal drift", d.temperature, 72.0, 86.0)]
  }

  /** Floor division of the time stamp, in fractions of a second, by 20. */
  function PyBucket(now: Instant): int {
    (now - UNIX_EPOCH * NANOS) / (20 * NANOS)
  }

  function AnomalyOf(d: Device, c: PyCheck, now: Instant): PyAnomaly {
    var score := if c.value / c.critical < 1.0 then c.value / c.critical else 1.0;
    var severity := if c.value >= c.critical then "critical" else if score > 0.82 then "high" else "medium";
    PyAnomaly(d.hostname, c.signal, score, severity, PyBucket(now), now)
  }

  function FoundBy(d: Device, checks: seq<PyCheck>, now: Instant): seq<PyAnomaly> {
    if checks == [] then []
    else
      var front, c := FoundBy(d, checks[..|checks| - 1], now), checks[|checks| - 1];
      if c.value >= c.warning then front + [AnomalyOf(d, c, now)] else front
  }

  function PyDetected(devices: seq<Device>, now: Instant): seq<PyAnomaly> {
    if devices == [] then []
    else PyDetected(devices[..|devices| - 1], now) + FoundBy(devices[|devices| - 1], ChecksFor(devices[|devices| - 1]), now)
  }

  method DetectAnomalies(devices: seq<Device>, now: Instant) returns (anomalies: seq<PyAnomaly>)
    ensures anomalies == PyDetected(devices, now)
  {
    anomalies := [];
    for k := 0 to |devices|
      invariant anomalies == PyDetected(devices[..k], now)
    {
      assert devices[..k + 1][..k] == devices[..k];
      var found := DetectOn(devices[k], now);
      anomalies := anomalies + found;
    }
    assert devices[..|devices|] == devices;
  }

  method DetectOn(d: Device, now: Instant) returns (found: seq<PyAnomaly>)
    ensures found == FoundBy(d, ChecksFor(d), now)
  {
    var checks := ChecksFor(d);
    found := [];
    for i := 0 to |checks|
      invariant found == FoundBy(d, checks[..i], now)
    {
      assert checks[..i + 1][..i] == checks[..i];
      if checks[i].value >= checks[i].warning {
        found := found + [AnomalyOf(d, checks[i], now)];
      }
    }
    assert checks[..|checks|] == checks;
  }

  // ----- agreement -----

  /** The name a signal has in Python. */
  function PyName(sig: Signal): string {
    match sig
    case CpuSaturation => "CPU saturation"
    case MemoryPressure => "Memory pressure"
    case HighLatency => "High latency"
    case PacketLoss => "Packet loss"
    case ThermalDrift => "Thermal drift"
  }

  function PySeverity(l: Level): string {
    match l
    case Medium => "medium"
    case High => "high"
    case Critical => "critical"
  }

  function Thousandths(k: int): real {
    k as real / 1000.0
  }

  /** `x` is `v` to three decimals, halves upward. */
  ghost predicate ToThree(x: real, v: real) {
    exists k :: x == Thousandths(k) && -0.0005 <= v - Thousandths(k) < 0.0005
  }

  ghost predicate SameAnomaly(a: Anomaly, p: PyAnomaly, hash: Hash) {
    && a.device == p.device && PyName(a.signal) == p.signal && PySeverity(a.severity) == p.severity
    && ToThree(a.score, p.score) && a.detectedAt == p.timestamp
    && a.id == hash(a.device, a.signal, Bucket(a.detectedAt))
  }

  ghost predicate SameAnomalies(s: seq<Anomaly>, t: seq<PyAnomaly>, hash: Hash) {
    |s| == |t| && forall i :: 0 <= i < |s| ==> SameAnomaly(s[i], t[i], hash)
  }

  lemma RoundedToThree(v: real)
    ensures ToThree(Round3(v), v)
  {
    var k := (v * 1000.0 + 0.5).Floor;
    assert Round3(v) == Thousandths(k) && k as real <= v * 1000.0 + 0.5 < (k + 1) as real;
  }

  /** The checks stand in the same order, read the same measurements and have the same thresholds. */
  lemma CheckIs(d: Device, i: nat)
    requires i < CHECKS
    ensures |ChecksFor(d)| == CHECKS
    ensures ChecksFor(d)[i] == PyCheck(PyName(Check(i)), Reading(Check(i), d), WarningAt(Check(i)), CriticalAt(Check(i)))
  {
  }

  lemma BreachAgrees(sig: Signal, d: Device, c: PyCheck, now: Instant, hash: Hash)
    requires c == PyCheck(PyName(sig), Reading(sig, d), WarningAt(sig), CriticalAt(sig))
    ensures SameAnomaly(Breach(sig, d, now, hash), AnomalyOf(d, c, now), hash)
  {
    RoundedToThree(Score(sig, d));
  }

  lemma {:induction false} DeviceDetectionAgrees(d: Device, n: nat, now: Instant, hash: Hash)
    requires n <= CHECKS
    ensures |ChecksFor(d)| == CHECKS && SameAnomalies(DeviceBreaches(d, n, now, hash), FoundBy(d, ChecksFor(d)[..n], now), hash)
  {
    if n > 0 {
      var checks := ChecksFor(d);
      DeviceDetectionAgrees(d, n - 1, now, hash);
      CheckIs(d, n - 1);
      BreachAgrees(Check(n - 1), d, checks[n - 1], now, hash);
      assert checks[..n][..n - 1] == checks[..n - 1];
    }
  }

  lemma AllChecks(d: Device)
    ensures |ChecksFor(d)| == CHECKS && ChecksFor(d)[..CHECKS] == ChecksFor(d)
  {
  }

  lemma SameAnomaliesConcat(s: seq<Anomaly>, t: seq<PyAnomaly>, s': seq<Anomaly>, t': seq<PyAnomaly>, hash: Hash)
    requires SameAnomalies(s, t, hash) && SameAnomalies(s', t', hash)
    ensures SameAnomalies(s + s', t + t', hash)
  {
  }

  /** The two programs detect the same breaches of the same devices, in the same order, with the same
      signals, severities and, to three decimals, scores. */
  lemma {:induction false} DetectionAgrees(devices: seq<Device>, n: nat, now: Instant, hash: Hash)
    requires n <= |devices|
    ensures SameAnomalies(Detected(devices, n, now, hash), PyDetected(devices[..n], now), hash)
  {
    if n > 0 {
      DetectionAgrees(devices, n - 1, now, hash);
      DeviceDetectionAgrees(devices[n - 1], CHECKS, now, hash);
      AllChecks(devices[n - 1]);
      assert devices[..n][..n - 1] == devices[..n - 1];
      SameAnomaliesConcat(Detected(devices, n - 1, now, hash), PyDetected(devices[..n - 1], now),
                          DeviceBreaches(devices[n - 1], CHECKS, now, hash), FoundBy(devices[n - 1], ChecksFor(devices[n - 1]), now),
                          hash);
    }
  }

  /** Both programs digest the same bucket number exactly from 1970 on and, before, in the first second of
      each twenty: one divides toward zero, the other downward. */
  lemma BucketsAgreeIff(now: Instant)
    ensures Bucket(now) == PyBucket(now) <==> Unix(now) >= 0 || Unix(now) % 20 == 0
  {
    var s := SecondsOf(now);
    assert now - UNIX_EPOCH * NANOS == (s - UNIX_EPOCH) * NANOS + now % NANOS;
    FloorOfSeconds(s - UNIX_EPOCH, now % NANOS);
  }

  lemma FloorOfSeconds(u: int, fraction: int)
    requires 0 <= fraction < NANOS
    ensures (u * NANOS + fraction) / (20 * NANOS) == u / 20
  {
  }
}
