/** Threshold detection (internal/detection/anomaly.go) and the bounded, deduplicated,
    newest-first anomaly buffer (internal/persistence/store.go). */
module Anomalies {
  import opened Sequences
  import opened Rfc3339
  import opened Telemetry

  datatype Signal = CpuSaturation | MemoryPressure | HighLatency | PacketLoss | ThermalDrift

  datatype Level = Medium | High | Critical

  datatype Anomaly = Anomaly(id: string, score: real, severity: Level, device: string, signal: Signal, detectedAt: Instant)

  /** The truncated digest of (host, signal, bucket). */
  type Hash = (string, Signal, int) -> string

  const CHECKS: nat := 5

  /** The configured checks, in order. */
  function Check(i: nat): Signal
    requires i < CHECKS
  {
    match i
    case 0 => CpuSaturation
    case 1 => MemoryPressure
    case 2 => HighLatency
    case 3 => PacketLoss
    case 4 => ThermalDrift
  }

  function Reading(sig: Signal, d: Device): real {
    match sig
    case CpuSaturation => d.cpu
    case MemoryPressure => d.memory
    case HighLatency => d.latency
    case PacketLoss => d.loss
    case ThermalDrift => d.temperature
  }

  function WarningAt(sig: Signal): real {
    match sig
    case CpuSaturation => 88.0
    case MemoryPressure => 86.0
    case HighLatency => 85.0
    case PacketLoss => 3.5
    case ThermalDrift => 72.0
  }

  function CriticalAt(sig: Signal): real {
    match sig
    case CpuSaturation => 97.0
    case MemoryPressure => 96.0
    case HighLatency => 150.0
    case PacketLoss => 8.0
    case ThermalDrift => 86.0
  }

  const BUCKET_SECONDS: int := 20

  /** Go's integer division, toward zero. */
  function Bucket(now: Instant): int {
    var u := Unix(now);
    if u >= 0 then u / BUCKET_SECONDS else -(-u / BUCKET_SECONDS)
  }

  function Score(sig: Signal, d: Device): real {
    var s := Reading(sig, d) / CriticalAt(sig);
    if s > 1.0 then 1.0 else s
  }

  function SeverityFor(sig: Signal, d: Device): Level {
    if Reading(sig, d) >= CriticalAt(sig) then Critical
    else if Score(sig, d) > 0.82 then High
    else Medium
  }

  function Round3(v: real): real {
    (v * 1000.0 + 0.5).Floor as real / 1000.0
  }

  function Breaches(sig: Signal, d: Device): bool {
    Reading(sig, d) >= WarningAt(sig)
  }

  function Breach(sig: Signal, d: Device, now: Instant, hash: Hash): Anomaly {
    Anomaly(hash(d.hostname, sig, Bucket(now)), Round3(Score(sig, d)), SeverityFor(sig, d), d.hostname, sig, now)
  }

  /** The breaches of the first `n` checks on one device. */
  function DeviceBreaches(d: Device, n: nat, now: Instant, hash: Hash): seq<Anomaly>
    requires n <= CHECKS
  {
    if n == 0 then []
    else
      var front := DeviceBreaches(d, n - 1, now, hash);
      if Breaches(Check(n - 1), d) then front + [Breach(Check(n - 1), d, now, hash)] else front
  }

  function Detected(devices: seq<Device>, n: nat, now: Instant, hash: Hash): seq<Anomaly>
    requires n <= |devices|
  {
    if n == 0 then [] else Detected(devices, n - 1, now, hash) + DeviceBreaches(devices[n - 1], CHECKS, now, hash)
  }

  method DetectOne(d: Device, now: Instant, hash: Hash) returns (out: seq<Anomaly>)
    ensures out == DeviceBreaches(d, CHECKS, now, hash)
  {
    var bucket := Bucket(now);
    out := [];
    for i := 0 to CHECKS
      invariant out == DeviceBreaches(d, i, now, hash)
    {
      var c := Check(i);
      var v := Reading(c, d);
      if v >= WarningAt(c) {
        var score := v / CriticalAt(c);
        if score > 1.0 {
          score := 1.0;
        }
        var severity := Medium;
        if v >= CriticalAt(c) {
          severity := Critical;
        } else if score > 0.82 {
          severity := High;
        }
        out := out + [Anomaly(hash(d.hostname, c, bucket), Round3(score), severity, d.hostname, c, now)];
      }
    }
  }

  method Detect(devices: seq<Device>, now: Instant, hash: Hash) returns (out: seq<Anomaly>)
    ensures out == Detected(devices, |devices|, now, hash)
  {
    out := [];
    for k := 0 to |devices|
      invariant out == Detected(devices, k, now, hash)
    {
      var found := DetectOne(devices[k], now, hash);
      out := out + found;
    }
  }

  lemma {:induction false} DeviceBreachesAre(d: Device, n: nat, now: Instant, hash: Hash, a: Anomaly)
    requires n <= CHECKS
    ensures a in DeviceBreaches(d, n, now, hash)
       <==> exists i: nat :: i < n && Breaches(Check(i), d) && a == Breach(Check(i), d, now, hash)
  {
    if n > 0 {
      DeviceBreachesAre(d, n - 1, now, hash, a);
    }
  }

  /** Every reported anomaly is a breach of some check by some device, and every breach is
      reported. */
  lemma {:induction false} DetectedAre(devices: seq<Device>, n: nat, now: Instant, hash: Hash, a: Anomaly)
    requires n <= |devices|
    ensures a in Detected(devices, n, now, hash)
       <==> exists k: nat, i: nat :: k < n && i < CHECKS && Breaches(Check(i), devices[k]) && a == Breach(Check(i), devices[k], now, hash)
  {
    if n > 0 {
      DetectedAre(devices, n - 1, now, hash, a);
      DeviceBreachesAre(devices[n - 1], CHECKS, now, hash, a);
    }
  }

  /** A breach scores above zero and at most one, and is critical exactly from the critical
      threshold on, which is where the score reaches one. */
  lemma BreachScore(sig: Signal, d: Device)
    requires Breaches(sig, d)
    ensures 0.0 < Score(sig, d) <= 1.0
    ensures SeverityFor(sig, d) == Critical <==> Score(sig, d) == 1.0
    ensures 0.0 <= Round3(Score(sig, d)) <= 1.0
  {
    var v, c := Reading(sig, d), CriticalAt(sig);
    assert v / c * c == v;
    var s := Score(sig, d);
    assert 0.0 < s <= 1.0;
    assert 0.5 < s * 1000.0 + 0.5 <= 1000.5;
  }

  // ----- windows -----

  /** The instants at which detection windows change: the multiples of 20 seconds after 1970-01-01T00:00:00Z
      and, division being toward zero, the second after those before it. */
  function WindowStart(m: int): int {
    (UNIX_EPOCH + if m > 0 then 20 * m else 20 * m + 1) * 1_000_000_000
  }

  predicate Between(m: int, t: Instant, u: Instant) {
    m != 0 && t < WindowStart(m) <= u
  }

  ghost predicate SameWindow(t: Instant, u: Instant) {
    forall m :: !Between(m, t, u) && !Between(m, u, t)
  }

  lemma StartSeparates(m: int, t: Instant, u: Instant)
    ensures Between(m, t, u) <==> m != 0 && Unix(t) < (if m > 0 then 20 * m else 20 * m + 1) <= Unix(u)
  {
  }

  lemma StartBetween(t: Instant, u: Instant)
    requires Bucket(t) < Bucket(u)
    ensures exists m :: Between(m, t, u)
  {
    var m := if Bucket(u) >= 1 then Bucket(u) else Bucket(t);
    StartSeparates(m, t, u);
    assert Between(m, t, u);
  }

  lemma BetweenSeparates(m: int, t: Instant, u: Instant)
    requires Between(m, t, u)
    ensures Bucket(t) < Bucket(u)
  {
    StartSeparates(m, t, u);
  }

  /** Two times share a bucket exactly when no window starts between them. */
  lemma BucketIff(t: Instant, u: Instant)
    ensures Bucket(t) == Bucket(u) <==> SameWindow(t, u)
  {
    if Bucket(t) < Bucket(u) {
      StartBetween(t, u);
    } else if Bucket(u) < Bucket(t) {
      StartBetween(u, t);
    } else {
      forall m ensures !Between(m, t, u) && !Between(m, u, t) {
        if Between(m, t, u) {
          BetweenSeparates(m, t, u);
        } else if Between(m, u, t) {
          BetweenSeparates(m, u, t);
        }
      }
    }
  }

  /** Times at least 20 seconds apart, from 1970 on, are in different windows. */
  lemma TwentySecondsApart(t: Instant, u: Instant)
    requires UNIX_EPOCH * 1_000_000_000 <= t && t + 20 * 1_000_000_000 <= u
    ensures !SameWindow(t, u)
  {
    BucketIff(t, u);
  }

  function Ids(s: seq<Anomaly>): (r: seq<string>)
    ensures |r| == |s| && forall i :: 0 <= i < |s| ==> r[i] == s[i].id
  {
    seq(|s|, i requires 0 <= i < |s| => s[i].id)
  }

  lemma {:induction false} SameDeviceIds(d: Device, n: nat, t: Instant, u: Instant, hash: Hash)
    requires n <= CHECKS && Bucket(t) == Bucket(u)
    ensures Ids(DeviceBreaches(d, n, t, hash)) == Ids(DeviceBreaches(d, n, u, hash))
  {
    if n > 0 {
      SameDeviceIds(d, n - 1, t, u, hash);
    }
  }

  lemma IdsConcat(a: seq<Anomaly>, b: seq<Anomaly>)
    ensures Ids(a + b) == Ids(a) + Ids(b)
  {
  }

  /** Within one window the same devices are reported under the same identifiers. */
  lemma {:induction false} SameWindowSameIds(devices: seq<Device>, n: nat, t: Instant, u: Instant, hash: Hash)
    requires n <= |devices| && SameWindow(t, u)
    ensures Ids(Detected(devices, n, t, hash)) == Ids(Detected(devices, n, u, hash))
  {
    if n > 0 {
      SameWindowSameIds(devices, n - 1, t, u, hash);
      BucketIff(t, u);
      SameDeviceIds(devices[n - 1], CHECKS, t, u, hash);
      var a, b := Detected(devices, n - 1, t, hash), DeviceBreaches(devices[n - 1], CHECKS, t, hash);
      var a', b' := Detected(devices, n - 1, u, hash), DeviceBreaches(devices[n - 1], CHECKS, u, hash);
      IdsConcat(a, b);
      IdsConcat(a', b');
    }
  }

  /** No two (host, signal, bucket) have one digest. */
  ghost predicate Injective(hash: Hash) {
    forall h, s, k, h', s', k' :: hash(h, s, k) == hash(h', s', k') ==> h == h' && s == s' && k == k'
  }

  /** The identifier of an anomaly is that of its host, signal and window. */
  ghost predicate Stamped(s: seq<Anomaly>, hash: Hash) {
    forall a :: a in s ==> a.id == hash(a.device, a.signal, Bucket(a.detectedAt))
  }

  lemma {:induction false} DetectedStamped(devices: seq<Device>, now: Instant, hash: Hash)
    ensures Stamped(Detected(devices, |devices|, now, hash), hash)
    ensures forall a :: a in Detected(devices, |devices|, now, hash) ==> a.detectedAt == now
  {
    forall a | a in Detected(devices, |devices|, now, hash)
      ensures a.id == hash(a.device, a.signal, Bucket(a.detectedAt)) && a.detectedAt == now
    {
      DetectedAre(devices, |devices|, now, hash, a);
    }
  }

  /** Digests that do not collide identify a breach by host, signal and window. */
  lemma SameIdIff(a: Anomaly, b: Anomaly, hash: Hash)
    requires Injective(hash) && Stamped([a, b], hash)
    ensures a.id == b.id <==> a.device == b.device && a.signal == b.signal && SameWindow(a.detectedAt, b.detectedAt)
  {
    BucketIff(a.detectedAt, b.detectedAt);
    assert a in [a, b] && b in [a, b];
  }

  // ----- the buffer -----

  /** maxAnomalies. */
  const CAPACITY: nat := 100

  function First<T>(n: nat, s: seq<T>): seq<T> {
    if |s| <= n then s else s[..n]
  }

  /** Prepends each anomaly whose identifier is not present yet. */
  function AddNew(buffer: seq<Anomaly>, batch: seq<Anomaly>): seq<Anomaly> {
    if batch == [] then buffer
    else
      var front, a := AddNew(buffer, batch[..|batch| - 1]), batch[|batch| - 1];
      if a.id in Ids(front) then front else [a] + front
  }

  function Record(buffer: seq<Anomaly>, batch: seq<Anomaly>): seq<Anomaly> {
    First(CAPACITY, AddNew(buffer, batch))
  }

  method RecordBatch(buffer: seq<Anomaly>, batch: seq<Anomaly>) returns (out: seq<Anomaly>)
    ensures out == Record(buffer, batch)
  {
    var existing := set a | a in buffer :: a.id;
    out := buffer;
    assert forall id :: id in existing <==> id in Ids(out) by {
      forall id | id in Ids(out) ensures id in existing {
        var i :| 0 <= i < |out| && Ids(out)[i] == id;
        assert out[i] in buffer;
      }
      forall id | id in existing ensures id in Ids(out) {
        var a :| a in buffer && a.id == id;
        var i :| 0 <= i < |out| && out[i] == a;
        assert Ids(out)[i] == id;
      }
    }
    for k := 0 to |batch|
      invariant out == AddNew(buffer, batch[..k])
      invariant forall id :: id in existing <==> id in Ids(out)
    {
      assert batch[..k + 1][..k] == batch[..k];
      if batch[k].id !in existing {
        existing := existing + {batch[k].id};
        assert Ids([batch[k]] + out) == [batch[k].id] + Ids(out);
        out := [batch[k]] + out;
      }
    }
    assert batch[..|batch|] == batch;
    if |out| > CAPACITY {
      out := out[..CAPACITY];
    }
  }

  lemma {:induction false} AddNewIds(buffer: seq<Anomaly>, batch: seq<Anomaly>)
    requires Distinct(Ids(buffer))
    ensures Distinct(Ids(AddNew(buffer, batch)))
    ensures forall id :: id in Ids(AddNew(buffer, batch)) <==> id in Ids(buffer) || id in Ids(batch)
  {
    if batch != [] {
      var front, a := batch[..|batch| - 1], batch[|batch| - 1];
      AddNewIds(buffer, front);
      assert Ids(batch) == Ids(front) + [a.id];
      var was := AddNew(buffer, front);
      assert Ids([a] + was) == [a.id] + Ids(was);
    }
  }

  /** What a batch adds in front of the buffer. */
  lemma {:induction false} AddNewShape(buffer: seq<Anomaly>, batch: seq<Anomaly>) returns (added: seq<Anomaly>)
    ensures AddNew(buffer, batch) == added + buffer
  {
    if batch == [] {
      added := [];
    } else {
      added := AddNewShape(buffer, batch[..|batch| - 1]);
      if batch[|batch| - 1].id !in Ids(AddNew(buffer, batch[..|batch| - 1])) {
        added := [batch[|batch| - 1]] + added;
      }
    }
  }

  function AcceptedOf(buffer: seq<Anomaly>, batch: seq<Anomaly>): seq<Anomaly> {
    var all := AddNew(buffer, batch);
    if |all| < |buffer| then [] else all[..|all| - |buffer|]
  }

  /** The unbounded newest-first log: every accepted anomaly, where a batch is accepted against
      what the buffer shows. */
  function Log(batches: seq<seq<Anomaly>>): seq<Anomaly> {
    if batches == [] then []
    else
      var log := Log(batches[..|batches| - 1]);
      AcceptedOf(First(CAPACITY, log), batches[|batches| - 1]) + log
  }

  function Buffer(batches: seq<seq<Anomaly>>): seq<Anomaly> {
    if batches == [] then [] else Record(Buffer(batches[..|batches| - 1]), batches[|batches| - 1])
  }

  lemma AcceptedInFront(buffer: seq<Anomaly>, batch: seq<Anomaly>)
    ensures AddNew(buffer, batch) == AcceptedOf(buffer, batch) + buffer
  {
    var added := AddNewShape(buffer, batch);
    assert AcceptedOf(buffer, batch) == added;
  }

  lemma FirstAbsorbs(n: nat, front: seq<Anomaly>, log: seq<Anomaly>)
    ensures First(n, front + First(n, log)) == First(n, front + log)
  {
  }

  lemma FirstDistinct(n: nat, s: seq<Anomaly>)
    requires Distinct(Ids(s))
    ensures Distinct(Ids(First(n, s)))
  {
    var t := First(n, s);
    assert forall i :: 0 <= i < |t| ==> Ids(t)[i] == Ids(s)[i];
  }

  /** After any batches the buffer is the first hundred entries of the log, and no identifier
      occurs twice in it. */
  lemma {:induction false} BufferIsLogHead(batches: seq<seq<Anomaly>>)
    ensures Buffer(batches) == First(100, Log(batches))
    ensures Distinct(Ids(Buffer(batches)))
  {
    if batches != [] {
      var front, batch := batches[..|batches| - 1], batches[|batches| - 1];
      BufferIsLogHead(front);
      AcceptedInFront(Buffer(front), batch);
      FirstAbsorbs(CAPACITY, AcceptedOf(Buffer(front), batch), Log(front));
      AddNewIds(Buffer(front), batch);
      FirstDistinct(CAPACITY, AddNew(Buffer(front), batch));
    }
  }

  lemma {:induction false} NothingNew(buffer: seq<Anomaly>, batch: seq<Anomaly>)
    requires forall id :: id in Ids(batch) ==> id in Ids(buffer)
    ensures AddNew(buffer, batch) == buffer
  {
    if batch != [] {
      var front, a := batch[..|batch| - 1], batch[|batch| - 1];
      assert Ids(batch) == Ids(front) + [a.id];
      NothingNew(buffer, front);
    }
  }

  lemma {:induction false} DistinctSize(s: seq<string>, ids: set<string>)
    requires Distinct(s) && forall x :: x in s ==> x in ids
    ensures |s| <= |ids|
  {
    if s != [] {
      var x := s[|s| - 1];
      DistinctSize(s[..|s| - 1], ids - {x});
    }
  }

  lemma FirstIsNew(added: seq<Anomaly>, buffer: seq<Anomaly>)
    requires added != [] && Distinct(Ids(added + buffer))
    ensures buffer != [] ==> buffer[0] != added[0]
  {
    if buffer != [] {
      var ids := Ids(added + buffer);
      assert ids[0] == added[0].id && ids[|added|] == (added + buffer)[|added|].id == buffer[0].id;
    }
  }

  /** Recording is a no-op exactly when every identifier of the batch is already shown. */
  lemma RecordNoOp(buffer: seq<Anomaly>, batch: seq<Anomaly>)
    requires Distinct(Ids(buffer)) && |buffer| <= CAPACITY
    ensures Record(buffer, batch) == buffer <==> forall id :: id in Ids(batch) ==> id in Ids(buffer)
  {
    if forall id :: id in Ids(batch) ==> id in Ids(buffer) {
      NothingNew(buffer, batch);
    } else {
      var id :| id in Ids(batch) && id !in Ids(buffer);
      AddNewIds(buffer, batch);
      AcceptedInFront(buffer, batch);
      var all, added := AddNew(buffer, batch), AcceptedOf(buffer, batch);
      assert id in Ids(all);
      assert added != [];
      FirstIsNew(added, buffer);
      assert Record(buffer, batch)[0] == added[0];
    }
  }

  lemma RecordedDistinct(buffer: seq<Anomaly>, batch: seq<Anomaly>)
    requires Distinct(Ids(buffer))
    ensures Distinct(Ids(Record(buffer, batch))) && |Record(buffer, batch)| <= CAPACITY
  {
    AddNewIds(buffer, batch);
    FirstDistinct(CAPACITY, AddNew(buffer, batch));
  }

  /** The buffer shows a breach of the same host and signal in the same window. */
  ghost predicate Shown(buffer: seq<Anomaly>, b: Anomaly) {
    exists a :: a in buffer && a.device == b.device && a.signal == b.signal && SameWindow(a.detectedAt, b.detectedAt)
  }

  lemma ShownIff(buffer: seq<Anomaly>, b: Anomaly, hash: Hash)
    requires Injective(hash) && Stamped(buffer, hash) && Stamped([b], hash)
    ensures b.id in Ids(buffer) <==> Shown(buffer, b)
  {
    assert b in [b];
    if b.id in Ids(buffer) {
      var i :| 0 <= i < |buffer| && Ids(buffer)[i] == b.id;
      assert buffer[i] in buffer;
      SameIdIff(buffer[i], b, hash);
    }
    if Shown(buffer, b) {
      var a :| a in buffer && a.device == b.device && a.signal == b.signal && SameWindow(a.detectedAt, b.detectedAt);
      SameIdIff(a, b, hash);
      var i :| 0 <= i < |buffer| && buffer[i] == a;
      assert Ids(buffer)[i] == b.id;
    }
  }

  /** Deduplication, in the terms of the devices: when digests do not collide, recording a detection leaves
      the buffer alone exactly when each of its breaches is shown already for the same host, signal and
      window. */
  lemma RecordNothingIff(buffer: seq<Anomaly>, devices: seq<Device>, now: Instant, hash: Hash)
    requires Injective(hash) && Stamped(buffer, hash) && Distinct(Ids(buffer)) && |buffer| <= CAPACITY
    ensures var batch := Detected(devices, |devices|, now, hash);
            Record(buffer, batch) == buffer <==> forall b :: b in batch ==> Shown(buffer, b)
  {
    var batch := Detected(devices, |devices|, now, hash);
    DetectedStamped(devices, now, hash);
    RecordNoOp(buffer, batch);
    forall b | b in batch ensures b.id in Ids(buffer) <==> Shown(buffer, b) {
      ShownIff(buffer, b, hash);
    }
    if forall b :: b in batch ==> Shown(buffer, b) {
      forall id | id in Ids(batch) ensures id in Ids(buffer) {
        var i :| 0 <= i < |batch| && Ids(batch)[i] == id;
        assert batch[i] in batch;
      }
    } else {
      var b :| b in batch && !Shown(buffer, b);
      var i :| 0 <= i < |batch| && batch[i] == b;
      assert Ids(batch)[i] == b.id;
    }
  }

  /** A breach 20 seconds or more after everything the buffer shows is always recorded. */
  lemma LaterBreachRecorded(buffer: seq<Anomaly>, devices: seq<Device>, now: Instant, hash: Hash)
    requires Injective(hash) && Stamped(buffer, hash) && Distinct(Ids(buffer)) && |buffer| <= CAPACITY
    requires forall a :: a in buffer ==> UNIX_EPOCH * 1_000_000_000 <= a.detectedAt && a.detectedAt + 20_000_000_000 <= now
    requires Detected(devices, |devices|, now, hash) != []
    ensures Record(buffer, Detected(devices, |devices|, now, hash)) != buffer
  {
    var batch := Detected(devices, |devices|, now, hash);
    RecordNothingIff(buffer, devices, now, hash);
    DetectedStamped(devices, now, hash);
    assert batch[0] in batch;
    forall a | a in buffer ensures !SameWindow(a.detectedAt, now) {
      TwentySecondsApart(a.detectedAt, now);
    }
  }

  lemma RecordedStamped(buffer: seq<Anomaly>, batch: seq<Anomaly>, hash: Hash)
    requires Stamped(buffer, hash) && Stamped(batch, hash)
    ensures Stamped(Record(buffer, batch), hash)
  {
    AddedStamped(buffer, batch, hash);
    assert forall a :: a in Record(buffer, batch) ==> a in AddNew(buffer, batch);
  }

  lemma {:induction false} AddedStamped(buffer: seq<Anomaly>, batch: seq<Anomaly>, hash: Hash)
    requires Stamped(buffer, hash) && Stamped(batch, hash)
    ensures Stamped(AddNew(buffer, batch), hash)
  {
    if batch != [] {
      assert batch[|batch| - 1] in batch;
      AddedStamped(buffer, batch[..|batch| - 1], hash);
    }
  }

  /** Every buffer of detected batches is stamped. */
  lemma {:induction false} BufferStamped(batches: seq<seq<Anomaly>>, hash: Hash)
    requires forall batch :: batch in batches ==> Stamped(batch, hash)
    ensures Stamped(Buffer(batches), hash)
  {
    if batches != [] {
      var front, batch := batches[..|batches| - 1], batches[|batches| - 1];
      assert batch in batches && forall b :: b in front ==> b in batches;
      BufferStamped(front, hash);
      RecordedStamped(Buffer(front), batch, hash);
    }
  }

  /** Recording the detections of the same devices again within one window changes nothing exactly when
      every identifier of the first detection has survived the cut to a hundred. */
  lemma DetectTwiceIff(buffer: seq<Anomaly>, devices: seq<Device>, t: Instant, u: Instant, hash: Hash)
    requires Distinct(Ids(buffer)) && SameWindow(t, u)
    ensures var batch := Detected(devices, |devices|, t, hash);
            var once := Record(buffer, batch);
            Record(once, Detected(devices, |devices|, u, hash)) == once <==> forall id :: id in Ids(batch) ==> id in Ids(once)
  {
    var batch := Detected(devices, |devices|, t, hash);
    SameWindowSameIds(devices, |devices|, t, u, hash);
    RecordedDistinct(buffer, batch);
    RecordNoOp(Record(buffer, batch), Detected(devices, |devices|, u, hash));
  }

  /** In particular when buffer and batch together hold at most a hundred identifiers. */
  lemma DetectTwice(buffer: seq<Anomaly>, devices: seq<Device>, t: Instant, u: Instant, hash: Hash, ids: set<string>)
    requires Distinct(Ids(buffer)) && SameWindow(t, u) && |ids| <= CAPACITY
    requires forall id :: id in Ids(buffer) || id in Ids(Detected(devices, |devices|, t, hash)) ==> id in ids
    ensures var once := Record(buffer, Detected(devices, |devices|, t, hash));
            Record(once, Detected(devices, |devices|, u, hash)) == once
  {
    var batch := Detected(devices, |devices|, t, hash);
    AddNewIds(buffer, batch);
    DistinctSize(Ids(AddNew(buffer, batch)), ids);
    assert Record(buffer, batch) == AddNew(buffer, batch);
    DetectTwiceIff(buffer, devices, t, u, hash);
  }
}
