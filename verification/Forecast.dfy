/** Short-horizon linear extrapolation (internal/forecast/forecast.go). */
module Forecast {
  import opened Sequences
  import opened Telemetry
  import TelemetryCache

  datatype Risk = LowRisk | MediumRisk | HighRisk | CriticalRisk

  datatype Trend = AwaitingTelemetry | Healthy | WatchConditions | Escalating

  datatype Point = Point(minutes: int, cpu: real, latency: real, loss: real)

  datatype Result = Result(device: string, horizon: int, trend: Trend, confidence: real, risk: Risk, points: seq<Point>)

  const HORIZON_MINUTES: int := 30
  const RECENT: nat := 18
  const STEPS: nat := 6

  function Clamp(v: real, lo: real, hi: real): real {
    if v < lo then lo else if v > hi then hi else v
  }

  function Larger(a: real, b: real): real {
    if a > b then a else b
  }

  function Lesser(a: real, b: real): real {
    if a < b then a else b
  }

  /** Extrapolates from the first to the last value, `steps` intervals ahead. */
  function Project(values: seq<real>, steps: nat): real {
    if |values| == 0 then 0.0
    else if |values| < 2 then values[|values| - 1]
    else
      var last := values[|values| - 1];
      last + (last - values[0]) / (|values| - 1) as real * steps as real
  }

  function Cpu(d: Device): real { d.cpu }
  function Latency(d: Device): real { d.latency }
  function Loss(d: Device): real { d.loss }

  function PointAt(recent: seq<Device>, i: nat): Point {
    Point(i * 5, Clamp(Project(Map(Cpu, recent), i), 0.0, 100.0),
          Larger(0.0, Project(Map(Latency, recent), i)), Larger(0.0, Project(Map(Loss, recent), i)))
  }

  function RiskScore(p: Point): real {
    p.cpu * 0.4 + p.latency * 0.25 + p.loss * 8.0
  }

  function RiskFromScore(score: real): Risk {
    if score > 90.0 then CriticalRisk
    else if score > 72.0 then HighRisk
    else if score > 54.0 then MediumRisk
    else LowRisk
  }

  function Rank(r: Risk): nat {
    match r
    case LowRisk => 0
    case MediumRisk => 1
    case HighRisk => 2
    case CriticalRisk => 3
  }

  function TrendFromRisk(r: Risk): Trend {
    match r
    case LowRisk => Trend.Healthy
    case MediumRisk => WatchConditions
    case _ => Escalating
  }

  /** Rounds half away from zero; confidences are positive. */
  function Round1(v: real): real
    requires v >= 0.0
  {
    (v * 10.0 + 0.5).Floor as real / 10.0
  }

  function Points(recent: seq<Device>, n: nat): (r: seq<Point>)
    ensures |r| == n
    ensures forall i :: 0 <= i < n ==> r[i] == PointAt(recent, i + 1)
  {
    seq(n, i requires 0 <= i < n => PointAt(recent, i + 1))
  }

  function Confidence(n: nat): real {
    Lesser(95.0, 60.0 + n as real * 1.5)
  }

  function Pending(): Result {
    Result("pending", HORIZON_MINUTES, AwaitingTelemetry, 0.0, LowRisk, seq(STEPS, i => Point((i + 1) * 5, 0.0, 0.0, 0.0)))
  }

  function Forecasted(device: string, history: seq<Device>): Result {
    if device == "" || history == [] then Pending()
    else
      var recent := LastN(RECENT, history);
      var points := Points(recent, STEPS);
      var risk := RiskFromScore(RiskScore(points[STEPS - 1]));
      Result(device, HORIZON_MINUTES, TrendFromRisk(risk), Round1(Confidence(|recent|)), risk, points)
  }

  method ExtractSeries(recent: seq<Device>, f: Device -> real) returns (out: seq<real>)
    ensures out == Map(f, recent)
  {
    out := [];
    for i := 0 to |recent|
      invariant out == Map(f, recent[..i])
    {
      assert recent[..i + 1] == recent[..i] + [recent[i]];
      MapAppend(f, recent[..i], recent[i]);
      out := out + [f(recent[i])];
    }
    assert recent[..|recent|] == recent;
  }

  method BuildPoints(ghost recent: seq<Device>, cpu: seq<real>, latency: seq<real>, loss: seq<real>) returns (points: seq<Point>)
    requires cpu == Map(Cpu, recent) && latency == Map(Latency, recent) && loss == Map(Loss, recent)
    ensures points == Points(recent, STEPS)
  {
    points := [];
    for i := 1 to STEPS + 1
      invariant points == Points(recent, i - 1)
    {
      points := points + [Point(i * 5, Clamp(Project(cpu, i), 0.0, 100.0),
                                Larger(0.0, Project(latency, i)), Larger(0.0, Project(loss, i)))];
    }
  }

  method Build(device: string, history: seq<Device>) returns (r: Result)
    ensures r == Forecasted(device, history)
  {
    if device == "" || |history| == 0 {
      return Pending();
    }
    var recent := history;
    if |recent| > RECENT {
      recent := recent[|recent| - RECENT..];
    }
    var cpu := ExtractSeries(recent, Cpu);
    var latency := ExtractSeries(recent, Latency);
    var loss := ExtractSeries(recent, Loss);
    var points := BuildPoints(recent, cpu, latency, loss);
    var terminal := points[|points| - 1];
    var risk := RiskFromScore(RiskScore(terminal));
    r := Result(device, HORIZON_MINUTES, TrendFromRisk(risk), Round1(Confidence(|recent|)), risk, points);
  }

  /** Without a device or a sample the forecast is a flat zero and says that it waits. */
  lemma PendingForecast(device: string, history: seq<Device>)
    requires device == "" || history == []
    ensures var r := Forecasted(device, history);
            && r.device == "pending" && r.trend == AwaitingTelemetry && r.risk == LowRisk && r.confidence == 0.0 && r.horizon == 30
            && |r.points| == 6 && forall k :: 0 <= k < 6 ==> r.points[k] == Point(5 + 5 * k, 0.0, 0.0, 0.0)
  {
  }

  /** The bounded cache loses nothing the forecast looks at. */
  lemma ForecastFromCache(device: string, log: seq<Device>)
    ensures Forecasted(device, LastN(TelemetryCache.WINDOW, log)) == Forecasted(device, log)
  {
    LastNOfLastN(RECENT, TelemetryCache.WINDOW, log);
  }

  /** The slope per step is the average change; projections move with its sign. */
  lemma ProjectMonotone(values: seq<real>, i: nat, j: nat)
    requires values != [] && i <= j
    ensures values[0] <= values[|values| - 1] ==> Project(values, i) <= Project(values, j)
    ensures values[0] >= values[|values| - 1] ==> Project(values, i) >= Project(values, j)
  {
    if |values| >= 2 {
      var slope := (values[|values| - 1] - values[0]) / (|values| - 1) as real;
      Scale(slope, i as real, j as real);
    }
  }

  /** The values lie on a straight line. */
  ghost predicate Linear(values: seq<real>, start: real, slope: real) {
    forall i: nat :: i < |values| ==> values[i] == start + slope * i as real
  }

  lemma Average(start: real, slope: real, n: real)
    requires n > 0.0
    ensures (start + slope * n - start) / n == slope
  {
    assert slope * n / n == slope;
  }

  /** A linear series is continued exactly. */
  lemma LinearIsContinued(values: seq<real>, start: real, slope: real, steps: nat)
    requires Linear(values, start, slope) && |values| >= 2
    ensures Project(values, steps) == start + slope * (|values| - 1 + steps) as real
  {
    var n := (|values| - 1) as real;
    assert values[0] == start + slope * 0 as real && values[|values| - 1] == start + slope * n;
    Average(start, slope, n);
    assert (|values| - 1 + steps) as real == n + steps as real;
    Distribute(slope, n, steps as real);
  }

  lemma Distribute(slope: real, x: real, y: real)
    ensures slope * (x + y) == slope * x + slope * y
  {
  }

  datatype Line = Line(start: real, slope: real)
  {
    function At(i: nat): real {
      start + slope * i as real
    }
  }

  /** Where the recent samples of a signal lie on a line, its points continue the line, as far as the
      signal's range goes. */
  lemma CpuContinues(recent: seq<Device>, line: Line, k: nat, next: real)
    requires |recent| >= 2 && (forall i: nat :: i < |recent| ==> recent[i].cpu == line.At(i)) && next == line.At(|recent| - 1 + k)
    ensures PointAt(recent, k).cpu == if next < 0.0 then 0.0 else if next <= 100.0 then next else 100.0
  {
    LinearIsContinued(Map(Cpu, recent), line.start, line.slope, k);
  }

  lemma LatencyContinues(recent: seq<Device>, line: Line, k: nat, next: real)
    requires |recent| >= 2 && (forall i: nat :: i < |recent| ==> recent[i].latency == line.At(i)) && next == line.At(|recent| - 1 + k)
    ensures PointAt(recent, k).latency == if next < 0.0 then 0.0 else next
  {
    LinearIsContinued(Map(Latency, recent), line.start, line.slope, k);
  }

  lemma LossContinues(recent: seq<Device>, line: Line, k: nat, next: real)
    requires |recent| >= 2 && (forall i: nat :: i < |recent| ==> recent[i].loss == line.At(i)) && next == line.At(|recent| - 1 + k)
    ensures PointAt(recent, k).loss == if next < 0.0 then 0.0 else next
  {
    LinearIsContinued(Map(Loss, recent), line.start, line.slope, k);
  }

  /** Point `k` of a forecast is the one k + 1 steps ahead of the recent samples. */
  lemma PointIs(device: string, history: seq<Device>, k: nat)
    requires device != "" && history != [] && k < STEPS
    ensures Forecasted(device, history).points[k] == PointAt(LastN(RECENT, history), k + 1)
    ensures Forecasted(device, history).points[k].minutes == 5 * (k + 1)
  {
  }

  /** The risk levels in the units of the last point, and the trend that goes with each. */
  lemma RiskLevels(device: string, history: seq<Device>)
    requires device != "" && history != []
    ensures var r := Forecasted(device, history);
            var last := r.points[5];
            var weighed := 8.0 * last.cpu + 5.0 * last.latency + 160.0 * last.loss;
            && r.device == device && |r.points| == 6 && r.horizon == last.minutes == 30
            && (r.risk == CriticalRisk <==> weighed > 1800.0)
            && (r.risk == HighRisk <==> 1440.0 < weighed <= 1800.0)
            && (r.risk == MediumRisk <==> 1080.0 < weighed <= 1440.0)
            && (r.trend == Escalating <==> weighed > 1440.0) && (r.trend == Trend.Healthy <==> weighed <= 1080.0)
            && r.trend != AwaitingTelemetry
  {
  }

  lemma Scale(slope: real, x: real, y: real)
    requires x <= y
    ensures slope >= 0.0 ==> slope * x <= slope * y
    ensures slope <= 0.0 ==> slope * x >= slope * y
  {
    assert slope * y - slope * x == slope * (y - x);
  }

  /** Along the forecast each signal rises throughout or falls throughout, in the direction of
      the recent samples, and stays in its range. */
  lemma PointsFollowTrend(device: string, history: seq<Device>, i: nat, j: nat)
    requires device != "" && history != [] && i <= j < STEPS
    ensures var p, recent := Forecasted(device, history).points, LastN(RECENT, history);
            var first, last := recent[0], recent[|recent| - 1];
            && (first.cpu <= last.cpu ==> p[i].cpu <= p[j].cpu) && (first.cpu >= last.cpu ==> p[i].cpu >= p[j].cpu)
            && (first.latency <= last.latency ==> p[i].latency <= p[j].latency)
            && (first.latency >= last.latency ==> p[i].latency >= p[j].latency)
            && (first.loss <= last.loss ==> p[i].loss <= p[j].loss) && (first.loss >= last.loss ==> p[i].loss >= p[j].loss)
            && 0.0 <= p[i].cpu <= 100.0 && 0.0 <= p[i].latency && 0.0 <= p[i].loss
  {
    var recent := LastN(RECENT, history);
    ProjectMonotone(Map(Cpu, recent), i + 1, j + 1);
    ProjectMonotone(Map(Latency, recent), i + 1, j + 1);
    ProjectMonotone(Map(Loss, recent), i + 1, j + 1);
  }

  /** Raising the last value never lowers a projection. */
  lemma ProjectRaised(a: seq<real>, b: seq<real>, steps: nat)
    requires |a| == |b| > 0 && a[..|a| - 1] == b[..|b| - 1] && a[|a| - 1] <= b[|b| - 1]
    ensures Project(a, steps) <= Project(b, steps)
  {
    if |a| >= 2 {
      assert a[0] == a[..|a| - 1][0] == b[..|b| - 1][0] == b[0];
      var n := (|a| - 1) as real;
      var x, y := a[|a| - 1] - a[0], b[|b| - 1] - b[0];
      Divide(x, y, n);
      Scale(steps as real, x / n, y / n);
    }
  }

  lemma Divide(x: real, y: real, n: real)
    requires x <= y && n > 0.0
    ensures x / n <= y / n
  {
  }

  /** Samples raised in their newest element only. */
  ghost predicate Raised(a: seq<Device>, b: seq<Device>) {
    && |a| == |b| > 0 && a[..|a| - 1] == b[..|b| - 1]
    && var x, y := a[|a| - 1], b[|b| - 1];
       x.cpu <= y.cpu && x.latency <= y.latency && x.loss <= y.loss
  }

  lemma RaisedSeries(a: seq<Device>, b: seq<Device>, f: Device -> real)
    requires |a| == |b| > 0 && a[..|a| - 1] == b[..|b| - 1] && f(a[|a| - 1]) <= f(b[|b| - 1])
    ensures Map(f, a)[..|a| - 1] == Map(f, b)[..|b| - 1] && Map(f, a)[|a| - 1] <= Map(f, b)[|b| - 1]
  {
    forall i | 0 <= i < |a| - 1 ensures Map(f, a)[i] == Map(f, b)[i] {
      assert a[i] == a[..|a| - 1][i] == b[..|b| - 1][i] == b[i];
    }
  }

  lemma RaisedRecent(a: seq<Device>, b: seq<Device>)
    requires Raised(a, b)
    ensures Raised(LastN(RECENT, a), LastN(RECENT, b))
  {
    var x, y := LastN(RECENT, a), LastN(RECENT, b);
    assert |a| > RECENT ==> x[..|x| - 1] == a[..|a| - 1][|a| - RECENT..] && y[..|y| - 1] == b[..|b| - 1][|b| - RECENT..];
  }

  lemma RaisedProjection(x: seq<Device>, y: seq<Device>, f: Device -> real, steps: nat)
    requires |x| == |y| > 0 && x[..|x| - 1] == y[..|y| - 1] && f(x[|x| - 1]) <= f(y[|y| - 1])
    ensures Project(Map(f, x), steps) <= Project(Map(f, y), steps)
  {
    RaisedSeries(x, y, f);
    ProjectRaised(Map(f, x), Map(f, y), steps);
  }

  /** `p` is nowhere above `q`. */
  predicate NotAbove(p: Point, q: Point) {
    p.cpu <= q.cpu && p.latency <= q.latency && p.loss <= q.loss
  }

  lemma PointRaised(x: seq<Device>, y: seq<Device>, i: nat)
    requires Project(Map(Cpu, x), i) <= Project(Map(Cpu, y), i)
    requires Project(Map(Latency, x), i) <= Project(Map(Latency, y), i)
    requires Project(Map(Loss, x), i) <= Project(Map(Loss, y), i)
    ensures NotAbove(PointAt(x, i), PointAt(y, i))
  {
  }

  lemma RaisedPoints(x: seq<Device>, y: seq<Device>, i: nat)
    requires Raised(x, y)
    ensures NotAbove(PointAt(x, i), PointAt(y, i))
  {
    RaisedProjection(x, y, Cpu, i);
    RaisedProjection(x, y, Latency, i);
    RaisedProjection(x, y, Loss, i);
    PointRaised(x, y, i);
  }

  lemma ScoreMonotone(p: Point, q: Point)
    requires NotAbove(p, q)
    ensures RiskScore(p) <= RiskScore(q)
  {
  }

  lemma RankMonotone(s: real, t: real)
    requires s <= t
    ensures Rank(RiskFromScore(s)) <= Rank(RiskFromScore(t))
  {
  }

  lemma PointRisk(p: Point, q: Point)
    requires NotAbove(p, q)
    ensures Rank(RiskFromScore(RiskScore(p))) <= Rank(RiskFromScore(RiskScore(q)))
  {
    ScoreMonotone(p, q);
    RankMonotone(RiskScore(p), RiskScore(q));
  }

  lemma RiskOf(device: string, history: seq<Device>, p: Point)
    requires device != "" && history != [] && p == PointAt(LastN(RECENT, history), STEPS)
    ensures Forecasted(device, history).risk == RiskFromScore(RiskScore(p))
  {
  }

  lemma RiskBetween(device: string, a: seq<Device>, b: seq<Device>, p: Point, q: Point)
    requires device != "" && a != [] && b != [] && NotAbove(p, q)
    requires p == PointAt(LastN(RECENT, a), STEPS) && q == PointAt(LastN(RECENT, b), STEPS)
    ensures Rank(Forecasted(device, a).risk) <= Rank(Forecasted(device, b).risk)
  {
    RiskOf(device, a, p);
    RiskOf(device, b, q);
    PointRisk(p, q);
  }

  /** Raising the newest sample's CPU, latency or loss never lowers the forecast risk. */
  lemma RiskMonotone(device: string, a: seq<Device>, b: seq<Device>)
    requires device != "" && Raised(a, b)
    ensures Rank(Forecasted(device, a).risk) <= Rank(Forecasted(device, b).risk)
  {
    RaisedRecent(a, b);
    RaisedPoints(LastN(RECENT, a), LastN(RECENT, b), STEPS);
    RiskBetween(device, a, b, PointAt(LastN(RECENT, a), STEPS), PointAt(LastN(RECENT, b), STEPS));
  }

  /** A non-empty forecast's confidence is 60 plus 1.5 per recent sample, so rounding and the
      cap of 95 never matter and it lies between 61.5 and 87. */
  lemma ConfidenceRange(device: string, history: seq<Device>)
    requires device != "" && history != []
    ensures Forecasted(device, history).confidence == 60.0 + 1.5 * |LastN(RECENT, history)| as real
    ensures 61.5 <= Forecasted(device, history).confidence <= 87.0
  {
    var n := |LastN(RECENT, history)|;
    var v := Confidence(n);
    assert v == 60.0 + 1.5 * n as real;
    assert v * 10.0 == (600 + 15 * n) as real;
    assert (v * 10.0 + 0.5).Floor == 600 + 15 * n;
  }
}
