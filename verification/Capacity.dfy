/**
 The capacity planner of matchmaker/capacity.go: a utilisation and a status for each node, counts over the
 fleet, and the scaling actions recommended from them.
 */
module Capacity {
  import opened Wrappers

  datatype Bandwidth = Bandwidth(bytesSent: int, bytesReceived: int, durationSeconds: int)

  datatype Snapshot = Snapshot(timestamp: int, totalGB: real)

  /** What the store holds for a node; its bandwidth is None when reading it fails. */
  datatype Node = Node(id: string, bandwidth: Option<Bandwidth>, load: int, snapshots: seq<Snapshot>)

  datatype Status = Healthy | Warning | Critical

  /** daysUntilFull is what the predicted date is computed from. */
  datatype NodeCapacity = NodeCapacity(id: string, gbDay: real, gbWeek: real, growthRate: real, load: int,
                                       utilization: real, daysUntilFull: Option<real>, status: Status)

  const GB: real := 1073741824.0

  const MAX_LOAD_GB: real := 100.0

  function TotalGB(b: Bandwidth): real {
    b.bytesSent as real / GB + b.bytesReceived as real / GB
  }

  /** Traffic of less than a day is scaled up to one. */
  function DailyRate(b: Bandwidth): real {
    var hours := b.durationSeconds as real / 3600.0;
    if b.durationSeconds > 0 && 0.0 < hours < 24.0 then TotalGB(b) / hours * 24.0 else TotalGB(b)
  }

  function GrowthRate(snapshots: seq<Snapshot>): real {
    if |snapshots| < 2 then 0.0 else
      var first, last := snapshots[0], snapshots[|snapshots| - 1];
      if first.totalGB == 0.0 || first.timestamp == last.timestamp then 0.0
      else (last.totalGB - first.totalGB) / first.totalGB * 100.0
  }

  function Utilization(b: Bandwidth): real {
    var u := DailyRate(b) / MAX_LOAD_GB * 100.0;
    if u > 100.0 then 100.0 else u
  }

  function StatusOf(utilization: real): Status {
    if utilization > 80.0 then Critical else if utilization > 50.0 then Warning else Healthy
  }

  method AnalyzeNode(node: Node) returns (c: Option<NodeCapacity>)
    ensures c == Analyzed(node)
  {
    if node.bandwidth.None? {
      return None;
    }
    var bandwidth := node.bandwidth.value;
    var totalGB := bandwidth.bytesSent as real / GB + bandwidth.bytesReceived as real / GB;
    var dailyRate := totalGB;
    if bandwidth.durationSeconds > 0 {
      var hoursRunning := bandwidth.durationSeconds as real / 3600.0;
      if hoursRunning > 0.0 && hoursRunning < 24.0 {
        dailyRate := totalGB / hoursRunning * 24.0;
      }
    }
    var utilization := dailyRate / MAX_LOAD_GB * 100.0;
    if utilization > 100.0 {
      utilization := 100.0;
    }
    var growthRate := GrowthRate(node.snapshots);
    var status := Healthy;
    var predictedFull: Option<real> := None;
    if utilization > 80.0 {
      status := Critical;
      if growthRate > 0.0 {
        predictedFull := DaysUntilFull(dailyRate, growthRate);
      }
    } else if utilization > 50.0 {
      status := Warning;
    }
    c := Some(NodeCapacity(node.id, dailyRate, dailyRate * 7.0, growthRate,
                           node.load, utilization, predictedFull, status));
  }

  function DaysUntilFull(dailyRate: real, growthRate: real): Option<real> {
    var perDay := dailyRate * growthRate / 100.0;
    if perDay == 0.0 then None else
      var days := (MAX_LOAD_GB - dailyRate) / perDay;
      if 0.0 < days < 365.0 then Some(days) else None
  }

  function Analyzed(node: Node): Option<NodeCapacity> {
    if node.bandwidth.None? then None else
      var b := node.bandwidth.value;
      var u, growth := Utilization(b), GrowthRate(node.snapshots);
      Some(NodeCapacity(node.id, DailyRate(b), DailyRate(b) * 7.0, growth, node.load, u,
                        if u > 80.0 && growth > 0.0 then DaysUntilFull(DailyRate(b), growth) else None, StatusOf(u)))
  }

  lemma Share(x: real, y: real)
    requires y > 0.0
    ensures x / y > 0.0 <==> x > 0.0
    ensures x / y < 365.0 <==> x < 365.0 * y
  {
    var q := x / y;
    assert q * y == x;
    assert q > 0.0 ==> q * y > 0.0;
    assert q <= 0.0 ==> q * y <= 0.0;
    assert q < 365.0 ==> (365.0 - q) * y > 0.0;
    assert q >= 365.0 ==> (q - 365.0) * y >= 0.0;
  }

  // ----- What the figures mean, in bytes and seconds

  /** More than this many GB a day, scaled up from the seconds covered if they are less than a day. */
  predicate Over(b: Bandwidth, gb: nat) {
    if 0 < b.durationSeconds < 86400
    then (b.bytesSent + b.bytesReceived) * 86400 > gb * 1073741824 * b.durationSeconds
    else b.bytesSent + b.bytesReceived > gb * 1073741824
  }

  lemma TotalInBytes(b: Bandwidth)
    ensures TotalGB(b) * GB == (b.bytesSent + b.bytesReceived) as real
  {
    var sent, received := b.bytesSent as real / GB, b.bytesReceived as real / GB;
    assert sent * GB == b.bytesSent as real && received * GB == b.bytesReceived as real;
  }

  lemma Extrapolated(total: real, seconds: int)
    requires 0 < seconds < 86400
    ensures 0.0 < seconds as real / 3600.0 < 24.0
    ensures total / (seconds as real / 3600.0) * 24.0 * seconds as real == total * 86400.0
  {
    var hours := seconds as real / 3600.0;
    var q := total / hours;
    assert q * hours == total;
    assert seconds as real == hours * 3600.0;
    assert q * 24.0 * (hours * 3600.0) == q * hours * 86400.0;
  }

  /** The daily rate, without division: bytes per day when less than a day is covered, else the bytes themselves. */
  lemma RateInBytes(b: Bandwidth)
    ensures 0 < b.durationSeconds < 86400 ==>
              DailyRate(b) * GB * b.durationSeconds as real
              == (b.bytesSent + b.bytesReceived) as real * 86400.0
    ensures !(0 < b.durationSeconds < 86400) ==> DailyRate(b) * GB == (b.bytesSent + b.bytesReceived) as real
  {
    TotalInBytes(b);
    if 0 < b.durationSeconds < 86400 {
      Extrapolated(TotalGB(b), b.durationSeconds);
      Exchanged(DailyRate(b), GB, b.durationSeconds as real);
      Exchanged(TotalGB(b), GB, 86400.0);
    }
  }

  lemma Exchanged(x: real, y: real, z: real)
    ensures x * y * z == x * z * y
  {
  }

  lemma Multiplied(x: real, y: real, d: real)
    requires d > 0.0
    ensures x > y <==> x * d > y * d
  {
    if x > y {
      assert (x - y) * d > 0.0;
    } else {
      assert (y - x) * d >= 0.0;
    }
  }

  lemma RateOver(b: Bandwidth, gb: nat)
    ensures DailyRate(b) > gb as real <==> Over(b, gb)
  {
    RateInBytes(b);
    var rate, seconds := DailyRate(b), b.durationSeconds;
    hide DailyRate;
    Multiplied(rate, gb as real, GB);
    if 0 < seconds < 86400 {
      Multiplied(rate * GB, gb as real * GB, seconds as real);
      WholeProduct(gb, seconds);
    }
  }

  lemma WholeProduct(gb: nat, seconds: int)
    ensures gb as real * GB * seconds as real == (gb * 1073741824 * seconds) as real
  {
    assert gb as real * GB == (gb * 1073741824) as real;
    ProductAsReal(gb * 1073741824, seconds);
  }

  lemma ProductAsReal(x: int, y: int)
    ensures x as real * y as real == (x * y) as real
  {
  }

  /** A node's status by its bytes: critical over 80 GB a day, a warning over 50. */
  lemma StatusExactlyWhen(node: Node)
    requires node.bandwidth.Some?
    ensures
      var b, c := node.bandwidth.value, Analyzed(node).value;
      && (c.status == Critical <==> Over(b, 80))
      && (c.status == Warning <==> Over(b, 50) && !Over(b, 80))
      && (c.utilization == 100.0 <==> Over(b, 100) || c.gbDay == 100.0)
  {
    var b := node.bandwidth.value;
    RateOver(b, 80);
    RateOver(b, 50);
    RateOver(b, 100);
    hide DailyRate, GrowthRate, Over, DaysUntilFull;
    assert DailyRate(b) / MAX_LOAD_GB * 100.0 == DailyRate(b);
  }

  /** Two snapshots of different times, the first of some traffic. */
  predicate Comparable(snapshots: seq<Snapshot>) {
    && |snapshots| >= 2 && snapshots[0].totalGB != 0.0
    && snapshots[0].timestamp != snapshots[|snapshots| - 1].timestamp
  }

  /** The growth is the last snapshot's excess over the first in percent of the first, if they can be compared. */
  lemma GrowthInPercent(snapshots: seq<Snapshot>)
    ensures Comparable(snapshots) ==>
              GrowthRate(snapshots) * snapshots[0].totalGB
              == (snapshots[|snapshots| - 1].totalGB - snapshots[0].totalGB) * 100.0
    ensures !Comparable(snapshots) ==> GrowthRate(snapshots) == 0.0
  {
    if Comparable(snapshots) {
      Percent(snapshots[|snapshots| - 1].totalGB - snapshots[0].totalGB, snapshots[0].totalGB);
    }
  }

  lemma Percent(x: real, y: real)
    requires y != 0.0
    ensures x / y * 100.0 * y == x * 100.0
  {
    var q := x / y;
    assert q * y == x;
  }

  /** A date is predicted exactly for a node that grows, is over the critical line and not full, and is less than a year
      from full: its daily rate is strictly between 80 and 100 GB. */
  lemma PredictedExactlyWhen(node: Node)
    requires node.bandwidth.Some?
    ensures
      var rate, growth := DailyRate(node.bandwidth.value), GrowthRate(node.snapshots);
      Analyzed(node).value.daysUntilFull.Some?
      <==> 80.0 < rate < MAX_LOAD_GB && growth > 0.0 && MAX_LOAD_GB - rate < 365.0 * (rate * growth / 100.0)
  {
    var rate, growth := DailyRate(node.bandwidth.value), GrowthRate(node.snapshots);
    hide DailyRate, GrowthRate;
    assert rate / MAX_LOAD_GB * 100.0 == rate;
    assert Utilization(node.bandwidth.value) > 80.0 <==> rate > 80.0;
    if rate > 80.0 && growth > 0.0 {
      WithinAYear(rate, growth);
    }
    hide DaysUntilFull;
  }

  /** A predicted date is the day on which the growth makes up what is missing to 100 GB a day. */
  lemma PredictedWhenFull(node: Node)
    requires Analyzed(node).Some? && Analyzed(node).value.daysUntilFull.Some?
    ensures
      var c := Analyzed(node).value;
      0.0 < c.daysUntilFull.value < 365.0
      && c.daysUntilFull.value * (c.gbDay * c.growthRate / 100.0) == 100.0 - c.gbDay
  {
    var b := node.bandwidth.value;
    var rate, growth := DailyRate(b), GrowthRate(node.snapshots);
    hide DailyRate, GrowthRate, Utilization, StatusOf;
    var days, perDay := DaysUntilFull(rate, growth).value, rate * growth / 100.0;
    assert days * perDay == MAX_LOAD_GB - rate;
  }

  lemma WithinAYear(rate: real, growth: real)
    requires rate > 0.0 && growth > 0.0
    ensures DaysUntilFull(rate, growth).Some?
            <==> rate < MAX_LOAD_GB && MAX_LOAD_GB - rate < 365.0 * (rate * growth / 100.0)
  {
    assert rate * growth > 0.0;
    var perDay := rate * growth / 100.0;
    Share(MAX_LOAD_GB - rate, perDay);
  }

  // ----- The report

  datatype Report = Report(nodes: seq<NodeCapacity>, total: nat, healthy: nat, warning: nat, critical: nat)

  /** The nodes that could be analysed, in order. */
  function AllAnalyzed(fleet: seq<Node>): seq<NodeCapacity> {
    if fleet == [] then [] else
      var last := Analyzed(fleet[|fleet| - 1]);
      var others := AllAnalyzed(fleet[..|fleet| - 1]);
      if last.Some? then others + [last.value] else others
  }

  function Count(nodes: seq<NodeCapacity>, status: Status): nat {
    if nodes == [] then 0
    else Count(nodes[..|nodes| - 1], status) + if nodes[|nodes| - 1].status == status then 1 else 0
  }

  method GenerateReport(fleet: seq<Node>) returns (r: Report)
    ensures r.nodes == AllAnalyzed(fleet) && r.total == |r.nodes|
    ensures r.healthy == Count(r.nodes, Healthy) && r.warning == Count(r.nodes, Warning)
            && r.critical == Count(r.nodes, Critical)
    ensures r.healthy + r.warning + r.critical == r.total
  {
    hide Analyzed, AllAnalyzed, Count;
    var nodes: seq<NodeCapacity> := [];
    var healthy, warning, critical := 0, 0, 0;
    NothingAnalyzed();
    for i := 0 to |fleet|
      invariant nodes == AllAnalyzed(fleet[..i])
      invariant healthy == Count(nodes, Healthy) && warning == Count(nodes, Warning)
                && critical == Count(nodes, Critical)
    {
      var capacity := AnalyzeNode(fleet[i]);
      OneMoreAnalyzed(fleet, i);
      if capacity.Some? {
        OneMoreCounted(nodes, capacity.value);
        nodes := nodes + [capacity.value];
        match capacity.value.status {
          case Healthy => healthy := healthy + 1;
          case Warning => warning := warning + 1;
          case Critical => critical := critical + 1;
        }
      }
    }
    assert fleet[..|fleet|] == fleet;
    CountsAddUp(nodes);
    r := Report(nodes, |nodes|, healthy, warning, critical);
  }

  lemma NothingAnalyzed()
    ensures AllAnalyzed([]) == [] && forall status :: Count([], status) == 0
  {
  }

  lemma OneMoreAnalyzed(fleet: seq<Node>, i: nat)
    requires i < |fleet|
    ensures fleet[..0] == []
    ensures AllAnalyzed(fleet[..i + 1])
            == if Analyzed(fleet[i]).Some? then AllAnalyzed(fleet[..i]) + [Analyzed(fleet[i]).value]
               else AllAnalyzed(fleet[..i])
  {
    assert fleet[..i + 1][..i] == fleet[..i];
  }

  lemma OneMoreCounted(nodes: seq<NodeCapacity>, c: NodeCapacity)
    ensures forall status :: Count(nodes + [c], status) == Count(nodes, status) + if c.status == status then 1 else 0
  {
    assert (nodes + [c])[..|nodes|] == nodes;
  }

  lemma {:induction false} CountsAddUp(nodes: seq<NodeCapacity>)
    ensures Count(nodes, Healthy) + Count(nodes, Warning) + Count(nodes, Critical) == |nodes|
  {
    if nodes != [] {
      CountsAddUp(nodes[..|nodes| - 1]);
    }
  }

  // ----- Scaling recommendations

  datatype Action = ScaleUp | ScaleDown | PrepareScale | NoAction

  datatype Urgency = High | Medium | Low | NoUrgency

  /** What the reason's text is formatted from. */
  datatype Reason =
    | AtCritical(nodes: nat)
    | AtWarning(nodes: nat, total: nat)
    | Underused(avg: real)
    | Approaching(avg: real)
    | FleetHealthy

  datatype Recommendation =
    Recommendation(action: Action, reason: Reason, nodesNeeded: nat, urgency: Urgency, confidence: real)

  const NOTHING_TO_DO: Recommendation := Recommendation(NoAction, FleetHealthy, 0, NoUrgency, 1.0)

  function TotalUtilization(nodes: seq<NodeCapacity>): real {
    if nodes == [] then 0.0 else TotalUtilization(nodes[..|nodes| - 1]) + nodes[|nodes| - 1].utilization
  }

  function TotalLoad(nodes: seq<NodeCapacity>): int {
    if nodes == [] then 0 else TotalLoad(nodes[..|nodes| - 1]) + nodes[|nodes| - 1].load
  }

  function AvgUtilization(nodes: seq<NodeCapacity>): real {
    if nodes == [] then 0.0 else TotalUtilization(nodes) / (|nodes| as real)
  }

  method GetScalingRecommendations(fleet: seq<Node>) returns (recs: seq<Recommendation>, totalLoad: int, avg: real)
    ensures
      var nodes := AllAnalyzed(fleet);
      && totalLoad == TotalLoad(nodes) && avg == AvgUtilization(nodes)
      && recs == if Warranted(nodes) == [] then [NOTHING_TO_DO] else Warranted(nodes)
  {
    var report := GenerateReport(fleet);
    var nodes := report.nodes;
    var totalUtil := 0.0;
    totalLoad := 0;
    for i := 0 to |nodes|
      invariant totalLoad == TotalLoad(nodes[..i]) && totalUtil == TotalUtilization(nodes[..i])
    {
      assert nodes[..i + 1][..i] == nodes[..i];
      totalLoad := totalLoad + nodes[i].load;
      totalUtil := totalUtil + nodes[i].utilization;
    }
    assert nodes[..|nodes|] == nodes;
    avg := 0.0;
    if |nodes| > 0 {
      avg := totalUtil / (|nodes| as real);
    }
    recs := [];
    if report.critical > 0 {
      recs := recs + [Recommendation(ScaleUp, AtCritical(report.critical), report.critical, High, 0.95)];
    }
    if report.warning > report.healthy && |nodes| > 0 {
      recs := recs + [Recommendation(ScaleUp, AtWarning(report.warning, |nodes|), report.warning / 2, Medium, 0.75)];
    }
    if avg < 20.0 && |nodes| > 3 {
      recs := recs + [Recommendation(ScaleDown, Underused(avg), 0, Low, 0.6)];
    }
    if avg > 60.0 && report.critical == 0 {
      recs := recs + [Recommendation(PrepareScale, Approaching(avg), 1, Low, 0.5)];
    }
    if |recs| == 0 {
      recs := recs + [NOTHING_TO_DO];
    }
  }

  ghost predicate CriticalUp(nodes: seq<NodeCapacity>) {
    Count(nodes, Critical) > 0
  }

  ghost predicate WarningUp(nodes: seq<NodeCapacity>) {
    Count(nodes, Warning) > Count(nodes, Healthy)
  }

  ghost predicate Down(nodes: seq<NodeCapacity>) {
    AvgUtilization(nodes) < 20.0 && |nodes| > 3
  }

  ghost predicate Prepare(nodes: seq<NodeCapacity>) {
    AvgUtilization(nodes) > 60.0 && Count(nodes, Critical) == 0
  }

  ghost function When(warranted: bool, r: Recommendation): seq<Recommendation> {
    if warranted then [r] else []
  }

  /** The recommendations a fleet calls for, each at most once and in this order. */
  ghost function Warranted(nodes: seq<NodeCapacity>): seq<Recommendation> {
    var critical, warning, avg := Count(nodes, Critical), Count(nodes, Warning), AvgUtilization(nodes);
    When(CriticalUp(nodes), Recommendation(ScaleUp, AtCritical(critical), critical, High, 0.95))
    + When(WarningUp(nodes), Recommendation(ScaleUp, AtWarning(warning, |nodes|), warning / 2, Medium, 0.75))
    + When(Down(nodes), Recommendation(ScaleDown, Underused(avg), 0, Low, 0.6))
    + When(Prepare(nodes), Recommendation(PrepareScale, Approaching(avg), 1, Low, 0.5))
  }

  // ----- What the recommendations of one fleet cannot say together

  ghost predicate NonNegative(fleet: seq<Node>) {
    forall i | 0 <= i < |fleet| ::
      fleet[i].bandwidth.Some? ==>
        fleet[i].bandwidth.value.bytesSent >= 0 && fleet[i].bandwidth.value.bytesReceived >= 0
  }

  ghost predicate Classified(n: NodeCapacity) {
    n.utilization >= 0.0 && n.status == StatusOf(n.utilization)
  }

  lemma UtilizationNonNegative(b: Bandwidth)
    requires b.bytesSent >= 0 && b.bytesReceived >= 0
    ensures Utilization(b) >= 0.0
  {
    var hours := b.durationSeconds as real / 3600.0;
    if b.durationSeconds > 0 && 0.0 < hours < 24.0 {
      assert TotalGB(b) / hours >= 0.0;
    }
  }

  lemma {:induction false} AllClassified(fleet: seq<Node>)
    requires NonNegative(fleet)
    ensures forall i | 0 <= i < |AllAnalyzed(fleet)| :: Classified(AllAnalyzed(fleet)[i])
  {
    if fleet != [] {
      AllClassified(fleet[..|fleet| - 1]);
      var last := fleet[|fleet| - 1];
      if last.bandwidth.Some? {
        UtilizationNonNegative(last.bandwidth.value);
      }
    }
  }

  /** The statuses bound the total from below. */
  lemma {:induction false} StatusesWeigh(nodes: seq<NodeCapacity>)
    requires forall i | 0 <= i < |nodes| :: Classified(nodes[i])
    ensures TotalUtilization(nodes) >= 50.0 * Count(nodes, Warning) as real + 80.0 * Count(nodes, Critical) as real
  {
    if nodes != [] {
      StatusesWeigh(nodes[..|nodes| - 1]);
      assert Classified(nodes[|nodes| - 1]);
    }
  }

  lemma Scale(x: real, y: real, n: real)
    requires x <= y && n >= 0.0
    ensures x * n <= y * n
  {
  }

  /** An average above a line is a total above that many times the line. */
  lemma AverageAgainstLine(total: real, n: real, line: real)
    requires n > 0.0
    ensures total / n < line <==> total < line * n
    ensures total / n > line <==> total > line * n
  {
    var avg := total / n;
    assert avg * n == total;
    if avg <= line {
      Scale(avg, line, n);
    }
    if avg >= line {
      Scale(line, avg, n);
    }
    assert avg * n == line * n ==> (avg - line) * n == 0.0;
  }

  /** A warning majority puts the average above 25, so scaling up for it and scaling down are never
      recommended together. */
  lemma WarningMajorityNeverDown(fleet: seq<Node>)
    requires NonNegative(fleet) && WarningUp(AllAnalyzed(fleet))
    ensures AvgUtilization(AllAnalyzed(fleet)) > 25.0 && !Down(AllAnalyzed(fleet))
  {
    hide Analyzed, AllAnalyzed, NonNegative, Count, TotalUtilization;
    var nodes := AllAnalyzed(fleet);
    AllClassified(fleet);
    StatusesWeigh(nodes);
    CountsAddUp(nodes);
    AverageAgainstLine(TotalUtilization(nodes), |nodes| as real, 25.0);
  }

  /** Scaling up for critical nodes and scaling down come together only when fewer than a quarter are critical. */
  lemma CriticalAndDownIsRare(fleet: seq<Node>)
    requires NonNegative(fleet) && CriticalUp(AllAnalyzed(fleet)) && Down(AllAnalyzed(fleet))
    ensures 4 * Count(AllAnalyzed(fleet), Critical) < |AllAnalyzed(fleet)|
  {
    hide Analyzed, AllAnalyzed, NonNegative, Count, TotalUtilization;
    var nodes := AllAnalyzed(fleet);
    AllClassified(fleet);
    StatusesWeigh(nodes);
    AverageAgainstLine(TotalUtilization(nodes), |nodes| as real, 20.0);
  }

  // ----- The quarter is the exact line

  const OVER: int := 80 * 1073741824 + 1

  function Busy(): Node {
    Node("", Some(Bandwidth(OVER, 0, 0)), 0, [])
  }

  function Quiet(): Node {
    Node("", Some(Bandwidth(0, 0, 0)), 0, [])
  }

  /** `critical` nodes a byte over the critical line, then idle ones. */
  function Mixed(critical: nat, total: nat): seq<Node>
    requires critical <= total
  {
    seq(total, i => if i < critical then Busy() else Quiet())
  }

  /** The utilisation of k busy nodes together. */
  function UsedBy(k: nat): real {
    if k == 0 then 0.0 else UsedBy(k - 1) + OVER as real / GB
  }

  lemma {:induction false} UsedByIs(k: nat)
    ensures UsedBy(k) == 80.0 * k as real + k as real / GB
  {
    if k > 0 {
      UsedByIs(k - 1);
    }
  }

  lemma BusyAndQuiet()
    ensures Analyzed(Busy()).Some? && Analyzed(Quiet()).Some?
    ensures Analyzed(Busy()).value.utilization == OVER as real / GB && Analyzed(Busy()).value.status == Critical
    ensures Analyzed(Quiet()).value.utilization == 0.0 && Analyzed(Quiet()).value.status == Healthy
  {
  }

  lemma OneMoreUsed(nodes: seq<NodeCapacity>, c: NodeCapacity)
    ensures TotalUtilization(nodes + [c]) == TotalUtilization(nodes) + c.utilization
  {
    assert (nodes + [c])[..|nodes|] == nodes;
  }

  lemma MixedShrinks(critical: nat, total: nat, before: nat)
    requires critical <= total && total > 0 && before == if critical < total then critical else critical - 1
    ensures |Mixed(critical, total)| == total && Mixed(critical, total)[..total] == Mixed(critical, total)
    ensures Mixed(critical, total)[..total - 1] == Mixed(before, total - 1)
    ensures Mixed(critical, total)[total - 1] == if critical < total then Quiet() else Busy()
  {
    hide Busy, Quiet;
  }

  lemma {:induction false} MixedAnalyzed(critical: nat, total: nat)
    requires critical <= total
    ensures |AllAnalyzed(Mixed(critical, total))| == total
    ensures Count(AllAnalyzed(Mixed(critical, total)), Critical) == critical
    ensures TotalUtilization(AllAnalyzed(Mixed(critical, total))) == UsedBy(critical)
    decreases total
  {
    var fleet := Mixed(critical, total);
    if total == 0 {
      assert fleet == [];
    } else {
      var before := if critical < total then critical else critical - 1;
      MixedShrinks(critical, total, before);
      BusyAndQuiet();
      hide Analyzed, AllAnalyzed, Count, TotalUtilization, Mixed, Busy, Quiet;
      MixedAnalyzed(before, total - 1);
      OneMoreAnalyzed(fleet, total - 1);
      var nodes, last := AllAnalyzed(fleet[..total - 1]), Analyzed(fleet[total - 1]).value;
      OneMoreCounted(nodes, last);
      OneMoreUsed(nodes, last);
    }
  }

  lemma MixedNonNegative(critical: nat, total: nat)
    requires critical <= total
    ensures NonNegative(Mixed(critical, total))
  {
    var fleet := Mixed(critical, total);
    assert forall i | 0 <= i < |fleet| :: fleet[i] == Busy() || fleet[i] == Quiet();
  }

  /** A fleet of `critical` nodes a byte over the critical line and idle ones otherwise gets both recommendations
      exactly when the busy nodes' bytes stay under 20 GB for each node. */
  lemma MixedGetsBothExactlyWhen(critical: nat, total: nat)
    requires 0 < critical <= total && total > 3
    ensures NonNegative(Mixed(critical, total))
    ensures CriticalUp(AllAnalyzed(Mixed(critical, total)))
    ensures Down(AllAnalyzed(Mixed(critical, total))) <==> critical * OVER < 20 * 1073741824 * total
  {
    hide Mixed, AllAnalyzed, Count, TotalUtilization, UsedBy, NonNegative;
    MixedNonNegative(critical, total);
    MixedAnalyzed(critical, total);
    UsedAgainstLine(critical, total);
    AverageAgainstLine(UsedBy(critical), total as real, 20.0);
  }

  lemma UsedAgainstLine(critical: nat, total: nat)
    ensures UsedBy(critical) < 20.0 * total as real <==> critical * OVER < 20 * 1073741824 * total
  {
    UsedByIs(critical);
    hide UsedBy;
    var bytes := critical as real / GB;
    assert bytes * GB == critical as real;
  }

  /** So every count of critical nodes under a quarter of more than three nodes does get both recommendations in some
      fleet, as long as their bytes over the line do not add up to 20 GB. */
  lemma QuarterIsReached(critical: nat, total: nat)
    requires 0 < critical < 20 * 1073741824 && 4 * critical < total && total > 3
    ensures NonNegative(Mixed(critical, total))
    ensures CriticalUp(AllAnalyzed(Mixed(critical, total))) && Down(AllAnalyzed(Mixed(critical, total)))
  {
    MixedGetsBothExactlyWhen(critical, total);
  }
}
