/** The hourly sizing of `src/capacity_signals.ts`: how many members each hour needed, one estimate per signal. A
    signal an hour does not carry is `None`. */
module CapacitySignals {
  import opened Options
  import opened OrderStats
  import opened RealArithmetic

  datatype Signal = Cpu | Memory | Requests | NetworkIn | NetworkOut | Disk | Health | Trigger

  const SIGNAL_ORDER: seq<Signal> := [Cpu, Memory, Requests, NetworkIn, NetworkOut, Disk, Health, Trigger]
  const MIN_HEALTHY_HOURS := 24
  const MEM_SPREAD_MIN := 10.0
  const LATENCY_FACTOR := 2.0
  const ERROR_SHARE := 0.01
  const TOLERANCE := 0.000000001

  datatype SignalHour = SignalHour(at: int, desired: int, cpu: Option<real>, mem: Option<real>, disk: Option<real>,
                                   requests: Option<real>, netIn: Option<real>, netOut: Option<real>,
                                   latency: Option<real>, errors: Option<real>)
  datatype Targets = Targets(cpu: real, mem: real, disk: real, netBytes: Option<real>)
  datatype Model = Model(memIdle: Option<real>, requestsPerMember: Option<real>, netInPerMember: Option<real>,
                         netOutPerMember: Option<real>, latencyMedian: Option<real>, healthyHours: nat)
  datatype HourNeed = HourNeed(at: int, desired: int, need: int, binding: Signal, est: map<Signal, int>)

  /** `Math.ceil(x - 1e-9)`. */
  function Up(x: real): int {
    var y := x - TOLERANCE;
    if y.Floor as real == y then y.Floor else y.Floor + 1
  }

  lemma UpAtMost(x: real, d: int)
    ensures Up(x) <= d <==> x <= d as real + TOLERANCE
  {
  }

  // ---- the model ----------------------------------------------------------------------------------------------------

  predicate Unhealthy(h: SignalHour, latencyMedian: Option<real>) {
    || (h.latency.Some? && latencyMedian.Some? && latencyMedian.value > 0.0 &&
        h.latency.value > LATENCY_FACTOR * latencyMedian.value)
    || (h.errors.Some? && h.requests.Some? && h.requests.value > 0.0 &&
        h.errors.value / h.requests.value >= ERROR_SHARE)
  }

  function Memories(hours: seq<SignalHour>): seq<real> {
    if hours == [] then []
    else Memories(hours[..|hours| - 1]) + if hours[|hours| - 1].mem.Some? then [hours[|hours| - 1].mem.value] else []
  }

  /** The latencies of the hours with requests. */
  function Latencies(hours: seq<SignalHour>): seq<real> {
    if hours == [] then []
    else
      var h := hours[|hours| - 1];
      Latencies(hours[..|hours| - 1])
      + if h.latency.Some? && h.requests.Some? && h.requests.value > 0.0 then [h.latency.value] else []
  }

  /** The value `percent` of the way through the sorted list, rounded down to a place; the module asks for 5 and 50. */
  function Percentile(xs: seq<real>, percent: nat): Option<real>
    requires percent == 5 || percent == 50
  {
    if xs == [] then None else Some(Sort(xs)[PercentilePlace(|xs|, percent)])
  }

  function PercentilePlace(n: nat, percent: nat): nat
    requires n > 0 && (percent == 5 || percent == 50)
  {
    if percent == 5 then 5 * (n - 1) / 100 else 50 * (n - 1) / 100
  }

  predicate Healthy(h: SignalHour, t: Targets, latencyMedian: Option<real>) {
    && h.desired > 0 && h.cpu.Some? && h.cpu.value < t.cpu
    && (h.mem.None? || h.mem.value < t.mem) && !Unhealthy(h, latencyMedian)
  }

  function HealthyHours(hours: seq<SignalHour>, t: Targets, latencyMedian: Option<real>): (hs: seq<SignalHour>)
    ensures forall h <- hs :: h.desired > 0
  {
    if hours == [] then []
    else
      HealthyHours(hours[..|hours| - 1], t, latencyMedian)
      + if Healthy(hours[|hours| - 1], t, latencyMedian) then [hours[|hours| - 1]] else []
  }

  /** A group total that has no percentage to aim at: requests, bytes in, bytes out. */
  datatype Total = RequestTotal | InTotal | OutTotal

  function Get(h: SignalHour, f: Total): Option<real> {
    match f
    case RequestTotal => h.requests
    case InTotal => h.netIn
    case OutTotal => h.netOut
  }

  /** What a member carried in each healthy hour with some load. */
  function PerMember(healthy: seq<SignalHour>, f: Total): seq<real>
    requires forall h <- healthy :: h.desired > 0
  {
    if healthy == [] then []
    else
      var h := healthy[|healthy| - 1];
      assert h in healthy;
      PerMember(healthy[..|healthy| - 1], f)
      + if Get(h, f).Some? && Get(h, f).value > 0.0 then [Get(h, f).value / h.desired as real] else []
  }

  /** The busiest healthy hour, once there are enough of them to trust. */
  function Rate(healthy: seq<SignalHour>, f: Total): Option<real>
    requires forall h <- healthy :: h.desired > 0
  {
    var xs := PerMember(healthy, f);
    if |xs| >= MIN_HEALTHY_HOURS then Some(MaxOf(xs)) else None
  }

  /** The published bandwidth or the proven rate, whichever is higher. */
  function NetRate(healthy: seq<SignalHour>, f: Total, t: Targets): Option<real>
    requires forall h <- healthy :: h.desired > 0
  {
    var proven := Rate(healthy, f);
    if t.netBytes.Some? && t.netBytes.value != 0.0 then
      Some(Max(t.netBytes.value, if proven.Some? then proven.value else 0.0))
    else
      proven
  }

  function LatencyMedian(hours: seq<SignalHour>): Option<real> {
    Percentile(Latencies(hours), 50)
  }

  function SignalModel(hours: seq<SignalHour>, t: Targets): Model {
    var mems := Memories(hours);
    var median := LatencyMedian(hours);
    var healthy := HealthyHours(hours, t, median);
    Model(if |mems| >= MIN_HEALTHY_HOURS then Percentile(mems, 5) else None, Rate(healthy, RequestTotal),
          NetRate(healthy, InTotal, t), NetRate(healthy, OutTotal, t), median, |healthy|)
  }

  // ---- one hour -----------------------------------------------------------------------------------------------------

  function Members(h: SignalHour): int {
    if h.desired < 0 then 0 else h.desired
  }

  /** The members a load needs when `part` of it runs on the `d` members and `whole` is what they may run at. */
  function Share(d: int, part: real, whole: real): real
    requires whole != 0.0
  {
    d as real * part / whole
  }

  lemma ShareAtMost(d: int, part: real, whole: real)
    requires d >= 0 && part <= whole && whole > 0.0
    ensures Share(d, part, whole) <= d as real
  {
    Product(d as real, whole - part);
    assert d as real * (whole - part) == d as real * whole - d as real * part;
    Quotient(d as real * part, whole, d as real);
  }

  function CpuNeed(h: SignalHour, t: Targets): Option<int>
    requires t.cpu > 0.0
  {
    if h.cpu.Some? then Some(Up(Share(Members(h), h.cpu.value, t.cpu))) else None
  }

  function MemoryNeed(h: SignalHour, t: Targets, m: Model): Option<int> {
    if h.mem.None? || m.memIdle.None? then None
    else
      var room := t.mem - m.memIdle.value;
      Some(if room < MEM_SPREAD_MIN then Members(h)
           else if h.mem.value <= m.memIdle.value then 1
           else Up(Share(Members(h), h.mem.value - m.memIdle.value, room)))
  }

  function TotalNeed(total: Option<real>, perMember: Option<real>): Option<int> {
    if total.Some? && perMember.Some? && perMember.value != 0.0 then Some(Up(total.value / perMember.value)) else None
  }

  function Estimate(h: SignalHour, t: Targets, m: Model, s: Signal): Option<int>
    requires t.cpu > 0.0
  {
    match s
    case Cpu => CpuNeed(h, t)
    case Memory => MemoryNeed(h, t, m)
    case Requests => TotalNeed(h.requests, m.requestsPerMember)
    case NetworkIn => TotalNeed(h.netIn, m.netInPerMember)
    case NetworkOut => TotalNeed(h.netOut, m.netOutPerMember)
    case Disk => if h.disk.Some? && h.disk.value >= t.disk then Some(Members(h)) else None
    case Health => if Unhealthy(h, m.latencyMedian) then Some(Members(h)) else None
    case Trigger => if NoSignal(h, t, m) then Some(Members(h)) else None
  }

  predicate NoSignal(h: SignalHour, t: Targets, m: Model)
    requires t.cpu > 0.0
  {
    && CpuNeed(h, t).None? && MemoryNeed(h, t, m).None? && TotalNeed(h.requests, m.requestsPerMember).None?
    && TotalNeed(h.netIn, m.netInPerMember).None? && TotalNeed(h.netOut, m.netOutPerMember).None?
    && !(h.disk.Some? && h.disk.value >= t.disk) && !Unhealthy(h, m.latencyMedian)
  }

  lemma NoSignalIff(h: SignalHour, t: Targets, m: Model)
    requires t.cpu > 0.0
    ensures NoSignal(h, t, m) <==> forall s :: s != Trigger ==> Estimate(h, t, m, s).None?
  {
    if !NoSignal(h, t, m) {
      assert Estimate(h, t, m, Cpu).Some? || Estimate(h, t, m, Memory).Some? || Estimate(h, t, m, Requests).Some?
             || Estimate(h, t, m, NetworkIn).Some? || Estimate(h, t, m, NetworkOut).Some? ||
                 Estimate(h, t, m, Disk).Some?
             || Estimate(h, t, m, Health).Some?;
    }
  }

  /** The estimates an hour has, by signal. */
  ghost predicate IsBy(h: SignalHour, t: Targets, m: Model, est: map<Signal, int>)
    requires t.cpu > 0.0
  {
    forall s :: (s in est <==> Estimate(h, t, m, s).Some?) && (s in est ==> Some(est[s]) == Estimate(h, t, m, s))
  }

  /** The signal named: a hold that ties with the need first, then the first signal that set it. */
  predicate Names(est: map<Signal, int>, need: int, s: Signal) {
    if Disk in est && est[Disk] == need then s == Disk
    else if Health in est && est[Health] == need then s == Health
    else Earliest(est, need, !(exists x <- est :: est[x] == need), s)
  }

  /** `need` is the largest of one and the estimates. */
  ghost predicate IsNeed(h: SignalHour, t: Targets, m: Model, need: int)
    requires t.cpu > 0.0
  {
    && need >= 1
    && (forall s :: Estimate(h, t, m, s).Some? ==> Estimate(h, t, m, s).value <= need)
    && (need == 1 || exists s :: Estimate(h, t, m, s) == Some(need))
  }

  lemma AllSignalsListed(s: Signal)
    ensures s in SIGNAL_ORDER
  {
    match s
    case Cpu => assert SIGNAL_ORDER[0] == s;
    case Memory => assert SIGNAL_ORDER[1] == s;
    case Requests => assert SIGNAL_ORDER[2] == s;
    case NetworkIn => assert SIGNAL_ORDER[3] == s;
    case NetworkOut => assert SIGNAL_ORDER[4] == s;
    case Disk => assert SIGNAL_ORDER[5] == s;
    case Health => assert SIGNAL_ORDER[6] == s;
    case Trigger => assert SIGNAL_ORDER[7] == s;
  }

  function Put(est: map<Signal, int>, s: Signal, v: Option<int>): map<Signal, int> {
    if v.Some? then est[s := v.value] else est
  }

  function Place(s: Signal): nat {
    match s
    case Cpu => 0
    case Memory => 1
    case Requests => 2
    case NetworkIn => 3
    case NetworkOut => 4
    case Disk => 5
    case Health => 6
    case Trigger => 7
  }

  /** The record so far: the first `k` signals have their estimates, the others nothing. */
  ghost predicate Filled(h: SignalHour, t: Targets, m: Model, est: map<Signal, int>, k: nat)
    requires t.cpu > 0.0
  {
    forall s :: (s in est <==> Place(s) < k && Estimate(h, t, m, s).Some?) &&
        (s in est ==> Some(est[s]) == Estimate(h, t, m, s))
  }

  lemma PutFills(h: SignalHour, t: Targets, m: Model, est: map<Signal, int>, s: Signal)
    requires t.cpu > 0.0 && Filled(h, t, m, est, Place(s))
    ensures Filled(h, t, m, Put(est, s, Estimate(h, t, m, s)), Place(s) + 1)
  {
    hide Estimate;
    assert forall x :: Place(x) == Place(s) ==> x == s;
  }

  lemma Finished(h: SignalHour, t: Targets, m: Model, est: map<Signal, int>)
    requires t.cpu > 0.0 && Filled(h, t, m, est, 8)
    ensures IsBy(h, t, m, est)
  {
    hide Estimate;
  }

  lemma SilentRecord(h: SignalHour, t: Targets, m: Model, est: map<Signal, int>)
    requires t.cpu > 0.0 && Filled(h, t, m, est, 7)
    ensures est.Keys == {} <==> NoSignal(h, t, m)
  {
    hide Estimate, NoSignal;
    NoSignalIff(h, t, m);
    assert forall s :: Place(s) < 7 <==> s != Trigger;
    if est.Keys == {} {
      assert forall s :: s !in est;
    }
  }

  /** One hour's record, filled signal by signal; the trigger speaks only when no signal did. */
  method Fill(h: SignalHour, t: Targets, m: Model) returns (est: map<Signal, int>)
    requires t.cpu > 0.0
    ensures IsBy(h, t, m, est)
  {
    hide CpuNeed, MemoryNeed, TotalNeed, Unhealthy, Filled, NoSignal;
    var d := Members(h);
    est := map[];
    NothingFilled(h, t, m);
    PutFills(h, t, m, est, Cpu);
    est := Put(est, Cpu, CpuNeed(h, t));
    PutFills(h, t, m, est, Memory);
    est := Put(est, Memory, MemoryNeed(h, t, m));
    PutFills(h, t, m, est, Requests);
    est := Put(est, Requests, TotalNeed(h.requests, m.requestsPerMember));
    PutFills(h, t, m, est, NetworkIn);
    est := Put(est, NetworkIn, TotalNeed(h.netIn, m.netInPerMember));
    PutFills(h, t, m, est, NetworkOut);
    est := Put(est, NetworkOut, TotalNeed(h.netOut, m.netOutPerMember));
    PutFills(h, t, m, est, Disk);
    if h.disk.Some? && h.disk.value >= t.disk {
      est := est[Disk := d];
    }
    PutFills(h, t, m, est, Health);
    if Unhealthy(h, m.latencyMedian) {
      est := est[Health := d];
    }
    PutFills(h, t, m, est, Trigger);
    SilentRecord(h, t, m, est);
    if est.Keys == {} {
      est := est[Trigger := d];
    }
    Finished(h, t, m, est);
  }

  lemma NothingFilled(h: SignalHour, t: Targets, m: Model)
    requires t.cpu > 0.0
    ensures Filled(h, t, m, map[], 0)
  {
  }

  /** The largest of one and the recorded estimates. */
  method Largest(est: map<Signal, int>) returns (need: int)
    ensures need >= 1 && (forall s <- est :: est[s] <= need) && (need == 1 || exists s <- est :: est[s] == need)
  {
    need := 1;
    for k := 0 to |SIGNAL_ORDER|
      invariant need >= 1 && (need == 1 || exists s <- est :: est[s] == need)
      invariant forall j :: 0 <= j < k && SIGNAL_ORDER[j] in est ==> est[SIGNAL_ORDER[j]] <= need
    {
      var s := SIGNAL_ORDER[k];
      if s in est && est[s] > need {
        need := est[s];
      }
    }
    forall s | s in est
      ensures est[s] <= need
    {
      AllSignalsListed(s);
    }
  }

  /** The first recorded signal in the order of signals, or the first whose estimate is the need. */
  predicate Earliest(est: map<Signal, int>, need: int, anyValue: bool, s: Signal) {
    exists k :: 0 <= k < |SIGNAL_ORDER| && s == SIGNAL_ORDER[k] && Fits(est, need, anyValue, s)
                && forall j :: 0 <= j < k ==> !Fits(est, need, anyValue, SIGNAL_ORDER[j])
  }

  predicate Fits(est: map<Signal, int>, need: int, anyValue: bool, s: Signal) {
    s in est && (anyValue || est[s] == need)
  }

  method FirstSignal(est: map<Signal, int>, need: int, anyValue: bool) returns (s: Option<Signal>)
    ensures s.None? ==> forall x <- est :: !anyValue && est[x] != need
    ensures s.Some? ==> Earliest(est, need, anyValue, s.value)
  {
    for k := 0 to |SIGNAL_ORDER|
      invariant forall j :: 0 <= j < k ==> !Fits(est, need, anyValue, SIGNAL_ORDER[j])
    {
      var x := SIGNAL_ORDER[k];
      if Fits(est, need, anyValue, x) {
        return Some(x);
      }
    }
    forall x | x in est
      ensures !anyValue && est[x] != need
    {
      AllSignalsListed(x);
    }
    return None;
  }

  method Binding(est: map<Signal, int>, need: int) returns (s: Signal)
    requires exists x :: x in est
    ensures Names(est, need, s)
  {
    if Disk in est && est[Disk] == need {
      return Disk;
    }
    if Health in est && est[Health] == need {
      return Health;
    }
    var first := FirstSignal(est, need, false);
    if first.None? {
      first := FirstSignal(est, need, true);
    }
    s := first.GetOr(Trigger);
  }

  // ---- what the model and the estimates are, over the hours ---------------------------------------------------------

  /** Latency over twice the median of the hours with requests. */
  predicate RunsSlow(h: SignalHour, median: Option<real>) {
    h.latency.Some? && median.Some? && median.value > 0.0 && h.latency.value > 2.0 * median.value
  }

  /** One request in a hundred, or more, failed. */
  predicate Fails(h: SignalHour) {
    h.errors.Some? && h.requests.Some? && h.requests.value > 0.0 && 100.0 * h.errors.value >= h.requests.value
  }

  lemma UnhealthyIff(h: SignalHour, median: Option<real>)
    ensures Unhealthy(h, median) <==> RunsSlow(h, median) || Fails(h)
  {
    if h.errors.Some? && h.requests.Some? && h.requests.value > 0.0 {
      Quotient(h.errors.value, h.requests.value, 0.01);
    }
  }

  /** An hour that ran fine on its members: below the CPU target, and the memory target where memory is known. */
  predicate RanFine(h: SignalHour, t: Targets, median: Option<real>) {
    && h.desired >= 1 && h.cpu.Some? && h.cpu.value < t.cpu && (h.mem.Some? ==> h.mem.value < t.mem)
    && !RunsSlow(h, median) && !Fails(h)
  }

  lemma HealthyIff(h: SignalHour, t: Targets, median: Option<real>)
    ensures Healthy(h, t, median) <==> RanFine(h, t, median)
  {
    UnhealthyIff(h, median);
    hide Unhealthy, RunsSlow, Fails;
  }

  /** The hours whose memory is known and at most `v`. */
  ghost function MemoryAtMost(hours: seq<SignalHour>, v: real): set<nat> {
    set i: nat | i < |hours| && hours[i].mem.Some? && hours[i].mem.value <= v
  }

  ghost function MemoryKnown(hours: seq<SignalHour>): set<nat> {
    set i: nat | i < |hours| && hours[i].mem.Some?
  }

  ghost function LatencyAtMost(hours: seq<SignalHour>, v: real): set<nat> {
    set i: nat | i < |hours| && HasLatency(hours[i]) && hours[i].latency.value <= v
  }

  ghost function LatencyKnown(hours: seq<SignalHour>): set<nat> {
    set i: nat | i < |hours| && HasLatency(hours[i])
  }

  predicate HasLatency(h: SignalHour) {
    h.latency.Some? && h.requests.Some? && h.requests.value > 0.0
  }

  /** The hours that ran fine and carry the signal. */
  ghost function FineCarrying(hours: seq<SignalHour>, t: Targets, median: Option<real>, f: Total): set<nat> {
    set i: nat | i < |hours| && RanFine(hours[i], t, median) && Carries(hours[i], f)
  }

  /** The memory with no load: what a twentieth of the hours with memory are at most, once 24 hours know it. */
  ghost predicate IsIdle(hours: seq<SignalHour>, idle: Option<real>) {
    && (idle.Some? <==> |MemoryKnown(hours)| >= 24)
    && (idle.Some? ==>
          var place := 5 * (|MemoryKnown(hours)| - 1) / 100;
          && |MemoryAtMost(hours, idle.value)| > place
          && forall v: real :: v < idle.value ==> |MemoryAtMost(hours, v)| <= place)
  }

  /** The median latency of the hours with requests. */
  ghost predicate IsMedianLatency(hours: seq<SignalHour>, median: Option<real>) {
    && (median.Some? <==> LatencyKnown(hours) != {})
    && (median.Some? ==>
          var place := (|LatencyKnown(hours)| - 1) / 2;
          && |LatencyAtMost(hours, median.value)| > place
          && forall v: real :: v < median.value ==> |LatencyAtMost(hours, v)| <= place)
  }

  /** What a member proved to carry: the most of any hour that ran fine, once 24 of them carry the signal. */
  ghost predicate IsProvenRate(hours: seq<SignalHour>, t: Targets, median: Option<real>, f: Total, rate: Option<real>) {
    && (rate.Some? <==> |FineCarrying(hours, t, median, f)| >= 24)
    && (rate.Some? ==>
          && rate.value > 0.0
          && Attains(hours, t, median, f, rate.value)
          && forall h <- hours :: RanFine(h, t, median) && Get(h, f).Some? ==>
               Get(h, f).value <= rate.value * h.desired as real)
  }

  /** A network rate: the proven one, or with a published bandwidth the larger of the two. */
  ghost predicate IsNetRate(hours: seq<SignalHour>, t: Targets, median: Option<real>, f: Total, rate: Option<real>) {
    exists proven ::
      && IsProvenRate(hours, t, median, f, proven)
      && (t.netBytes.None? || t.netBytes.value == 0.0 ==> rate == proven)
      && (t.netBytes.Some? && t.netBytes.value != 0.0 ==>
            && rate.Some? && rate.value >= t.netBytes.value && rate.value >= proven.GetOr(0.0)
            && (rate.value == t.netBytes.value || rate.value == proven.GetOr(0.0)))
  }

  /** The model, read off the hours. */
  ghost predicate IsModel(hours: seq<SignalHour>, t: Targets, m: Model) {
    && IsIdle(hours, m.memIdle) && IsMedianLatency(hours, m.latencyMedian)
    && IsProvenRate(hours, t, m.latencyMedian, RequestTotal, m.requestsPerMember)
    && IsNetRate(hours, t, m.latencyMedian, InTotal, m.netInPerMember)
    && IsNetRate(hours, t, m.latencyMedian, OutTotal, m.netOutPerMember)
    && m.healthyHours == |FineHours(hours, t, m.latencyMedian)|
  }

  /** What `k` members carry, within the tolerance. */
  function CarriedBy(k: int, perMember: real): real {
    (k as real + 0.000000001) * perMember
  }

  /** `n` is the least number of members that carry the load. */
  ghost predicate Carriers(n: int, load: real, perMember: real) {
    forall k: int :: n <= k <==> load <= CarriedBy(k, perMember)
  }

  function Load(ran: int, part: real): real {
    ran as real * part
  }

  lemma ShareCarries(d: int, part: real, whole: real)
    requires whole > 0.0
    ensures Carriers(Up(Share(d, part, whole)), Load(d, part), whole)
  {
    UpCarries(d as real * part, whole);
  }

  /** Each signal's estimate: the members that would have run at the target, that carry the load, or that ran. */
  ghost predicate EstimatesMean(h: SignalHour, t: Targets, m: Model, est: map<Signal, int>) {
    var ran := if h.desired < 0 then 0 else h.desired;
    && (Cpu in est <==> h.cpu.Some?)
    && (Cpu in est ==> Carriers(est[Cpu], Load(ran, h.cpu.value), t.cpu))
    && (Memory in est <==> h.mem.Some? && m.memIdle.Some?)
    && (Memory in est ==>
          var room := t.mem - m.memIdle.value;
          if room < 10.0 then est[Memory] == ran
          else if h.mem.value <= m.memIdle.value then est[Memory] == 1
          else Carriers(est[Memory], Load(ran, h.mem.value - m.memIdle.value), room))
    && TotalMeans(h.requests, m.requestsPerMember, est, Requests)
    && TotalMeans(h.netIn, m.netInPerMember, est, NetworkIn)
    && TotalMeans(h.netOut, m.netOutPerMember, est, NetworkOut)
    && (Disk in est <==> h.disk.Some? && h.disk.value >= t.disk) && (Disk in est ==> est[Disk] == ran)
    && (Health in est <==> RunsSlow(h, m.latencyMedian) || Fails(h)) && (Health in est ==> est[Health] == ran)
    && (Trigger in est <==> forall s <- est :: s == Trigger) && (Trigger in est ==> est[Trigger] == ran)
  }

  ghost predicate TotalMeans(total: Option<real>, perMember: Option<real>, est: map<Signal, int>, s: Signal) {
    && (s in est <==> total.Some? && perMember.Some? && perMember.value != 0.0)
    && (s in est && perMember.value > 0.0 ==> Carriers(est[s], total.value, perMember.value))
  }

  /** A disk or health hold that ties names the hour, then the first of the others that ties; with none, the first
      that speaks. */
  predicate BindingIs(est: map<Signal, int>, need: int, s: Signal) {
    if Ties(est, need, Disk) then s == Disk
    else if Ties(est, need, Health) then s == Health
    else if Ties(est, need, Cpu) then s == Cpu
    else if Ties(est, need, Memory) then s == Memory
    else if Ties(est, need, Requests) then s == Requests
    else if Ties(est, need, NetworkIn) then s == NetworkIn
    else if Ties(est, need, NetworkOut) then s == NetworkOut
    else if Ties(est, need, Trigger) then s == Trigger
    else if Cpu in est then s == Cpu
    else if Memory in est then s == Memory
    else if Requests in est then s == Requests
    else if NetworkIn in est then s == NetworkIn
    else if NetworkOut in est then s == NetworkOut
    else if Disk in est then s == Disk
    else if Health in est then s == Health
    else s == Trigger
  }

  /** The largest of one and what the signals say. */
  ghost predicate IsLargest(est: map<Signal, int>, need: int) {
    need >= 1 && (forall s <- est :: est[s] <= need) && (need == 1 || exists s <- est :: est[s] == need)
  }

  predicate Ties(est: map<Signal, int>, need: int, s: Signal) {
    s in est && est[s] == need
  }

  lemma NamesIsBinding(est: map<Signal, int>, need: int, s: Signal)
    requires Names(est, need, s)
    ensures BindingIs(est, need, s)
  {
    var o := SIGNAL_ORDER;
    assert o[0] == Cpu && o[1] == Memory && o[2] == Requests && o[3] == NetworkIn && o[4] == NetworkOut && o[5] == Disk
           && o[6] == Health && o[7] == Trigger;
    if !Ties(est, need, Disk) && !Ties(est, need, Health) {
      var any := !(exists x <- est :: est[x] == need);
      var k :| && 0 <= k < |o| && s == o[k] && Fits(est, need, any, s)
               && forall j :: 0 <= j < k ==> !Fits(est, need, any, o[j]);
    }
  }

  // the model

  lemma MemoryGrows(rest: seq<SignalHour>, h: SignalHour, v: real)
    ensures |MemoryAtMost(rest + [h], v)| == |MemoryAtMost(rest, v)| + if h.mem.Some? && h.mem.value <= v then 1 else 0
    ensures |MemoryKnown(rest + [h])| == |MemoryKnown(rest)| + if h.mem.Some? then 1 else 0
  {
    var n := |rest|;
    var atMost := if h.mem.Some? && h.mem.value <= v then {n} else {};
    var known := if h.mem.Some? then {n} else {};
    assert MemoryAtMost(rest + [h], v) == MemoryAtMost(rest, v) + atMost;
    assert MemoryKnown(rest + [h]) == MemoryKnown(rest) + known;
  }

  lemma CountOneMore(xs: seq<real>, x: real, v: real)
    ensures CountAtMost(xs + [x], v) == CountAtMost(xs, v) + if x <= v then 1 else 0
  {
    assert (xs + [x])[..|xs|] == xs;
  }

  lemma {:induction false} MemoriesCount(hours: seq<SignalHour>, v: real)
    ensures CountAtMost(Memories(hours), v) == |MemoryAtMost(hours, v)| && |Memories(hours)| == |MemoryKnown(hours)|
  {
    if hours == [] {
      assert MemoryAtMost(hours, v) == {} && MemoryKnown(hours) == {};
    } else {
      hide MemoryAtMost, MemoryKnown, CountAtMost;
      var n := |hours| - 1;
      var h, rest := hours[n], hours[..n];
      MemoriesCount(rest, v);
      MemoryGrows(rest, h, v);
      assert hours == rest + [h];
      if h.mem.Some? {
        CountOneMore(Memories(rest), h.mem.value, v);
      } else {
        assert Memories(rest) + [] == Memories(rest);
      }
    }
  }

  lemma LatencyGrows(rest: seq<SignalHour>, h: SignalHour, v: real)
    ensures |LatencyAtMost(rest + [h], v)| ==
            |LatencyAtMost(rest, v)| + if HasLatency(h) && h.latency.value <= v then 1 else 0
    ensures |LatencyKnown(rest + [h])| == |LatencyKnown(rest)| + if HasLatency(h) then 1 else 0
  {
    var n := |rest|;
    var atMost := if HasLatency(h) && h.latency.value <= v then {n} else {};
    var known := if HasLatency(h) then {n} else {};
    assert LatencyAtMost(rest + [h], v) == LatencyAtMost(rest, v) + atMost;
    assert LatencyKnown(rest + [h]) == LatencyKnown(rest) + known;
  }

  lemma {:induction false} LatenciesCount(hours: seq<SignalHour>, v: real)
    ensures CountAtMost(Latencies(hours), v) == |LatencyAtMost(hours, v)|
    ensures |Latencies(hours)| == |LatencyKnown(hours)|
  {
    hide LatencyAtMost, LatencyKnown, CountAtMost, Latencies, HasLatency;
    if hours == [] {
      NoLatencies(v);
    } else {
      var n := |hours| - 1;
      var h, rest := hours[n], hours[..n];
      LatenciesCount(rest, v);
      LatencyGrows(rest, h, v);
      assert hours == rest + [h];
      LatenciesOneMore(rest, h, v);
    }
  }

  lemma NoLatencies(v: real)
    ensures LatencyAtMost([], v) == {} && LatencyKnown([]) == {} && Latencies([]) == [] && CountAtMost([], v) == 0
  {
  }

  lemma LatenciesOneMore(rest: seq<SignalHour>, h: SignalHour, v: real)
    ensures Latencies(rest + [h]) == Latencies(rest) + if HasLatency(h) then [h.latency.value] else []
    ensures CountAtMost(Latencies(rest + [h]), v) ==
            CountAtMost(Latencies(rest), v) + if HasLatency(h) && h.latency.value <= v then 1 else 0
  {
    assert (rest + [h])[..|rest|] == rest;
    hide CountAtMost;
    if HasLatency(h) {
      CountOneMore(Latencies(rest), h.latency.value, v);
    } else {
      assert Latencies(rest) + [] == Latencies(rest);
    }
  }

  lemma IdleMeans(hours: seq<SignalHour>, t: Targets)
    ensures IsIdle(hours, SignalModel(hours, t).memIdle)
  {
    var mems := Memories(hours);
    hide Memories, LatencyMedian, HealthyHours, Rate, NetRate, MemoryAtMost, MemoryKnown, Sort;
    MemoriesCount(hours, 0.0);
    if |mems| >= 24 {
      var place, idle := 5 * (|mems| - 1) / 100, SignalModel(hours, t).memIdle.value;
      assert PercentilePlace(|mems|, 5) == place;
      MemoriesCount(hours, idle);
      PlaceByCount(mems, place, idle);
      forall v: real | v < idle
        ensures |MemoryAtMost(hours, v)| <= place
      {
        MemoriesCount(hours, v);
        PlaceByCount(mems, place, v);
      }
    }
  }

  lemma MedianMeans(hours: seq<SignalHour>)
    ensures IsMedianLatency(hours, LatencyMedian(hours))
  {
    var xs := Latencies(hours);
    hide Latencies, LatencyAtMost, LatencyKnown, Sort;
    LatenciesCount(hours, 0.0);
    if xs != [] {
      var place, median := (|xs| - 1) / 2, LatencyMedian(hours).value;
      assert PercentilePlace(|xs|, 50) == place;
      LatenciesCount(hours, median);
      PlaceByCount(xs, place, median);
      forall v: real | v < median
        ensures |LatencyAtMost(hours, v)| <= place
      {
        LatenciesCount(hours, v);
        PlaceByCount(xs, place, v);
      }
    }
  }

  ghost function FineHours(hours: seq<SignalHour>, t: Targets, median: Option<real>): set<nat> {
    set i: nat | i < |hours| && RanFine(hours[i], t, median)
  }

  lemma FineGrows(rest: seq<SignalHour>, h: SignalHour, t: Targets, median: Option<real>)
    ensures |FineHours(rest + [h], t, median)| == |FineHours(rest, t, median)| + if RanFine(h, t, median) then 1 else 0
  {
    hide RanFine;
    var fine := if RanFine(h, t, median) then {|rest|} else {};
    assert FineHours(rest + [h], t, median) == FineHours(rest, t, median) + fine;
  }

  lemma FineCarryingGrows(rest: seq<SignalHour>, h: SignalHour, t: Targets, median: Option<real>, f: Total)
    ensures |FineCarrying(rest + [h], t, median, f)| ==
            |FineCarrying(rest, t, median, f)| + if RanFine(h, t, median) && Carries(h, f) then 1 else 0
  {
    hide RanFine, Carries;
    var carrying := if RanFine(h, t, median) && Carries(h, f) then {|rest|} else {};
    assert FineCarrying(rest + [h], t, median, f) == FineCarrying(rest, t, median, f) + carrying;
  }

  lemma {:induction false} CarryingMeans(hours: seq<SignalHour>, t: Targets, median: Option<real>, f: Total)
    ensures Carrying(hours, t, median, f) == |FineCarrying(hours, t, median, f)|
    ensures |HealthyHours(hours, t, median)| == |FineHours(hours, t, median)|
  {
    if hours == [] {
      assert FineCarrying(hours, t, median, f) == {} && FineHours(hours, t, median) == {};
    } else {
      hide Healthy, RanFine, FineCarrying, FineHours, Carries;
      var n := |hours| - 1;
      var h, rest := hours[n], hours[..n];
      CarryingMeans(rest, t, median, f);
      HealthyIff(h, t, median);
      FineGrows(rest, h, t, median);
      FineCarryingGrows(rest, h, t, median, f);
      assert hours == rest + [h];
    }
  }

  lemma RateMeans(hours: seq<SignalHour>, t: Targets, f: Total)
    ensures var median := LatencyMedian(hours);
      IsProvenRate(hours, t, median, f, Rate(HealthyHours(hours, t, median), f))
  {
    var median := LatencyMedian(hours);
    var healthy := HealthyHours(hours, t, median);
    CarryingCounts(hours, t, median, f);
    CarryingMeans(hours, t, median, f);
    HealthyAreHours(hours, t, median);
    hide LatencyMedian, HealthyHours, PerMember, Healthy, RanFine, FineCarrying, Carrying, IsProvenRate;
    forall h
      ensures h in healthy <==> h in hours && RanFine(h, t, median)
    {
      HealthyIff(h, t, median);
    }
    var rate := Rate(healthy, f);
    if rate.Some? {
      RateIsProven(healthy, f);
      var h :| h in healthy && Get(h, f).Some? && Get(h, f).value / h.desired as real == rate.value;
      Quotient(Get(h, f).value, h.desired as real, rate.value);
      assert Get(h, f).value == rate.value * (h.desired as real);
      AttainedRate(hours, t, median, f, rate.value, h);
    }
    ProvenFrom(hours, t, median, f, rate);
  }

  /** The hour ran fine at exactly this much per member. */
  ghost predicate RanAt(h: SignalHour, t: Targets, median: Option<real>, f: Total, rate: real) {
    RanFine(h, t, median) && Get(h, f).Some? && Get(h, f).value == rate * (h.desired as real)
  }

  ghost predicate Attains(hours: seq<SignalHour>, t: Targets, median: Option<real>, f: Total, rate: real) {
    exists h <- hours :: RanAt(h, t, median, f, rate)
  }

  lemma AttainedRate(hours: seq<SignalHour>, t: Targets, median: Option<real>, f: Total, rate: real, h: SignalHour)
    requires h in hours && RanAt(h, t, median, f, rate)
    ensures Attains(hours, t, median, f, rate)
  {
    hide RanAt;
  }

  lemma ProvenFrom(hours: seq<SignalHour>, t: Targets, median: Option<real>, f: Total, rate: Option<real>)
    requires rate.Some? <==> |FineCarrying(hours, t, median, f)| >= 24
    requires rate.Some? ==> rate.value > 0.0 && Attains(hours, t, median, f, rate.value)
    requires rate.Some? ==> forall h :: h in hours && RanFine(h, t, median) && Get(h, f).Some? ==>
      Get(h, f).value <= h.desired as real * rate.value
    ensures IsProvenRate(hours, t, median, f, rate)
  {
    hide RanFine, FineCarrying;
  }

  lemma NetRateMeans(hours: seq<SignalHour>, t: Targets, f: Total)
    ensures var median := LatencyMedian(hours);
      IsNetRate(hours, t, median, f, NetRate(HealthyHours(hours, t, median), f, t))
  {
    RateMeans(hours, t, f);
    hide LatencyMedian, HealthyHours, Rate, IsProvenRate;
    var median := LatencyMedian(hours);
    var proven := Rate(HealthyHours(hours, t, median), f);
    assert IsProvenRate(hours, t, median, f, proven);
  }

  /** The model is what the hours prove. */
  lemma ModelMeans(hours: seq<SignalHour>, t: Targets)
    ensures IsModel(hours, t, SignalModel(hours, t))
  {
    IdleMeans(hours, t);
    MedianMeans(hours);
    RateMeans(hours, t, RequestTotal);
    NetRateMeans(hours, t, InTotal);
    NetRateMeans(hours, t, OutTotal);
    CarryingMeans(hours, t, LatencyMedian(hours), InTotal);
    hide IsIdle, IsMedianLatency, IsProvenRate, IsNetRate, LatencyMedian, HealthyHours, Rate, NetRate, Memories,
         RanFine;
  }

  // the estimates

  lemma UpCarries(load: real, perMember: real)
    requires perMember > 0.0
    ensures Carriers(Up(load / perMember), load, perMember)
  {
    forall k: int
      ensures Up(load / perMember) <= k <==> load <= CarriedBy(k, perMember)
    {
      UpAtMost(load / perMember, k);
      Quotient(load, perMember, k as real + 0.000000001);
    }
  }

  lemma EstimatesAre(h: SignalHour, t: Targets, m: Model, est: map<Signal, int>)
    requires t.cpu > 0.0 && IsBy(h, t, m, est)
    ensures EstimatesMean(h, t, m, est)
  {
    hide Carriers, Up, Share, Load, Unhealthy, RunsSlow, Fails, NoSignal;
    UnhealthyIff(h, m.latencyMedian);
    if h.cpu.Some? {
      ShareCarries(Members(h), h.cpu.value, t.cpu);
    }
    if h.mem.Some? && m.memIdle.Some? && t.mem - m.memIdle.value >= 10.0 {
      ShareCarries(Members(h), h.mem.value - m.memIdle.value, t.mem - m.memIdle.value);
    }
    TotalIs(h.requests, m.requestsPerMember, est, Requests);
    TotalIs(h.netIn, m.netInPerMember, est, NetworkIn);
    TotalIs(h.netOut, m.netOutPerMember, est, NetworkOut);
    TriggerIs(h, t, m, est);
    hide TotalMeans, TotalNeed;
  }

  lemma TriggerIs(h: SignalHour, t: Targets, m: Model, est: map<Signal, int>)
    requires t.cpu > 0.0 && IsBy(h, t, m, est)
    ensures Trigger in est <==> forall s <- est :: s == Trigger
  {
    NoSignalIff(h, t, m);
    SomethingSays(h, t, m, est);
    hide NoSignal, CpuNeed, MemoryNeed, TotalNeed, Unhealthy;
  }

  lemma TotalIs(total: Option<real>, perMember: Option<real>, est: map<Signal, int>, s: Signal)
    requires s in est <==> TotalNeed(total, perMember).Some?
    requires s in est ==> Some(est[s]) == TotalNeed(total, perMember)
    ensures TotalMeans(total, perMember, est, s)
  {
    hide Carriers, Up;
    if total.Some? && perMember.Some? && perMember.value > 0.0 {
      UpCarries(total.value, perMember.value);
    }
  }

  /** Each hour's record: what each signal says of it, the need as the largest of one and those, and the signal that
      set it, for the model read off the hours. */
  method NeedByHour(hours: seq<SignalHour>, t: Targets) returns (needs: seq<HourNeed>)
    requires t.cpu > 0.0
    ensures |needs| == |hours| && IsModel(hours, t, SignalModel(hours, t))
    ensures forall k :: 0 <= k < |hours| ==>
      && needs[k].at == hours[k].at && needs[k].desired == (if hours[k].desired < 0 then 0 else hours[k].desired)
      && EstimatesMean(hours[k], t, SignalModel(hours, t), needs[k].est) && IsLargest(needs[k].est, needs[k].need)
      && IsBy(hours[k], t, SignalModel(hours, t), needs[k].est)
      && IsNeed(hours[k], t, SignalModel(hours, t), needs[k].need)
      && BindingIs(needs[k].est, needs[k].need, needs[k].binding)
  {
    hide Estimate, SignalModel, Names, EstimatesMean, IsModel, BindingIs;
    needs := [];
    ModelMeans(hours, t);
    var m := SignalModel(hours, t);
    for k := 0 to |hours|
      invariant |needs| == k
      invariant forall j :: 0 <= j < k ==>
        && needs[j].at == hours[j].at && needs[j].desired == Members(hours[j])
        && EstimatesMean(hours[j], t, m, needs[j].est) && IsLargest(needs[j].est, needs[j].need)
        && IsBy(hours[j], t, m, needs[j].est) && IsNeed(hours[j], t, m, needs[j].need)
        && BindingIs(needs[j].est, needs[j].need, needs[j].binding)
    {
      var est := Fill(hours[k], t, m);
      SomethingSays(hours[k], t, m, est);
      EstimatesAre(hours[k], t, m, est);
      var need := Largest(est);
      var binding := Binding(est, need);
      NamesIsBinding(est, need, binding);
      needs := needs + [HourNeed(hours[k].at, Members(hours[k]), need, binding, est)];
    }
  }

  lemma SomethingSays(h: SignalHour, t: Targets, m: Model, est: map<Signal, int>)
    requires t.cpu > 0.0 && IsBy(h, t, m, est)
    ensures exists s :: s in est
  {
    NoSignalIff(h, t, m);
    if NoSignal(h, t, m) {
      assert Estimate(h, t, m, Trigger).Some?;
    }
  }

  // ---- no healthy hour is sized above what ran it -------------------------------------------------------------------

  lemma {:induction false} HealthyAreHours(hours: seq<SignalHour>, t: Targets, median: Option<real>)
    ensures forall h :: h in HealthyHours(hours, t, median) <==> h in hours && Healthy(h, t, median)
  {
    if hours != [] {
      HealthyAreHours(hours[..|hours| - 1], t, median);
      assert hours == hours[..|hours| - 1] + [hours[|hours| - 1]];
    }
  }

  lemma {:induction false} PerMemberMembers(healthy: seq<SignalHour>, f: Total)
    requires forall h <- healthy :: h.desired > 0
    ensures forall x :: x in PerMember(healthy, f) <==>
      exists h :: h in healthy && Get(h, f).Some? && Get(h, f).value > 0.0 && x == Get(h, f).value / h.desired as real
  {
    if healthy != [] {
      PerMemberMembers(healthy[..|healthy| - 1], f);
      assert healthy == healthy[..|healthy| - 1] + [healthy[|healthy| - 1]];
    }
  }

  /** The busiest healthy hour is proof: a healthy hour never carries more per member than the learned rate, which
      some healthy hour attains. */
  lemma RateIsProven(healthy: seq<SignalHour>, f: Total)
    requires (forall h <- healthy :: h.desired > 0) && Rate(healthy, f).Some?
    ensures Rate(healthy, f).value > 0.0
    ensures exists h <- healthy :: Get(h, f).Some? && Get(h, f).value / h.desired as real == Rate(healthy, f).value
    ensures forall h <- healthy :: Get(h, f).Some? ==> Get(h, f).value <= h.desired as real * Rate(healthy, f).value
  {
    var xs, r := PerMember(healthy, f), Rate(healthy, f).value;
    PerMemberMembers(healthy, f);
    MaxOfMeaning(xs);
    var best :| best in healthy && Get(best, f).Some? && Get(best, f).value > 0.0 &&
        r == Get(best, f).value / best.desired as real;
    Positive(Get(best, f).value, best.desired as real);
    forall h | h in healthy && Get(h, f).Some?
      ensures Get(h, f).value <= h.desired as real * r
    {
      if Get(h, f).value > 0.0 {
        assert Get(h, f).value / h.desired as real in xs;
        Quotient(Get(h, f).value, h.desired as real, r);
      } else {
        Product(h.desired as real, r);
      }
    }
  }

  /** What a healthy hour moved fits on its members at the rate the model uses. */
  predicate NetFits(h: SignalHour, f: Total, perMember: Option<real>) {
    TotalNeed(Get(h, f), perMember).Some? ==> Get(h, f).value / perMember.value <= h.desired as real + TOLERANCE
  }

  lemma TotalFits(total: Option<real>, perMember: Option<real>, d: int)
    requires d >= 1 && (perMember.Some? ==> perMember.value > 0.0)
    requires total.Some? && perMember.Some? ==> total.value <= d as real * perMember.value
    ensures TotalNeed(total, perMember).Some? ==> TotalNeed(total, perMember).value <= d
  {
    if TotalNeed(total, perMember).Some? {
      Quotient(total.value, perMember.value, d as real);
      UpAtMost(total.value / perMember.value, d);
    }
  }

  lemma RequestsFit(hours: seq<SignalHour>, t: Targets, h: SignalHour)
    requires h in hours && Healthy(h, t, LatencyMedian(hours))
    ensures TotalNeed(h.requests, SignalModel(hours, t).requestsPerMember).Some? ==>
      TotalNeed(h.requests, SignalModel(hours, t).requestsPerMember).value <= h.desired
  {
    var healthy := HealthyHours(hours, t, LatencyMedian(hours));
    HealthyAreHours(hours, t, LatencyMedian(hours));
    var r := Rate(healthy, RequestTotal);
    if r.Some? {
      RateIsProven(healthy, RequestTotal);
      assert Get(h, RequestTotal) == h.requests;
      TotalFits(h.requests, r, h.desired);
    }
  }

  /** With no published bandwidth, or with enough healthy hours carrying the signal to learn a rate beside it, a
      healthy hour's network estimate stays within its members. */
  lemma NetworkFits(hours: seq<SignalHour>, t: Targets, h: SignalHour, f: Total)
    requires h in hours && Healthy(h, t, LatencyMedian(hours))
    requires t.netBytes.Some? ==> t.netBytes.value >= 0.0
    requires || t.netBytes.None? || t.netBytes.value == 0.0
             || |PerMember(HealthyHours(hours, t, LatencyMedian(hours)), f)| >= MIN_HEALTHY_HOURS
    ensures NetFits(h, f, NetRate(HealthyHours(hours, t, LatencyMedian(hours)), f, t))
  {
    var healthy := HealthyHours(hours, t, LatencyMedian(hours));
    HealthyAreHours(hours, t, LatencyMedian(hours));
    hide LatencyMedian, HealthyHours, PerMember, Unhealthy;
    var r := Rate(healthy, f);
    if r.Some? {
      RateIsProven(healthy, f);
      FitsAtTheRate(h, f, r.value, NetRate(healthy, f, t).value);
    }
  }

  lemma FitsAtTheRate(h: SignalHour, f: Total, rate: real, perMember: real)
    requires h.desired > 0 && 0.0 < rate <= perMember
    requires Get(h, f).Some? ==> Get(h, f).value <= h.desired as real * rate
    ensures NetFits(h, f, Some(perMember))
  {
    if Get(h, f).Some? {
      var d := h.desired as real;
      Product(d, perMember - rate);
      assert d * (perMember - rate) == d * perMember - d * rate;
      Quotient(Get(h, f).value, perMember, d);
    }
  }

  lemma CpuFits(h: SignalHour, t: Targets, median: Option<real>)
    requires t.cpu > 0.0 && Healthy(h, t, median)
    ensures CpuNeed(h, t).value <= h.desired
  {
    ShareAtMost(h.desired, h.cpu.value, t.cpu);
    UpAtMost(Share(h.desired, h.cpu.value, t.cpu), h.desired);
  }

  lemma MemoryFits(h: SignalHour, t: Targets, m: Model, median: Option<real>)
    requires Healthy(h, t, median)
    ensures MemoryNeed(h, t, m).Some? ==> MemoryNeed(h, t, m).value <= h.desired
  {
    if MemoryNeed(h, t, m).Some? {
      var room := t.mem - m.memIdle.value;
      if room >= MEM_SPREAD_MIN && h.mem.value > m.memIdle.value {
        ShareAtMost(h.desired, h.mem.value - m.memIdle.value, room);
        UpAtMost(Share(h.desired, h.mem.value - m.memIdle.value, room), h.desired);
      }
    }
  }

  /** The two network estimates are the only ones that can size a healthy hour above the members that ran it: it is
      kept within them exactly when both fit. */
  lemma NetworkDecides(hours: seq<SignalHour>, t: Targets, h: SignalHour, need: int)
    requires t.cpu > 0.0 && h in hours && Healthy(h, t, LatencyMedian(hours))
    requires IsNeed(h, t, SignalModel(hours, t), need)
    ensures var m := SignalModel(hours, t);
      need <= h.desired <==> NetFits(h, InTotal, m.netInPerMember) && NetFits(h, OutTotal, m.netOutPerMember)
  {
    var m := SignalModel(hours, t);
    CpuFits(h, t, LatencyMedian(hours));
    MemoryFits(h, t, m, LatencyMedian(hours));
    RequestsFit(hours, t, h);
    hide SignalModel, LatencyMedian, CpuNeed, MemoryNeed, TotalNeed, NetFits, Unhealthy;
    assert Estimate(h, t, m, NetworkIn) == TotalNeed(h.netIn, m.netInPerMember);
    assert Estimate(h, t, m, NetworkOut) == TotalNeed(h.netOut, m.netOutPerMember);
    if need > h.desired {
      var s :| Estimate(h, t, m, s) == Some(need);
      assert s == NetworkIn || s == NetworkOut;
    }
  }

  predicate Carries(h: SignalHour, f: Total) {
    Get(h, f).Some? && Get(h, f).value > 0.0
  }

  /** How many healthy hours carry the signal. */
  function Carrying(hours: seq<SignalHour>, t: Targets, median: Option<real>, f: Total): nat {
    if hours == [] then 0
    else
      Carrying(hours[..|hours| - 1], t, median, f)
      + if Healthy(hours[|hours| - 1], t, median) && Carries(hours[|hours| - 1], f) then 1 else 0
  }

  lemma {:induction false} CarryingCounts(hours: seq<SignalHour>, t: Targets, median: Option<real>, f: Total)
    ensures |PerMember(HealthyHours(hours, t, median), f)| == Carrying(hours, t, median, f)
  {
    if hours != [] {
      var rest := HealthyHours(hours[..|hours| - 1], t, median);
      CarryingCounts(hours[..|hours| - 1], t, median, f);
      if Healthy(hours[|hours| - 1], t, median) {
        var hs := HealthyHours(hours, t, median);
        assert hs[..|hs| - 1] == rest;
      } else {
        assert HealthyHours(hours, t, median) == rest;
      }
    }
  }

  predicate Published(t: Targets) {
    t.netBytes.Some? && t.netBytes.value != 0.0
  }

  /** One direction of a healthy hour's traffic stays within its members: no bandwidth is published, enough healthy
      hours carry the signal, the hour does not know it, or it moved no more than the bandwidth lets its members. */
  predicate WithinMembers(hours: seq<SignalHour>, t: Targets, h: SignalHour, f: Total) {
    || !Published(t)
    || Carrying(hours, t, LatencyMedian(hours), f) >= 24
    || Get(h, f).None?
    || Get(h, f).value <= CarriedBy(h.desired, t.netBytes.value)
  }

  lemma DirectionFitsIff(hours: seq<SignalHour>, t: Targets, h: SignalHour, f: Total)
    requires h in hours && Healthy(h, t, LatencyMedian(hours)) && (t.netBytes.Some? ==> t.netBytes.value >= 0.0)
    ensures NetFits(h, f, NetRate(HealthyHours(hours, t, LatencyMedian(hours)), f, t)) <==>
        WithinMembers(hours, t, h, f)
  {
    var median := LatencyMedian(hours);
    CarryingCounts(hours, t, median, f);
    hide LatencyMedian, PerMember, Healthy, Carrying, NetFits, TotalNeed, NetRate;
    if !Published(t) || Carrying(hours, t, median, f) >= MIN_HEALTHY_HOURS {
      NetworkFits(hours, t, h, f);
    } else {
      BandwidthIsRate(HealthyHours(hours, t, median), f, t);
      FitsIff(h, f, t.netBytes.value);
    }
  }

  lemma BandwidthIsRate(healthy: seq<SignalHour>, f: Total, t: Targets)
    requires (forall h <- healthy :: h.desired > 0) && |PerMember(healthy, f)| < MIN_HEALTHY_HOURS
    requires Published(t) && t.netBytes.value > 0.0
    ensures NetRate(healthy, f, t) == t.netBytes
  {
    hide PerMember;
  }

  lemma FitsIff(h: SignalHour, f: Total, perMember: real)
    requires perMember > 0.0
    ensures NetFits(h, f, Some(perMember)) <==>
      Get(h, f).None? || Get(h, f).value <= CarriedBy(h.desired, perMember)
  {
    if Get(h, f).Some? {
      Quotient(Get(h, f).value, perMember, h.desired as real + TOLERANCE);
    }
  }

  /** The promise "no hour can need more members than ran it healthily" holds of a healthy hour exactly when both
      directions of its traffic stay within its members. */
  lemma HealthyHourFitsIff(hours: seq<SignalHour>, t: Targets, h: SignalHour, need: int)
    requires t.cpu > 0.0 && (t.netBytes.Some? ==> t.netBytes.value >= 0.0)
    requires h in hours && Healthy(h, t, LatencyMedian(hours)) && IsNeed(h, t, SignalModel(hours, t), need)
    ensures need <= h.desired <==> WithinMembers(hours, t, h, InTotal) && WithinMembers(hours, t, h, OutTotal)
  {
    hide WithinMembers, NetFits;
    NetworkDecides(hours, t, h, need);
    DirectionFitsIff(hours, t, h, InTotal);
    DirectionFitsIff(hours, t, h, OutTotal);
  }

  /** So it holds of every healthy hour when no bandwidth is published, or enough healthy hours carry each signal. */
  lemma HealthyHourNotOversized(hours: seq<SignalHour>, t: Targets, h: SignalHour, need: int)
    requires t.cpu > 0.0 && h in hours && Healthy(h, t, LatencyMedian(hours))
    requires IsNeed(h, t, SignalModel(hours, t), need)
    requires t.netBytes.Some? ==> t.netBytes.value >= 0.0
    requires Published(t) ==> forall f ::
      f == InTotal || f == OutTotal ==> Carrying(hours, t, LatencyMedian(hours), f) >= 24
    ensures need <= h.desired
  {
    HealthyHourFitsIff(hours, t, h, need);
  }

  /** And it fails of every healthy hour that moved more than a published bandwidth lets its members, in a direction
      too few healthy hours carry. */
  lemma BandwidthAloneOversizes(hours: seq<SignalHour>, t: Targets, h: SignalHour, need: int, f: Total)
    requires t.cpu > 0.0 && h in hours && Healthy(h, t, LatencyMedian(hours)) && (f == InTotal || f == OutTotal)
    requires IsNeed(h, t, SignalModel(hours, t), need)
    requires t.netBytes.Some? && t.netBytes.value > 0.0 && Carrying(hours, t, LatencyMedian(hours), f) < 24
    requires Get(h, f).Some? && Get(h, f).value > CarriedBy(h.desired, t.netBytes.value)
    ensures need > h.desired
  {
    hide SignalModel, IsNeed, Carrying, Healthy, LatencyMedian, Get, CarriedBy;
    HealthyHourFitsIff(hours, t, h, need);
  }

  /** At its smallest: one healthy hour, one member, three times the published bandwidth: three members. */
  lemma OneHourOversized(h: SignalHour, t: Targets, need: int)
    requires h == SignalHour(0, 1, Some(10.0), None, None, None, Some(300.0), None, None, None)
    requires t == Targets(60.0, 80.0, 90.0, Some(100.0)) && IsNeed(h, t, SignalModel([h], t), need)
    ensures Healthy(h, t, LatencyMedian([h])) && h.desired == 1 && need == 3
  {
    NoLatency(h);
    HealthyAlone(h, t);
    hide LatencyMedian, HealthyHours, Healthy, SignalModel, NetRate;
    BandwidthIsRate(HealthyHours([h], t, None), InTotal, t);
    OneEstimate(h, t, SignalModel([h], t), need) by {
      ModelIs([h], t);
    }
  }

  lemma NoLatency(h: SignalHour)
    requires h.latency.None?
    ensures LatencyMedian([h]) == None
  {
    assert [h][..0] == [];
    assert Latencies([h]) == [];
  }

  lemma HealthyAlone(h: SignalHour, t: Targets)
    requires h.desired > 0 && h.cpu.Some? && h.cpu.value < t.cpu && h.mem.None? && h.latency.None? && h.errors.None?
    ensures Healthy(h, t, None) && |PerMember(HealthyHours([h], t, None), InTotal)| <= 1
  {
    assert [h][..0] == [];
    CarryingCounts([h], t, None, InTotal);
  }

  lemma ModelIs(hours: seq<SignalHour>, t: Targets)
    ensures var healthy := HealthyHours(hours, t, LatencyMedian(hours));
      SignalModel(hours, t).netInPerMember == NetRate(healthy, InTotal, t)
  {
    hide HealthyHours, LatencyMedian, Memories, Rate, NetRate;
  }

  lemma OneEstimate(h: SignalHour, t: Targets, m: Model, need: int)
    requires h == SignalHour(0, 1, Some(10.0), None, None, None, Some(300.0), None, None, None)
    requires t == Targets(60.0, 80.0, 90.0, Some(100.0)) && IsNeed(h, t, m, need) && m.netInPerMember == Some(100.0)
    ensures need == 3
  {
    assert Estimate(h, t, m, NetworkIn) == Some(Up(3.0));
    assert Estimate(h, t, m, Cpu) == Some(Up(Share(1, 10.0, 60.0)));
    OneShare();
    UpAtMost(3.0, 2);
    UpAtMost(3.0, 3);
  }

  lemma OneShare()
    ensures Up(Share(1, 10.0, 60.0)) <= 1
  {
    UpAtMost(Share(1, 10.0, 60.0), 1);
  }

  /** An hour that was unhealthy, or whose fullest disk is at the limit, never comes down from the members it ran; nor
      does an hour without any signal. */
  lemma HeldHoursDoNotShrink(h: SignalHour, t: Targets, m: Model, need: int)
    requires t.cpu > 0.0 && IsNeed(h, t, m, need)
    requires Unhealthy(h, m.latencyMedian) || (h.disk.Some? && h.disk.value >= t.disk) || NoSignal(h, t, m)
    ensures need >= h.desired
  {
    assert Estimate(h, t, m, Health) == Some(Members(h)) || Estimate(h, t, m, Disk) == Some(Members(h))
           || Estimate(h, t, m, Trigger) == Some(Members(h));
  }
}
