/**
 * The agent's throughput figures: cumulative counters differenced between samples and
 * divided by the elapsed time, in exact arithmetic.
 */
module Counters {
  import opened Wrappers
  import opened Types

  const U64: nat := 0x1_0000_0000_0000_0000
  const NANOS: real := 1000000000.0

  type DiskIo = map<string, (nat, nat)>

  datatype NetCounters = NetCounters(rx: nat, tx: nat, rxErrors: nat, txErrors: nat)

  /** One reading of the clock (nanoseconds) and of every cumulative counter. */
  datatype Sample = Sample(at: nat, io: DiskIo, net: NetCounters)

  /** `(cur.saturating_sub(was) as f64 / secs) as u64`; the cast truncates and saturates. */
  function Rate(cur: nat, was: nat, secs: real): nat {
    if secs <= 0.0 then 0
    else
      var whole := (SatSub(cur, was) as real / secs).Floor;
      if whole >= U64 then U64 - 1 else if whole < 0 then 0 else whole
  }

  /** `as_secs_f64`: a clock in nanoseconds. */
  function Secs(from: nat, to: nat): (s: real)
    ensures s * 1000000000.0 == (to - from) as real
  {
    (to - from) as real / NANOS
  }

  /** No usable interval before the first sample, nor between simultaneous ones. */
  function Elapsed(prev: Option<Sample>, now: nat): Option<real> {
    if prev.None? || now <= prev.value.at then None else Some(Secs(prev.value.at, now))
  }

  function Network(prev: Option<Sample>, cur: Sample): NetworkMetrics {
    var elapsed := Elapsed(prev, cur.at);
    if elapsed.None? then NetworkMetrics(0, 0, 0, 0)
    else
      var was := prev.value.net;
      NetworkMetrics(
        Rate(cur.net.rx, was.rx, elapsed.value),
        Rate(cur.net.tx, was.tx, elapsed.value),
        SatSub(cur.net.rxErrors, was.rxErrors),
        SatSub(cur.net.txErrors, was.txErrors))
  }

  /** A device missing now reads as zero; one missing before reads as unchanged. */
  function DeviceRates(prev: Option<Sample>, cur: Sample, device: string): (nat, nat) {
    var elapsed := Elapsed(prev, cur.at);
    if elapsed.None? then (0, 0)
    else
      var now := if device in cur.io then cur.io[device] else (0, 0);
      var was := if device in prev.value.io then prev.value.io[device] else now;
      (Rate(now.0, was.0, elapsed.value), Rate(now.1, was.1, elapsed.value))
  }

  /** `device.rsplit('/').next()`: what follows the last slash. */
  function Short(device: string): string {
    if device == [] then []
    else if Last(device) == '/' then []
    else Short(Front(device)) + [Last(device)]
  }

  /** It holds no slash, and what precedes it is empty or ends with one. */
  lemma {:induction false} ShortExactly(device: string) returns (before: string)
    ensures device == before + Short(device) && '/' !in Short(device)
    ensures before == "" || Last(before) == '/'
  {
    if device == [] || Last(device) == '/' {
      before := device;
    } else {
      before := ShortExactly(Front(device));
      assert device == Front(device) + [Last(device)];
    }
  }

  class Collector {
    var prev: Option<Sample>

    constructor ()
      ensures prev == None
    {
      prev := None;
    }

    /** The rates of one report, and the sample kept for the next. */
    method Collect(cur: Sample, devices: seq<string>) returns (network: NetworkMetrics, disks: seq<(nat, nat)>)
      modifies this
      ensures prev == Some(cur)
      ensures network == Network(old(prev), cur)
      ensures |disks| == |devices|
      ensures forall i :: 0 <= i < |devices| ==> disks[i] == DeviceRates(old(prev), cur, Short(devices[i]))
    {
      var elapsed := None;
      if prev.Some? && prev.value.at < cur.at {
        elapsed := Some(Secs(prev.value.at, cur.at));
      }
      disks := [];
      for i := 0 to |devices|
        invariant |disks| == i && prev == old(prev)
        invariant forall j :: 0 <= j < i ==> disks[j] == DeviceRates(prev, cur, Short(devices[j]))
      {
        var rates := BuildDisk(cur, Short(devices[i]), elapsed);
        disks := disks + [rates];
      }
      network := BuildNetwork(cur, elapsed);
      prev := Some(cur);
    }

    method BuildDisk(cur: Sample, short: string, elapsed: Option<real>) returns (rates: (nat, nat))
      requires elapsed == Elapsed(prev, cur.at)
      ensures rates == DeviceRates(prev, cur, short)
    {
      if elapsed.None? {
        return (0, 0);
      }
      var now := (0, 0);
      if short in cur.io {
        now := cur.io[short];
      }
      var was := now;
      if short in prev.value.io {
        was := prev.value.io[short];
      }
      return (Rate(now.0, was.0, elapsed.value), Rate(now.1, was.1, elapsed.value));
    }

    method BuildNetwork(cur: Sample, elapsed: Option<real>) returns (network: NetworkMetrics)
      requires elapsed == Elapsed(prev, cur.at)
      ensures network == Network(prev, cur)
    {
      network := NetworkMetrics(0, 0, 0, 0);
      if elapsed.Some? {
        var was := prev.value.net;
        var rx, tx := Rate(cur.net.rx, was.rx, elapsed.value), Rate(cur.net.tx, was.tx, elapsed.value);
        network := network.(rxBytesPerSec := rx, txBytesPerSec := tx);
        network := network.(rxErrors := SatSub(cur.net.rxErrors, was.rxErrors));
        network := network.(txErrors := SatSub(cur.net.txErrors, was.txErrors));
      }
    }
  }

  datatype Report = Report(network: NetworkMetrics, disks: seq<(nat, nat)>)

  /** The first report has nothing to difference against. */
  predicate Silent(r: Report) {
    r.network == NetworkMetrics(0, 0, 0, 0) && forall rates | rates in r.disks :: rates == (0, 0)
  }

  /** The figures of report `i` are those of the interval before sample `i`, counter by counter. */
  ghost predicate Tells(samples: seq<Sample>, devices: seq<string>, r: Report, i: nat)
    requires 1 <= i < |samples|
  {
    && |r.disks| == |devices|
    && (forall c: Counter :: NetReport(r.network, c) == NetSteps(samples, c)[i - 1].rate)
    && (forall j :: 0 <= j < |devices| ==>
          && Of(r.disks[j], false) == DiskSteps(samples, Short(devices[j]), false)[i - 1].rate
          && Of(r.disks[j], true) == DiskSteps(samples, Short(devices[j]), true)[i - 1].rate)
  }

  /** One collector fed a whole series of samples: each report is of the interval before it. */
  method CollectAll(samples: seq<Sample>, devices: seq<string>) returns (reports: seq<Report>)
    ensures |reports| == |samples|
    ensures samples != [] ==> Silent(reports[0])
    ensures forall i :: 1 <= i < |samples| ==> Tells(samples, devices, reports[i], i)
  {
    var c := new Collector();
    reports := [];
    for i := 0 to |samples|
      invariant fresh(c) && c.prev == Before(samples, i)
      invariant |reports| == i
      invariant forall j :: 0 <= j < i ==> IsReport(samples, devices, reports[j], j)
    {
      var network, disks := c.Collect(samples[i], devices);
      reports := reports + [Report(network, disks)];
    }
    forall i | 0 <= i < |samples|
      ensures if i == 0 then Silent(reports[i]) else Tells(samples, devices, reports[i], i)
    {
      ReportTells(samples, devices, reports[i], i);
    }
  }

  lemma ReportTells(samples: seq<Sample>, devices: seq<string>, r: Report, i: nat)
    requires i < |samples| && IsReport(samples, devices, r, i)
    ensures if i == 0 then Silent(r) else Tells(samples, devices, r, i)
  {
    if i > 0 {
      forall c: Counter ensures NetReport(r.network, c) == NetSteps(samples, c)[i - 1].rate {
        NetStepRate(samples, c, i);
      }
      forall j, writes: bool | 0 <= j < |devices|
        ensures Of(r.disks[j], writes) == DiskSteps(samples, Short(devices[j]), writes)[i - 1].rate
      {
        DiskStepRate(samples, Short(devices[j]), writes, i);
      }
    }
  }

  function Of(rates: (nat, nat), writes: bool): nat {
    if writes then rates.1 else rates.0
  }

  lemma NetStepRate(samples: seq<Sample>, c: Counter, i: nat)
    requires 1 <= i < |samples|
    ensures NetSteps(samples, c)[i - 1].rate == NetReport(Network(Before(samples, i), samples[i]), c)
  {
  }

  lemma DiskStepRate(samples: seq<Sample>, device: string, writes: bool, i: nat)
    requires 1 <= i < |samples|
    ensures DiskSteps(samples, device, writes)[i - 1].rate
      == Of(DeviceRates(Before(samples, i), samples[i], device), writes)
  {
  }

  /** What the collector returned for sample `i`. */
  predicate IsReport(samples: seq<Sample>, devices: seq<string>, r: Report, i: nat)
    requires i < |samples|
  {
    && r.network == Network(Before(samples, i), samples[i])
    && |r.disks| == |devices|
    && forall j :: 0 <= j < |devices| ==> r.disks[j] == DeviceRates(Before(samples, i), samples[i], Short(devices[j]))
  }

  function Before(samples: seq<Sample>, i: nat): Option<Sample>
    requires i <= |samples|
  {
    if i == 0 then None else Some(samples[i - 1])
  }

  // ------------------------------------------------------------------------------ one interval

  lemma DivOrder(a: real, b: real, c: real)
    requires c > 0.0
    ensures b <= a / c <==> b * c <= a
    ensures a / c < b <==> a < b * c
  {
    var q := a / c;
    assert q * c == a;
    if b <= q {
      assert b * c <= q * c;
    } else {
      assert q * c < b * c;
    }
  }

  /**
   * A reported rate accounts for the interval's growth to within one unit per second;
   * the upper half holds exactly when the true rate fits in 64 bits.
   */
  lemma RateBounds(cur: nat, was: nat, secs: real)
    requires secs > 0.0
    ensures Rate(cur, was, secs) as real * secs <= SatSub(cur, was) as real
    ensures SatSub(cur, was) as real < (Rate(cur, was, secs) as real + 1.0) * secs
      <==> SatSub(cur, was) as real < U64 as real * secs
  {
    var grown := SatSub(cur, was) as real;
    var rate := Rate(cur, was, secs) as real;
    DivOrder(grown, 0.0, secs);
    DivOrder(grown, rate, secs);
    DivOrder(grown, rate + 1.0, secs);
    DivOrder(grown, U64 as real, secs);
    assert grown / secs < rate + 1.0 <==> grown / secs < U64 as real;
  }

  /** A reset, a vanished device and a new device each report nothing. */
  lemma NoGrowthNoRate(prev: Sample, cur: Sample, device: string)
    requires prev.at < cur.at
    ensures
      var rates, net := DeviceRates(Some(prev), cur, device), Network(Some(prev), cur);
      && (device !in prev.io || device !in cur.io ==> rates == (0, 0))
      && (device in prev.io && device in cur.io && cur.io[device].0 <= prev.io[device].0 ==> rates.0 == 0)
      && (device in prev.io && device in cur.io && cur.io[device].1 <= prev.io[device].1 ==> rates.1 == 0)
      && (cur.net.rx <= prev.net.rx ==> net.rxBytesPerSec == 0)
      && (cur.net.tx <= prev.net.tx ==> net.txBytesPerSec == 0)
      && (cur.net.rxErrors <= prev.net.rxErrors ==> net.rxErrors == 0)
      && (cur.net.txErrors <= prev.net.txErrors ==> net.txErrors == 0)
  {
    assert 0.0 / Secs(prev.at, cur.at) == 0.0;
  }

  // ----------------------------------------------------------------------------- whole series

  /** One interval of one counter: what it did, the rate reported for it, its length. */
  datatype Step = Step(grown: nat, dropped: nat, rate: nat, secs: real) {
    predicate Sound() {
      rate as real * secs <= grown as real
    }

    predicate Tight() {
      grown as real < (rate as real + 1.0) * secs
    }

    /** More growth per second than a 64-bit rate can carry. */
    predicate Saturates() {
      grown as real >= U64 as real * secs
    }
  }

  function Grown(steps: seq<Step>): nat {
    if steps == [] then 0 else Grown(Front(steps)) + Last(steps).grown
  }

  function Dropped(steps: seq<Step>): nat {
    if steps == [] then 0 else Dropped(Front(steps)) + Last(steps).dropped
  }

  /** What a consumer integrating the reported rates computes. */
  function Volume(steps: seq<Step>): real {
    if steps == [] then 0.0 else Volume(Front(steps)) + Last(steps).rate as real * Last(steps).secs
  }

  function Duration(steps: seq<Step>): real {
    if steps == [] then 0.0 else Duration(Front(steps)) + Last(steps).secs
  }

  lemma TightSlack(s: Step)
    requires s.Tight()
    ensures s.grown as real < s.rate as real * s.secs + s.secs
  {
  }

  lemma {:induction false} VolumeBelowGrowth(steps: seq<Step>)
    requires forall i :: 0 <= i < |steps| ==> steps[i].Sound()
    ensures Volume(steps) <= Grown(steps) as real
  {
    if steps != [] {
      VolumeBelowGrowth(Front(steps));
      assert steps[|steps| - 1].Sound();
    }
  }

  lemma {:induction false} GrowthBelowCeiling(steps: seq<Step>)
    requires steps != [] && forall i :: 0 <= i < |steps| ==> steps[i].Tight()
    ensures Grown(steps) as real < Volume(steps) + Duration(steps)
  {
    TightSlack(steps[|steps| - 1]);
    if |steps| > 1 {
      GrowthBelowCeiling(Front(steps));
    } else {
      assert Front(steps) == [];
    }
  }

  predicate Increasing(samples: seq<Sample>) {
    forall i, j :: 0 <= i < j < |samples| ==> samples[i].at < samples[j].at
  }

  datatype Counter = RxBytes | TxBytes | RxErrors | TxErrors

  function NetValue(s: Sample, c: Counter): nat {
    match c
    case RxBytes => s.net.rx
    case TxBytes => s.net.tx
    case RxErrors => s.net.rxErrors
    case TxErrors => s.net.txErrors
  }

  function NetReport(r: NetworkMetrics, c: Counter): nat {
    match c
    case RxBytes => r.rxBytesPerSec
    case TxBytes => r.txBytesPerSec
    case RxErrors => r.rxErrors
    case TxErrors => r.txErrors
  }

  function NetStep(a: Sample, b: Sample, c: Counter): Step {
    Step(SatSub(NetValue(b, c), NetValue(a, c)), SatSub(NetValue(a, c), NetValue(b, c)),
      NetReport(Network(Some(a), b), c), Secs(a.at, b.at))
  }

  function DiskStep(a: Sample, b: Sample, device: string, writes: bool): Step {
    var (from, to) := (DiskValue(a, device, writes), DiskValue(b, device, writes));
    Step(SatSub(to, from), SatSub(from, to), Of(DeviceRates(Some(a), b, device), writes), Secs(a.at, b.at))
  }

  /** What the reports of one run said about one network counter, interval by interval. */
  function NetSteps(samples: seq<Sample>, c: Counter): seq<Step> {
    seq(Max(|samples| - 1, 0), i requires 0 <= i < |samples| - 1 => NetStep(samples[i], samples[i + 1], c))
  }

  /** The same for reads (`writes` false) or writes of one device; absent reads as zero. */
  function DiskSteps(samples: seq<Sample>, device: string, writes: bool): seq<Step> {
    seq(Max(|samples| - 1, 0), i requires 0 <= i < |samples| - 1 =>
      DiskStep(samples[i], samples[i + 1], device, writes))
  }

  function DiskValue(s: Sample, device: string, writes: bool): nat {
    if device !in s.io then 0 else if writes then s.io[device].1 else s.io[device].0
  }

  lemma {:induction false} GrowthTelescopes(samples: seq<Sample>, c: Counter)
    requires samples != []
    ensures
      var steps := NetSteps(samples, c);
      Grown(steps) + NetValue(samples[0], c) == NetValue(Last(samples), c) + Dropped(steps)
    ensures Duration(NetSteps(samples, c)) == Secs(samples[0].at, Last(samples).at)
  {
    if |samples| >= 2 {
      GrowthTelescopes(Front(samples), c);
      assert Front(NetSteps(samples, c)) == NetSteps(Front(samples), c);
    }
  }

  lemma ErrorIsGrowth(prev: Sample, cur: Sample, c: Counter)
    requires prev.at < cur.at && (c.RxErrors? || c.TxErrors?)
    ensures NetStep(prev, cur, c).rate == NetStep(prev, cur, c).grown
  {
  }

  lemma ErrorsAreGrowth(samples: seq<Sample>, c: Counter)
    requires Increasing(samples) && (c.RxErrors? || c.TxErrors?)
    ensures
      var steps := NetSteps(samples, c);
      forall i :: 0 <= i < |steps| ==> steps[i].rate == steps[i].grown
  {
    var steps := NetSteps(samples, c);
    forall i | 0 <= i < |steps| ensures steps[i].rate == steps[i].grown {
      assert samples[i].at < samples[i + 1].at;
      ErrorIsGrowth(samples[i], samples[i + 1], c);
      assert steps[i] == NetStep(samples[i], samples[i + 1], c);
    }
  }

  function Reported(steps: seq<Step>): nat {
    if steps == [] then 0 else Reported(Front(steps)) + Last(steps).rate
  }

  lemma {:induction false} ReportedIsGrown(steps: seq<Step>)
    requires forall i :: 0 <= i < |steps| ==> steps[i].rate == steps[i].grown
    ensures Reported(steps) == Grown(steps)
  {
    if steps != [] {
      ReportedIsGrown(Front(steps));
      assert Last(steps) == steps[|steps| - 1];
    }
  }

  lemma NetRateIs(prev: Sample, cur: Sample, c: Counter)
    requires prev.at < cur.at && (c.RxBytes? || c.TxBytes?)
    ensures NetReport(Network(Some(prev), cur), c)
      == Rate(NetValue(cur, c), NetValue(prev, c), Secs(prev.at, cur.at))
  {
  }

  lemma NetIntervalSound(prev: Sample, cur: Sample, c: Counter)
    requires prev.at < cur.at && (c.RxBytes? || c.TxBytes?)
    ensures NetStep(prev, cur, c).Sound()
    ensures NetStep(prev, cur, c).Tight() <==> !NetStep(prev, cur, c).Saturates()
  {
    NetRateIs(prev, cur, c);
    RateStep(NetValue(cur, c), NetValue(prev, c), Secs(prev.at, cur.at));
  }

  lemma NetStepSound(samples: seq<Sample>, c: Counter, i: nat)
    requires Increasing(samples) && (c.RxBytes? || c.TxBytes?) && i < |samples| - 1
    ensures NetSteps(samples, c)[i].Sound()
    ensures NetSteps(samples, c)[i].Tight() <==> !NetSteps(samples, c)[i].Saturates()
  {
    assert samples[i].at < samples[i + 1].at;
    NetIntervalSound(samples[i], samples[i + 1], c);
    assert NetSteps(samples, c)[i] == NetStep(samples[i], samples[i + 1], c);
  }

  lemma DeviceRateIs(prev: Sample, cur: Sample, device: string, writes: bool)
    requires prev.at < cur.at && device in prev.io && device in cur.io
    ensures
      Of(DeviceRates(Some(prev), cur, device), writes)
        == Rate(DiskValue(cur, device, writes), DiskValue(prev, device, writes), Secs(prev.at, cur.at))
  {
  }

  lemma RateStep(cur: nat, was: nat, secs: real)
    requires secs > 0.0
    ensures
      var step := Step(SatSub(cur, was), SatSub(was, cur), Rate(cur, was, secs), secs);
      step.Sound() && (step.Tight() <==> !step.Saturates())
  {
    RateBounds(cur, was, secs);
  }

  lemma DiskIntervalSound(prev: Sample, cur: Sample, device: string, writes: bool)
    requires prev.at < cur.at && device in prev.io && device in cur.io
    ensures DiskStep(prev, cur, device, writes).Sound()
    ensures DiskStep(prev, cur, device, writes).Tight() <==> !DiskStep(prev, cur, device, writes).Saturates()
  {
    DeviceRateIs(prev, cur, device, writes);
    RateStep(DiskValue(cur, device, writes), DiskValue(prev, device, writes), Secs(prev.at, cur.at));
  }

  lemma DiskStepSound(samples: seq<Sample>, device: string, writes: bool, i: nat)
    requires Increasing(samples) && i < |samples| - 1
    requires device in samples[i].io && device in samples[i + 1].io
    ensures DiskSteps(samples, device, writes)[i].Sound()
    ensures DiskSteps(samples, device, writes)[i].Tight() <==> !DiskSteps(samples, device, writes)[i].Saturates()
  {
    assert samples[i].at < samples[i + 1].at;
    DiskIntervalSound(samples[i], samples[i + 1], device, writes);
    assert DiskSteps(samples, device, writes)[i] == DiskStep(samples[i], samples[i + 1], device, writes);
  }

  /**
   * Counter telescoping, bytes: integrating the reported rates never exceeds what the
   * counter grew by, and unless a report saturated falls short of it by less than one
   * byte per elapsed second. Growth is net change plus whatever resets took away.
   */
  lemma NetworkBytesTelescope(samples: seq<Sample>, c: Counter)
    requires Increasing(samples) && |samples| >= 2 && (c.RxBytes? || c.TxBytes?)
    ensures
      var steps := NetSteps(samples, c);
      && Volume(steps) <= Grown(steps) as real
      && ((forall i :: 0 <= i < |steps| ==> !steps[i].Saturates()) ==>
            Grown(steps) as real < Volume(steps) + Secs(samples[0].at, Last(samples).at))
      && Grown(steps) + NetValue(samples[0], c) == NetValue(Last(samples), c) + Dropped(steps)
  {
    var steps := NetSteps(samples, c);
    forall i | 0 <= i < |steps| ensures steps[i].Sound() && (steps[i].Tight() <==> !steps[i].Saturates()) {
      NetStepSound(samples, c, i);
    }
    VolumeBelowGrowth(steps);
    if forall i :: 0 <= i < |steps| ==> !steps[i].Saturates() {
      GrowthBelowCeiling(steps);
    }
    GrowthTelescopes(samples, c);
  }

  /** Errors are reported as counts, so their sum is the growth exactly. */
  lemma NetworkErrorsTelescope(samples: seq<Sample>, c: Counter)
    requires Increasing(samples) && samples != [] && (c.RxErrors? || c.TxErrors?)
    ensures
      var steps := NetSteps(samples, c);
      Reported(steps) + NetValue(samples[0], c) == NetValue(Last(samples), c) + Dropped(steps)
  {
    ErrorsAreGrowth(samples, c);
    ReportedIsGrown(NetSteps(samples, c));
    GrowthTelescopes(samples, c);
  }

  /** The bytes result for one device over any stretch it is continuously present in. */
  lemma DiskBytesTelescope(samples: seq<Sample>, device: string, writes: bool)
    requires Increasing(samples) && |samples| >= 2
    requires forall i :: 0 <= i < |samples| ==> device in samples[i].io
    ensures
      var steps := DiskSteps(samples, device, writes);
      && Volume(steps) <= Grown(steps) as real
      && ((forall i :: 0 <= i < |steps| ==> !steps[i].Saturates()) ==>
            Grown(steps) as real < Volume(steps) + Secs(samples[0].at, Last(samples).at))
      && Grown(steps) + DiskValue(samples[0], device, writes)
           == DiskValue(Last(samples), device, writes) + Dropped(steps)
  {
    var steps := DiskSteps(samples, device, writes);
    forall i | 0 <= i < |steps| ensures steps[i].Sound() && (steps[i].Tight() <==> !steps[i].Saturates()) {
      DiskStepSound(samples, device, writes, i);
    }
    VolumeBelowGrowth(steps);
    if forall i :: 0 <= i < |steps| ==> !steps[i].Saturates() {
      GrowthBelowCeiling(steps);
    }
    DiskGrowthTelescopes(samples, device, writes);
  }

  lemma {:induction false} DiskGrowthTelescopes(samples: seq<Sample>, device: string, writes: bool)
    requires samples != []
    ensures
      var steps := DiskSteps(samples, device, writes);
      Grown(steps) + DiskValue(samples[0], device, writes)
        == DiskValue(Last(samples), device, writes) + Dropped(steps)
    ensures Duration(DiskSteps(samples, device, writes)) == Secs(samples[0].at, Last(samples).at)
  {
    if |samples| >= 2 {
      DiskGrowthTelescopes(Front(samples), device, writes);
      assert Front(DiskSteps(samples, device, writes)) == DiskSteps(Front(samples), device, writes);
    }
  }
}
