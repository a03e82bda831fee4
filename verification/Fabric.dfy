/** ECMP imbalance detection: apps/telemetry-api/services/fabric.py. */
module Fabric {
  import opened Statistics
  import opened Grouping

  const MAX_MEAN_RATIO_THRESHOLD := 1.5
  const CV_THRESHOLD := 0.3
  const MIN_MEAN_UTIL_PCT := 5.0

  datatype Severity = Low | Medium | High

  /** `cv` is kept squared, so that no square root is needed; `maxMeanRatio` is rounded to cents. */
  datatype Metrics = Metrics(cvSquared: real, maxMeanRatio: real, isImbalanced: bool, reason: string)

  /** `round(x, 2)`. */
  function Cents(x: real): real { RoundHalfEven(x * 100.0) as real / 100.0 }

  function MaxMeanRatio(utils: seq<real>): (ratio: real)
    requires utils != [] && Mean(utils) > 0.0
    ensures ratio * Mean(utils) == Max(utils)
  {
    Max(utils) / Mean(utils)
  }

  function CvSquared(utils: seq<real>): (c2: real)
    requires utils != [] && Mean(utils) > 0.0
    ensures c2 * Square(Mean(utils)) == Variance(utils)
  {
    SquarePositive(Mean(utils));
    Variance(utils) / Square(Mean(utils))
  }

  /** `_imbalance_metrics`. */
  function ImbalanceMetrics(utils: seq<real>): Metrics {
    var mean := if utils == [] then 0.0 else Mean(utils);
    if |utils| < 2 || mean < MIN_MEAN_UTIL_PCT then
      Metrics(0.0, 1.0, false, if mean < MIN_MEAN_UTIL_PCT then "below_min_util" else "insufficient_members")
    else
      var cvSquared, ratio := CvSquared(utils), MaxMeanRatio(utils);
      var imbalanced := cvSquared > CV_THRESHOLD * CV_THRESHOLD || ratio > MAX_MEAN_RATIO_THRESHOLD;
      Metrics(cvSquared, Cents(ratio), imbalanced, if imbalanced then "imbalanced" else "balanced")
  }

  /** Groups the two tests look at: two members or more, busy enough, no negative utilization. */
  predicate Measured(utils: seq<real>) {
    |utils| >= 2 && NonNegative(utils) && Mean(utils) >= MIN_MEAN_UTIL_PCT
  }

  /** Comparing squares decides the coefficient-of-variation test that the service makes on roots. */
  lemma CvComparedSquared(utils: seq<real>, stddev: real, cv: real)
    requires Measured(utils) && stddev >= 0.0 && stddev * stddev == Variance(utils)
    requires cv * Mean(utils) == stddev
    ensures cv > CV_THRESHOLD <==> CvSquared(utils) > CV_THRESHOLD * CV_THRESHOLD
  {
    CvSquares(cv, stddev, Mean(utils), Variance(utils), CvSquared(utils));
  }

  lemma CvSquares(cv: real, sd: real, m: real, v: real, c2: real)
    requires m > 0.0 && sd >= 0.0 && Square(sd) == v && sd == cv * m && c2 * Square(m) == v
    ensures cv > 0.3 <==> c2 > 0.09
  {
    SquarePositive(m);
    assert Square(sd) == Square(m) * Square(cv);
    CancelLeft(Square(m), c2, Square(cv));
    CancelLeft(Square(m), Square(cv), c2);
    CancelLeft(m, 0.0, cv);
    SquareOrder(cv);
  }

  lemma SquareOrder(x: real)
    requires x >= 0.0
    ensures x > 0.3 <==> Square(x) > 0.09
  {
    var y := x - 0.3;
    assert Square(x) == 0.09 + y * (x + 0.3);
    if y > 0.0 {
      SameSign(y, x + 0.3, y * (x + 0.3));
    } else if y < 0.0 {
      SameSign(-y, x + 0.3, -(y * (x + 0.3)));
    }
  }

  predicate Spread(n: real, m: real, top: real, v: real) {
    n >= 1.0 && m > 0.0 && Square(top - m) <= (n - 1.0) * v && v <= (n - 1.0) * Square(m) && m <= top <= n * m
  }

  predicate Bounds(n: real, ratio: real, c2: real) {
    Square(ratio - 1.0) <= (n - 1.0) * c2 && c2 <= n - 1.0 && 1.0 <= ratio <= n
  }

  predicate Measures(m: real, top: real, v: real, ratio: real, c2: real) {
    ratio * m == top && c2 * Square(m) == v
  }

  lemma RatioArithmetic(n: real, m: real, top: real, v: real, ratio: real, c2: real)
    requires Spread(n, m, top, v) && Measures(m, top, v, ratio, c2)
    ensures Bounds(n, ratio, c2)
  {
    SquarePositive(m);
    assert top - m == (ratio - 1.0) * m;
    assert Square(top - m) == Square(m) * Square(ratio - 1.0);
    assert (n - 1.0) * v == Square(m) * ((n - 1.0) * c2);
    CancelLeft(Square(m), Square(ratio - 1.0), (n - 1.0) * c2);
    assert Square(m) * c2 == v && Square(m) * (n - 1.0) == (n - 1.0) * Square(m);
    CancelLeft(Square(m), c2, n - 1.0);
    RatioRange(n, m, top, ratio);
  }

  lemma RatioRange(n: real, m: real, top: real, ratio: real)
    requires m > 0.0 && ratio * m == top && m <= top <= n * m
    ensures 1.0 <= ratio <= n
  {
    if ratio < 1.0 { SameSign(1.0 - ratio, m, (1.0 - ratio) * m); }
    if ratio > n { SameSign(ratio - n, m, (ratio - n) * m); }
  }

  lemma SpreadOf(utils: seq<real>, n: real)
    requires Measured(utils) && n == |utils| as real
    ensures Spread(n, Mean(utils), Max(utils), Variance(utils))
  {
    MaxDistance(utils, n);
    MeanBounds(utils, n, Max(utils));
    VarianceBound(utils, n);
  }

  lemma MeasuresOf(utils: seq<real>)
    requires utils != [] && Mean(utils) > 0.0
    ensures Measures(Mean(utils), Max(utils), Variance(utils), MaxMeanRatio(utils), CvSquared(utils))
  {}

  /** The three bounds tying the two imbalance measures together:
      (ratio-1)^2 <= (n-1) cv^2, cv^2 <= n-1 and 1 <= ratio <= n. */
  lemma ImbalanceBounds(utils: seq<real>, n: real)
    requires Measured(utils) && n == |utils| as real
    ensures Bounds(n, MaxMeanRatio(utils), CvSquared(utils))
  {
    SpreadOf(utils, n);
    MeasuresOf(utils);
    RatioArithmetic(n, Mean(utils), Max(utils), Variance(utils), MaxMeanRatio(utils), CvSquared(utils));
  }

  lemma MaxDistance(utils: seq<real>, n: real)
    requires utils != [] && n == |utils| as real
    ensures Square(Max(utils) - Mean(utils)) <= (n - 1.0) * Variance(utils)
  {
    var j :| 0 <= j < |utils| && utils[j] == Max(utils);
    Samuelson(utils, j, n);
  }

  predicate RatioFlags(utils: seq<real>)
    requires Measured(utils)
  {
    MaxMeanRatio(utils) > MAX_MEAN_RATIO_THRESHOLD
  }

  predicate CvFlags(utils: seq<real>)
    requires Measured(utils)
  {
    CvSquared(utils) > CV_THRESHOLD * CV_THRESHOLD
  }

  lemma RatioImpliesCv(utils: seq<real>)
    requires Measured(utils) && |utils| <= 3 && RatioFlags(utils)
    ensures CvFlags(utils)
  {
    var n := |utils| as real;
    ImbalanceBounds(utils, n);
    var excess, c2 := MaxMeanRatio(utils) - 1.0, CvSquared(utils);
    assert excess > 0.5;
    SameSign(excess - 0.5, excess + 0.5, (excess - 0.5) * (excess + 0.5));
    assert Square(excess) == 0.25 + (excess - 0.5) * (excess + 0.5);
    assert n == 2.0 || n == 3.0;
  }

  /** The verdict, told by mean, variance and maximum alone: enough members, busy enough, and a coefficient of variation
      over 0.3 or a maximum over one and a half means. */
  predicate Uneven(utils: seq<real>) {
    |utils| >= 2 && Mean(utils) >= 5.0
    && (100.0 * Variance(utils) > 9.0 * Square(Mean(utils)) || 2.0 * Max(utils) > 3.0 * Mean(utils))
  }

  predicate Spreads(utils: seq<real>) {
    |utils| >= 2 && Mean(utils) >= 5.0 && 100.0 * Variance(utils) > 9.0 * Square(Mean(utils))
  }

  lemma CvTest(m: real, v: real, c2: real)
    requires m > 0.0 && c2 * Square(m) == v
    ensures c2 > 0.09 <==> 100.0 * v > 9.0 * Square(m)
  {
    SquarePositive(m);
    if c2 > 0.09 { SameSign(c2 - 0.09, Square(m), (c2 - 0.09) * Square(m)); }
    if c2 < 0.09 { SameSign(0.09 - c2, Square(m), (0.09 - c2) * Square(m)); }
  }

  lemma RatioTest(m: real, top: real, ratio: real)
    requires m > 0.0 && ratio * m == top
    ensures ratio > 1.5 <==> 2.0 * top > 3.0 * m
  {
    if ratio > 1.5 { SameSign(ratio - 1.5, m, (ratio - 1.5) * m); }
    if ratio < 1.5 { SameSign(1.5 - ratio, m, (1.5 - ratio) * m); }
  }

  lemma CentsAreNear(x: real)
    ensures -0.005 <= Cents(x) - x <= 0.005
  {
    var k := RoundHalfEven(x * 100.0);
    RoundReaches(x * 100.0, k);
    RoundReaches(x * 100.0, k + 1);
    assert Cents(x) * 100.0 == k as real;
  }

  /** The verdict on any list of utilizations, and the reason given for it. */
  lemma VerdictIff(utils: seq<real>)
    ensures var metrics := ImbalanceMetrics(utils);
      (metrics.isImbalanced <==> Uneven(utils))
      && (metrics.reason == "imbalanced" <==> Uneven(utils))
      && (metrics.reason == "below_min_util" <==> utils == [] || Mean(utils) < 5.0)
      && (metrics.reason == "insufficient_members" <==> |utils| == 1 && Mean(utils) >= 5.0)
      && (metrics.reason == "balanced" <==> |utils| >= 2 && Mean(utils) >= 5.0 && !Uneven(utils))
  {
    assert "imbalanced"[0] == 'i' && "below_min_util"[0] == 'b' && "below_min_util"[1] == 'e';
    assert "insufficient_members"[1] == 'n' && "balanced"[1] == 'a' && "imbalanced"[1] == 'm' && "balanced"[0] == 'b';
    if |utils| >= 2 && Mean(utils) >= 5.0 {
      CvTest(Mean(utils), Variance(utils), CvSquared(utils));
      RatioTest(Mean(utils), Max(utils), MaxMeanRatio(utils));
    }
  }

  /** What is shown beside the verdict: no spread for groups that are not measured, else the two measures, the ratio to
      within half a cent. */
  lemma MetricsShown(utils: seq<real>)
    ensures var metrics := ImbalanceMetrics(utils);
      if |utils| >= 2 && Mean(utils) >= 5.0 then
        metrics.cvSquared == CvSquared(utils)
        && MaxMeanRatio(utils) - 0.005 <= metrics.maxMeanRatio <= MaxMeanRatio(utils) + 0.005
      else metrics.cvSquared == 0.0 && metrics.maxMeanRatio == 1.0
  {
    if |utils| >= 2 && Mean(utils) >= 5.0 { CentsAreNear(MaxMeanRatio(utils)); }
  }

  /** One member at 1.51 means, the others level: past the ratio test, within the variation test. */
  function RatioOnly(n: nat): seq<real>
    requires n >= 4
  {
    OneApart(n, 15.1, (10.0 * n as real - 15.1) / (n as real - 1.0))
  }

  lemma RatioOnlyArithmetic(n: real, b: real, m: real, v: real)
    requires n >= 4.0 && b == (10.0 * n - 15.1) / (n - 1.0)
    requires ApartMoments(n, 15.1, b, m, v)
    ensures m == 10.0 && b >= 0.0 && v <= 0.09 * Square(m)
  {
    assert (n - 1.0) * b == 10.0 * n - 15.1;
    assert n * m == n * 10.0;
    CancelLeft(n, m, 10.0);
    CancelLeft(n, 10.0, m);
    assert (n - 1.0) * (15.1 - b) == n * 5.1;
    RatioOnlyVariance(n, n - 1.0, 15.1 - b, v);
  }

  lemma RatioOnlyVariance(n: real, k: real, d: real, v: real)
    requires n >= 4.0 && k == n - 1.0 && k * d == n * 5.1 && v * Square(n) == k * Square(d)
    ensures v <= 9.0
  {
    assert Square(k * d) == k * (k * Square(d));
    assert Square(n * 5.1) == Square(n) * 26.01;
    assert k * (v * Square(n)) == Square(n) * (k * v);
    SquarePositive(n);
    CancelLeft(Square(n), k * v, 26.01);
    assert k * v <= 26.01 <= k * 9.0;
    CancelLeft(k, v, 9.0);
  }

  lemma RatioOnlyEscapesCv(n: nat)
    requires n >= 4
    ensures Measured(RatioOnly(n)) && |RatioOnly(n)| == n
    ensures RatioFlags(RatioOnly(n)) && !CvFlags(RatioOnly(n))
  {
    var utils, rn := RatioOnly(n), n as real;
    var b := (10.0 * rn - 15.1) / (rn - 1.0);
    OneApartMoments(n, rn, 15.1, b);
    RatioOnlyArithmetic(rn, b, Mean(utils), Variance(utils));
    assert utils[0] == 15.1;
    assert Max(utils) >= 15.1;
  }

  /** The variation test alone gives the verdict exactly for groups of two or three links. */
  lemma RatioTestRedundantIff(n: nat)
    requires n >= 2
    ensures (forall utils :: |utils| == n && NonNegative(utils) ==>
               (ImbalanceMetrics(utils).isImbalanced <==> Spreads(utils)))
       <==> n <= 3
    ensures (forall utils :: |utils| == n && Measured(utils) && RatioFlags(utils) ==> CvFlags(utils)) <==> n <= 3
  {
    RatioFlagsAreCvFlagsIff(n);
    forall utils | |utils| == n && NonNegative(utils)
      ensures ImbalanceMetrics(utils).isImbalanced <==> Spreads(utils) || (Measured(utils) && RatioFlags(utils))
      ensures Measured(utils) ==> (Spreads(utils) <==> CvFlags(utils))
    {
      FlagsSplit(utils);
    }
    if n >= 4 {
      RatioOnlyEscapesCv(n);
      assert NonNegative(RatioOnly(n)) && !Spreads(RatioOnly(n));
    }
  }

  lemma FlagsSplit(utils: seq<real>)
    requires |utils| >= 2 && NonNegative(utils)
    ensures ImbalanceMetrics(utils).isImbalanced <==> Spreads(utils) || (Measured(utils) && RatioFlags(utils))
    ensures Measured(utils) ==> (Spreads(utils) <==> CvFlags(utils))
  {
    VerdictIff(utils);
    if Measured(utils) {
      CvTest(Mean(utils), Variance(utils), CvSquared(utils));
      RatioTest(Mean(utils), Max(utils), MaxMeanRatio(utils));
    }
  }

  /** The max/mean test adds nothing to the variation test exactly for groups of two or three links. */
  lemma RatioFlagsAreCvFlagsIff(n: nat)
    requires n >= 2
    ensures (forall utils :: |utils| == n && Measured(utils) && RatioFlags(utils) ==> CvFlags(utils)) <==> n <= 3
  {
    if n <= 3 {
      forall utils | |utils| == n && Measured(utils) && RatioFlags(utils)
        ensures CvFlags(utils)
      {
        RatioImpliesCv(utils);
      }
    } else {
      RatioOnlyEscapesCv(n);
      var utils := RatioOnly(n);
      assert |utils| == n && Measured(utils) && RatioFlags(utils) && !CvFlags(utils);
    }
  }

  // ---------------------------------------------------------------- detection over devices and groups

  datatype Group = Group(name: string, members: seq<string>, source: string)

  datatype Device = Device(name: string, groups: seq<Group>, utils: map<string, real>)

  datatype Entry = Entry(device: string, group: Group, members: seq<(string, real)>, metrics: Metrics)

  /** The configured members that carried traffic in the window, with their utilization. */
  function Members(names: seq<string>, utils: map<string, real>): (members: seq<(string, real)>)
    ensures |members| <= |names|
    ensures forall k :: 0 <= k < |members| ==>
      members[k].0 in names && members[k].0 in utils && members[k].1 == utils[members[k].0]
  {
    if names == [] then []
    else
      var init := Members(names[..|names| - 1], utils);
      var last := names[|names| - 1];
      if last in utils then init + [(last, utils[last])] else init
  }

  function Utils(members: seq<(string, real)>): (utils: seq<real>)
    ensures |utils| == |members|
  {
    seq(|members|, i requires 0 <= i < |members| => members[i].1)
  }

  function EntryOf(device: Device, group: Group): Entry {
    var members := Members(group.members, device.utils);
    Entry(device.name, group, members, ImbalanceMetrics(Utils(members)))
  }

  predicate Reported(device: Device, group: Group) { |Members(group.members, device.utils)| >= 2 }

  /** `_overall_severity` over the rounded ratios of the imbalanced groups. */
  function OverallSeverity(ratios: seq<real>): Severity {
    if ratios == [] then Low
    else if Max(ratios) >= 3.0 then High
    else if Max(ratios) >= 2.0 then Medium
    else Low
  }

  function Ratios(entries: seq<Entry>): (ratios: seq<real>)
    ensures |ratios| == |entries|
  {
    seq(|entries|, i requires 0 <= i < |entries| => entries[i].metrics.maxMeanRatio)
  }

  predicate UtilsNonNegative(devices: seq<Device>) {
    forall d, name :: d in devices && name in d.utils ==> d.utils[name] >= 0.0
  }

  /** Rounding to cents moves the severity cut-offs to 1.995 and 2.995. */
  lemma RoundedCutoffs(ratio: real)
    ensures Cents(ratio) >= 2.0 <==> ratio >= 1.995
    ensures Cents(ratio) >= 3.0 <==> ratio >= 2.995
  {
    RoundReaches(ratio * 100.0, 200);
    RoundReaches(ratio * 100.0, 300);
  }

  predicate ReportedGroup(e: Entry, devices: seq<Device>) {
    exists d, g :: d in devices && g in d.groups && Reported(d, g) && e == EntryOf(d, g)
  }

  /** An imbalanced group can only rate "high" with three members, and "medium" or more from 1.995. */
  lemma ImbalancedEntry(e: Entry, devices: seq<Device>)
    requires ReportedGroup(e, devices) && e.metrics.isImbalanced && UtilsNonNegative(devices)
    ensures Measured(Utils(e.members))
    ensures e.metrics.maxMeanRatio >= 3.0 <==> MaxMeanRatio(Utils(e.members)) >= 2.995
    ensures e.metrics.maxMeanRatio >= 2.0 <==> MaxMeanRatio(Utils(e.members)) >= 1.995
    ensures e.metrics.maxMeanRatio >= 3.0 ==> |e.members| >= 3
  {
    var d, g :| d in devices && g in d.groups && Reported(d, g) && e == EntryOf(d, g);
    var utils := Utils(e.members);
    assert NonNegative(utils);
    RoundedCutoffs(MaxMeanRatio(utils));
    ImbalanceBounds(utils, |utils| as real);
  }

  /** The entry is what should be reported of a group: the members that carried traffic, in order, two or more. */
  predicate Reports(e: Entry, d: Device, g: Group) {
    var active := FiledUnder(g.members, (name: string) => name in d.utils, true);
    e.device == d.name && e.group == g && |e.members| == |active| >= 2
    && (forall k :: 0 <= k < |active| ==> active[k] in d.utils && e.members[k] == (active[k], d.utils[active[k]]))
    && e.metrics == ImbalanceMetrics(Utils(e.members))
  }

  lemma {:induction false} MembersAreActive(names: seq<string>, utils: map<string, real>)
    ensures var active := FiledUnder(names, (name: string) => name in utils, true);
      |Members(names, utils)| == |active|
      && forall k :: 0 <= k < |active| ==>
           active[k] in utils && Members(names, utils)[k] == (active[k], utils[active[k]])
  {
    if names != [] { MembersAreActive(names[..|names| - 1], utils); }
  }

  lemma ReportsEntry(e: Entry, d: Device, g: Group)
    ensures Reports(e, d, g) <==> Reported(d, g) && e == EntryOf(d, g)
  {
    MembersAreActive(g.members, d.utils);
    if Reports(e, d, g) { assert e.members == Members(g.members, d.utils); }
  }

  lemma ReportedGroupIff(e: Entry, devices: seq<Device>)
    ensures ReportedGroup(e, devices) <==> exists d, g :: d in devices && g in d.groups && Reports(e, d, g)
  {
    if d, g :| d in devices && g in d.groups && Reported(d, g) && e == EntryOf(d, g) { ReportsEntry(e, d, g); }
    if d, g :| d in devices && g in d.groups && Reports(e, d, g) { ReportsEntry(e, d, g); }
  }

  lemma ReportedNext(devices: seq<Device>, i: nat, before: seq<Entry>, after: seq<Entry>)
    requires i < |devices|
    requires forall e :: e in before <==> ReportedGroup(e, devices[..i])
    requires forall e :: e in after <==>
      e in before || exists g :: g in devices[i].groups && Reported(devices[i], g) && e == EntryOf(devices[i], g)
    ensures forall e :: e in after <==> ReportedGroup(e, devices[..i + 1])
  {
    assert devices[..i + 1] == devices[..i] + [devices[i]];
    forall e | ReportedGroup(e, devices[..i + 1])
      ensures e in after
    {
      var d, g :| d in devices[..i + 1] && g in d.groups && Reported(d, g) && e == EntryOf(d, g);
      if d in devices[..i] { assert ReportedGroup(e, devices[..i]); }
    }
  }

  /** `groups` holds what it held before and the reported ones of the device's first `j` groups. */
  ghost predicate Listed(before: seq<Entry>, dev: Device, j: nat, groups: seq<Entry>) {
    j <= |dev.groups|
    && forall e :: e in groups <==>
         e in before || exists k :: 0 <= k < j && Reported(dev, dev.groups[k]) && e == EntryOf(dev, dev.groups[k])
  }

  lemma ListedNext(before: seq<Entry>, dev: Device, j: nat, groups: seq<Entry>)
    requires Listed(before, dev, j, groups) && j < |dev.groups|
    ensures Listed(before, dev, j + 1,
                   groups + if Reported(dev, dev.groups[j]) then [EntryOf(dev, dev.groups[j])] else [])
  {}

  /** `imbalanced` are the imbalanced ones of `groups`, in order. */
  predicate Flagged(groups: seq<Entry>, imbalanced: seq<Entry>) {
    imbalanced == FiledUnder(groups, (e: Entry) => e.metrics.isImbalanced, true)
  }

  lemma FlaggedNext(groups: seq<Entry>, imbalanced: seq<Entry>, entry: Entry)
    requires Flagged(groups, imbalanced)
    ensures Flagged(groups + [entry], if entry.metrics.isImbalanced then imbalanced + [entry] else imbalanced)
  {
    assert (groups + [entry])[..|groups|] == groups;
  }

  /** `detect_fabric_imbalance`, given each device's groups and per-member averages. */
  method DetectFabricImbalance(devices: seq<Device>)
    returns (groups: seq<Entry>, imbalanced: seq<Entry>, severity: Severity)
    ensures forall e :: e in groups <==> ReportedGroup(e, devices)
    ensures forall e :: e in groups <==> exists d, g :: d in devices && g in d.groups && Reports(e, d, g)
    ensures Flagged(groups, imbalanced)
    ensures forall e :: e in imbalanced <==> e in groups && Uneven(Utils(e.members))
    ensures severity == OverallSeverity(Ratios(imbalanced))
  {
    groups, imbalanced := [], [];
    for i := 0 to |devices|
      invariant forall e :: e in groups <==> ReportedGroup(e, devices[..i])
      invariant Flagged(groups, imbalanced)
    {
      ghost var before := groups;
      groups, imbalanced := DetectInDevice(devices[i], groups, imbalanced);
      ReportedNext(devices, i, before, groups);
    }
    assert devices[..|devices|] == devices;
    severity := OverallSeverity(Ratios(imbalanced));
    forall e
      ensures ReportedGroup(e, devices) <==> exists d, g :: d in devices && g in d.groups && Reports(e, d, g)
    {
      ReportedGroupIff(e, devices);
    }
    ImbalancedIff(devices, groups, imbalanced);
  }

  /** The imbalanced groups are exactly the uneven ones. */
  lemma ImbalancedIff(devices: seq<Device>, groups: seq<Entry>, imbalanced: seq<Entry>)
    requires (forall e :: e in groups ==> ReportedGroup(e, devices)) && Flagged(groups, imbalanced)
    ensures forall e :: e in imbalanced <==> e in groups && Uneven(Utils(e.members))
  {
    FiledUnderIs(groups, (e: Entry) => e.metrics.isImbalanced, true);
    forall e | e in groups
      ensures e.metrics.isImbalanced <==> Uneven(Utils(e.members))
    {
      assert e.metrics == ImbalanceMetrics(Utils(e.members));
      VerdictIff(Utils(e.members));
    }
  }

  /** The loop over the groups of one device. */
  method DetectInDevice(dev: Device, groupsBefore: seq<Entry>, imbalancedBefore: seq<Entry>)
    returns (groups: seq<Entry>, imbalanced: seq<Entry>)
    requires Flagged(groupsBefore, imbalancedBefore)
    ensures Listed(groupsBefore, dev, |dev.groups|, groups) && Flagged(groups, imbalanced)
  {
    groups, imbalanced := groupsBefore, imbalancedBefore;
    for j := 0 to |dev.groups|
      invariant Listed(groupsBefore, dev, j, groups) && Flagged(groups, imbalanced)
    {
      ListedNext(groupsBefore, dev, j, groups);
      var members := Members(dev.groups[j].members, dev.utils);
      if |members| < 2 {
        assert groups + [] == groups;
        continue;
      }
      var entry := Entry(dev.name, dev.groups[j], members, ImbalanceMetrics(Utils(members)));
      FlaggedNext(groups, imbalanced, entry);
      groups := groups + [entry];
      if entry.metrics.isImbalanced {
        imbalanced := imbalanced + [entry];
      }
    }
  }

  lemma WorstEntry(imbalanced: seq<Entry>)
    ensures var severity := OverallSeverity(Ratios(imbalanced));
      (severity == High <==> exists e :: e in imbalanced && e.metrics.maxMeanRatio >= 3.0)
      && (severity == Low <==> forall e :: e in imbalanced ==> e.metrics.maxMeanRatio < 2.0)
  {
    var ratios := Ratios(imbalanced);
    forall e | e in imbalanced
      ensures e.metrics.maxMeanRatio <= Max(ratios)
    {
      var i :| 0 <= i < |imbalanced| && imbalanced[i] == e;
      assert ratios[i] == e.metrics.maxMeanRatio;
    }
    if imbalanced != [] {
      var i :| 0 <= i < |ratios| && ratios[i] == Max(ratios);
      assert imbalanced[i] in imbalanced && imbalanced[i].metrics.maxMeanRatio == Max(ratios);
    }
  }

  /** What the verdict says about the groups behind it. */
  lemma SeverityMeaning(devices: seq<Device>, groups: seq<Entry>, imbalanced: seq<Entry>, severity: Severity)
    requires forall e :: e in groups <==> ReportedGroup(e, devices)
    requires Flagged(groups, imbalanced)
    requires severity == OverallSeverity(Ratios(imbalanced)) && UtilsNonNegative(devices)
    ensures severity == High <==>
      exists e :: e in imbalanced && Measured(Utils(e.members)) && MaxMeanRatio(Utils(e.members)) >= 2.995
    ensures severity == Low <==>
      forall e :: e in imbalanced ==> Measured(Utils(e.members)) && MaxMeanRatio(Utils(e.members)) < 1.995
    ensures forall e :: e in imbalanced ==>
      e in groups && Measured(Utils(e.members)) && (MaxMeanRatio(Utils(e.members)) >= 2.995 ==> |e.members| >= 3)
  {
    FiledUnderIs(groups, (e: Entry) => e.metrics.isImbalanced, true);
    forall e | e in imbalanced
      ensures e in groups && Measured(Utils(e.members))
      ensures e.metrics.maxMeanRatio >= 3.0 <==> MaxMeanRatio(Utils(e.members)) >= 2.995
      ensures e.metrics.maxMeanRatio >= 2.0 <==> MaxMeanRatio(Utils(e.members)) >= 1.995
      ensures e.metrics.maxMeanRatio >= 3.0 ==> |e.members| >= 3
    {
      ImbalancedEntry(e, devices);
    }
    WorstEntry(imbalanced);
  }
}
