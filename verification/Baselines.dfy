/** Rolling baselines and the Z-score test on them: services/baselines.py and services/anomalies.py. */
module Baselines {
  import opened Common
  import opened Statistics
  import opened Grouping

  const MIN_SAMPLES_FOR_BASELINE := 3
  const SPIKE_LOOKBACK_MINUTES := 5

  /** One minute of traffic on an interface, as the grouped query returns it. */
  datatype Minute = Minute(tenant: string, device: string, iface: string, hour: int, totalBytes: real)

  datatype Key = Key(tenant: string, device: string, iface: string, hour: int)

  /** The deviation is kept squared. */
  datatype Snapshot = Snapshot(key: Key, mean: real, variance: real, samples: nat)

  datatype Severity = Medium | High | Critical

  function KeyOf(m: Minute): Key { Key(m.tenant, m.device, m.iface, m.hour) }

  function Bytes(minutes: seq<Minute>): (values: seq<real>)
    ensures |values| == |minutes|
  {
    seq(|minutes|, i requires 0 <= i < |minutes| => minutes[i].totalBytes)
  }

  /** The minute feeds the baseline: same tenant, device, interface and hour of the day. */
  predicate Feeds(m: Minute, k: Key) {
    m.tenant == k.tenant && m.device == k.device && m.iface == k.iface && m.hour == k.hour
  }

  /** The samples behind the baseline of `k`. */
  function Samples(minutes: seq<Minute>, k: Key): seq<real> {
    Bytes(FiledUnder(minutes, (m: Minute) => Feeds(m, k), true))
  }

  lemma SamplesAreFiled(minutes: seq<Minute>, k: Key)
    ensures Samples(minutes, k) == Bytes(FiledUnder(minutes, KeyOf, k))
  {
    FiledAgree(minutes, KeyOf, k, (m: Minute) => Feeds(m, k), true);
  }

  predicate IsBaseline(s: Snapshot, minutes: seq<Minute>) {
    var values := Samples(minutes, s.key);
    |values| >= 3 && s == Snapshot(s.key, Mean(values), Variance(values), |values|)
  }

  /** The snapshots are those of the keys done, one for each that has enough samples. */
  ghost predicate Computed(snapshots: seq<Snapshot>, done: seq<Key>, minutes: seq<Minute>) {
    (forall s :: s in snapshots <==> s.key in done && IsBaseline(s, minutes))
    && forall i, j :: 0 <= i < j < |snapshots| ==> snapshots[i].key != snapshots[j].key
  }

  lemma ComputedNext(snapshots: seq<Snapshot>, done: seq<Key>, k: Key, minutes: seq<Minute>, values: seq<real>)
    requires Computed(snapshots, done, minutes) && k !in done && values == Samples(minutes, k)
    ensures Computed(if |values| >= 3 then snapshots + [Snapshot(k, Mean(values), Variance(values), |values|)]
                     else snapshots, done + [k], minutes)
  {
    assert forall s :: s in snapshots ==> s.key != k;
  }

  /** `compute_baselines`: one snapshot for each key with enough samples, and for no other. */
  method ComputeBaselines(minutes: seq<Minute>) returns (snapshots: seq<Snapshot>)
    ensures forall s :: s in snapshots <==> IsBaseline(s, minutes)
    ensures forall i, j :: 0 <= i < j < |snapshots| ==> snapshots[i].key != snapshots[j].key
  {
    var order, grouped := GroupBy(minutes, KeyOf);
    snapshots := [];
    for i := 0 to |order|
      invariant Computed(snapshots, order[..i], minutes)
    {
      var k := order[i];
      assert k in order;
      SamplesAreFiled(minutes, k);
      assert order[..i + 1] == order[..i] + [k];
      snapshots := AddBaseline(snapshots, order[..i], k, minutes, Bytes(grouped[k]));
    }
    assert order[..|order|] == order;
    AllKeysDone(snapshots, minutes, order);
  }

  /** The body of the loop over the keys. */
  method AddBaseline(before: seq<Snapshot>, ghost done: seq<Key>, k: Key, ghost minutes: seq<Minute>, values: seq<real>)
    returns (snapshots: seq<Snapshot>)
    requires Computed(before, done, minutes) && k !in done && values == Samples(minutes, k)
    ensures Computed(snapshots, done + [k], minutes)
  {
    snapshots := before;
    ComputedNext(before, done, k, minutes, values);
    if |values| >= MIN_SAMPLES_FOR_BASELINE {
      snapshots := snapshots + [Snapshot(k, Mean(values), Variance(values), |values|)];
    }
  }

  lemma AllKeysDone(snapshots: seq<Snapshot>, minutes: seq<Minute>, order: seq<Key>)
    requires order == FirstSeen(minutes, KeyOf) && Computed(snapshots, order, minutes)
    ensures forall s :: s in snapshots <==> IsBaseline(s, minutes)
    ensures forall i, j :: 0 <= i < j < |snapshots| ==> snapshots[i].key != snapshots[j].key
  {
    forall s | IsBaseline(s, minutes)
      ensures s.key in order
    {
      SamplesAreFiled(minutes, s.key);
      SeenIffFiled(minutes, KeyOf, s.key);
    }
  }

  /** Every minute feeds exactly one group: the group sizes add up to the input. */
  lemma EveryMinuteInOneGroup(minutes: seq<Minute>)
    ensures SumGroups(FirstSeen(minutes, KeyOf), minutes, KeyOf, (m: Minute) => 1) == |minutes|
  {
    GroupingConserves(minutes, KeyOf, (m: Minute) => 1);
    CountIsLength(minutes);
  }

  lemma {:induction false} CountIsLength(minutes: seq<Minute>)
    ensures Total(minutes, (m: Minute) => 1) == |minutes|
  {
    if minutes != [] {
      CountIsLength(minutes[..|minutes| - 1]);
      TotalAgree(minutes[..|minutes| - 1], (m: Minute) => 1, (m: Minute) => 1);
    }
  }

  // ---------------------------------------------------------------- the Z-score test

  /** `(current - mean) / stddev >= z` for a positive `z`, squared. */
  predicate ZReaches(current: real, mean: real, variance: real, z: real) {
    current >= mean && Square(current - mean) >= Square(z) * variance
  }

  lemma ZComparedSquared(current: real, mean: real, variance: real, stddev: real, score: real, z: real)
    requires z > 0.0 && stddev > 0.0 && variance == Square(stddev) && score * stddev == current - mean
    ensures score >= z <==> ZReaches(current, mean, variance, z)
  {
    var d := current - mean;
    SquarePositive(stddev);
    assert Square(d) == Square(stddev) * Square(score);
    assert Square(z) * variance == Square(stddev) * Square(z);
    assert Square(score) - Square(z) == (score - z) * (score + z);
    if score >= z {
      assert (score - z) * (score + z) >= 0.0;
      assert Square(stddev) * ((score - z) * (score + z)) >= 0.0;
      assert score * stddev >= 0.0;
    } else if score >= 0.0 {
      SameSign(z - score, score + z, (z - score) * (score + z));
      SameSign(Square(stddev), Square(z) - Square(score), Square(stddev) * (Square(z) - Square(score)));
      assert Square(stddev) * (Square(z) - Square(score)) == Square(z) * variance - Square(d);
    } else {
      SameSign(-score, stddev, -(score * stddev));
    }
  }

  /** The verdict of `detect_spikes` on the bytes of the last five minutes. */
  function Spike(current: real, b: Snapshot): Option<Severity> {
    if b.samples < 3 || b.variance == 0.0 then None
    else if !ZReaches(current, b.mean, b.variance, 3.0) then None
    else if ZReaches(current, b.mean, b.variance, 6.0) then Some(Critical)
    else if ZReaches(current, b.mean, b.variance, 5.0) then Some(High)
    else Some(Medium)
  }

  /** The verdict by the Z-score: three is a spike, medium up to five, high up to six, critical from there. */
  lemma SpikeByScore(current: real, b: Snapshot, stddev: real, score: real)
    requires b.samples >= 3 && stddev > 0.0 && b.variance == Square(stddev) && score * stddev == current - b.mean
    ensures Spike(current, b) == None <==> score < 3.0
    ensures Spike(current, b) == Some(Medium) <==> 3.0 <= score < 5.0
    ensures Spike(current, b) == Some(High) <==> 5.0 <= score < 6.0
    ensures Spike(current, b) == Some(Critical) <==> score >= 6.0
  {
    SquarePositive(stddev);
    ZComparedSquared(current, b.mean, b.variance, stddev, score, 3.0);
    ZComparedSquared(current, b.mean, b.variance, stddev, score, 5.0);
    ZComparedSquared(current, b.mean, b.variance, stddev, score, 6.0);
  }

  function BaselineOf(k: Key, values: seq<real>): Snapshot
    requires values != []
  {
    Snapshot(k, Mean(values), Variance(values), |values|)
  }

  /** No sample of a baseline of fewer than ten samples can be a spike against it. */
  lemma NoSampleOfSmallBaselineSpikes(k: Key, values: seq<real>, j: nat)
    requires j < |values| < 10
    ensures Spike(values[j], BaselineOf(k, values)) == None
  {
    var n, v := |values| as real, Variance(values);
    Samuelson(values, j, n);
    MeanVariance(values, n);
    if v > 0.0 {
      NotReached(values[j], Mean(values), v, n - 1.0);
    }
  }

  lemma NotReached(x: real, mean: real, v: real, k: real)
    requires k <= 8.0 && v > 0.0 && Square(x - mean) <= k * v
    ensures !ZReaches(x, mean, v, 3.0)
  {
    assert Square(3.0) == 9.0;
    SameSign(9.0 - k, v, (9.0 - k) * v);
  }

  lemma LoneSampleSpikes(k: Key, n: nat)
    requires n >= 10
    ensures Spike(OneApart(n, 1.0, 0.0)[0], BaselineOf(k, OneApart(n, 1.0, 0.0))) != None
  {
    var values, rn := OneApart(n, 1.0, 0.0), n as real;
    var m, v := Mean(values), Variance(values);
    OneApartMoments(n, rn, 1.0, 0.0);
    LoneArithmetic(rn, m, v);
    SpikesWhenReached(1.0, BaselineOf(k, values));
  }

  lemma SpikesWhenReached(current: real, b: Snapshot)
    requires b.samples >= 3 && b.variance != 0.0 && ZReaches(current, b.mean, b.variance, 3.0)
    ensures Spike(current, b) != None
  {}

  lemma LoneArithmetic(n: real, m: real, v: real)
    requires n >= 10.0 && ApartMoments(n, 1.0, 0.0, m, v)
    ensures v != 0.0 && ZReaches(1.0, m, v, 3.0)
  {
    var d := 1.0 - m;
    SquarePositive(n);
    CancelLeft(n, 0.0, d);
    assert Square(n * d) == Square(n) * Square(d);
    assert Square(n - 1.0) == (n - 1.0) * (n - 1.0);
    assert (n - 1.0) * (n - 1.0) >= 9.0 * (n - 1.0);
    assert Square(n) * (Square(3.0) * v) == 9.0 * (n - 1.0);
    CancelLeft(Square(n), Square(3.0) * v, Square(d));
  }

  /** Ten is the exact size from which a baseline can hold a sample that spikes against itself. */
  lemma SelfSpikePossibleIff(k: Key, n: nat)
    requires n >= 1
    ensures (exists values: seq<real>, j: nat ::
               |values| == n && j < n && Spike(values[j], BaselineOf(k, values)) != None)
       <==> n >= 10
  {
    if n >= 10 {
      LoneSampleSpikes(k, n);
      var values := OneApart(n, 1.0, 0.0);
      assert |values| == n && 0 < n && Spike(values[0], BaselineOf(k, values)) != None;
    } else {
      forall values: seq<real>, j: nat | |values| == n && j < n
        ensures Spike(values[j], BaselineOf(k, values)) == None
      {
        NoSampleOfSmallBaselineSpikes(k, values, j);
      }
    }
  }

  /** The zero-deviation guard silences exactly the flat baselines. */
  lemma SilentIffFlat(k: Key, values: seq<real>)
    requires |values| >= MIN_SAMPLES_FOR_BASELINE
    ensures (forall current :: Spike(current, BaselineOf(k, values)) == None) <==> Flat(values)
  {
    ZeroVariance(values);
    MeanVariance(values, |values| as real);
    if !Flat(values) {
      var v := Variance(values);
      var far := Mean(values) + 9.0 * v + 1.0;
      assert Square(9.0 * v + 1.0) == 81.0 * (v * v) + 18.0 * v + 1.0;
      assert v * v >= 0.0;
      assert Spike(far, BaselineOf(k, values)) != None;
    }
  }

  /** The test compares a five-minute sum with a per-minute baseline: five minutes at exactly the
      baseline mean are reported as a spike when, and only when, 4 mean >= 3 deviations. */
  lemma SteadyTrafficSpikesIff(b: Snapshot)
    requires b.samples >= 3 && b.variance > 0.0 && b.mean >= 0.0
    ensures Spike(SPIKE_LOOKBACK_MINUTES as real * b.mean, b) != None
       <==> Square(4.0 * b.mean) >= Square(3.0) * b.variance
  {
    assert SPIKE_LOOKBACK_MINUTES as real * b.mean - b.mean == 4.0 * b.mean;
  }
}
