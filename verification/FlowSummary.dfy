/** Per-minute flow summaries and the queries on them: services/ingest.py, flows.py,
    traffic_compare.py and protocol_mix.py. Times are microseconds since the epoch, in UTC. */
module FlowSummary {
  import opened Grouping
  import TenantRouter
  import Text

  const MINUTE := 60_000_000

  /** `dt.replace(second=0, microsecond=0)`. */
  function MinuteBucket(t: int): int { t - t % MINUTE }

  /** `t` rounded up to a whole minute. */
  function NextMinute(t: int): int { if t % MINUTE == 0 then t else MinuteBucket(t) + MINUTE }

  /** Comparing a bucket with a bound compares the raw time with the bound rounded up. */
  lemma BucketBound(t: int, bound: int)
    ensures MinuteBucket(t) >= bound <==> t >= NextMinute(bound)
    ensures bound <= NextMinute(bound) < bound + 60_000_000 && NextMinute(bound) % 60_000_000 == 0
  {
    var q, r := bound / MINUTE, bound % MINUTE;
    assert bound == q * MINUTE + r && t == (t / MINUTE) * MINUTE + t % MINUTE;
  }

  /** A bucket is the whole minute that the instant falls in. */
  lemma BucketIs(t: int, bucket: int)
    ensures MinuteBucket(t) == bucket <==> bucket <= t < bucket + 60_000_000 && bucket % 60_000_000 == 0
  {}

  datatype FlowRecord = FlowRecord(
    agent: string, inputIfIndex: int, src: string, dst: string, protocol: int,
    bytes: int, packets: int, samplingRate: int, timestamp: int)

  datatype FlowKey = FlowKey(bucket: int, device: string, iface: string, src: string, dst: string, protocol: int)

  datatype FlowRow = FlowRow(tenant: string, key: FlowKey, bytesEstimated: int, packetsEstimated: int,
                             samplingRate: int)

  function KeyOf(r: FlowRecord): FlowKey {
    FlowKey(MinuteBucket(r.timestamp), r.agent, Text.DecimalInt(r.inputIfIndex), r.src, r.dst, r.protocol)
  }

  datatype Metric = Bytes | Packets

  /** Sampling correction: what one raw record stands for. */
  function Estimate(r: FlowRecord, m: Metric): int {
    match m
    case Bytes => r.bytes * r.samplingRate
    case Packets => r.packets * r.samplingRate
  }

  function Stored(row: FlowRow, m: Metric): int {
    match m
    case Bytes => row.bytesEstimated
    case Packets => row.packetsEstimated
  }

  /** What the tenant router answers during one poll, agent by agent: of one version of the mapping, or, when a
      refresh comes in between, of several. */
  type Route = TenantRouter.Mapping

  const SOURCE_KIND_SFLOW := "sflow"

  function TenantOf(route: Route, agent: string): string { TenantRouter.Lookup(route, (SOURCE_KIND_SFLOW, agent)) }

  /** Which summaries a query keeps, by tenant and key. */
  type Selection = (string, FlowKey) -> bool

  function RowWeight(sel: Selection, m: Metric): FlowRow -> int {
    (row: FlowRow) => if sel(row.tenant, row.key) then Stored(row, m) else 0
  }

  function RecordWeight(route: Route, sel: Selection, m: Metric): FlowRecord -> int {
    (r: FlowRecord) => if sel(TenantOf(route, r.agent), KeyOf(r)) then Estimate(r, m) else 0
  }

  /** `SUM(...) WHERE sel` over summary rows. */
  function RowSum(rows: seq<FlowRow>, sel: Selection, m: Metric): int { Total(rows, RowWeight(sel, m)) }

  /** The same sum taken over the raw, sampling-corrected records of one poll. */
  function RecordSum(records: seq<FlowRecord>, route: Route, sel: Selection, m: Metric): int {
    Total(records, RecordWeight(route, sel, m))
  }

  // ---------------------------------------------------------------- normalization of one poll

  datatype Bucket = Bucket(bytes: int, packets: int, samplingRate: int)

  function Weigh(m: Metric): FlowRecord -> int { (r: FlowRecord) => Estimate(r, m) }

  /** The row a poll's records of one key must produce. */
  predicate RowOf(row: FlowRow, records: seq<FlowRecord>, route: Route) {
    var filed := FiledUnder(records, KeyOf, row.key);
    filed != []
    && row.tenant == TenantOf(route, row.key.device)
    && row.bytesEstimated == Total(filed, Weigh(Bytes))
    && row.packetsEstimated == Total(filed, Weigh(Packets))
    && row.samplingRate == filed[|filed| - 1].samplingRate
  }

  predicate Summarizes(rows: seq<FlowRow>, records: seq<FlowRecord>, route: Route) {
    var order := FirstSeen(records, KeyOf);
    |rows| == |order| && forall i :: 0 <= i < |rows| ==> rows[i].key == order[i] && RowOf(rows[i], records, route)
  }

  lemma FiledSnoc(records: seq<FlowRecord>, r: FlowRecord, k: FlowKey, m: Metric)
    ensures var filed := FiledUnder(records, KeyOf, k);
      FiledUnder(records + [r], KeyOf, k) == (if KeyOf(r) == k then filed + [r] else filed)
      && Total(filed + [r], Weigh(m)) == Total(filed, Weigh(m)) + Estimate(r, m)
  {
    assert (records + [r])[..|records|] == records;
    var filed := FiledUnder(records, KeyOf, k);
    assert (filed + [r])[..|filed|] == filed;
  }

  predicate BucketOf(b: Bucket, filed: seq<FlowRecord>) {
    filed != []
    && b.bytes == Total(filed, Weigh(Bytes))
    && b.packets == Total(filed, Weigh(Packets))
    && b.samplingRate == filed[|filed| - 1].samplingRate
  }

  ghost predicate Listed(order: seq<FlowKey>, buckets: map<FlowKey, Bucket>) {
    forall k :: k in buckets <==> k in order
  }

  ghost predicate BucketsHold(buckets: map<FlowKey, Bucket>, seen: seq<FlowRecord>) {
    forall k :: k in buckets ==> BucketOf(buckets[k], FiledUnder(seen, KeyOf, k))
  }

  /** Where the bucketing loop stands after `seen`: `buckets` as a dict that remembers insertion order. */
  ghost predicate Filled(order: seq<FlowKey>, buckets: map<FlowKey, Bucket>, seen: seq<FlowRecord>) {
    order == FirstSeen(seen, KeyOf) && Listed(order, buckets) && BucketsHold(buckets, seen)
  }

  /** A bucket after one more record. */
  function Absorb(b: Bucket, r: FlowRecord): Bucket {
    Bucket(b.bytes + Estimate(r, Bytes), b.packets + Estimate(r, Packets), r.samplingRate)
  }

  lemma AbsorbedBucket(filed: seq<FlowRecord>, b: Bucket, seen: seq<FlowRecord>, r: FlowRecord, k: FlowKey)
    requires filed == FiledUnder(seen, KeyOf, k) && KeyOf(r) == k
    requires if filed == [] then b == Bucket(0, 0, 1) else BucketOf(b, filed)
    ensures BucketOf(Absorb(b, r), FiledUnder(seen + [r], KeyOf, k))
  {
    FiledSnoc(seen, r, k, Bytes);
    FiledSnoc(seen, r, k, Packets);
  }

  lemma OtherBucket(seen: seq<FlowRecord>, r: FlowRecord, k: FlowKey)
    requires KeyOf(r) != k
    ensures FiledUnder(seen + [r], KeyOf, k) == FiledUnder(seen, KeyOf, k)
  {
    FiledSnoc(seen, r, k, Bytes);
  }

  lemma BucketsHoldNext(buckets: map<FlowKey, Bucket>, seen: seq<FlowRecord>, r: FlowRecord, b: Bucket)
    requires BucketsHold(buckets, seen) && (KeyOf(r) in buckets <==> FiledUnder(seen, KeyOf, KeyOf(r)) != [])
    requires b == if KeyOf(r) in buckets then buckets[KeyOf(r)] else Bucket(0, 0, 1)
    ensures BucketsHold(buckets[KeyOf(r) := Absorb(b, r)], seen + [r])
  {
    AbsorbedBucket(FiledUnder(seen, KeyOf, KeyOf(r)), b, seen, r, KeyOf(r));
    forall k | k in buckets && k != KeyOf(r)
      ensures BucketOf(buckets[k], FiledUnder(seen + [r], KeyOf, k))
    {
      OtherBucket(seen, r, k);
    }
  }

  lemma ListedNext(order: seq<FlowKey>, buckets: map<FlowKey, Bucket>, key: FlowKey, b: Bucket)
    requires Listed(order, buckets)
    ensures Listed(if key in buckets then order else order + [key], buckets[key := b])
  {}

  lemma FilledNext(order: seq<FlowKey>, buckets: map<FlowKey, Bucket>, seen: seq<FlowRecord>,
                   r: FlowRecord, key: FlowKey, b: Bucket, order': seq<FlowKey>)
    requires Filled(order, buckets, seen) && key == KeyOf(r)
    requires b == if key in buckets then buckets[key] else Bucket(0, 0, 1)
    requires order' == if key in buckets then order else order + [key]
    ensures Filled(order', buckets[key := Absorb(b, r)], seen + [r])
  {
    FirstSeenSnoc(seen, r, KeyOf);
    SeenIffFiled(seen, KeyOf, key);
    ListedNext(order, buckets, key, Absorb(b, r));
    BucketsHoldNext(buckets, seen, r, b);
  }

  lemma FilledUpTo(order: seq<FlowKey>, buckets: map<FlowKey, Bucket>, records: seq<FlowRecord>, i: nat,
                   key: FlowKey, b: Bucket, order': seq<FlowKey>)
    requires i < |records| && Filled(order, buckets, records[..i]) && key == KeyOf(records[i])
    requires b == if key in buckets then buckets[key] else Bucket(0, 0, 1)
    requires order' == if key in buckets then order else order + [key]
    ensures Filled(order', buckets[key := Absorb(b, records[i])], records[..i + 1])
  {
    FilledNext(order, buckets, records[..i], records[i], key, b, order');
    assert records[..i + 1] == records[..i] + [records[i]];
  }

  /** The first loop of `normalize_flows`: fold every record into the bucket of its key. */
  method FillBuckets(records: seq<FlowRecord>) returns (order: seq<FlowKey>, buckets: map<FlowKey, Bucket>)
    ensures Filled(order, buckets, records)
  {
    buckets, order := map[], [];
    for i := 0 to |records|
      invariant Filled(order, buckets, records[..i])
    {
      var r, before := records[i], order;
      var key := KeyOf(r);
      if key !in buckets {
        order := order + [key];
      }
      var b := if key in buckets then buckets[key] else Bucket(0, 0, 1);
      ghost var was := b;
      FilledUpTo(before, buckets, records, i, key, was, order);
      b := b.(bytes := b.bytes + Estimate(r, Bytes));
      b := b.(packets := b.packets + Estimate(r, Packets));
      b := b.(samplingRate := r.samplingRate);
      assert b == Absorb(was, r);
      buckets := buckets[key := b];
    }
    assert records[..|records|] == records;
  }

  lemma RowFromBucket(k: FlowKey, order: seq<FlowKey>, buckets: map<FlowKey, Bucket>, records: seq<FlowRecord>,
                      route: Route)
    requires Filled(order, buckets, records) && k in order
    ensures var b := buckets[k];
      RowOf(FlowRow(TenantOf(route, k.device), k, b.bytes, b.packets, b.samplingRate), records, route)
  {}

  /** `normalize_flows`. */
  method NormalizeFlows(records: seq<FlowRecord>, route: Route) returns (rows: seq<FlowRow>)
    ensures Summarizes(rows, records, route)
    ensures forall i :: 0 <= i < |rows| ==> Tells(rows[i], records, route)
    ensures forall r :: r in records ==> exists i :: 0 <= i < |rows| && Belongs(r, rows[i])
  {
    var order, buckets := FillBuckets(records);
    rows := [];
    for i := 0 to |order|
      invariant |rows| == i
      invariant forall j :: 0 <= j < i ==> rows[j].key == order[j] && RowOf(rows[j], records, route)
    {
      var k := order[i];
      assert k in order;
      RowFromBucket(k, order, buckets, records, route);
      var b := buckets[k];
      rows := rows + [FlowRow(TenantOf(route, k.device), k, b.bytes, b.packets, b.samplingRate)];
    }
    RowsTellRecords(rows, records, route);
  }

  // ---------------------------------------------------------------- summaries answer as the records would

  lemma {:induction false} SelectedTotal(filed: seq<FlowRecord>, k: FlowKey, route: Route, sel: Selection, m: Metric)
    requires forall r :: r in filed ==> KeyOf(r) == k
    ensures Total(filed, RecordWeight(route, sel, m))
         == if sel(TenantOf(route, k.device), k) then Total(filed, Weigh(m)) else 0
  {
    if filed != [] {
      assert filed[|filed| - 1] in filed;
      SelectedTotal(filed[..|filed| - 1], k, route, sel, m);
    }
  }

  lemma {:induction false} RowsMatchGroups(
      rows: seq<FlowRow>, order: seq<FlowKey>, records: seq<FlowRecord>, route: Route, sel: Selection, m: Metric)
    requires |rows| == |order|
    requires forall i :: 0 <= i < |rows| ==> rows[i].key == order[i] && RowOf(rows[i], records, route)
    ensures RowSum(rows, sel, m) == SumGroups(order, records, KeyOf, RecordWeight(route, sel, m))
  {
    if rows != [] {
      var n := |rows| - 1;
      RowsMatchGroups(rows[..n], order[..n], records, route, sel, m);
      FiledUnderIs(records, KeyOf, order[n]);
      SelectedTotal(FiledUnder(records, KeyOf, order[n]), order[n], route, sel, m);
    }
  }

  /** One poll: every selection sums to the same over its rows as over its raw records. */
  lemma SummariesPreserveSums(rows: seq<FlowRow>, records: seq<FlowRecord>, route: Route, sel: Selection, m: Metric)
    requires Summarizes(rows, records, route)
    ensures RowSum(rows, sel, m) == RecordSum(records, route, sel, m)
  {
    RowsMatchGroups(rows, FirstSeen(records, KeyOf), records, route, sel, m);
    GroupingConserves(records, KeyOf, RecordWeight(route, sel, m));
  }

  /** One poll: a selection finds a row exactly when it finds a raw record. */
  lemma SummariesPreservePresence(rows: seq<FlowRow>, records: seq<FlowRecord>, route: Route, sel: Selection)
    requires Summarizes(rows, records, route)
    ensures (exists row :: row in rows && sel(row.tenant, row.key))
       <==> (exists r :: r in records && sel(TenantOf(route, r.agent), KeyOf(r)))
  {
    var order := FirstSeen(records, KeyOf);
    if row :| row in rows && sel(row.tenant, row.key) {
      FiledUnderIs(records, KeyOf, row.key);
      var filed := FiledUnder(records, KeyOf, row.key);
      assert filed[0] in filed;
      assert filed[0] in records && sel(TenantOf(route, filed[0].agent), KeyOf(filed[0]));
    }
    if r :| r in records && sel(TenantOf(route, r.agent), KeyOf(r)) {
      SeenIff(records, KeyOf, KeyOf(r));
      var i :| 0 <= i < |order| && order[i] == KeyOf(r);
      assert rows[i] in rows && sel(rows[i].tenant, rows[i].key);
    }
  }

  // ---------------------------------------------------------------- what a row stands for

  /** The record belongs to the row: same agent, interface, endpoints, protocol and minute. */
  predicate Belongs(r: FlowRecord, row: FlowRow) {
    r.agent == row.key.device && Text.DecimalInt(r.inputIfIndex) == row.key.iface && r.src == row.key.src
    && r.dst == row.key.dst && r.protocol == row.key.protocol
    && row.key.bucket <= r.timestamp < row.key.bucket + 60_000_000 && row.key.bucket % 60_000_000 == 0
  }

  lemma BelongsByKey(r: FlowRecord, row: FlowRow)
    ensures Belongs(r, row) <==> KeyOf(r) == row.key
  {
    BucketIs(r.timestamp, row.key.bucket);
  }

  function CorrectedBytes(row: FlowRow): FlowRecord -> int {
    (r: FlowRecord) => if Belongs(r, row) then r.bytes * r.samplingRate else 0
  }

  function CorrectedPackets(row: FlowRow): FlowRecord -> int {
    (r: FlowRecord) => if Belongs(r, row) then r.packets * r.samplingRate else 0
  }

  /** Record `i` is the last to belong to the row. */
  ghost predicate IsLast(records: seq<FlowRecord>, row: FlowRow, i: nat) {
    i < |records| && Belongs(records[i], row) && forall j :: i < j < |records| ==> !Belongs(records[j], row)
  }

  /** A row holds the bytes and packets, each multiplied by its sampling rate, of the records that belong to it, under
      the tenant that their agent is mapped to; and it has the sampling rate of the last of them. */
  ghost predicate Tells(row: FlowRow, records: seq<FlowRecord>, route: Route) {
    row.bytesEstimated == Total(records, CorrectedBytes(row))
    && row.packetsEstimated == Total(records, CorrectedPackets(row))
    && row.tenant == (if ("sflow", row.key.device) in route then route[("sflow", row.key.device)]
                      else "00000000-0000-0000-0000-000000000001")
    && exists i: nat :: IsLast(records, row, i) && row.samplingRate == records[i].samplingRate
  }

  lemma IsLastNext(records: seq<FlowRecord>, row: FlowRow, i: nat)
    requires records != [] && IsLast(records[..|records| - 1], row, i) && !Belongs(records[|records| - 1], row)
    ensures IsLast(records, row, i) && records[i] == records[..|records| - 1][i]
  {
    assert forall j :: 0 <= j < |records| - 1 ==> records[..|records| - 1][j] == records[j];
  }

  lemma {:induction false} LastFiled(records: seq<FlowRecord>, row: FlowRow) returns (i: nat)
    requires FiledUnder(records, KeyOf, row.key) != []
    ensures IsLast(records, row, i)
    ensures var filed := FiledUnder(records, KeyOf, row.key); filed[|filed| - 1] == records[i]
    decreases |records|
  {
    var k := |records| - 1;
    FiledNext(records, row);
    if Belongs(records[k], row) {
      i := k;
    } else {
      i := LastFiled(records[..k], row);
      IsLastNext(records, row, i);
    }
  }

  lemma FiledNext(records: seq<FlowRecord>, row: FlowRow)
    requires records != []
    ensures var k := |records| - 1;
      FiledUnder(records, KeyOf, row.key)
      == FiledUnder(records[..k], KeyOf, row.key) + if Belongs(records[k], row) then [records[k]] else []
  {
    BelongsByKey(records[|records| - 1], row);
  }

  lemma RowTells(row: FlowRow, records: seq<FlowRecord>, route: Route)
    requires RowOf(row, records, route)
    ensures Tells(row, records, route)
  {
    forall r
      ensures Belongs(r, row) <==> KeyOf(r) == row.key
    {
      BelongsByKey(r, row);
    }
    FiledTotal(records, KeyOf, row.key, Weigh(Bytes), CorrectedBytes(row));
    FiledTotal(records, KeyOf, row.key, Weigh(Packets), CorrectedPackets(row));
    var i := LastFiled(records, row);
  }

  /** Every record of a poll belongs to exactly one row, and every row tells what its records add up to. */
  lemma RowsTellRecords(rows: seq<FlowRow>, records: seq<FlowRecord>, route: Route)
    requires Summarizes(rows, records, route)
    ensures forall i :: 0 <= i < |rows| ==> Tells(rows[i], records, route)
    ensures forall r :: r in records ==> exists i :: 0 <= i < |rows| && Belongs(r, rows[i])
    ensures forall r, i, j :: 0 <= i < |rows| && 0 <= j < |rows| && Belongs(r, rows[i]) && Belongs(r, rows[j]) ==>
      i == j
  {
    var order := FirstSeen(records, KeyOf);
    forall i | 0 <= i < |rows|
      ensures Tells(rows[i], records, route)
    {
      RowTells(rows[i], records, route);
    }
    forall r | r in records
      ensures exists i :: 0 <= i < |rows| && Belongs(r, rows[i])
    {
      SeenIff(records, KeyOf, KeyOf(r));
      var i :| 0 <= i < |order| && order[i] == KeyOf(r);
      BelongsByKey(r, rows[i]);
    }
    forall r, i, j | 0 <= i < |rows| && 0 <= j < |rows| && Belongs(r, rows[i]) && Belongs(r, rows[j])
      ensures i == j
    {
      BelongsByKey(r, rows[i]);
      BelongsByKey(r, rows[j]);
    }
  }

  // ---------------------------------------------------------------- sampling

  /** What a record that was not sampled counts for. */
  function Plain(r: FlowRecord, m: Metric): int {
    match m
    case Bytes => r.bytes
    case Packets => r.packets
  }

  function PlainWeight(route: Route, sel: Selection, m: Metric): FlowRecord -> int {
    (r: FlowRecord) => if sel(TenantOf(route, r.agent), KeyOf(r)) then Plain(r, m) else 0
  }

  /** `n` copies of the record as if none had been sampled away. */
  function Copies(r: FlowRecord, n: nat): seq<FlowRecord> {
    if n == 0 then [] else Copies(r, n - 1) + [r.(samplingRate := 1)]
  }

  lemma {:induction false} CopiesTotal(r: FlowRecord, n: nat, route: Route, sel: Selection, m: Metric)
    ensures Total(Copies(r, n), PlainWeight(route, sel, m)) == n * PlainWeight(route, sel, m)(r)
    decreases n
  {
    if n > 0 {
      var w := PlainWeight(route, sel, m);
      CopiesTotal(r, n - 1, route, sel, m);
      TotalSnoc(Copies(r, n - 1), r.(samplingRate := 1), w);
      PlainCopy(r, route, sel, m);
      OneMore(n, w(r));
    }
  }

  lemma OneMore(n: int, x: int)
    ensures n * x == (n - 1) * x + x
  {}

  lemma PlainCopy(r: FlowRecord, route: Route, sel: Selection, m: Metric)
    ensures PlainWeight(route, sel, m)(r.(samplingRate := 1)) == PlainWeight(route, sel, m)(r)
  {
    var one := r.(samplingRate := 1);
    assert KeyOf(one) == KeyOf(r) && TenantOf(route, one.agent) == TenantOf(route, r.agent);
    assert Plain(one, m) == Plain(r, m);
  }

  lemma WeightIsRate(r: FlowRecord, route: Route, sel: Selection, m: Metric)
    ensures RecordWeight(route, sel, m)(r) == r.samplingRate * PlainWeight(route, sel, m)(r)
  {
    assert Estimate(r, m) == r.samplingRate * Plain(r, m);
  }

  predicate Sampled(records: seq<FlowRecord>) { forall i :: 0 <= i < |records| ==> records[i].samplingRate >= 0 }

  /** Every record replaced by as many copies as its sampling rate says. */
  function Expanded(records: seq<FlowRecord>): seq<FlowRecord>
    requires Sampled(records)
  {
    if records == [] then []
    else
      var k := |records| - 1;
      Expanded(records[..k]) + Copies(records[k], records[k].samplingRate)
  }

  lemma {:induction false} ExpandedTotal(records: seq<FlowRecord>, route: Route, sel: Selection, m: Metric)
    requires Sampled(records)
    ensures RecordSum(records, route, sel, m) == Total(Expanded(records), PlainWeight(route, sel, m))
    decreases |records|
  {
    if records != [] {
      var k := |records| - 1;
      ExpandedTotal(records[..k], route, sel, m);
      CopiesTotal(records[k], records[k].samplingRate, route, sel, m);
      WeightIsRate(records[k], route, sel, m);
      TotalConcat(Expanded(records[..k]), Copies(records[k], records[k].samplingRate), PlainWeight(route, sel, m));
    }
  }

  /** The sampling correction: a poll's rows add up to what its records would if each had come in as many copies as its
      sampling rate says, counted plainly. */
  lemma RowsSumExpandedRecords(rows: seq<FlowRow>, records: seq<FlowRecord>, route: Route, sel: Selection, m: Metric)
    requires Summarizes(rows, records, route) && Sampled(records)
    ensures RowSum(rows, sel, m) == Total(Expanded(records), PlainWeight(route, sel, m))
  {
    SummariesPreserveSums(rows, records, route, sel, m);
    ExpandedTotal(records, route, sel, m);
  }

  lemma {:induction false} RateOneSum(records: seq<FlowRecord>, route: Route, sel: Selection, m: Metric)
    requires forall i :: 0 <= i < |records| ==> records[i].samplingRate == 1
    ensures RecordSum(records, route, sel, m) == Total(records, PlainWeight(route, sel, m))
    decreases |records|
  {
    if records != [] {
      RateOneSum(records[..|records| - 1], route, sel, m);
      WeightIsRate(records[|records| - 1], route, sel, m);
    }
  }

  lemma {:induction false} CopiesAreRateOne(r: FlowRecord, n: nat)
    ensures forall i :: 0 <= i < |Copies(r, n)| ==> Copies(r, n)[i].samplingRate == 1
  {
    if n > 0 { CopiesAreRateOne(r, n - 1); }
  }

  /** Records at rate 1 count as they are. */
  lemma RateOneIsPlain(rows: seq<FlowRow>, records: seq<FlowRecord>, route: Route, sel: Selection, m: Metric)
    requires Summarizes(rows, records, route)
    requires forall i :: 0 <= i < |records| ==> records[i].samplingRate == 1
    ensures RowSum(rows, sel, m) == Total(records, PlainWeight(route, sel, m))
  {
    SummariesPreserveSums(rows, records, route, sel, m);
    RateOneSum(records, route, sel, m);
  }

  /** In any poll, a record at rate n can be replaced by n copies of it at rate 1. */
  lemma RateIsCopies(rows: seq<FlowRow>, rows': seq<FlowRow>, before: seq<FlowRecord>, r: FlowRecord,
                     after: seq<FlowRecord>, route: Route, sel: Selection, m: Metric)
    requires r.samplingRate >= 0 && Summarizes(rows, before + [r] + after, route)
    requires Summarizes(rows', before + Copies(r, r.samplingRate) + after, route)
    ensures RowSum(rows, sel, m) == RowSum(rows', sel, m)
  {
    var n, w := r.samplingRate, RecordWeight(route, sel, m);
    SummariesPreserveSums(rows, before + [r] + after, route, sel, m);
    SummariesPreserveSums(rows', before + Copies(r, n) + after, route, sel, m);
    TotalConcat(before + [r], after, w);
    TotalConcat(before, [r], w);
    TotalConcat(before + Copies(r, n), after, w);
    TotalConcat(before, Copies(r, n), w);
    CopiesAreRateOne(r, n);
    RateOneSum(Copies(r, n), route, sel, m);
    CopiesTotal(r, n, route, sel, m);
    WeightIsRate(r, route, sel, m);
    assert [r][..0] == [];
  }

  // ---------------------------------------------------------------- a run of polls

  /** One cycle of the ingestion loop: its records and the routing it saw. */
  datatype Poll = Poll(records: seq<FlowRecord>, route: Route)

  /** The sum a query would give on the raw stream, each record under the tenant of its own poll. */
  function StreamSum(polls: seq<Poll>, sel: Selection, m: Metric): int {
    if polls == [] then 0
    else
      var last := polls[|polls| - 1];
      StreamSum(polls[..|polls| - 1], sel, m) + RecordSum(last.records, last.route, sel, m)
  }

  /** Some raw record of the stream is selected. */
  ghost predicate InStream(polls: seq<Poll>, sel: Selection) {
    exists p, r :: p in polls && r in p.records && sel(TenantOf(p.route, r.agent), KeyOf(r))
  }

  predicate Selected(rows: seq<FlowRow>, sel: Selection) {
    exists row :: row in rows && sel(row.tenant, row.key)
  }

  /** The summary table after a run: the rows of each cycle, appended. */
  ghost predicate TableOf(table: seq<FlowRow>, polls: seq<Poll>)
    decreases |polls|
  {
    if polls == [] then table == []
    else
      var last := polls[|polls| - 1];
      exists cut {:trigger table[..cut]} :: 0 <= cut <= |table|
        && TableOf(table[..cut], polls[..|polls| - 1])
        && Summarizes(table[cut..], last.records, last.route)
  }

  /** The cycles of `ingestion_loop`: normalize, then `add_all` and commit. */
  method Ingest(polls: seq<Poll>) returns (table: seq<FlowRow>)
    ensures TableOf(table, polls)
  {
    table := [];
    for i := 0 to |polls|
      invariant TableOf(table, polls[..i])
    {
      var rows := NormalizeFlows(polls[i].records, polls[i].route);
      ghost var cut := |table|;
      assert (table + rows)[..cut] == table && (table + rows)[cut..] == rows;
      assert polls[..i + 1][..i] == polls[..i];
      table := table + rows;
      assert 0 <= cut <= |table| && TableOf(table[..cut], polls[..i]);
    }
    assert polls[..|polls|] == polls;
  }

  lemma RowSumSplit(table: seq<FlowRow>, cut: nat, sel: Selection, m: Metric)
    requires cut <= |table|
    ensures RowSum(table, sel, m) == RowSum(table[..cut], sel, m) + RowSum(table[cut..], sel, m)
  {
    assert table == table[..cut] + table[cut..];
    TotalConcat(table[..cut], table[cut..], RowWeight(sel, m));
  }

  /** The whole run: every selection sums to the same over the table as over the raw stream. */
  lemma {:induction false} TableSumsStream(table: seq<FlowRow>, polls: seq<Poll>, sel: Selection, m: Metric)
    requires TableOf(table, polls)
    ensures RowSum(table, sel, m) == StreamSum(polls, sel, m)
    decreases |polls|
  {
    if polls != [] {
      var init, last := polls[..|polls| - 1], polls[|polls| - 1];
      var cut :| 0 <= cut <= |table| && TableOf(table[..cut], init)
        && Summarizes(table[cut..], last.records, last.route);
      TableSumsStream(table[..cut], init, sel, m);
      SummariesPreserveSums(table[cut..], last.records, last.route, sel, m);
      RowSumSplit(table, cut, sel, m);
    }
  }

  lemma SelectedSplit(table: seq<FlowRow>, cut: nat, sel: Selection)
    requires cut <= |table|
    ensures Selected(table, sel) <==> Selected(table[..cut], sel) || Selected(table[cut..], sel)
  {
    assert table == table[..cut] + table[cut..];
  }

  lemma InStreamSnoc(polls: seq<Poll>, sel: Selection)
    requires polls != []
    ensures var last := polls[|polls| - 1];
      InStream(polls, sel)
      <==> (InStream(polls[..|polls| - 1], sel)
            || exists r :: r in last.records && sel(TenantOf(last.route, r.agent), KeyOf(r)))
  {
    var init, last := polls[..|polls| - 1], polls[|polls| - 1];
    assert polls == init + [last];
    if InStream(polls, sel) {
      var p, r :| p in polls && r in p.records && sel(TenantOf(p.route, r.agent), KeyOf(r));
      if p in init { assert InStream(init, sel); }
    }
  }

  /** The whole run: a selection finds a row exactly when it finds a raw record. */
  lemma {:induction false} TablePresence(table: seq<FlowRow>, polls: seq<Poll>, sel: Selection)
    requires TableOf(table, polls)
    ensures Selected(table, sel) <==> InStream(polls, sel)
    decreases |polls|
  {
    if polls != [] {
      var init, last := polls[..|polls| - 1], polls[|polls| - 1];
      var cut :| 0 <= cut <= |table| && TableOf(table[..cut], init)
        && Summarizes(table[cut..], last.records, last.route);
      TablePresence(table[..cut], init, sel);
      SummariesPreservePresence(table[cut..], last.records, last.route, sel);
      SelectedSplit(table, cut, sel);
      InStreamSnoc(polls, sel);
    }
  }

  /** A raw record and the tenant it was routed to. */
  datatype Routed = Routed(record: FlowRecord, tenant: string)

  function RoutedRecords(records: seq<FlowRecord>, route: Route): seq<Routed> {
    seq(|records|, i requires 0 <= i < |records| => Routed(records[i], TenantOf(route, records[i].agent)))
  }

  /** All records of a run, in arrival order, each with its tenant. */
  function Stream(polls: seq<Poll>): seq<Routed> {
    if polls == [] then []
    else Stream(polls[..|polls| - 1]) + RoutedRecords(polls[|polls| - 1].records, polls[|polls| - 1].route)
  }

  function RoutedWeight(sel: Selection, m: Metric): Routed -> int {
    (r: Routed) => if sel(r.tenant, KeyOf(r.record)) then Estimate(r.record, m) else 0
  }

  lemma {:induction false} RoutedSum(records: seq<FlowRecord>, route: Route, sel: Selection, m: Metric)
    ensures Total(RoutedRecords(records, route), RoutedWeight(sel, m)) == RecordSum(records, route, sel, m)
    decreases |records|
  {
    if records != [] {
      var k := |records| - 1;
      RoutedSum(records[..k], route, sel, m);
      assert RoutedRecords(records, route)[..k] == RoutedRecords(records[..k], route);
    }
  }

  lemma {:induction false} StreamSumFlat(polls: seq<Poll>, sel: Selection, m: Metric)
    ensures StreamSum(polls, sel, m) == Total(Stream(polls), RoutedWeight(sel, m))
    decreases |polls|
  {
    if polls != [] {
      var init, last := polls[..|polls| - 1], polls[|polls| - 1];
      StreamSumFlat(init, sel, m);
      RoutedSum(last.records, last.route, sel, m);
      TotalConcat(Stream(init), RoutedRecords(last.records, last.route), RoutedWeight(sel, m));
    }
  }

  /** How a stream was cut into polls does not matter: two tables built from the same records, each record routed
      to the same tenant, give every selection the same sums. */
  lemma CutsDoNotMatter(table: seq<FlowRow>, polls: seq<Poll>, table': seq<FlowRow>, polls': seq<Poll>, sel: Selection,
                        m: Metric)
    requires TableOf(table, polls) && TableOf(table', polls') && Stream(polls) == Stream(polls')
    ensures RowSum(table, sel, m) == RowSum(table', sel, m)
  {
    TableSumsStream(table, polls, sel, m);
    TableSumsStream(table', polls', sel, m);
    StreamSumFlat(polls, sel, m);
    StreamSumFlat(polls', sel, m);
  }
}
