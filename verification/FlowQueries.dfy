/** The queries over flow summaries: services/flows.py, traffic_compare.py and protocol_mix.py. */
module FlowQueries {
  import opened Common
  import opened Grouping
  import opened Statistics
  import opened FlowSummary
  import Text

  // ---------------------------------------------------------------- raw counterparts

  /** Which raw records a question is about, by tenant and record. */
  type RawQuestion = (string, FlowRecord) -> bool

  function QuestionWeight(route: Route, want: RawQuestion, m: Metric): FlowRecord -> int {
    (r: FlowRecord) => if want(TenantOf(route, r.agent), r) then Estimate(r, m) else 0
  }

  /** What the raw, sampling-corrected records of a run add up to. */
  function RawSum(polls: seq<Poll>, want: RawQuestion, m: Metric): int {
    if polls == [] then 0
    else
      var last := polls[|polls| - 1];
      RawSum(polls[..|polls| - 1], want, m) + Total(last.records, QuestionWeight(last.route, want, m))
  }

  ghost predicate AskedOf(polls: seq<Poll>, want: RawQuestion) {
    exists p, r :: p in polls && r in p.records && want(TenantOf(p.route, r.agent), r)
  }

  ghost predicate SameQuestion(sel: Selection, want: RawQuestion) {
    forall t, r :: sel(t, KeyOf(r)) <==> want(t, r)
  }

  lemma {:induction false} StreamSumIsRaw(polls: seq<Poll>, sel: Selection, want: RawQuestion, m: Metric)
    requires SameQuestion(sel, want)
    ensures StreamSum(polls, sel, m) == RawSum(polls, want, m)
  {
    if polls != [] {
      var last := polls[|polls| - 1];
      StreamSumIsRaw(polls[..|polls| - 1], sel, want, m);
      forall r | r in last.records
        ensures RecordWeight(last.route, sel, m)(r) == QuestionWeight(last.route, want, m)(r)
      {
        assert sel(TenantOf(last.route, r.agent), KeyOf(r)) <==> want(TenantOf(last.route, r.agent), r);
      }
      TotalAgree(last.records, RecordWeight(last.route, sel, m), QuestionWeight(last.route, want, m));
    }
  }

  /** A query on the table answers the matching question on the raw records, in sum and in presence. */
  lemma TableAnswersRaw(table: seq<FlowRow>, polls: seq<Poll>, sel: Selection, want: RawQuestion, m: Metric)
    requires TableOf(table, polls) && SameQuestion(sel, want)
    ensures RowSum(table, sel, m) == RawSum(polls, want, m)
    ensures Selected(table, sel) <==> AskedOf(polls, want)
  {
    TableSumsStream(table, polls, sel, m);
    StreamSumIsRaw(polls, sel, want, m);
    TablePresence(table, polls, sel);
    if AskedOf(polls, want) {
      var p, r :| p in polls && r in p.records && want(TenantOf(p.route, r.agent), r);
      assert sel(TenantOf(p.route, r.agent), KeyOf(r));
    }
  }

  // ---------------------------------------------------------------- scopes and selections

  /** Only a "device:" scope narrows a query; every other scope, "site:" included, reads all devices. */
  function DeviceOf(scope: string): Option<string> {
    if scope != "global" && "device:" <= scope then Some(scope[7..]) else None
  }

  predicate InScope(scope: string, device: string) {
    DeviceOf(scope).Some? ==> device == DeviceOf(scope).value
  }

  /** A "device:" scope reads the device it names; any other scope reads all. */
  lemma ScopeReads(name: string, scope: string, device: string)
    ensures InScope("device:" + name, device) <==> device == name
    ensures (forall rest :: scope != "device:" + rest) ==> InScope(scope, device)
  {
    assert ("device:" + name)[0] == 'd' && "global"[0] == 'g' && ("device:" + name)[..7] == "device:";
    assert ("device:" + name)[7..] == name;
    if "device:" <= scope { assert scope == "device:" + scope[7..]; }
  }

  datatype Pair = Pair(src: string, dst: string, protocol: int)

  function PairOf(k: FlowKey): Pair { Pair(k.src, k.dst, k.protocol) }

  function SinceSel(tenant: string, since: int, scope: string): Selection {
    (t: string, k: FlowKey) => t == tenant && k.bucket >= since && InScope(scope, k.device)
  }

  function PairSel(tenant: string, since: int, scope: string, p: Pair): Selection {
    (t: string, k: FlowKey) => t == tenant && k.bucket >= since && InScope(scope, k.device) && PairOf(k) == p
  }

  function ProtocolSel(tenant: string, since: int, scope: string, protocol: int): Selection {
    (t: string, k: FlowKey) => t == tenant && k.bucket >= since && InScope(scope, k.device) && k.protocol == protocol
  }

  function WindowSel(tenant: string, start: int, end: int, scope: string): Selection {
    (t: string, k: FlowKey) => t == tenant && start <= k.bucket < end && InScope(scope, k.device)
  }

  function RawPair(tenant: string, since: int, scope: string, p: Pair): RawQuestion {
    (t: string, r: FlowRecord) => t == tenant && r.timestamp >= NextMinute(since) && InScope(scope, r.agent)
      && Pair(r.src, r.dst, r.protocol) == p
  }

  function RawProtocol(tenant: string, since: int, scope: string, protocol: int): RawQuestion {
    (t: string, r: FlowRecord) => t == tenant && r.timestamp >= NextMinute(since) && InScope(scope, r.agent)
      && r.protocol == protocol
  }

  function RawWindow(tenant: string, start: int, end: int, scope: string): RawQuestion {
    (t: string, r: FlowRecord) =>
      t == tenant && NextMinute(start) <= r.timestamp < NextMinute(end) && InScope(scope, r.agent)
  }

  lemma BucketBounds()
    ensures forall t, bound :: MinuteBucket(t) >= bound <==> t >= NextMinute(bound)
  {
    forall t, bound
      ensures MinuteBucket(t) >= bound <==> t >= NextMinute(bound)
    {
      BucketBound(t, bound);
    }
  }

  // ---------------------------------------------------------------- window comparison

  /** `window_bytes(start, end)`. */
  function WindowBytes(table: seq<FlowRow>, tenant: string, start: int, end: int, scope: string): int {
    RowSum(table, WindowSel(tenant, start, end, scope), Bytes)
  }

  /** A window sums the raw records between its bounds, each rounded up to a whole minute. */
  lemma WindowBytesAreRaw(table: seq<FlowRow>, polls: seq<Poll>, tenant: string, start: int, end: int, scope: string)
    requires TableOf(table, polls)
    ensures WindowBytes(table, tenant, start, end, scope) == RawSum(polls, RawWindow(tenant, start, end, scope), Bytes)
  {
    BucketBounds();
    TableAnswersRaw(table, polls, WindowSel(tenant, start, end, scope), RawWindow(tenant, start, end, scope), Bytes);
  }

  /** Adjacent half-open windows add up. */
  lemma {:induction false} AdjacentWindowsAddUp(table: seq<FlowRow>, tenant: string, a: int, b: int, c: int,
                                                scope: string)
    requires a <= b <= c
    ensures WindowBytes(table, tenant, a, b, scope) + WindowBytes(table, tenant, b, c, scope)
         == WindowBytes(table, tenant, a, c, scope)
  {
    if table != [] {
      AdjacentWindowsAddUp(table[..|table| - 1], tenant, a, b, c, scope);
    }
  }

  datatype Direction = Increase | Decrease | Stable

  /** `delta_bytes_pct` in tenths of a percent: the comparison rounds to one decimal. */
  function DeltaTenths(baseline: int, current: int): int {
    if baseline > 0 then RoundHalfEven((current - baseline) as real / baseline as real * 1000.0) else 0
  }

  function DirectionOf(baseline: int, current: int): Direction {
    if DeltaTenths(baseline, current) > 50 then Increase
    else if DeltaTenths(baseline, current) < -50 then Decrease
    else Stable
  }

  /** The verdict turns at 5.05 percent, not at 5, and never leaves "stable" without a baseline. */
  lemma DirectionCutoffs(baseline: int, current: int)
    ensures DirectionOf(baseline, current) == Increase <==> baseline > 0 && 2000 * (current - baseline) > 101 * baseline
    ensures DirectionOf(baseline, current) == Decrease
       <==> baseline > 0 && 2000 * (current - baseline) < -101 * baseline
  {
    if baseline > 0 {
      var d, b := (current - baseline) as real, baseline as real;
      var x := d / b * 1000.0;
      RoundReaches(x, 51);
      RoundReaches(x, -50);
      TenthsArithmetic(d, b, x);
    }
  }

  lemma TenthsArithmetic(d: real, b: real, x: real)
    requires b > 0.0 && x == d / b * 1000.0
    ensures x > 50.5 <==> 2000.0 * d > 101.0 * b
    ensures x < -50.5 <==> 2000.0 * d < -101.0 * b
  {
    assert x * b == d * 1000.0;
    if x > 50.5 { SameSign(x - 50.5, b, (x - 50.5) * b); }
    if x < 50.5 { SameSign(50.5 - x, b, (50.5 - x) * b); }
    if x < -50.5 { SameSign(-50.5 - x, b, (-50.5 - x) * b); }
    if x > -50.5 { SameSign(x + 50.5, b, (x + 50.5) * b); }
  }

  // ---------------------------------------------------------------- top talkers

  datatype Talker = Talker(pair: Pair, bytes: int)

  predicate Ranked(answer: seq<Talker>) {
    forall i, j :: 0 <= i < j < |answer| ==> answer[i].pair != answer[j].pair && answer[i].bytes >= answer[j].bytes
  }

  /** `GROUP BY pair ORDER BY total DESC LIMIT limit`, whatever the engine does with ties. */
  ghost predicate IsTop(present: Pair -> bool, total: Pair -> int, limit: nat, answer: seq<Talker>) {
    |answer| <= limit
    && Ranked(answer)
    && (forall i :: 0 <= i < |answer| ==> present(answer[i].pair) && answer[i].bytes == total(answer[i].pair))
    && (forall p :: present(p) && (forall i :: 0 <= i < |answer| ==> answer[i].pair != p) ==>
          |answer| == limit && forall i :: 0 <= i < |answer| ==> total(p) <= answer[i].bytes)
  }

  function PairBytes(table: seq<FlowRow>, tenant: string, since: int, scope: string): Pair -> int {
    (p: Pair) => RowSum(table, PairSel(tenant, since, scope, p), Bytes)
  }

  ghost function PairPresent(table: seq<FlowRow>, tenant: string, since: int, scope: string): Pair -> bool {
    (p: Pair) => Selected(table, PairSel(tenant, since, scope, p))
  }

  function RawPairBytes(polls: seq<Poll>, tenant: string, since: int, scope: string): Pair -> int {
    (p: Pair) => RawSum(polls, RawPair(tenant, since, scope, p), Bytes)
  }

  ghost function RawPairPresent(polls: seq<Poll>, tenant: string, since: int, scope: string): Pair -> bool {
    (p: Pair) => AskedOf(polls, RawPair(tenant, since, scope, p))
  }

  lemma PairAnswersRaw(table: seq<FlowRow>, polls: seq<Poll>, tenant: string, since: int, scope: string, p: Pair)
    requires TableOf(table, polls)
    ensures PairBytes(table, tenant, since, scope)(p) == RawPairBytes(polls, tenant, since, scope)(p)
    ensures PairPresent(table, tenant, since, scope)(p) <==> RawPairPresent(polls, tenant, since, scope)(p)
  {
    forall t, r
      ensures PairSel(tenant, since, scope, p)(t, KeyOf(r)) <==> RawPair(tenant, since, scope, p)(t, r)
    {
      BucketBound(r.timestamp, since);
      assert PairOf(KeyOf(r)) == Pair(r.src, r.dst, r.protocol);
    }
    TableAnswersRaw(table, polls, PairSel(tenant, since, scope, p), RawPair(tenant, since, scope, p), Bytes);
  }

  /** The top talkers of the summary table are the top talkers of the raw stream. */
  lemma TopTalkersAreRaw(table: seq<FlowRow>, polls: seq<Poll>, tenant: string, since: int, scope: string,
                         limit: nat, answer: seq<Talker>)
    requires TableOf(table, polls)
    requires IsTop(PairPresent(table, tenant, since, scope), PairBytes(table, tenant, since, scope), limit, answer)
    ensures IsTop(RawPairPresent(polls, tenant, since, scope), RawPairBytes(polls, tenant, since, scope), limit, answer)
  {
    forall p: Pair
      ensures PairBytes(table, tenant, since, scope)(p) == RawPairBytes(polls, tenant, since, scope)(p)
      ensures PairPresent(table, tenant, since, scope)(p) <==> RawPairPresent(polls, tenant, since, scope)(p)
    {
      PairAnswersRaw(table, polls, tenant, since, scope, p);
    }
  }

  /** Ties aside the answer is determined: any two answers list the same byte counts. */
  lemma TopIsUnique(present: Pair -> bool, total: Pair -> int, limit: nat, a: seq<Talker>, b: seq<Talker>)
    requires IsTop(present, total, limit, a) && IsTop(present, total, limit, b)
    ensures |a| == |b| && forall i :: 0 <= i < |a| ==> a[i].bytes == b[i].bytes
  {
    NotShorter(present, total, limit, a, b);
    NotShorter(present, total, limit, b, a);
    forall i | 0 <= i < |a|
      ensures a[i].bytes == b[i].bytes
    {
      NotOutranked(present, total, limit, a, b, i);
      NotOutranked(present, total, limit, b, a, i);
    }
  }

  /** Among the first `n` pairs of `a` there is one that none of the first `n - 1` of `b` is. */
  lemma Pigeonhole(a: seq<Talker>, b: seq<Talker>, n: nat) returns (t: Talker)
    requires 0 < n <= |a| && n - 1 <= |b| && Ranked(a)
    ensures t in a && t.bytes >= a[n - 1].bytes
    ensures forall j :: 0 <= j < n - 1 ==> b[j].pair != t.pair
  {
    var left, right := set i | 0 <= i < n :: a[i].pair, set j | 0 <= j < n - 1 :: b[j].pair;
    PairCount(a, n);
    PairBound(b, n - 1);
    if left <= right { SubsetSize(left, right); }
    var p :| p in left && p !in right;
    var k :| 0 <= k < n && a[k].pair == p;
    t := a[k];
  }

  lemma {:induction false} PairCount(a: seq<Talker>, n: nat)
    requires n <= |a| && Ranked(a)
    ensures |set i | 0 <= i < n :: a[i].pair| == n
  {
    if n > 0 {
      PairCount(a, n - 1);
      assert (set i | 0 <= i < n :: a[i].pair) == (set i | 0 <= i < n - 1 :: a[i].pair) + {a[n - 1].pair};
    }
  }

  lemma {:induction false} PairBound(b: seq<Talker>, n: nat)
    requires n <= |b|
    ensures |set j | 0 <= j < n :: b[j].pair| <= n
  {
    if n > 0 {
      PairBound(b, n - 1);
      assert (set j | 0 <= j < n :: b[j].pair) == (set j | 0 <= j < n - 1 :: b[j].pair) + {b[n - 1].pair};
    }
  }

  lemma SubsetSize<T>(a: set<T>, b: set<T>)
    requires a <= b
    ensures |a| <= |b|
  {
    assert b == a + (b - a);
  }

  /** A present pair that an answer leaves out: the answer is full, and of larger pairs. */
  lemma LeftOut(present: Pair -> bool, total: Pair -> int, limit: nat, b: seq<Talker>, p: Pair)
    requires IsTop(present, total, limit, b) && present(p) && forall j :: 0 <= j < |b| ==> b[j].pair != p
    ensures |b| == limit && forall i :: 0 <= i < |b| ==> total(p) <= b[i].bytes
  {}

  lemma NotShorter(present: Pair -> bool, total: Pair -> int, limit: nat, a: seq<Talker>, b: seq<Talker>)
    requires IsTop(present, total, limit, a) && IsTop(present, total, limit, b)
    ensures |b| >= |a|
  {
    if |b| < |a| {
      var t := Pigeonhole(a, b, |b| + 1);
      LeftOut(present, total, limit, b, t.pair);
    }
  }

  /** A present pair, missing from the first `i` places, cannot beat the place after them. */
  lemma FromPlace(present: Pair -> bool, total: Pair -> int, limit: nat, b: seq<Talker>, p: Pair, i: nat)
    requires IsTop(present, total, limit, b) && present(p) && i < |b| && forall j :: 0 <= j < i ==> b[j].pair != p
    ensures b[i].bytes >= total(p)
  {
    if j :| 0 <= j < |b| && b[j].pair == p {
      assert i == j || b[i].bytes >= b[j].bytes;
    } else {
      LeftOut(present, total, limit, b, p);
    }
  }

  /** The i-th place of one answer cannot beat the i-th place of another. */
  lemma NotOutranked(present: Pair -> bool, total: Pair -> int, limit: nat, a: seq<Talker>, b: seq<Talker>, i: nat)
    requires IsTop(present, total, limit, a) && IsTop(present, total, limit, b) && i < |a| && i < |b|
    ensures b[i].bytes >= a[i].bytes
  {
    var t := Pigeonhole(a, b, i + 1);
    FromPlace(present, total, limit, b, t.pair, i);
  }

  // ---------------------------------------------------------------- protocol breakdown and mix

  /** `protocol_name`. */
  function ProtocolName(protocol: int): string {
    if protocol == 6 then "TCP"
    else if protocol == 17 then "UDP"
    else if protocol == 1 then "ICMP"
    else if protocol == 112 then "VRRP"
    else if protocol == 89 then "OSPF"
    else "PROTO_" + Text.DecimalInt(protocol)
  }

  predicate WellKnown(protocol: int) { protocol in {1, 6, 17, 89, 112} }

  /** No two protocols share a name, so grouping by name is grouping by protocol. */
  lemma ProtocolNamesDiffer(p: int, q: int)
    requires ProtocolName(p) == ProtocolName(q)
    ensures p == q
  {
    var sp, sq := Text.DecimalInt(p), Text.DecimalInt(q);
    if !WellKnown(p) { assert ProtocolName(p)[2] == 'O'; assert ProtocolName(p)[6..] == sp; }
    if !WellKnown(q) { assert ProtocolName(q)[2] == 'O'; assert ProtocolName(q)[6..] == sq; }
    if !WellKnown(p) && !WellKnown(q) {
      Text.DecimalIntInjective(p, q);
    }
  }

  /** The names, both ways. */
  lemma ProtocolNamesAre(p: int)
    ensures (ProtocolName(p) == "TCP" <==> p == 6) && (ProtocolName(p) == "UDP" <==> p == 17)
    ensures (ProtocolName(p) == "ICMP" <==> p == 1) && (ProtocolName(p) == "VRRP" <==> p == 112)
    ensures ProtocolName(p) == "OSPF" <==> p == 89
    ensures ProtocolName(p) == "PROTO_" + Text.DecimalInt(p) <==> p !in {1, 6, 17, 89, 112}
  {
    assert "TCP"[0] == 'T' && "UDP"[0] == 'U' && "ICMP"[0] == 'I' && "VRRP"[0] == 'V' && "OSPF"[0] == 'O';
    assert ("PROTO_" + Text.DecimalInt(p))[0] == 'P';
  }

  function NameOf(t: Talker): string { ProtocolName(t.pair.protocol) }

  function BytesOf(t: Talker): int { t.bytes }

  /** The dict holds, for each protocol name seen, the bytes of its pairs. */
  ghost predicate BreakdownOf(protoBytes: map<string, int>, rows: seq<Talker>) {
    (forall name :: name in protoBytes <==> name in FirstSeen(rows, NameOf))
    && forall name :: name in protoBytes ==> protoBytes[name] == Total(FiledUnder(rows, NameOf, name), BytesOf)
  }

  lemma BreakdownNext(protoBytes: map<string, int>, rows: seq<Talker>, t: Talker, name: string)
    requires BreakdownOf(protoBytes, rows) && name == NameOf(t)
    ensures BreakdownOf(protoBytes[name := (if name in protoBytes then protoBytes[name] else 0) + t.bytes], rows + [t])
  {
    FirstSeenSnoc(rows, t, NameOf);
    SeenIffFiled(rows, NameOf, name);
    FiledTotalNext(rows, t, name);
    assert (rows + [t])[..|rows|] == rows;
  }

  /** The `proto_bytes` loop of `get_top_talkers`. */
  method ProtocolBreakdown(rows: seq<Talker>) returns (protoBytes: map<string, int>)
    ensures BreakdownOf(protoBytes, rows)
  {
    protoBytes := map[];
    for i := 0 to |rows|
      invariant BreakdownOf(protoBytes, rows[..i])
    {
      var name := NameOf(rows[i]);
      BreakdownNext(protoBytes, rows[..i], rows[i], name);
      assert rows[..i + 1] == rows[..i] + [rows[i]];
      protoBytes := protoBytes[name := (if name in protoBytes then protoBytes[name] else 0) + rows[i].bytes];
    }
    assert rows[..|rows|] == rows;
  }

  lemma FiledTotalNext(rows: seq<Talker>, t: Talker, name: string)
    requires name == NameOf(t)
    ensures Total(FiledUnder(rows + [t], NameOf, name), BytesOf)
      == Total(FiledUnder(rows, NameOf, name), BytesOf) + t.bytes
  {
    assert (rows + [t])[..|rows|] == rows;
    var filed := FiledUnder(rows, NameOf, name);
    assert (filed + [t])[..|filed|] == filed;
  }

  /** The breakdown accounts for every byte of the listed pairs. */
  lemma BreakdownConserves(rows: seq<Talker>)
    ensures SumGroups(FirstSeen(rows, NameOf), rows, NameOf, BytesOf) == Total(rows, BytesOf)
  {
    GroupingConserves(rows, NameOf, BytesOf);
  }

  /** The breakdown read by protocol number: what it has for a protocol's name are the bytes of its pairs. */
  lemma BreakdownByProtocol(protoBytes: map<string, int>, rows: seq<Talker>, p: int)
    requires BreakdownOf(protoBytes, rows)
    ensures ProtocolName(p) in protoBytes <==> exists i :: 0 <= i < |rows| && rows[i].pair.protocol == p
    ensures ProtocolName(p) in protoBytes ==>
      protoBytes[ProtocolName(p)] == Total(rows, (t: Talker) => if t.pair.protocol == p then t.bytes else 0)
  {
    forall t: Talker
      ensures NameOf(t) == ProtocolName(p) <==> t.pair.protocol == p
    {
      if NameOf(t) == ProtocolName(p) { ProtocolNamesDiffer(t.pair.protocol, p); }
    }
    SeenIff(rows, NameOf, ProtocolName(p));
    FiledTotal(rows, NameOf, ProtocolName(p), BytesOf, (t: Talker) => if t.pair.protocol == p then t.bytes else 0);
  }

  datatype MixRow = MixRow(protocol: int, bytes: int, packets: int)

  /** The rows of `summarize_protocol_mix`: one for each protocol present, largest first. */
  ghost predicate IsMix(table: seq<FlowRow>, tenant: string, since: int, scope: string, mix: seq<MixRow>) {
    (forall i, j :: 0 <= i < j < |mix| ==> mix[i].protocol != mix[j].protocol && mix[i].bytes >= mix[j].bytes)
    && (forall p :: Selected(table, ProtocolSel(tenant, since, scope, p)) <==>
          exists i :: 0 <= i < |mix| && mix[i].protocol == p)
    && (forall i :: 0 <= i < |mix| ==>
          mix[i].bytes == RowSum(table, ProtocolSel(tenant, since, scope, mix[i].protocol), Bytes)
          && mix[i].packets == RowSum(table, ProtocolSel(tenant, since, scope, mix[i].protocol), Packets))
  }

  predicate Listed(mix: seq<MixRow>, protocol: int) { exists i :: 0 <= i < |mix| && mix[i].protocol == protocol }

  lemma ProtocolAnswersRaw(table: seq<FlowRow>, polls: seq<Poll>, tenant: string, since: int, scope: string, p: int,
                           m: Metric)
    requires TableOf(table, polls)
    ensures RowSum(table, ProtocolSel(tenant, since, scope, p), m)
      == RawSum(polls, RawProtocol(tenant, since, scope, p), m)
    ensures Selected(table, ProtocolSel(tenant, since, scope, p))
       <==> AskedOf(polls, RawProtocol(tenant, since, scope, p))
  {
    BucketBounds();
    TableAnswersRaw(table, polls, ProtocolSel(tenant, since, scope, p), RawProtocol(tenant, since, scope, p), m);
  }

  /** The mix lists exactly the protocols present in the raw stream, each with its raw totals. */
  lemma MixIsRaw(table: seq<FlowRow>, polls: seq<Poll>, tenant: string, since: int, scope: string, mix: seq<MixRow>)
    requires TableOf(table, polls) && IsMix(table, tenant, since, scope, mix)
    ensures forall p :: AskedOf(polls, RawProtocol(tenant, since, scope, p)) <==> Listed(mix, p)
    ensures forall i :: 0 <= i < |mix| ==>
      mix[i].bytes == RawSum(polls, RawProtocol(tenant, since, scope, mix[i].protocol), Bytes)
      && mix[i].packets == RawSum(polls, RawProtocol(tenant, since, scope, mix[i].protocol), Packets)
  {
    forall p
      ensures AskedOf(polls, RawProtocol(tenant, since, scope, p)) <==> Listed(mix, p)
    {
      ProtocolAnswersRaw(table, polls, tenant, since, scope, p, Bytes);
    }
    forall i | 0 <= i < |mix|
      ensures mix[i].bytes == RawSum(polls, RawProtocol(tenant, since, scope, mix[i].protocol), Bytes)
      ensures mix[i].packets == RawSum(polls, RawProtocol(tenant, since, scope, mix[i].protocol), Packets)
    {
      ProtocolAnswersRaw(table, polls, tenant, since, scope, mix[i].protocol, Bytes);
      ProtocolAnswersRaw(table, polls, tenant, since, scope, mix[i].protocol, Packets);
    }
  }

  lemma {:induction false} MixRowOnce(mix: seq<MixRow>, sum: MixRow -> int, protocol: int, weight: int)
    requires forall i, j :: 0 <= i < j < |mix| ==> mix[i].protocol != mix[j].protocol
    requires forall i :: 0 <= i < |mix| ==> sum(mix[i]) == if mix[i].protocol == protocol then weight else 0
    ensures Total(mix, sum) == if Listed(mix, protocol) then weight else 0
  {
    if mix != [] {
      var init := mix[..|mix| - 1];
      MixRowOnce(init, sum, protocol, weight);
      assert Listed(mix, protocol) <==> Listed(init, protocol) || mix[|mix| - 1].protocol == protocol;
    }
  }

  function TableBytes(table: seq<FlowRow>, tenant: string, since: int, scope: string): MixRow -> int {
    (r: MixRow) => RowSum(table, ProtocolSel(tenant, since, scope, r.protocol), Bytes)
  }

  lemma {:induction false} MixSplitsTable(table: seq<FlowRow>, tenant: string, since: int, scope: string,
                                          mix: seq<MixRow>)
    requires forall i, j :: 0 <= i < j < |mix| ==> mix[i].protocol != mix[j].protocol
    requires forall row :: row in table && SinceSel(tenant, since, scope)(row.tenant, row.key) ==>
      Listed(mix, row.key.protocol)
    ensures Total(mix, TableBytes(table, tenant, since, scope)) == RowSum(table, SinceSel(tenant, since, scope), Bytes)
  {
    if table == [] {
      MixRowOnce(mix, TableBytes(table, tenant, since, scope), 0, 0);
    } else {
      var init, row := table[..|table| - 1], table[|table| - 1];
      assert row in table;
      MixSplitsTable(init, tenant, since, scope, mix);
      var kept := SinceSel(tenant, since, scope)(row.tenant, row.key);
      var share := (r: MixRow) => if kept && r.protocol == row.key.protocol then row.bytesEstimated else 0;
      MixRowOnce(mix, share, row.key.protocol, if kept then row.bytesEstimated else 0);
      TotalSplits(mix, TableBytes(table, tenant, since, scope), TableBytes(init, tenant, since, scope), share);
    }
  }

  lemma {:induction false} TotalSplits<T>(xs: seq<T>, w: T -> int, u: T -> int, v: T -> int)
    requires forall x :: x in xs ==> w(x) == u(x) + v(x)
    ensures Total(xs, w) == Total(xs, u) + Total(xs, v)
  {
    if xs != [] {
      assert xs[|xs| - 1] in xs;
      TotalSplits(xs[..|xs| - 1], w, u, v);
    }
  }

  /** The mix accounts for every byte in the window: its rows add up to the ungrouped total. */
  lemma MixCoversWindow(table: seq<FlowRow>, tenant: string, since: int, scope: string, mix: seq<MixRow>)
    requires IsMix(table, tenant, since, scope, mix)
    ensures Total(mix, (r: MixRow) => r.bytes) == RowSum(table, SinceSel(tenant, since, scope), Bytes)
  {
    forall row | row in table && SinceSel(tenant, since, scope)(row.tenant, row.key)
      ensures Listed(mix, row.key.protocol)
    {
      assert Selected(table, ProtocolSel(tenant, since, scope, row.key.protocol));
    }
    MixSplitsTable(table, tenant, since, scope, mix);
    TotalAgree(mix, (r: MixRow) => r.bytes, TableBytes(table, tenant, since, scope));
  }
}
