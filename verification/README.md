# FlowMind, modelled in Dafny

FlowMind is a network-telemetry service: pollers fold flow samples and device
state into per-minute tables, detectors and queries read those tables, and a
tool server in front of it limits and audits the calls a language model makes.
This project models the parts of it that carry guarantees over every input or
every run, and proves those guarantees. `dafny verify dfyconfig.toml` checks it.

## How it is laid out

| file | component |
|---|---|
| `FlowSummary.dfy`, `FlowQueries.dfy` | per-minute flow summaries and the queries on them |
| `Statistics.dfy`, `Fabric.dfy`, `SpeedGroups.dfy`, `Baselines.dfy` | means and variances, ECMP imbalance, speed groups, rolling baselines and spikes |
| `Calendars.dfy`, `Partitions.dfy`, `PartitionRuns.dfy` | monthly partitions and their upkeep |
| `Fingerprints.dfy`, `AnomalyDedup.dfy`, `Freshness.dfy` | the anomaly table and the freshness scanner that feeds it |
| `RateLimit.dfy`, `Audit.dfy`, `Quota.dfy` | the sliding window, the audit wrapper around it, the daily quotas |
| `TenantRouter.dfy` | the tenant cache shared by the ingest loops |
| `GnmiLeaves.dfy`, `GnmiParsers.dfy`, `GnmiTargets.dfy` | the gNMI response parsers and the target list |
| `Rdma.dfy` | the RDMA health assessment against the RDMA detectors |
| `Secrets.dfy`, `ApiKeys.dfy` | secret rewrapping and API-key rotation |
| `Common.dfy`, `Text.dfy`, `Grouping.dfy` | options and results, string functions, insertion-ordered grouping |

Objects and loops of the source are classes and methods, each proved against a
function of the old state. What the source promises is then proved of those
functions, over all runs. A run is a sequence of atomic steps: one SQL
statement, one stretch of a coroutine between two awaits, one call. Time is an
integer of microseconds (`RateLimit`, `Audit` and `TenantRouter`: a real number
of seconds). Floats are reals; a square root is avoided by comparing squares,
which `CvComparedSquared` and `ZComparedSquared` justify.

## Where code and documentation differ

The model follows the code.

- The migration promises to always keep the previous month
  (`0007_data_scale.py:134`). With 30 days of retention the tick drops it on the
  31st: `PreviousMonthUnderThirtyDays`, `QueueLosesPreviousMonth`.
- `record_anomaly` says that it merges the cause into the metadata
  (`anomaly_dedup.py:70-71`); it replaces metadata and summary.
- The RDMA module describes ECN marking as high (`rdma.py:19`); the code says
  medium. The detectors call 1000 pause frames a storm, the assessment 1001:
  `AssessCoversEventsIff`.
- Verdicts are taken on rounded numbers: the imbalance severities turn at 1.995
  and 2.995, the window comparison at 5.05 percent.
- `detect_spikes` compares a five-minute sum with a per-minute baseline:
  `SteadyTrafficSpikesIff`.
- Only `device:` scopes narrow a flow query; any other scope reads all devices.
- The audit wrapper promises a record for every invocation
  (`audit.py:3-12`). A body that is cancelled leaves none: `OneRecordIff`.
- The quota route nests a refusal under `detail` (`routers/tool_audit.py:42`),
  so the dict that the wrapper reads then has no `allowed` entry. The model
  states refusal on the dict as read; without an entry the call is allowed.
- `rewrap_all` promises that the table transitions in place (`crypto.py:9-11`). It
  skips the rows that have the new version number already, whatever their key:
  `RewrapReadableIff`, `ReusedVersionLeavesTwoKeys`.
- Key rotation writes a longer name each time: `ChainsAreShort`, `ChainGrowsIff`. It does not ask
  whether the key was revoked: `SuccessorLiveIff`, `RevokedKeyLivesOn`.
- The router is called safe to share across the ingest loops
  (`tenant_routing.py:32`). A slow refresh can put an older version back over a
  newer one: `SlowRefreshPutsOldVersionBack`, and exactly when: `GoesBackIff`,
  `NeverGoesBackIff`.
- A fingerprint is promised to stand for its condition. It does exactly for types
  and scopes without a bar: `FingerprintIsOwnIff`.

## Model

| member | source | states |
|---|---|---|
| FlowSummary.BucketBound | apps/telemetry-api/services/ingest.py:28-30 | comparing a minute bucket with a query bound is comparing the raw time with the bound rounded up to a whole minute |
| FlowSummary.FillBuckets | apps/telemetry-api/services/ingest.py:52-67 | the bucketing loop leaves, per key in order of first sight, the sampling-corrected byte and packet sums of that key's records and the last sampling rate |
| FlowSummary.NormalizeFlows | apps/telemetry-api/services/ingest.py:40-91 | one row per distinct key; each holds the bytes and packets of its records times their sampling rates, under the tenant mapped to the agent, or the default one, and every record has its row |
| FlowSummary.SummariesPreserveSums | apps/telemetry-api/services/ingest.py:52-91 | for one poll, every selection by tenant and key sums to the same over the rows as over the raw corrected records |
| FlowSummary.SummariesPreservePresence | apps/telemetry-api/services/ingest.py:52-91 | for one poll, a selection finds a row exactly when it finds a raw record |
| FlowSummary.RowsTellRecords | apps/telemetry-api/services/ingest.py:52-91 | every record of a poll belongs to exactly one row by agent, interface, endpoints, protocol and minute; every row has the bytes and packets of its records, each times its sampling rate, the rate of the last of them, and the tenant its agent is mapped to |
| FlowSummary.RowsSumExpandedRecords | apps/telemetry-api/services/ingest.py:3-6 | the sampling correction: rows add up to what the records would if each had come in as many copies as its rate says, counted plainly |
| FlowSummary.RateIsCopies | apps/telemetry-api/services/ingest.py:61-64 | in any poll a record at rate n can be replaced by n copies of it at rate 1, and no selection sums differently |
| FlowSummary.RateOneIsPlain | apps/telemetry-api/services/ingest.py:61-64 | rows of records at rate 1 add up to their plain bytes and packets |
| FlowSummary.Ingest | apps/telemetry-api/services/ingest.py:131-161 | the table after a run is the rows of each cycle, appended in order |
| FlowSummary.TableSumsStream | apps/telemetry-api/services/ingest.py:52-161 | after any run of polls, every selection sums to the same over the table as over the raw stream |
| FlowSummary.TablePresence | apps/telemetry-api/services/ingest.py:52-161 | after any run of polls, a selection finds a row exactly when it finds a raw record |
| FlowSummary.CutsDoNotMatter | apps/telemetry-api/services/ingest.py:52-91 | two ways of cutting one stream into polls that route each record to the same tenant give tables on which every selection sums to the same |
| FlowQueries.TableAnswersRaw | apps/telemetry-api/services/ingest.py:52-91 | a query on the summary table answers the matching question on the raw records, in sum and in presence |
| FlowQueries.WindowBytesAreRaw | apps/telemetry-api/services/traffic_compare.py:19-29 | a window sums exactly the raw records between its bounds, each rounded up to a whole minute |
| FlowQueries.AdjacentWindowsAddUp | apps/telemetry-api/services/traffic_compare.py:19-29 | adjacent half-open windows add up |
| FlowQueries.DirectionCutoffs | apps/telemetry-api/services/traffic_compare.py:34-44 | the verdict turns at exactly 5.05 percent, because it compares the rounded delta, and is stable without a baseline |
| FlowQueries.ScopeReads | apps/telemetry-api/services/flows.py:49-51 | a "device:" scope reads exactly the device it names, any other scope every device |
| FlowQueries.TopTalkersAreRaw | apps/telemetry-api/services/flows.py:28-54 | the top talkers of the table are the top talkers of the raw stream |
| FlowQueries.TopIsUnique | apps/telemetry-api/services/flows.py:45-46 | any two correct answers to the top query list the same byte counts in the same order, whatever is done with ties |
| FlowQueries.ProtocolNamesDiffer | apps/telemetry-api/services/flows.py:14-18 | no two protocol numbers share a name |
| FlowQueries.ProtocolNamesAre | apps/telemetry-api/services/flows.py:14-18 | which protocol has which of the five names, both ways, and that all others have their number |
| FlowQueries.ProtocolBreakdown | apps/telemetry-api/services/flows.py:62-65 | the loop leaves, for each protocol name seen and no other, the bytes of the listed pairs of that name |
| FlowQueries.BreakdownByProtocol | apps/telemetry-api/services/flows.py:62-65 | what the breakdown has under the name of a protocol are the bytes of the pairs with that number, and it has the name exactly if there is one |
| FlowQueries.BreakdownConserves | apps/telemetry-api/services/flows.py:59-67 | the breakdown accounts for every byte of the listed pairs exactly once |
| FlowQueries.MixIsRaw | apps/telemetry-api/services/protocol_mix.py:19-54 | the mix lists exactly the protocols present in the raw stream, each with its raw bytes and packets |
| FlowQueries.MixCoversWindow | apps/telemetry-api/services/protocol_mix.py:41-54 | the rows of the mix together are all the bytes of the window |
| Statistics.Samuelson | apps/telemetry-api/services/baselines.py:63-65 | (v - mean)^2 <= (n-1) variance for each sample |
| Statistics.ZeroVariance | apps/telemetry-api/services/baselines.py:63-65 | the two-pass population variance is zero exactly when all samples are equal |
| Statistics.MeanBounds | apps/telemetry-api/services/fabric.py:203-218 | for non-negative samples mean <= max <= n mean |
| Statistics.VarianceBound | apps/telemetry-api/services/fabric.py:215-217 | for non-negative samples variance <= (n-1) mean^2 |
| Statistics.OneApartMoments | apps/telemetry-api/services/baselines.py:63-65 | Samuelson's bound is reached by one sample that stands apart from equal others |
| Fabric.ImbalanceBounds | apps/telemetry-api/services/fabric.py:200-219 | for any measured group of n members (ratio-1)^2 <= (n-1) cv^2, cv^2 <= n-1 and 1 <= ratio <= n |
| Fabric.CvComparedSquared | apps/telemetry-api/services/fabric.py:215-219 | comparing squares decides the coefficient-of-variation test made on roots |
| Fabric.RatioTestRedundantIff | apps/telemetry-api/services/fabric.py:217-219 | for groups of n members the verdict is that of the variation test alone, exactly for n of two or three |
| Fabric.VerdictIff | apps/telemetry-api/services/fabric.py:200-227 | a list of utilizations is imbalanced exactly when it has two or more, their mean is at least 5, and 100 variance > 9 mean^2 or 2 max > 3 mean; and which reason is given when |
| Fabric.MetricsShown | apps/telemetry-api/services/fabric.py:200-227 | the measures shown are the two measures, the ratio to within half a cent, and none for groups that are not measured |
| Fabric.RoundedCutoffs | apps/telemetry-api/services/fabric.py:224-237 | rounding to two decimals moves the severity cut-offs to ratios 1.995 and 2.995 |
| Fabric.DetectFabricImbalance | apps/telemetry-api/services/fabric.py:46-78 | reports every group with two or more members that carried traffic, with those members in order, and no other; the imbalanced ones are, in order, exactly those with mean at least 5 and 100 variance > 9 mean^2 or 2 max > 3 mean; the severity is that of the list |
| Fabric.SeverityMeaning | apps/telemetry-api/services/fabric.py:75-78 | severity high means an imbalanced group at ratio 2.995 or more, and every such group has three members; low means every imbalanced group is below 1.995 |
| SpeedGroups.InferGroupsBySpeed | apps/telemetry-api/services/fabric.py:166-183 | the groups are those of the speeds that two or more query rows share, in order of first sight |
| SpeedGroups.GroupsAreSharedSpeeds | apps/telemetry-api/services/fabric.py:166-183 | a group is exactly the links of one shared speed, and every shared speed has its group |
| SpeedGroups.SpeedHasGroupIff | apps/telemetry-api/services/fabric.py:166-183 | a speed has a group, and only one, exactly when two query rows have it, no speed counting as 0; its members are the names in those rows |
| SpeedGroups.MemberRepeatsIff | apps/telemetry-api/services/fabric.py:164-170 | a group names a member twice exactly when its speed is 0 and an interface was seen both with no speed and with speed 0 |
| Baselines.ComputeBaselines | apps/telemetry-api/services/baselines.py:53-78 | one snapshot, with mean, variance and size, for each tenant, device, interface and hour of day with three or more samples, and for no other |
| Baselines.EveryMinuteInOneGroup | apps/telemetry-api/services/baselines.py:53-56 | grouping puts every input row under exactly one key |
| Baselines.ZComparedSquared | apps/telemetry-api/services/anomalies.py:154-157 | comparing squares decides the Z-score test made on roots |
| Baselines.SpikeByScore | apps/telemetry-api/services/anomalies.py:150-157 | medium from a score of 3, high from 5, critical from 6, nothing below 3 |
| Baselines.NoSampleOfSmallBaselineSpikes | apps/telemetry-api/services/anomalies.py:150-157 | no sample of a baseline of fewer than ten samples can be a spike against it |
| Baselines.SelfSpikePossibleIff | apps/telemetry-api/services/anomalies.py:150-157 | ten is exactly the size from which a baseline can hold a sample that spikes against it |
| Baselines.SilentIffFlat | apps/telemetry-api/services/anomalies.py:152-153 | the zero-deviation guard silences exactly the flat baselines |
| Calendars.StampRoundTripIff | apps/telemetry-api/db/migrations/versions/0007_data_scale.py:139-174 | the YYYYMM printed for a month parses back to it exactly for years up to 9999 |
| Calendars.StampIsNumber | apps/telemetry-api/db/migrations/versions/0007_data_scale.py:139 | read as a number the stamp is 100 year + month |
| Calendars.GregorianIsLawful | apps/telemetry-api/db/migrations/versions/0007_data_scale.py:137-139 | the Gregorian months meet the laws on which the upkeep results rest |
| Calendars.StartIsCivilDay | apps/telemetry-api/db/migrations/versions/0007_data_scale.py:137-143 | each month starts on the day that the usual civil day number gives, so leap rule, month lengths and origin are the calendar's |
| Calendars.FourCenturies | apps/telemetry-api/db/migrations/versions/0007_data_scale.py:137-143 | 400 years are 146,097 days |
| Calendars.EpochDay | apps/telemetry-api/db/migrations/versions/0007_data_scale.py:137-143 | January 1970 begins 719,528 days after year 0 does |
| Calendars.MonthsDisjoint | apps/telemetry-api/db/migrations/versions/0007_data_scale.py:137-143 | no instant lies in two months |
| Partitions.NameGivesMonth | apps/telemetry-api/db/migrations/versions/0007_data_scale.py:139-174 | a partition's name gives back its table and its month |
| Partitions.PartitionsDisjoint | apps/telemetry-api/db/migrations/versions/0007_data_scale.py:136-145 | two partitions of a table never take the same instant |
| Partitions.TakesByInstant | apps/telemetry-api/db/migrations/versions/0007_data_scale.py:141-142 | the range of a partition, kept in months, is its half-open range of instants |
| Partitions.NameIsOlder | apps/telemetry-api/db/migrations/versions/0007_data_scale.py:173-174 | the test on the name alone finds the age of the partition |
| Partitions.Database.CreatePartition | apps/telemetry-api/db/migrations/versions/0007_data_scale.py:140-144 | creating a month that is there changes nothing; a new month overlaps no older partition, so the statement never fails |
| Partitions.Database.EnsureMonthlyPartitions | apps/telemetry-api/db/migrations/versions/0007_data_scale.py:136-145 | the months from the previous one to the given number ahead are there, everything else is as it was |
| Partitions.Database.DropPartitionsOlderThan | apps/telemetry-api/db/migrations/versions/0007_data_scale.py:163-180 | exactly the partitions of the table from before the cut-off month are gone, and the count is theirs |
| Partitions.Database.Tick | apps/telemetry-api/services/partition_maintenance.py:47-68 | what a tick does to every month of every table, its rows included, and that it touches nothing else |
| Partitions.Database.Insert | apps/telemetry-api/db/migrations/versions/0007_data_scale.py:134-145 | a row is accepted exactly when the partition of its month is there, and goes into that partition |
| Partitions.ListedUpkeep | apps/telemetry-api/services/partition_maintenance.py:49-62 | in a tick over several tables each table gets exactly its own upkeep |
| PartitionRuns.NoYoungRowLost | apps/telemetry-api/services/partition_maintenance.py:47-68 | over every run of ticks and inserts, the stored rows that stay within retention are exactly those at the start plus those accepted |
| PartitionRuns.DroppedRangeIsOld | apps/telemetry-api/db/migrations/versions/0007_data_scale.py:163-177 | the whole range of a dropped partition is past retention |
| PartitionRuns.NothingOldSurvives | apps/telemetry-api/db/migrations/versions/0007_data_scale.py:163-177 | after a tick no partition of the table starts before the month of now minus retention |
| PartitionRuns.MonthsAhead | apps/telemetry-api/services/partition_maintenance.py:50-55 | a tick leaves the current month and the next two covered |
| PartitionRuns.NowStaysCovered | apps/telemetry-api/services/partition_maintenance.py:44-55 | from a tick in month m on the present stays covered until month m+3 begins, whatever is inserted since, so any gap shorter than two calendar months is harmless |
| PartitionRuns.FiftyNineDaysStayCovered | apps/telemetry-api/services/partition_maintenance.py:44-55 | no gap of up to 59 days between ticks leaves the present uncovered, whenever it falls |
| PartitionRuns.TickIdempotent | apps/telemetry-api/services/partition_maintenance.py:47-68 | a repeated tick at the same instant changes nothing |
| PartitionRuns.PreviousMonthIff | apps/telemetry-api/db/migrations/versions/0007_data_scale.py:134-177 | the previous month survives a tick exactly when now minus retention lies before the current month |
| PartitionRuns.PreviousMonthUnderThirtyDays | apps/telemetry-api/services/partition_maintenance.py:38-42 | with 30 days of retention it survives exactly on the first thirty days of a month |
| PartitionRuns.PreviousMonthUnderLongerRetention | apps/telemetry-api/services/partition_maintenance.py:38-42 | with 31 days or more it always survives |
| PartitionRuns.ShippedPolicies | apps/telemetry-api/services/partition_maintenance.py:30-42 | the shipped tables are kept for 90, 180 and 30 days, so only the queue counters for less than 31 |
| PartitionRuns.ShippedTickKeepsPreviousMonthIff | apps/telemetry-api/services/partition_maintenance.py:38-62 | as shipped a tick keeps the previous month of every table, but for the queue counters after the thirtieth of a month |
| PartitionRuns.QueueLosesPreviousMonth | apps/telemetry-api/db/migrations/versions/0007_data_scale.py:134-177 | the input that breaks the promise: on the 31st of any month the tick drops the queue counters of the previous one, a late row of theirs is refused, and the other tables keep theirs |
| PartitionRuns.JanuaryIsLong | apps/telemetry-api/db/migrations/versions/0007_data_scale.py:137-139 | every Gregorian January is such a month |
| Fingerprints.SilentFingerprintsDiffer | apps/telemetry-api/services/anomaly_dedup.py:36-41 | within a tenant no two sources, by device or by kind, share a collector_silent fingerprint, whatever characters their names hold |
| Fingerprints.QuotedReadsBack | apps/telemetry-api/services/anomaly_dedup.py:36-39 | a JSON string with its escapes can be read back from whatever follows it |
| Fingerprints.FingerprintsAgreeIff | apps/telemetry-api/services/anomaly_dedup.py:36-41 | two fingerprints agree exactly when the causes are the same and tenant, type and scope are, up to the bars between them |
| Fingerprints.FingerprintIsOwnIff | apps/telemetry-api/services/anomaly_dedup.py:36-41 | no other condition of the tenant shares a condition's fingerprint exactly when there is no bar in its type or scope |
| Fingerprints.BarFreeFingerprints | apps/telemetry-api/services/anomaly_dedup.py:40-41 | a condition whose tenant, type and scope hold no bar shares its fingerprint with no other, of any tenant, bars or not |
| Fingerprints.BarsCollide | apps/telemetry-api/services/anomaly_dedup.py:40-41 | a bar inside a type or scope makes two conditions share a fingerprint, whatever their cause |
| AnomalyDedup.AnomalyTable.RecordAnomaly | apps/telemetry-api/services/anomaly_dedup.py:50-112 | inserts a row of just these values, or counts one more on the open row of the condition, with the new instant and texts and the worse severity, and is_new holds exactly when it inserted |
| AnomalyDedup.AnomalyTable.InsertDirect | apps/telemetry-api/services/anomalies.py:317-319 | appends a row outside the index |
| AnomalyDedup.AnomalyTable.Acknowledge | apps/telemetry-api/services/anomaly_dedup.py:137-154 | answers true exactly when the row is there, is the tenant's own and has no acknowledgement, and then sets it and nothing else |
| AnomalyDedup.AnomalyTable.Resolve | apps/telemetry-api/services/anomaly_dedup.py:157-174 | answers true exactly when the row is there, is the tenant's own and has no resolution, and then sets it and nothing else |
| AnomalyDedup.OneOpenAlways | apps/telemetry-api/db/migrations/versions/0007_data_scale.py:278-284 | in every interleaving at most one row per tenant and fingerprint is open |
| AnomalyDedup.RowsEvolve | apps/telemetry-api/services/anomaly_dedup.py:88-104 | a resolved row never changes but for its acknowledgement; acknowledgements stay; counts and severities never fall |
| AnomalyDedup.LifecycleOnce | apps/telemetry-api/services/anomaly_dedup.py:146-174 | acknowledging and resolving succeed at most once per row each |
| AnomalyDedup.TenantsAreIsolated | apps/telemetry-api/services/anomaly_dedup.py:136-175 | whatever other tenants record, insert, acknowledge or resolve, in any run a row stays exactly as it was |
| AnomalyDedup.MarksAreSet | apps/telemetry-api/services/anomaly_dedup.py:145-175 | over any run a row bears a mark exactly when it did at first or a statement of its own tenant set it while it had none |
| AnomalyDedup.SeverityOrder | apps/telemetry-api/services/anomaly_dedup.py:114-130 | low, medium, high, critical, and below them any other text |
| AnomalyDedup.TableRefinesTally | apps/telemetry-api/services/anomaly_dedup.py:73-104 | whether a condition is open, and its count, follow from its own detections and resolutions alone |
| AnomalyDedup.FreshIff | apps/telemetry-api/services/anomaly_dedup.py:73-112 | an upsert inserts a row exactly when its condition is closed by that history |
| AnomalyDedup.RecurrenceOpensFresh | apps/telemetry-api/services/anomaly_dedup.py:73-112 | the first recurrence after a resolution opens a fresh row |
| AnomalyDedup.OpenUntilResolvedIff | apps/telemetry-api/services/anomaly_dedup.py:73-174 | from its last detection on a condition is open exactly until its row is resolved |
| AnomalyDedup.CountsSumToDetections | apps/telemetry-api/services/anomaly_dedup.py:88-98 | the counts of all rows of a condition grow by exactly the number of times it was recorded |
| AnomalyDedup.RowTellsItsHits | apps/telemetry-api/services/anomaly_dedup.py:76-134 | a row has the number, first and last instant, worst severity and latest text of exactly its own detections, and tenant, scope, type and fingerprint of the first |
| AnomalyDedup.FirstSeenBeforeLast | apps/telemetry-api/services/anomaly_dedup.py:85-95 | under a clock that never goes back first_seen <= last_seen |
| Freshness.FreshnessService.RecordHeartbeat | apps/telemetry-api/services/source_freshness.py:30-68 | makes the source fresh as of now, keeping one row per tenant, kind and device |
| Freshness.FreshnessService.ScanStaleSources | apps/telemetry-api/services/source_freshness.py:82-134 | every status becomes its classification, every silent source is recorded once, and the findings list the sources with their new status |
| Freshness.StatusIsLastScan | apps/telemetry-api/services/source_freshness.py:52-99 | a status is always that of the last scan since the last heartbeat, fresh without one |
| Freshness.StatusOnlyRises | apps/telemetry-api/services/source_freshness.py:71-99 | between heartbeats of a source its status only goes fresh, stale, silent |
| Freshness.SourceIsLastBeat | apps/telemetry-api/services/source_freshness.py:47-66 | what is kept of a source, instant and sample count, is its last heartbeat |
| Freshness.TrackedIff | apps/telemetry-api/services/source_freshness.py:47-66 | a source is tracked exactly if it ever sent a heartbeat |
| Freshness.ScanGoesByAge | apps/telemetry-api/services/source_freshness.py:24-79 | after a scan a source is stale from an age of 3 minutes for sFlow, 90 seconds for gNMI, 5 minutes for others, silent from five times that, and fresh below |
| Freshness.ChangeIsStamped | apps/telemetry-api/services/source_freshness.py:97-99 | updated_at moves with a heartbeat and with a scan that finds another status, and with nothing else |
| Freshness.InterleavedHeartbeatIff | apps/telemetry-api/services/source_freshness.py:88-99 | if a heartbeat comes between the SELECT and the write-back, the status is right exactly when the scan found the source fresh or had nothing to write |
| Freshness.EventCountsSilentScans | apps/telemetry-api/services/source_freshness.py:101-119 | the open event of a source counts its silent scans since the event opened, and only a resolution closes it |
| Freshness.FirstSilenceOpensRow | apps/telemetry-api/services/source_freshness.py:101-120 | the first silence of a source appends a critical collector_silent row of that device |
| Freshness.SilentHasOneOpenEvent | apps/telemetry-api/services/source_freshness.py:101-119 | after a scan that nothing interrupts each silent source has exactly one open collector_silent event, critical and last seen at the scan |
| Freshness.InterleavedScanIff | apps/telemetry-api/services/source_freshness.py:93-119 | with other statements between the upserts of a scan, the event of a source found silent is open exactly if it was not resolved since its upsert |
| RateLimit.Limiter.Prune | apps/mcp-server/middleware/ratelimit.py:28 | the history keeps, in order, exactly the calls still inside the window |
| RateLimit.Limiter.Admit | apps/mcp-server/middleware/ratelimit.py:25-38 | the answer and the history left behind, the refusal and the crash on an empty history included |
| RateLimit.PrunedAnswersAsLog | apps/mcp-server/middleware/ratelimit.py:27-38 | the pruned history gives the answer that the full log of admissions would give |
| RateLimit.RefinesReference | apps/mcp-server/middleware/ratelimit.py:27-38 | the limiter admits exactly the calls that find fewer than max_calls of all earlier admissions less than the window back |
| RateLimit.WindowBound | apps/mcp-server/middleware/ratelimit.py:28-38 | every half-open interval as long as the window holds at most max_calls admissions |
| RateLimit.RetryWithinASecond | apps/mcp-server/middleware/ratelimit.py:35 | retry_after is at most, and within one second of, the time until a slot frees |
| RateLimit.CrashIff | apps/mcp-server/middleware/ratelimit.py:29-35 | reading the oldest call fails exactly when max_calls <= 0 |
| Audit.AuditedTool.Arrive | apps/mcp-server/middleware/audit.py:141-152 | what the wrapper does up to the tool body: over quota, refused, crashed or running |
| Audit.AuditedTool.Finish | apps/mcp-server/middleware/audit.py:151-178 | how a call ends and which record it schedules |
| Audit.AuditedTool.Settle | apps/mcp-server/middleware/audit.py:157-178 | the finally block schedules the record due for that ending, and none when result is unbound |
| Audit.EveryCallItsRecord | apps/mcp-server/middleware/audit.py:135-180 | at every moment of every run, overlapping calls included, each call has exactly the records due for how it ended |
| Audit.OneRecordIff | apps/mcp-server/middleware/audit.py:135-180 | an ended call has one record exactly when it was within quota and its body was not cancelled, and otherwise none; the record says "ok", with size and band, exactly of a body that returned no error |
| Audit.ExecutionsAreAdmissions | apps/mcp-server/middleware/ratelimit.py:38-39 | tool bodies run exactly as often as the limiter admits |
| Audit.FateOfCall | apps/mcp-server/middleware/audit.py:141-152 | a call is over quota exactly when its decision says so, leaving limiter and records as they were, and its body runs exactly when the quota allows it and the limiter admits it |
| Audit.OutcomeStays | apps/mcp-server/middleware/audit.py:143-165 | once its body has ended a call stays ended as it did |
| Audit.BodiesStartWithinBudget | apps/mcp-server/middleware/audit.py:125-182 | however calls overlap and end, no window sees more than max_calls tool bodies start |
| Quota.QuotaTable.ConsumeQuota | apps/telemetry-api/services/tool_audit.py:65-109 | counts the call, and decides and gives the reason by the row it returns |
| Quota.QuotaTable.SetQuota | apps/telemetry-api/services/tool_audit.py:170-192 | sets both limits of exactly that tenant, tool and period and keeps its counters, zero on a new row |
| Quota.KeysAreIndependent | apps/telemetry-api/services/tool_audit.py:75-84 | the row of a tenant, tool and day is what its own steps alone make of it |
| Quota.CountersCount | apps/telemetry-api/services/tool_audit.py:75-84 | calls are the consume steps on the key and bytes their sum, denied or not |
| Quota.LimitsAreLastSet | apps/telemetry-api/services/tool_audit.py:160-192 | after any run the limits of a key are those of the last step that set them, none on a new key |
| Quota.GrantedIffRoom | apps/telemetry-api/services/tool_audit.py:94-100 | in any run a call is granted exactly when the limits last set leave room for it and its bytes, all earlier calls counted |
| Quota.FirstCallsAfterSet | apps/telemetry-api/services/tool_audit.py:94-192 | once a call limit and no byte limit is set, exactly the first calls of the day up to it are granted |
| Quota.DenialEndsIff | apps/telemetry-api/services/tool_audit.py:94-192 | with byte amounts that are not negative a denial lasts exactly until limits are set again that leave room |
| Quota.FirstCallsAllowed | apps/telemetry-api/services/tool_audit.py:94-96 | under a call limit and no byte limit exactly the first calls up to the limit are allowed |
| Quota.GrantedIsMin | apps/telemetry-api/services/tool_audit.py:94-96 | of n calls the smaller of n and the room left is allowed |
| Quota.DenialIsPermanent | apps/telemetry-api/services/tool_audit.py:94-96 | a denial for calls is permanent for the day until the limit is raised or cleared |
| Quota.ByteDenialEndsIff | apps/telemetry-api/services/tool_audit.py:95-96 | a denial for bytes ends exactly when the bytes consumed since make up for the excess |
| Quota.ByteDenialIsPermanent | apps/telemetry-api/services/tool_audit.py:95-96 | with byte amounts that are not negative it is permanent until the byte limit is raised or cleared |
| Quota.WrapperNeverCountsBytes | apps/mcp-server/middleware/audit.py:141 | while only the wrapper consumes, the byte counter of a key never moves, and a call is over its byte limit exactly when that is below where the counter stood |
| Quota.SamePeriodIff | apps/telemetry-api/services/tool_audit.py:25-28 | two instants share a period exactly when they fall on the same UTC day |
| TenantRouter.Router.Install | apps/telemetry-api/services/tenant_routing.py:42-47 | the cache becomes the mapping of the active rows, as of now |
| TenantRouter.Router.TenantFor | apps/telemetry-api/services/tenant_routing.py:49-63 | one whole uninterrupted call: a due query that returns decides the answer by its active rows and is kept; otherwise nothing changes and the old cache answers |
| TenantRouter.MappingHoldsActiveRows | apps/telemetry-api/services/tenant_routing.py:40-44 | the dict holds exactly the active rows, in whatever order they come back |
| TenantRouter.CacheIsWholeVersion | apps/telemetry-api/services/tenant_routing.py:38-57 | under any interleaving and any failures the cache is one whole version of the mapping as read at some instant, or still empty |
| TenantRouter.CacheIsLastLoad | apps/telemetry-api/services/tenant_routing.py:45-46 | cache and age are those that the last completed load left |
| TenantRouter.AnswerIsFreshIff | apps/telemetry-api/services/tenant_routing.py:49-63 | an answer that did not fail comes from a load that finished less than the TTL ago exactly when the clock has reached the TTL; before that it is the default tenant |
| TenantRouter.FailedAnswerIsLastLoad | apps/telemetry-api/services/tenant_routing.py:51-57 | after a failed refresh the answer is that of the last completed load |
| TenantRouter.GoesBackIff | apps/telemetry-api/services/tenant_routing.py:38-47 | a step takes the cache back to an older version exactly when it completes a load that read its rows before a change of the table, and those of the load it replaces were read after; told by the schedule alone |
| TenantRouter.NeverGoesBackIff | apps/telemetry-api/services/tenant_routing.py:38-57 | however many loops share the cache, a run never goes back to an older version exactly when it has no such step |
| TenantRouter.OneLoopNeverGoesBack | apps/telemetry-api/services/tenant_routing.py:38-57 | a run of a single loop has no such step, so it never goes back to an older version |
| TenantRouter.SlowRefreshPutsOldVersionBack | apps/telemetry-api/services/tenant_routing.py:38-47 | the input with such a step: with two loops a slow refresh puts an older version back, which then counts as fresh; `NeverGoesBackIff` is the exact condition |
| GnmiLeaves.Collect | apps/telemetry-api/collectors/gnmi_client.py:234-240 | the loop files every leaf under the key its path names, later values over earlier ones |
| GnmiLeaves.CollectedByKey | apps/telemetry-api/collectors/gnmi_client.py:234-240 | one slot per key, holding what that key's updates alone leave |
| GnmiLeaves.PrintThenParse | apps/telemetry-api/collectors/gnmi_client.py:225-327 | slots that are enough to build their states, printed leaf by leaf in whatever order, interleaved or repeated, parse back to the same states |
| GnmiParsers.ParseInterfaceState | apps/telemetry-api/collectors/gnmi_client.py:225-260 | the states built from the collected slots that hold an admin or oper status, however the updates are cut into notifications |
| GnmiParsers.WalkedIff | apps/telemetry-api/collectors/gnmi_client.py:215-222 | what is walked are exactly the updates that the notifications are cut from, all of them and in order |
| GnmiParsers.PathsAreRead | apps/telemetry-api/collectors/gnmi_client.py:228-306 | the documented paths of an interface, a neighbour and a queue give the name, address or interface and id, and the leaf |
| GnmiParsers.InterfaceShownIff | apps/telemetry-api/collectors/gnmi_client.py:244-259 | a slot is read as the state exactly when it shows it: each leaf that is sent reads as its field, each left out stands for nothing, some status is sent |
| GnmiParsers.InterfaceReadsBackIff | apps/telemetry-api/collectors/gnmi_client.py:244-259 | a device that sends integers as numbers or text and one leaf per field shows exactly the states with known statuses, no change at instant 0 and a trimmed description |
| GnmiParsers.InterfaceShowableIff | apps/telemetry-api/collectors/gnmi_client.py:244-259 | some leaves show a state exactly when its statuses are known ones and its description is trimmed |
| GnmiParsers.IntegerForms | apps/telemetry-api/collectors/gnmi_client.py:330-336 | integers and counters are read alike from numbers and from decimal text, zero included |
| GnmiParsers.InstantForms | apps/telemetry-api/collectors/gnmi_client.py:346-356 | instants are read from numbers and from digits alike, but the number 0 stands for none |
| GnmiParsers.SpaceIsIgnored | apps/telemetry-api/collectors/gnmi_client.py:330-343 | white space around a text or an integer is not read |
| GnmiParsers.InterfacesRoundTrip | apps/telemetry-api/collectors/gnmi_client.py:225-260 | any list of interface states with distinct names free of a closing bracket comes back from any leaves that show it, in whatever order they are sent |
| GnmiParsers.PrintedInterfacesParseBackIff | apps/telemetry-api/collectors/gnmi_client.py:225-260 | any list of one device's interface states with distinct names free of a closing bracket, sent leaf by leaf in whatever order, parses back to the same states exactly when each has known statuses, no change at instant 0 and a trimmed description |
| GnmiParsers.ParseBgpNeighbors | apps/telemetry-api/collectors/gnmi_client.py:263-291 | the neighbours built from the collected slots that hold a session state, however the updates are cut into notifications |
| GnmiParsers.NeighborShownIff | apps/telemetry-api/collectors/gnmi_client.py:279-290 | a slot is read as the neighbour exactly when it shows it |
| GnmiParsers.NeighborShowableIff | apps/telemetry-api/collectors/gnmi_client.py:279-290 | some leaves show a neighbour exactly when its session state is known and its last error trimmed |
| GnmiParsers.NeighborsRoundTrip | apps/telemetry-api/collectors/gnmi_client.py:263-291 | any list of neighbours comes back from any leaves that show it, in whatever order they are sent |
| GnmiParsers.PrintedNeighborsParseBackIff | apps/telemetry-api/collectors/gnmi_client.py:263-291 | any list of one device's neighbours with distinct addresses free of a closing bracket, sent leaf by leaf in whatever order, parses back to the same states exactly when each has a known session state and a trimmed last error |
| GnmiParsers.ParseQueueStats | apps/telemetry-api/collectors/gnmi_client.py:294-327 | the queues built from every collected slot, however the updates are cut into notifications |
| GnmiParsers.QueueShownIff | apps/telemetry-api/collectors/gnmi_client.py:312-326 | a slot with leaves is read as the queue exactly when it shows it, counters left out standing for zero |
| GnmiParsers.QueueSlotShows | apps/telemetry-api/collectors/gnmi_client.py:312-326 | a device that sends every counter as text, zero or not, shows every queue state |
| GnmiParsers.QueuesRoundTrip | apps/telemetry-api/collectors/gnmi_client.py:294-327 | any list of queue states with numeric ids comes back from any leaves that show it, in whatever order they are sent |
| GnmiParsers.PrintedQueuesParseBackIff | apps/telemetry-api/collectors/gnmi_client.py:294-327 | any list of one device's queue states that differ in interface or id, of interfaces whose names hold no closing bracket, sent leaf by leaf in whatever order, parses back to the same states exactly when no interface's own name gives its queues another id |
| GnmiParsers.QueuePathReads | apps/telemetry-api/collectors/gnmi_client.py:297-306 | below a root without brackets a queue's path is read as its interface and, unless the interface's own name holds the queue pattern, its id; otherwise as the id in that name |
| GnmiParsers.QueueNameableIff | apps/telemetry-api/collectors/gnmi_client.py:297-300 | below a root without brackets the interfaces this holds for are exactly those whose name has neither a closing bracket nor the queue pattern |
| GnmiParsers.QueueReadFromInterfaceName | apps/telemetry-api/collectors/gnmi_client.py:299-304 | an interface whose name holds the queue pattern gives all its queues the id in that name |
| GnmiParsers.QueueIds | apps/telemetry-api/collectors/gnmi_client.py:301-304 | a queue named by a number has that id, any other one of 1024 that its hash picks |
| GnmiParsers.FragmentMeaning | apps/telemetry-api/collectors/gnmi_client.py:78-90 | normalization ignores letter case and a module prefix |
| GnmiParsers.StatusRead | apps/telemetry-api/collectors/gnmi_client.py:78-90 | a status is read in any letter case and behind any module prefix, and what is no known status is the fallback |
| GnmiParsers.KnownStatuses | apps/telemetry-api/collectors/gnmi_client.py:60-90 | the statuses known, spelt out |
| GnmiParsers.AdminReadsBackIff | apps/telemetry-api/collectors/gnmi_client.py:78-80 | normalization leaves exactly the known admin statuses and the fallback alone |
| GnmiParsers.OperReadsBackIff | apps/telemetry-api/collectors/gnmi_client.py:83-85 | normalization leaves exactly the known oper statuses alone |
| GnmiParsers.BgpReadsBackIff | apps/telemetry-api/collectors/gnmi_client.py:88-90 | normalization leaves exactly the known session states alone |
| GnmiTargets.ParseTargets | apps/telemetry-api/collectors/gnmi_client.py:36-53 | the targets of the chunks that have one, in order |
| GnmiTargets.CommaSeparates | apps/telemetry-api/collectors/gnmi_client.py:41-52 | what stands on one side of a comma never changes what is read on the other, so a malformed chunk costs only itself |
| GnmiTargets.PortDecides | apps/telemetry-api/collectors/gnmi_client.py:42-50 | what stands behind the first colon is the port, and a chunk whose port is no integer gives no target; white space around the chunk does not matter |
| GnmiTargets.NoPortMeansDefault | apps/telemetry-api/collectors/gnmi_client.py:42-52 | a chunk without a colon is a host on port 6030, a blank one nothing |
| GnmiTargets.ParseUndoesPrint | apps/telemetry-api/collectors/gnmi_client.py:36-53 | parsing undoes printing a list of targets, with port 6030 where none is written and any white space around them |
| Rdma.QueuesWithSignals | apps/telemetry-api/services/rdma.py:119-134 | keeps exactly the queues with a nonzero counter, in order |
| Rdma.Assess | apps/telemetry-api/services/rdma.py:163-222 | the severity is the worst thing to be seen on any queue, whatever the traffic share, and every driver is justified by a count |
| Rdma.DetectRdmaStress | apps/telemetry-api/services/anomalies.py:218-291 | the events are those of each queue in turn |
| Rdma.FilterKeepsSeverity | apps/telemetry-api/services/rdma.py:119-136 | leaving out the queues without signals never changes the severity |
| Rdma.CriticalIffLosslessDrop | apps/telemetry-api/services/rdma.py:167-184 | the assessment is critical exactly when the detectors emit a lossless drop |
| Rdma.SeverityByCounters | apps/telemetry-api/services/rdma.py:119-202 | critical with drops beside pause frames, high from 1001 pause frames, low exactly when no queue has that or a marked packet |
| Rdma.EventsByCounters | apps/telemetry-api/services/anomalies.py:218-291 | which event a queue raises: a lossless drop, or else a storm from 1000 pause frames and a spike from 500 marked packets |
| Rdma.AssessCoversEventsIff | apps/telemetry-api/services/rdma.py:170-202 | the assessment is at least as severe as the worst event, except when the largest pause total is exactly 1000 and nothing was lost |
| Rdma.SeverityIsMonotone | apps/telemetry-api/services/rdma.py:163-222 | adding queues or raising counters never lowers the severity |
| Secrets.SecretStore.StoreSecret | apps/telemetry-api/services/crypto.py:44-84 | upserts under the current key and version keeping the row's id, or fails without a key or version and changes nothing |
| Secrets.SecretStore.ReadSecret | apps/telemetry-api/services/crypto.py:87-122 | the secret, nothing, or the error of a wrong or missing key |
| Secrets.SecretStore.RewrapAll | apps/telemetry-api/services/crypto.py:125-153 | succeeds exactly when every row it touches opens under the old key, and otherwise leaves the whole table unchanged |
| Secrets.StoreThenRead | apps/telemetry-api/services/crypto.py:57-122 | a store can be read back at once and disturbs no other handle |
| Secrets.RewrapKeepsSecrets | apps/telemetry-api/services/crypto.py:137-153 | a successful rewrap to any key keeps handles, ids and plaintexts; what it touched opens under the new key alone, what it did not as before |
| Secrets.RewrapReadableIff | apps/telemetry-api/services/crypto.py:137-148 | after a successful rewrap everything opens under the new key exactly when the rows that had the new version before were already sealed under it |
| Secrets.ReusedVersionLeavesTwoKeys | apps/telemetry-api/services/crypto.py:137-148 | the input on which it does not: a version number used before with another key ends up under two keys |
| Secrets.TableRefinesPlain | apps/telemetry-api/services/crypto.py:57-153 | however stores and rewraps interleave, with whatever keys, the table holds the last plaintext of each handle |
| Secrets.ReadIsRightOrRefused | apps/telemetry-api/services/crypto.py:94-122 | a read gives the last plaintext stored, or an error exactly when the key at hand is not the one the row is sealed under |
| Secrets.RotationCompletesIff | apps/telemetry-api/services/crypto.py:125-153 | after any run, a successful rewrap makes every secret stored so far readable with the new key exactly when no row had the new version under another key |
| Secrets.NextKeepsOneKeyIff | apps/telemetry-api/services/crypto.py:137-148 | a step keeps one key per version exactly when it does not reuse a version for another key |
| Secrets.RunsKeepOneKeyIff | apps/telemetry-api/services/crypto.py:57-153 | over every run each version has one key throughout exactly when no step reused a version for another key |
| Secrets.RunsStayKeyed | apps/telemetry-api/services/crypto.py:57-153 | when the keys come from one ring every row of version v is sealed under the key of v, failed rewraps included |
| Secrets.RewrapTwice | apps/telemetry-api/services/crypto.py:137-149 | rewrapping again to the same version finds nothing to do |
| Secrets.UnbumpedVersionRewrapsNothing | apps/telemetry-api/services/crypto.py:148 | with an unchanged version number a rewrap reports success, touches no row, and nothing opens under the new key |
| ApiKeys.ApiKeyTable.MintKey | apps/telemetry-api/services/api_key_rotation.py:34-70 | the row minted, field by field: an empty allowlist is none, a zero ttl is no expiry; refused exactly on a hash in use or a name over 128 characters |
| ApiKeys.ApiKeyTable.RotateKey | apps/telemetry-api/services/api_key_rotation.py:73-124 | inserts the successor and ages out the old key together, or does neither |
| ApiKeys.ApiKeyTable.RevokeKey | apps/telemetry-api/services/api_key_rotation.py:127-137 | deactivates and expires a key of the tenant, and says whether there was one |
| ApiKeys.ApiKeyTable.Lookup | apps/telemetry-api/middleware/auth.py:97-112 | accepts a key of that hash that is live, and none when no such key is live |
| ApiKeys.RotationsFormAForest | apps/telemetry-api/services/api_key_rotation.py:100-117 | in every run a key comes after the one it was rotated from, with the same tenant, role, allowlist and rate limit |
| ApiKeys.ChainKeepsScope | apps/telemetry-api/services/api_key_rotation.py:100-117 | along a whole chain the scope is that of the key that was minted |
| ApiKeys.ChainsAreShort | apps/telemetry-api/services/api_key_rotation.py:109 | each rotation adds 21 characters to a name of at most 128, so no chain has more than six rotations |
| ApiKeys.ChainGrowsIff | apps/telemetry-api/services/api_key_rotation.py:100-117 | in every run a key can be rotated, under a hash of its own, exactly while its name has at most 107 characters, which is while the first name of its chain and 21 characters a rotation fit the column |
| ApiKeys.RevokedIsNeverLive | apps/telemetry-api/services/api_key_rotation.py:130-135 | a revoked key is never live again, whatever happens after |
| ApiKeys.TenantsAreIsolated | apps/telemetry-api/services/api_key_rotation.py:85-137 | whatever other tenants mint, rotate or revoke, in any run a key stays exactly as it was |
| ApiKeys.MintedKeyLiveIff | apps/telemetry-api/services/api_key_rotation.py:46-59 | a minted key left alone is live exactly while its ttl runs, and for good without one or with a zero one |
| ApiKeys.RotatedKeyLiveIff | apps/telemetry-api/services/api_key_rotation.py:119-123 | from its last rotation on a key left alone is live exactly until the grace has passed, if it was active, even if it had expired before |
| ApiKeys.RotatedKeyDies | apps/telemetry-api/services/api_key_rotation.py:119-123 | a key whose last rotation was at n with grace g is not live at any t >= n + g |
| ApiKeys.SuccessorInheritsDeadline | apps/telemetry-api/services/api_key_rotation.py:114-116 | a successor has the deadline its predecessor had, which after an earlier rotation is only the grace |
| ApiKeys.SuccessorLiveIff | apps/telemetry-api/services/api_key_rotation.py:85-135 | a successor left alone is live exactly until the instant of revocation, or the end of the grace, that the key it came from got last, revoked or not |
| ApiKeys.RevokedKeyLivesOn | apps/telemetry-api/services/api_key_rotation.py:85-135 | the input: of a key revoked and then rotated twice the second successor is live until the first grace has passed |
| ApiKeys.HashesStayUnique | apps/telemetry-api/services/api_key_rotation.py:100-117 | no two keys ever share a hash |

## Left out

- IEEE rounding of floats; displayed percentages, confidence notes and the wording of summaries.
- The SQL engine: isolation between statements, NULL handling beyond what is said, and the order of tied rows.
- 32-bit and 64-bit limits of integer columns.
- HTTP clients and routes, MCP tool modules, response envelopes, row-level security, logging and metrics.
- `normalize_counters`, `util_severity`, threshold breaches and the per-member averages: they would add only single-formula members.
- The sorted order of inferred group members and the label of their speed.
- Real cryptography: SHA-256 is injective, encryption symbolic, and a wrong key never opens a ciphertext.
- Freshness.SilentHasOneOpenEvent: takes a scan as one step, though the source commits after each of its upserts; `InterleavedScanIff` and `InterleavedHeartbeatIff` say what holds when other statements come in between. Two scans at once are not modelled.
- TenantRouter.Router.TenantFor: is one call without interruption; what happens when calls interleave is said of the state machine beside it.
- JSON causes with values other than strings, and strings with unpaired surrogates, which cannot be hashed.
- Retentions given as months: the model has durations, as the defaults are. The session time zone enters only as a lawful calendar, and the Gregorian calendar in UTC is shown to be one.
- Partitions attached by hand, under other names or ranges than whole months; years after 9999.
- Non-ASCII digits and letter case in gNMI values, ISO timestamps (a parameter), floats as leaf values, and the range limit and rounding of `fromtimestamp`.
- Non-numeric queue names: their id is Python's randomized hash, a parameter here.
- The width of text columns other than an API key's name; the key prefix and last-used time.
- Arguments that do not fit a tool's signature: the wrapper fails before it asks for quota. The confidence band and the argument hash of a record.
- Several tools at once in the limiter: `RateLimit` and `Audit` follow one function name, which is one history.
- Negative counters in the RDMA tables: totals are natural numbers.
- GnmiParsers.QueuesRoundTrip: does not cover interface names that hold the queue pattern; `QueuePathReads` says what is read for those, and `PrintedQueuesParseBackIff` which of them come back.
