# dipstick core, modelled in Dafny

dipstick is a Rust library for application metrics. Application code
defines metrics (markers, counters, gauges, timers, levels)
under hierarchical names. The values written to them either go straight
to an output (a statsd or graphite UDP socket, a map, a text line) or are
aggregated in a bucket that is flushed periodically through a statistics
preset. This project models the core of the library's newest version on
the values and objects it manipulates, one operation at a time, and
proves what its code and comments promise the operations do.

- **Names.** A name is a sequence of parts, outermost namespace
  first. The model covers the prefix test, making a leaf, prepending and
  appending namespaces, and joining with a separator (`Name`).
- **Attributes.** These are shared by components:
  - metric ids;
  - the flush-listener registry with its guarded cancel;
  - recurring task handles, cancelled on drop;
  - the naming operations and the buffering test (`Attributes`).
- **Aggregation.** This is modelled in several modules:
  - the four-cell scores of one metric, with the update rule per kind, the level reconciliation of running sums, the percentile index rule, and snapshot/reset (`Atomic`);
  - the three statistics presets (`Stats`);
  - the bucket that registers metrics and flushes their scores through a preset into a target (`Bucket`, `BucketTests`);
  - the last-value map output the tests publish into (`MapOutput`).
- **Routing.** The proxy's table of targets by namespace resolves each
  metric to the target of its longest enclosing namespace. It rebinds live
  metrics when targets are set and unset (`Proxy`).
- **In-place structures:**
  - the LRU cache as a linked list inside a vector, as written (`Lru`) and with its list repairs (`LruFixed`, `LruTests`);
  - the handle allocator with its free list (`Coatcheck`, `CoatcheckTests`);
  - persistent label scopes with layered lookup (`Label`);
  - the gapless cache that replays last values (`Gapless`).
- **Serialisers and buffers:**
  - the line-template interpreter (`Format`);
  - the 576-byte datagram buffer (`Datagram`) of the statsd and graphite outputs (`Statsd`, `Graphite`);
  - the reconnecting TCP socket with exponential backoff (`Socket`).

Nothing in the model performs I/O. Clock readings, outcomes of sends and
connections, and the values observed operations return are parameters. The
targets' effects are recorded as sequences of calls or of sent datagrams.
Integers are unbounded, except where the source's machine arithmetic
matters:
- `isize` wrap-around of atomic adds;
- truncating division;
- the saturating float-to-int cast;
- the u64 shift of the backoff delay, as a 64-bit bit-vector.

The source's functions that compute values are Dafny functions.
Operations that update objects are methods of classes with those fields,
specified against functions of the old state (`State() == PrintOf(old(State()), ...)`).
Properties relating several calls are lemmas about those functions.

## Model

| member | source | states |
|---|---|---|
| Name.IsWithin | src/core/name.rs:14-28 | the early-return loop answers true exactly when the other name's parts begin this name's parts |
| Name.WithinExtends | src/core/name.rs:14-28 | a name is within a namespace exactly when it is the namespace followed by further parts |
| Name.WithinReflexive | src/core/name.rs:14-16 | every name is within itself |
| Name.WithinTransitive | src/core/name.rs:14-16 | a name within a namespace that lies within another lies within that other |
| Name.WithinAntisymmetric | src/core/name.rs:14-16 | being within goes one way: two names each within the other are equal |
| Name.MakeName | src/core/name.rs:30-35 | the name of a leaf in a namespace is one part longer, lies within the namespace, and ends with the leaf |
| Name.Short | src/core/name.rs:37-41 | the short name of a non-empty name is the one-part name holding its last part |
| Name.LeafSplits | src/core/name.rs:37-41 | a non-empty name is its parts before the last followed by its leaf, the part `short` copies |
| Name.FromString | src/core/name.rs:44-54 | converting a string gives the one-part name holding it |
| Name.ShortOfMakeName | src/core/name.rs:30-41 | the short name of a leaf made in any namespace is the leaf's own one-part name |
| Name.Prepend | src/core/name.rs:79-86 | pushing the namespace's parts to the front last-first yields the namespace followed by the name |
| Name.Appended | src/core/name.rs:88-96 | inserting a namespace before the leaf keeps the leaf last and the other parts in front, with the namespace in between |
| Name.Append | src/core/name.rs:88-96 | the insertion loop yields exactly that name |
| Name.AppendNothing | src/core/name.rs:88-96 | appending the empty namespace changes nothing |
| Name.AppendOnePart | src/core/name.rs:80-96 | on a one-part name, appending a namespace equals prepending it |
| Name.AppendLeaf | src/core/name.rs:30-108 | appending a namespace to a leaf's one-part name makes the leaf in that namespace |
| Name.JoinSingle | src/core/name.rs:98-101 | joining a one-part name gives that part |
| Name.JoinEnds | src/core/name.rs:98-101 | the join of a non-empty name starts with its first part and ends with its last |
| Name.JoinTwo | src/core/name.rs:98-101 | joining two parts puts the separator between them |
| Name.JoinLength | src/core/name.rs:98-101 | joining k > 0 parts adds exactly k - 1 separators to the parts' text |
| Name.JoinMakeName | src/core/name.rs:30-101 | joining a leaf made in a non-empty namespace gives the joined namespace, the separator, then the leaf |
| Name.JoinInjective | src/core/name.rs:98-101 | with a one-character separator that no part contains, distinct non-empty names join to distinct strings |
| Name.JoinLastSeparator | src/core/name.rs:98-101 | in such a join, the last separator comes just before the last part |
| Attributes.Forge | src/attributes.rs:56-61 | a metric id is the output type, a colon, then the name's parts joined by "/" |
| Attributes.ForgeSeparatesOutputs | src/attributes.rs:56-61 | ids of two different output types (written without a colon) never collide |
| Attributes.ForgeSameOutput | src/attributes.rs:56-61 | ids of one output type are equal exactly when the joined names are equal |
| Attributes.DefaultAttributes | src/attributes.rs:71-80 | default attributes have no naming, full sampling and no buffering, and own a fresh, empty listener registry and task list |
| Attributes.Install | src/attributes.rs:153-161 | installing a listener maps its metric id to it, replacing any listener there, and keeps every other listener |
| Attributes.CancelOf | src/attributes.rs:163-172 | cancelling keeps every listener of another metric id and never adds one |
| Attributes.OnFlush | src/attributes.rs:149-173 | `on_flush` takes the next listener id from the generator, installs the listener, and returns a handle for that metric id and listener id |
| Attributes.Cancel | src/attributes.rs:137-172 | a cancel handle leaves the registry as the guarded removal describes |
| Attributes.CancelInstalled | src/attributes.rs:163-172 | cancelling the listener just installed removes exactly its metric id |
| Attributes.CancelAfterReplace | src/attributes.rs:163-172 | after another listener replaced it, an old handle cancels nothing |
| Attributes.CancelIdempotent | src/attributes.rs:163-172 | cancelling twice is the same as cancelling once |
| Attributes.ObserveTwiceScenario | src/attributes.rs:149-173 | a metric observed twice gets a larger second id; the first handle then cancels nothing, the second removes the listener, and a repeated cancel does nothing |
| Attributes.Every | src/attributes.rs:175-182 | `every` records the scheduled task's handle at the end of the shared task list and returns it |
| Attributes.CancelHandle.Cancel | src/attributes.rs:223-229 | a task handle, once cancelled, stays cancelled |
| Attributes.Drop | src/attributes.rs:223-230 | dropping attributes cancels every recorded task and empties the list |
| Attributes.AddName | src/attributes.rs:274-279 | `add_name` gives a clone whose naming has one more part at the end and that shares the listeners and tasks |
| Attributes.Named | src/attributes.rs:281-287 | `named` gives a clone whose naming is the single given part and that shares the listeners and tasks |
| Attributes.PrefixAppend | src/attributes.rs:251-254 | the naming is inserted before the name's leaf: the length adds up and the leaf is kept |
| Attributes.PrefixPrepend | src/attributes.rs:256-259 | the naming is put in front of the name |
| Attributes.PrefixOnePart | src/attributes.rs:251-259 | on a one-part name both prefixings make the leaf in the naming |
| Attributes.NamedThenAdded | src/attributes.rs:276-287 | naming then adding a name gives the two-part naming |
| Attributes.IsBuffered | src/attributes.rs:317-321 | a component is buffered exactly when its buffering is not Unbuffered |
| MapOutput.MapKey | src/output/map.rs:50-53 | the key a metric is stored under always ends with the metric's leaf |
| MapOutput.WriteAll | src/output/map.rs:54-56 | after a series of writes the keys are the old ones and the written ones, and the last write's key holds its value |
| MapOutput.Notified | src/output/map.rs:72-77 | notifying the listeners adds exactly their gauges' keys to the contents |
| MapOutput.WriteAllKeepsOthers | src/output/map.rs:54-56 | a key that no write names keeps its contents, present or absent |
| MapOutput.WriteAllConsistent | src/output/map.rs:36-56 | a key whose writes all carry one value holds that value afterwards, whatever the order of the writes |
| MapOutput.ListenerWrites | src/attributes.rs:117-159 | calling the listeners in a given order writes, one per listener, its gauge's key and value |
| MapOutput.NotifiedAnyOrder | src/attributes.rs:117-122 | when the listeners write distinct gauges, each listener's value is in place after the notification, whatever order the registry is walked in |
| MapOutput.NotifiedKeepsOthers | src/attributes.rs:117-122 | a key no listener writes keeps its contents through the notification |
| MapOutput.StatsMapScope.constructor | src/output/map.rs:25-42 | a new scope has the given attributes and an empty map |
| MapOutput.StatsMapScope.NewMetric | src/output/map.rs:49-69 | both `new_metric` implementations ignore the kind and write under the prefix-appended name joined by "." |
| MapOutput.StatsMapScope.Write | src/output/map.rs:54-67 | a write replaces the value under its own key only |
| MapOutput.StatsMapScope.Flush | src/output/map.rs:72-77 | a flush calls each installed listener once in some order of the registry and changes the map only through their writes |
| MapOutput.StatsMapScope.IntoMap | src/output/map.rs:79-91 | `into_map` and `From` give exactly the current contents |
| MapOutput.NotifiedNone | src/output/map.rs:72-77 | with no listener installed, a flush changes no stored value |
| MapOutput.MapKeyUnnamed | src/output/map.rs:50-53 | in an unnamed scope a one-part name is stored under that part |
| MapOutput.MapKeyNamed | src/output/map.rs:50-53 | in a named scope a leaf is stored under the joined naming, ".", then the leaf |
| MapOutput.ObserveOnFlushScenario | src/attributes.rs:333-340 | observing "my_gauge" with the constant 4 on flush and flushing once leaves my_gauge = 4 in the map |
| Stats.RoundRatio | src/stats.rs:35-90 | `f64::round() as isize` of a quotient saturates at the isize bounds on a zero denominator |
| Stats.StatsAll | src/stats.rs:24-44 | `stats_all` publishes every score except Percentile, under the metric's name made one part longer |
| Stats.StatsAverage | src/stats.rs:46-66 | `stats_average` publishes under the metric's own name |
| Stats.StatsSummary | src/stats.rs:68-94 | `stats_summary` publishes under the metric's own name |
| Stats.StatsAllNamesDistinct | src/stats.rs:24-44 | `stats_all` gives scores with different suffixes different names, so the statistics of one metric never collide |
| Stats.StatsAllRetypes | src/stats.rs:33-42 | Count becomes a Counter, Max, Min and Rate become Gauges, and Sum and Mean keep the metric's kind |
| Stats.StatsAllValues | src/stats.rs:33-42 | integer scores are published unchanged, and Mean and Rate rounded |
| Stats.StatsAverageKeeps | src/stats.rs:56-65 | exactly a Marker's Count (as a Counter) and any other kind's Mean (as a Gauge) are kept |
| Stats.StatsSummaryKeeps | src/stats.rs:80-93 | exactly a Marker's Count (as a Counter), a Counter's or Timer's Sum (kind kept), and a Gauge's or Level's Mean (as a Gauge) are kept |
| Stats.PresetsDropPercentiles | src/stats.rs:27-94 | no preset publishes a Percentile score (the variant the source's presets lack) |
| Stats.PresetsKeepNames | src/stats.rs:27-94 | the presets never publish under an empty name when given a non-empty one |
| Machine.WrapAdd | src/atomic.rs:327-342 | `fetch_add` on an `isize` cell is the exact sum whenever that sum fits |
| Machine.WrapAddCongruent | src/atomic.rs:327-342 | the wrapped sum differs from the exact sum by 0 or 2^64 either way |
| Machine.TruncDivRemainder | src/output/statsd.rs:143 | Rust's truncating `/` leaves a remainder with the dividend's sign that is smaller than the divisor |
| Machine.TruncDivMatchesEuclid | src/output/statsd.rs:143 | on a non-negative dividend, truncating and Euclidean division agree |
| Machine.RoundToISize | src/stats.rs:35-90 | `round() as isize` of a division by zero saturates: +inf to the greatest isize, -inf to the least |
| Machine.Clamp | src/stats.rs:35-90 | the float-to-int cast keeps values in range and saturates the others at the nearer bound |
| Atomic.Blank | src/atomic.rs:318-321 | blank cells are [0, 0, least isize, greatest isize] |
| Atomic.UpdateCells | src/atomic.rs:323-351 | every update adds one hit; Markers and Percentiles change no other cell |
| Atomic.UpdateSamples | src/atomic.rs:346-349 | only a Percentile metric appends the value to its samples |
| Atomic.RunningSums | src/atomic.rs:330-338 | the running sums of a period start at 0 and end at the (wrapped) final sum, one per update in between |
| Atomic.SnapshotCells | src/atomic.rs:353-376 | a snapshot has data exactly when the hit count is not zero, and then reports the hit and sum as they were, and the other cells as they were unless the metric is a Level |
| Atomic.AfterSnapshot | src/atomic.rs:356-365 | a snapshot always zeroes hit and sum, and resets max and min only when there was data |
| Atomic.SortedCons | src/atomic.rs:380 | a sorted list with a head no larger than its first element is still sorted |
| Atomic.InsertSorted | src/atomic.rs:380 | inserting into a sorted list gives a sorted list with the same elements plus the new one |
| Atomic.SortSeq | src/atomic.rs:380 | sorting the samples gives them in ascending order, with the same elements |
| Atomic.Rank | src/atomic.rs:382-384 | the index loop stops at the first index where `100 * (index + 1) < p * n` fails, or at n: every earlier index satisfies it |
| Atomic.Pick | src/atomic.rs:385-386 | the reported pair is the percentile and a sample: the one at the rank, clamped to the last sample |
| Atomic.RankFrom | src/atomic.rs:383-385 | the inner while loop stops at an index between where it started and the number of samples |
| Atomic.PercentileScores | src/atomic.rs:377-390 | no samples give no percentile scores; otherwise there is one per configured percentile |
| Atomic.PerSecond | src/atomic.rs:102 | scaling a count by 1 000 000 is exact: dividing back gives the count, per microsecond of the period instead of per second |
| Atomic.ScoresOf | src/atomic.rs:440-444 | a Percentile metric lists exactly one score per percentile pair |
| Atomic.ResetOf | src/atomic.rs:394-450 | `reset` returns a list exactly when the hit count is not zero |
| Atomic.AtomicScores.constructor | src/atomic.rs:303-311 | new scores have the given kind, blank cells, no samples and no handle holding them |
| Atomic.AtomicScores.SwapIf | src/atomic.rs:453-468 | with one writer at a time, the cell takes the new value exactly when the comparison holds against its current value, and no other cell changes |
| Atomic.AtomicScores.Update | src/atomic.rs:323-351 | the cells and samples become what UpdateCells and UpdateSamples give |
| Atomic.AtomicScores.PercentileLoop | src/atomic.rs:381-388 | the single index walked across all percentiles yields, per percentile in order, the pair of the percentile and the sample at its clamped rank |
| Atomic.AtomicScores.Snapshot | src/atomic.rs:353-392 | the result is true exactly when the hit count was not zero; the buffer receives the reconciled cells, the cells are left as AfterSnapshot says, and the samples become the percentile scores and are cleared |
| Atomic.AtomicScores.Reset | src/atomic.rs:394-450 | `reset` returns what ResetOf gives for the old cells and samples, and leaves the cells as a snapshot does |
| Atomic.RankFromMonotone | src/atomic.rs:383-385 | a larger percentile never has a smaller rank |
| Atomic.RankFromSkip | src/atomic.rs:383-385 | starting the walk at any index up to the rank finds the same rank |
| Atomic.RankResume | src/atomic.rs:381-385 | the walk for the next percentile may resume where the previous one stopped, since the percentiles are ascending |
| Atomic.RankOfZero | src/atomic.rs:383 | percentile 0 ranks at index 0 |
| Atomic.RankFromHundred | src/atomic.rs:383-386 | percentile 100 ranks at the last index |
| Atomic.PercentilePairs | src/atomic.rs:377-390 | each percentile score pairs the configured percentile, in the order 0, 25, 50, 75, 90, 100, with a sample of the period (also line 309) |
| Atomic.PickIsSample | src/atomic.rs:386-387 | the sample reported for a percentile is one of the period's samples |
| Atomic.PickMonotone | src/atomic.rs:383-387 | on sorted samples, a larger percentile never reports a smaller sample |
| Atomic.PercentilesNonDecreasing | src/atomic.rs:377-390 | the reported samples never decrease from one percentile to the next |
| Atomic.PickEnds | src/atomic.rs:383-387 | on sorted samples, percentile 0 reports the first and percentile 100 the last |
| Atomic.SortedBounds | src/atomic.rs:380 | the first and last elements of the sorted samples bound every sample |
| Atomic.PercentileExtremes | src/atomic.rs:377-390 | percentile 0 reports the least sample and percentile 100 the greatest |
| Atomic.SeqMaxIsGreatest | src/atomic.rs:343 | the maximum of the values is one of them and bounds all of them |
| Atomic.SeqMinIsLeast | src/atomic.rs:344 | the minimum of the values is one of them and is bounded by all of them |
| Atomic.HitCount | src/atomic.rs:327 | after n updates from blank (n in isize range) the hit count is n |
| Atomic.ValueKindUpdates | src/atomic.rs:339-345 | a Counter, Timer or Gauge updated with values holds their wrapped sum, their greatest and their least |
| Atomic.MarkerUpdates | src/atomic.rs:319-329 | a Marker's sum, max and min keep their blank values |
| Atomic.LevelTrailing | src/atomic.rs:330-338 | before the final reconciliation a Level's extremes are taken over the running sums up to the one before last |
| Atomic.LevelExtremes | src/atomic.rs:330-376 | a Level's snapshot reports as max and min the extremes of all running sums, the initial 0 and the final sum included |
| Atomic.ResetAfterReset | src/atomic.rs:395-449 | with no update since a snapshot, the next reset returns None (also lines 354-365) |
| Atomic.Tags | src/atomic.rs:399-446 | a list's score kinds, one per score |
| Atomic.ResetListMarker | src/atomic.rs:401-404 | a Marker's reset lists [Count, Rate], with Count the hits and Rate the hits per second |
| Atomic.ResetListGauge | src/atomic.rs:405-409 | a Gauge's reset lists [Max, Min, Mean], with Mean the sum over the hits |
| Atomic.ResetListFull | src/atomic.rs:410-439 | a Timer's, Counter's or Level's reset lists [Count, Sum, Max, Min, Mean, Rate]; the Rate is hits per second for a Timer and sum per second otherwise |
| Atomic.ResetListPercentile | src/atomic.rs:440-444 | a Percentile's reset lists exactly its percentile scores, in order |
| Bucket.PublishedOnly | src/atomic.rs:135-143 | a statistics function that keeps exactly one of a metric's scores publishes that score's statistic alone |
| Bucket.PublishedNone | src/atomic.rs:135-143 | a statistics function that keeps none of the scores publishes nothing |
| Bucket.PublishedEvery | src/atomic.rs:135-143 | a statistics function that keeps every score publishes one statistic per score, in order |
| Bucket.SummaryOnePerMetric | src/stats.rs:68-74 | over the scores a reset lists, `stats_summary` publishes exactly one value per metric (hits, sum or rounded mean, by kind) under the metric's own name, and none for a Percentile metric (also src/atomic.rs:399-446) |
| Bucket.AverageOnePerMetric | src/stats.rs:46-50 | over the scores a reset lists, `stats_average` publishes exactly one value per metric (a Marker's hits, any other kind's rounded mean), and none for a Percentile metric (also src/atomic.rs:399-446) |
| Bucket.AllStatsMarker | src/stats.rs:27-44 | over a Marker's reset, `stats_all` publishes its count as a Counter and its rate as a Gauge (also src/atomic.rs:401-404) |
| Bucket.AllStatsGauge | src/stats.rs:27-44 | over a Gauge's reset, `stats_all` publishes max, min and mean, all as Gauges (also src/atomic.rs:405-409) |
| Bucket.AllStatsFull | src/stats.rs:27-44 | over a Timer's, Counter's or Level's reset, `stats_all` publishes all six statistics: count as a Counter, sum and mean with the metric's kind, and max, min and rate as Gauges (also src/atomic.rs:410-439) |
| Bucket.StatWrites | src/atomic.rs:137-142 | each published statistic is written under its name prefix-appended and joined by the scope (also src/output/map.rs:50-56) |
| Bucket.PublishedLands | src/atomic.rs:135-143 | in an unnamed map, statistics with distinct names whose parts hold no "." each end up under their joined name with their value, whatever else was written (also src/output/map.rs:36-37) |
| Bucket.AtomicBucket.States | src/atomic.rs:52-59 | the values of exactly the registered metrics |
| Bucket.AtomicBucket.StatsFunction | src/atomic.rs:130-133 | the bucket's own statistics function is used when set, and the default (`stats_summary`) otherwise |
| Bucket.AtomicBucket.constructor | src/atomic.rs:156-170 | a new bucket has no metrics and no statistics function of its own, and its period starts now |
| Bucket.AtomicBucket.SetStats | src/atomic.rs:210-219 | `stats` sets the bucket's own statistics function and changes nothing else |
| Bucket.AtomicBucket.UnsetStats | src/atomic.rs:221-224 | `unset_stats` reverts to the default and changes nothing else |
| Bucket.AtomicBucket.NewMetric | src/atomic.rs:249-261 | returns the scores registered under the prefix-appended name, creating them with the requested kind only when absent (so the first kind wins), with id forged from "stats" and the name; the handle adds one holder |
| Bucket.AtomicBucket.ReleaseHandle | src/atomic.rs:87 | dropping a handle takes one holder off its scores |
| Bucket.AtomicBucket.ResetOne | src/atomic.rs:108-112 | resetting one metric returns what ResetOf gives for its values and changes no other metric |
| Bucket.AtomicBucket.ResetAll | src/atomic.rs:105-113 | the reset pass visits every registered name once, in some order, resets each, and collects those with data in that order |
| Bucket.AtomicBucket.ResetStep | src/atomic.rs:108-112 | one step of the reset pass extends the reset prefix of the order by one name |
| Bucket.AtomicBucket.FlushTo | src/atomic.rs:97-147 | `flush_to` resets every metric and starts the period at the current time; when no metric had data nothing is written and the target is not flushed, otherwise every kept statistic is written to the target in order and the target is flushed once |
| Bucket.AtomicBucket.Held | src/atomic.rs:84-91 | the names some handle still holds |
| Bucket.StrongCount | src/atomic.rs:87 | `Arc::strong_count` counts the maps holding the scores plus the handles; it is 1 only for a single map and no handle, or a single handle and no map |
| Bucket.AtomicBucket.Purge | src/atomic.rs:81-92 | the purge as written: the registry is cloned before the filter runs, so every scores object is held by both maps while it runs, its strong count is at least 2, and the registry comes out unchanged |
| Bucket.AtomicBucket.FixedPurge | src/atomic.rs:84-91 | the purge as evidently intended: exactly the names some handle still holds remain, each with the scores it had, and the reset of every metric is kept |
| Bucket.AtomicBucket.Flush | src/atomic.rs:73-95 | `flush` is `flush_to` into the target (every metric reset, statistics delivered as FlushTo states) followed by the as-written purge, so the registry keeps every entry, held or not (also lines 263-271) |
| Bucket.AtomicBucket.FixedFlush | src/atomic.rs:73-95 | `flush` with the intended purge: the same delivery as Flush, after which the registry holds exactly the names some handle held, with their scores |
| Bucket.DrainOf | src/atomic.rs:105-113 | collecting the reset pass keeps at most one entry per name in the order, each named from the order with the kind of its metric |
| Bucket.PublishedScores | src/atomic.rs:136-143 | a metric's scores publish at most one statistic each |
| Bucket.PublishedAll | src/atomic.rs:135-144 | the collected metrics publish at most as many statistics as they have scores in total |
| Bucket.StatWrite | src/atomic.rs:137-142 | a statistic is written with its value, under its joined name when the scope has no name of its own (also src/output/map.rs:50-56) |
| Bucket.AtomicBucket.Deliver | src/atomic.rs:115-146 | the publishing half of `flush_to` leaves the bucket's metric values as the reset pass left them |
| Bucket.PublishAndFlush | src/atomic.rs:115-146 | nothing changes in the target when no metric had data; otherwise all statistics are written in order, then the target is flushed once |
| Bucket.Publish | src/atomic.rs:135-144 | the target ends with the writes of every statistic kept for every collected metric, in order, and is not flushed |
| Bucket.PublishedConcat | src/atomic.rs:135-144 | writing two batches of statistics in turn is writing their concatenation |
| Bucket.PublishScores | src/atomic.rs:136-143 | the writes of every statistic kept for one metric's scores, in order |
| Bucket.WriteAllAppend | src/output/map.rs:54-56 | writes in two batches equal the writes of the concatenation |
| Bucket.PublishedNames | src/atomic.rs:137-139 | a statistics function that keeps names publishes non-empty names for non-empty metric names |
| BucketTests.TestName | src/atomic.rs:523-531 | in the bucket named "test", a metric named leaf is registered as ["test", leaf] |
| BucketTests.TestKey | src/atomic.rs:556-565 | the unnamed map stores the suffixed statistic of a test metric under "test.", the leaf, "." and the suffix |
| BucketTests.CounterACells | src/atomic.rs:537-538 | counter_a counted 10 and 20 holds [2, 30, 20, 10] |
| BucketTests.CounterBCells | src/atomic.rs:540-542 | counter_b counted 9, 18 and 3 holds [3, 30, 18, 3] |
| BucketTests.TimerACells | src/atomic.rs:544-545 | timer_a timed 10 s and 20 s holds [2, 30000000, 20000000, 10000000] |
| BucketTests.GaugeACells | src/atomic.rs:547-548 | gauge_a set to 10 then 20 holds [2, 30, 20, 10] |
| BucketTests.LevelACells | src/atomic.rs:550-552 | level_a adjusted by 789, -7789 and 77788 holds hit 3, sum 70788, and the trailing extremes 789 and -7000 |
| BucketTests.MarkerACells | src/atomic.rs:533-535 | marker_a marked three times holds hit 3 and otherwise blank cells |
| BucketTests.CounterATest | src/atomic.rs:565-614 | counter_a publishes count 2, sum 30, max 20, min 10, mean 15, rate 10; summary 30, average 15 |
| BucketTests.CounterBTest | src/atomic.rs:572-615 | counter_b publishes count 3, sum 30, max 18, min 3, mean 10, rate 10; summary 30, average 10 |
| BucketTests.TimerATest | src/atomic.rs:579-617 | timer_a publishes count 2, sum 30000000, max 20000000, min 10000000, mean 15000000, rate 1; summary 30000000, average 15000000 |
| BucketTests.GaugeATest | src/atomic.rs:586-618 | gauge_a publishes max 20, min 10, mean 15; summary and average 15 |
| BucketTests.LevelATest | src/atomic.rs:590-616 | level_a publishes max 70788, min -7000, mean 23596; summary and average 23596 |
| BucketTests.MarkerATest | src/atomic.rs:594-619 | marker_a publishes count 3 and rate 1; summary and average 3 |
| BucketTests.DropAndFlush | src/atomic.rs:73-95 | dropping the last handle and flushing leaves the registry as it was |
| BucketTests.DropAndFixedFlush | src/atomic.rs:84-91 | dropping the only handle of a metric and flushing with the intended purge removes the metric from the registry |
| BucketTests.UnheldSurvivesFlush | src/atomic.rs:249-261 | as written: a Counter "a" whose handle was dropped survives the flush, so a later `new_metric("a", Gauge)` gets the Counter scores back (also lines 73-95) |
| BucketTests.UnheldPurgedByFixedFlush | src/atomic.rs:249-261 | with the intended purge the same sequence registers a fresh Gauge "a" (also lines 73-95) |
| Lru.Empty | src/lru_cache.rs:25-34 | `with_capacity`: a well-formed cache with no keys and the given capacity |
| Lru.RemoveFromListOf | src/lru_cache.rs:101-126 | as written: a slot with both neighbours is unlinked from both; a slot with only a predecessor makes it the last; a slot without predecessor keeps every link; the table and `first` never change, and the cache stays well formed |
| Lru.AccessOf | src/lru_cache.rs:90-95 | as written: the key's slot becomes `first` after `remove_from_list`, with table and keys unchanged |
| Lru.RemoveLastOf | src/lru_cache.rs:134-144 | with a last slot, its key leaves the table; without one, the table is kept and `first` is cleared |
| Lru.EnsureRoomOf | src/lru_cache.rs:128-132 | only removes keys, and keeps the cache well formed |
| Lru.InsertOf | src/lru_cache.rs:36-66 | keeps the cache well formed and its capacity |
| Lru.Replace | src/lru_cache.rs:42-44 | replacing a slot's value keeps the cache well formed |
| Lru.PushFront | src/lru_cache.rs:48-63 | an absent key gets the index one past the last slot |
| Lru.PeekOf | src/lru_cache.rs:70-75 | `peek` gives a value exactly when the key is in the table, and that value is the one stored in the key's entry, whose links it leaves alone |
| Lru.GetOf | src/lru_cache.rs:77-83 | keeps the cache well formed |
| Lru.InsertAbsent | src/lru_cache.rs:46-64 | inserting an absent key returns None, and the key then holds the new value |
| Lru.InsertPresent | src/lru_cache.rs:40-45 | inserting a present key returns its previous value and keeps the table; the key then holds the new value and every other key its old one |
| Lru.GetAbsent | src/lru_cache.rs:77-83 | `get` of an absent key returns None and changes nothing |
| Lru.GetPresent | src/lru_cache.rs:77-83 | `get` of a present key returns its value and keeps every key and value |
| Lru.InsertPushes | src/lru_cache.rs:49-63 | an insert never reuses a slot: every slot keeps its key, and an absent key gets a new slot at the end |
| Lru.KeysOf | src/lru_cache.rs:8-22 | one key per listed slot |
| Lru.LinkedKeys | src/lru_cache.rs:15-22 | the keys of the linked list are the keys of the table |
| Lru.EmptyLinked | src/lru_cache.rs:25-34 | a new cache is the empty list |
| Lru.PushFrontShape | src/lru_cache.rs:48-63 | pushing a slot for an absent key links it in front of the old first slot |
| Lru.PushedListed | src/lru_cache.rs:48-63 | the new slot in front of the list gives a list without repeats with the right ends |
| Lru.PushedForward | src/lru_cache.rs:48-63 | the forward links of the list with the new slot in front |
| Lru.PushedBackward | src/lru_cache.rs:50-53 | the backward links of the list with the new slot in front |
| Lru.PushedKeyed | src/lru_cache.rs:55-63 | the new slot's key comes first in the key list |
| Lru.PushFrontLinked | src/lru_cache.rs:48-63 | pushing an absent key puts it at the front of the linked list |
| Lru.RemoveLastShape | src/lru_cache.rs:117-144 | in a list of two or more, `remove_last` drops the last key and makes its predecessor the last |
| Lru.TrimmedLinked | src/lru_cache.rs:134-144 | the trimmed cache is the list without its last slot |
| Lru.TrimmedForward | src/lru_cache.rs:117-122 | the forward links of the trimmed list |
| Lru.TrimmedBackward | src/lru_cache.rs:117-122 | the backward links of the trimmed list |
| Lru.TrimmedKeyed | src/lru_cache.rs:136-140 | the trimmed list's slots keep their keys in the table |
| Lru.RemoveLastLinked | src/lru_cache.rs:134-144 | in a list of two or more, `remove_last` drops exactly the least recently used key |
| Lru.Find | src/lru_cache.rs:90-95 | the first position of a key in a key list, or its length when absent |
| Lru.Promote | src/lru_cache.rs:90-95 | the key at a position moved to the front, the others in order |
| Lru.Without | src/lru_cache.rs:101-126 | the list without one position |
| Lru.RecentInsertAbsent | src/lru_cache.rs:36-37 | the recency order for an absent key: it goes in front, and the last goes when the cache is full |
| Lru.EnsureRoomLinked | src/lru_cache.rs:128-132 | as written, with a capacity other than 1, making room drops the least recently used key of a full cache |
| Lru.InsertFreshLinked | src/lru_cache.rs:36-66 | as written, with a capacity other than 1, inserting an absent key keeps the list well formed and its keys in recency order |
| Lru.InsertAllOf | src/lru_cache.rs:36-66 | inserting each pair in turn keeps the cache well formed |
| Lru.KeysIn | src/lru_cache.rs:39 | the keys of the pairs |
| Lru.Reversed | src/lru_cache.rs:1-3 | the list backwards |
| Lru.RecentFreshAll | src/lru_cache.rs:1-37 | inserting distinct absent keys keeps the newest first and drops the oldest beyond the capacity |
| Lru.RecentFresh | src/lru_cache.rs:36-37 | one absent key goes in front, and the list stays within the capacity |
| Lru.RecentShift | src/lru_cache.rs:1-3 | trimming to the capacity commutes with putting newer keys in front |
| Lru.InsertAllFreshLinked | src/lru_cache.rs:36-66 | as written, with a capacity other than 1, inserting distinct absent keys keeps the list well formed and in recency order |
| Lru.FreshInsertsKeepRecent | src/lru_cache.rs:1-37 | as written, inserting distinct keys into an empty cache of capacity 2 or more keeps exactly the last `capacity` keys, so the oldest is always the one evicted |
| Lru.LruCache.constructor | src/lru_cache.rs:25-34 | the state is the empty cache of the given capacity |
| Lru.LruCache.Len | src/lru_cache.rs:85-88 | the number of keys in the table |
| Lru.LruCache.ContainsKey | src/lru_cache.rs:97-99 | true exactly when the key is in the table |
| Lru.LruCache.Peek | src/lru_cache.rs:68-75 | the key's value as PeekOf gives it |
| Lru.LruCache.RemoveFromList | src/lru_cache.rs:101-126 | the new state is RemoveFromListOf of the old |
| Lru.LruCache.Access | src/lru_cache.rs:90-95 | the new state is AccessOf of the old |
| Lru.LruCache.RemoveLast | src/lru_cache.rs:134-144 | the new state is RemoveLastOf of the old |
| Lru.LruCache.EnsureRoom | src/lru_cache.rs:128-132 | the new state is EnsureRoomOf of the old |
| Lru.LruCache.Insert | src/lru_cache.rs:36-66 | the new state and the result are InsertOf of the old state |
| Lru.LruCache.Get | src/lru_cache.rs:77-83 | the new state and the result are GetOf of the old state |
| LruFixed.FixedRemoveFromListOf | src/lru_cache.rs:101-126 | corrected: both neighbours, `first` and `last` are relinked around the slot, and the table is kept |
| LruFixed.LinkFrontOf | src/lru_cache.rs:90-95 | a slot linked in front of the first slot, with the table kept |
| LruFixed.FixedAccessOf | src/lru_cache.rs:90-95 | corrected `access`: the key's slot leaves the list and comes back as `first` |
| LruFixed.FixedRemoveLastOf | src/lru_cache.rs:134-144 | `remove_last` over the corrected unlink: only removes keys |
| LruFixed.FixedEnsureRoomOf | src/lru_cache.rs:128-132 | `ensure_room` over the corrected `remove_last`: only removes keys |
| LruFixed.FixedInsertOf | src/lru_cache.rs:36-66 | `insert` over the corrected `access` and `ensure_room` keeps the cache well formed |
| LruFixed.FixedGetOf | src/lru_cache.rs:77-83 | `get` over the corrected `access` keeps the cache well formed |
| LruFixed.FixedRemoveLinks | src/lru_cache.rs:101-126 | each slot's links after the corrected unlink, in terms of the slot's own links |
| LruFixed.FixedRemoveShape | src/lru_cache.rs:101-126 | the corrected unlink of a listed slot, described on the list |
| LruFixed.UnlinkedChainEnds | src/lru_cache.rs:101-126 | after the unlink, the list without the slot has no repeats and the right ends |
| LruFixed.UnlinkedForward | src/lru_cache.rs:109-116 | the forward links of the list without the slot |
| LruFixed.UnlinkedBackward | src/lru_cache.rs:109-116 | the backward links of the list without the slot |
| LruFixed.FixedRemoveChain | src/lru_cache.rs:101-126 | the corrected unlink leaves the linked list without the slot |
| LruFixed.LinkFrontShape | src/lru_cache.rs:90-95 | linking in front, described on the fields |
| LruFixed.FrontedChain | src/lru_cache.rs:90-95 | linking a slot in front puts it at the head of the list |
| LruFixed.FrontedForward | src/lru_cache.rs:90-95 | the forward links after linking in front |
| LruFixed.FrontedBackward | src/lru_cache.rs:90-95 | the backward links after linking in front |
| LruFixed.PromotedKeyed | src/lru_cache.rs:90-95 | the promoted list keeps the table's keys, promoted |
| LruFixed.FixedAccessLinked | src/lru_cache.rs:90-95 | corrected `access` moves the key to the front of the recency order |
| LruFixed.AccessChain | src/lru_cache.rs:90-95 | unlinking a slot and linking it in front promotes it in the list |
| LruFixed.WithoutExcludes | src/lru_cache.rs:101-126 | removing a position of a list without repeats removes its element |
| LruFixed.ReplaceLinked | src/lru_cache.rs:42-44 | replacing a value keeps the list and its keys |
| LruFixed.FixedRemoveLastLinked | src/lru_cache.rs:134-144 | the corrected `remove_last` drops the least recently used key of any non-empty list, a single key included |
| LruFixed.DroppedKeyed | src/lru_cache.rs:136-140 | the table without the last key has one key fewer and is keyed by the rest of the list |
| LruFixed.DroppedOthers | src/lru_cache.rs:136-140 | the slots before the last keep their keys in the table |
| LruFixed.DroppedKeys | src/lru_cache.rs:136-140 | the key list without its last key |
| LruFixed.MapRemoveSize | src/lru_cache.rs:139 | removing a present key takes one from the table's size |
| LruFixed.FixedEnsureRoomLinked | src/lru_cache.rs:128-132 | the corrected `ensure_room` drops the least recently used key of a full cache, for every capacity |
| LruFixed.FixedInsertLinked | src/lru_cache.rs:36-66 | the corrected `insert` returns the previous value and moves the keys as the recency order says |
| LruFixed.FixedInsertPresent | src/lru_cache.rs:40-45 | corrected `insert` of a present key: the previous value is returned and the key is promoted |
| LruFixed.FixedInsertAbsent | src/lru_cache.rs:46-64 | corrected `insert` of an absent key: None is returned and the key goes in front, the oldest leaving a full cache |
| LruFixed.FixedGetLinked | src/lru_cache.rs:77-83 | the corrected `get` returns the key's value and promotes a present key |
| LruFixed.FixedRunOf | src/lru_cache.rs:36-83 | any sequence of inserts and gets keeps the corrected cache well formed |
| LruFixed.FixedRunLinked | src/lru_cache.rs:36-83 | every run of the corrected cache follows the recency order |
| LruFixed.RecentRunBounded | src/lru_cache.rs:1-3 | the recency order never holds more keys than a capacity of 1 or more |
| LruFixed.FixedRunBounded | src/lru_cache.rs:1-15 | starting empty with capacity 1 or more, after any inserts and gets the corrected cache holds no more keys than its capacity, and exactly those of the recency order |
| LruTests.InsertFooBar | src/lru_cache.rs:153-155 | the cache after insert foo, insert bar |
| LruTests.GetFoo | src/lru_cache.rs:157 | get foo returns 1 and leaves foo's slot first, still linked to nothing |
| LruTests.InsertBaz | src/lru_cache.rs:158 | the cache after insert baz: bar evicted, `last` still on bar's slot |
| LruTests.RoomForBaz | src/lru_cache.rs:128-158 | making room drops bar from the table and changes no link |
| LruTests.PushBaz | src/lru_cache.rs:48-63 | pushing baz into the trimmed cache (also line 158) |
| LruTests.GetFooAgain | src/lru_cache.rs:164 | the second get foo returns 1 |
| LruTests.InsertQux | src/lru_cache.rs:165 | insert qux leaves foo and qux |
| LruTests.InsertQuxAfterBaz | src/lru_cache.rs:134-144 | insert qux straight after insert baz leaves foo, baz and qux |
| LruTests.PromoteScenario | src/lru_cache.rs:151-170 | `get_and_get_mut_promote` holds as written: foo and baz, not bar; then foo and qux, not baz |
| LruTests.GetBreaksBound | src/lru_cache.rs:91-144 | as written, insert foo, bar; get foo; insert baz, qux leaves three keys in a cache of capacity 2 |
| LruTests.TwoKeys | src/lru_cache.rs:85-88 | a map of two distinct keys has size 2 |
| LruTests.ThreeKeys | src/lru_cache.rs:85-88 | a map of three distinct keys has size 3 |
| LruTests.InsertAThenB | src/lru_cache.rs:36-66 | with capacity 1, insert a, b evicts a but leaves `last` on a's slot |
| LruTests.InsertCAfterB | src/lru_cache.rs:118-143 | with capacity 1, insert c then evicts nothing |
| LruTests.CapacityOneBreaksBound | src/lru_cache.rs:102-144 | as written, capacity 1 with insert a, b, c leaves two keys |
| LruTests.FixedScenarios | src/lru_cache.rs:151-170 | the recency order of the corrected cache on the test's calls and on both findings' calls |
| LruTests.FixedScenarioTables | src/lru_cache.rs:151-170 | the corrected cache holds exactly foo and baz, then foo and qux, and within capacity on both findings' calls |
| LruTests.RunSteps | src/lru_cache.rs:36-83 | a literal list of up to four calls runs one call at a time |
| LruTests.RunAppend | src/lru_cache.rs:36-83 | running two lists of calls after each other is running their concatenation |
| Proxy.BindingTo | src/core/proxy.rs:137-155 | the binding made from a result of `get_effective_target`: a metric created under the name's `short()` with its own kind, on that target with its namespace length, or on the void output with length 0 (also lines 241-248) |
| Proxy.Effective | src/core/proxy.rs:113-129 | `get_effective_target`: any result is the target of a prefix of the name, with that prefix's length |
| Proxy.Bound | src/core/proxy.rs:237-248 | the binding a newly defined metric gets: created under its one-part leaf name with its kind; void with length 0 exactly when no prefix of the name is targeted; otherwise the target of a targeted prefix of that length, no longer prefix being targeted |
| Proxy.EffectiveLongest | src/core/proxy.rs:113-129 | the effective target is the one of the longest targeted prefix, and there is none exactly when no prefix is targeted |
| Proxy.EffectiveOutside | src/core/proxy.rs:92-158 | a name outside a namespace keeps its effective target when only that namespace's target changes |
| Proxy.EffectiveLonger | src/core/proxy.rs:95-157 | a name whose effective namespace is longer than the changed one keeps its target |
| Proxy.EffectiveSetWithin | src/core/proxy.rs:92-111 | a target set on a namespace becomes the effective one of every name within it that no longer namespace targets |
| Proxy.EffectiveAtLeast | src/core/proxy.rs:113-129 | a name within a targeted namespace has a target at least that long |
| Proxy.EffectiveUnsetWithin | src/core/proxy.rs:131-158 | once a namespace's target is removed, a name it was the effective namespace of falls back to where the namespace itself falls back |
| Proxy.RebindWithin | src/core/proxy.rs:95-157 | the loops of `set_target` and `unset_target` keep the registered names, kinds and liveness; a metric that is dead, outside the namespace or bound by a longer namespace is unchanged; every other one is bound to a metric created under its `short()` name with its own kind (lines 107 and 154) |
| Proxy.LookupOrDefine | src/core/proxy.rs:229-256 | `new_metric`'s registry update: the name is registered and live afterwards; a live entry leaves the registry as it was, whatever the kind asked for; otherwise the name gets a new live entry of the given kind bound as Bound says; other entries are unchanged |
| Proxy.LookupOrDefineKeepsBound | src/core/proxy.rs:229-256 | a lookup keeps every live metric bound to its effective target and leaves the other entries alone; a live name keeps its first kind |
| Proxy.SetTargetKeepsBound | src/core/proxy.rs:92-111 | `set_target` keeps every live metric bound to the effective target of its name |
| Proxy.UnsetTargetKeepsBound | src/core/proxy.rs:131-158 | `unset_target` of a targeted namespace keeps every live metric bound to the effective target of its name |
| Proxy.SetThenUnset | src/core/proxy.rs:92-158 | setting a target on an untargeted namespace, then unsetting it, restores targets and registry exactly |
| Proxy.InnerProxy.constructor | src/core/proxy.rs:85-90 | no targets and no metrics |
| Proxy.InnerProxy.GetEffectiveTarget | src/core/proxy.rs:113-129 | the loop that pops the name returns Effective of it |
| Proxy.InnerProxy.RebindAffected | src/core/proxy.rs:95-157 | the loop over the registry leaves RebindWithin of the old registry: exactly the affected metrics get a metric created on the given target under their `short()` name with their own kind |
| Proxy.InnerProxy.SetTarget | src/core/proxy.rs:92-111 | the namespace's target is set; each affected metric is bound to a metric created on it under its `short()` name with its own kind and the namespace's length; every live metric stays bound to its effective target |
| Proxy.InnerProxy.UnsetTarget | src/core/proxy.rs:131-158 | an untargeted namespace changes nothing; otherwise its target is removed and each affected metric is bound to a metric created under its `short()` name with its own kind on the namespace's new effective target with that length, or on void with length 0 |
| Proxy.InnerProxy.DropMetric | src/core/proxy.rs:160-164 | the entry is removed; it panics exactly when the name was not registered (also lines 47-51) |
| Proxy.InnerProxy.Expire | src/core/proxy.rs:46-51 | the last handle going makes the weak reference dead, nothing else changes |
| Proxy.InnerProxy.Flush | src/core/proxy.rs:166-172 | with no targeted prefix nothing is flushed and the result is Ok; otherwise the effective target is flushed and its result returned |
| Proxy.InnerProxy.Define | src/core/proxy.rs:231-256 | the registry after looking up or defining the name, which is then live and bound to a metric created under its `short()` name on its effective target; every live metric stays bound to its effective target |
| Proxy.NewMetric | src/core/proxy.rs:229-260 | the name is prefix-appended, the id forged from "proxy", the registry looked up or extended, and the entry's target metric is created under the leaf name |
| Proxy.FlushProxy | src/core/proxy.rs:263-268 | a proxy's flush is the inner flush of its namespace |
| Proxy.RoutingScenario | src/core/proxy.rs:92-158 | a Counter "app.requests" defined before any target is bound to void under "requests"; a target on "app" binds it there with length 1; a root target does not override that; unsetting "app" falls back to the root with length 0; unsetting the root falls back to void (also lines 229-256) |
| Coatcheck.StrongCount | src/coatcheck.rs:54-56 | the strong count of an entry's inner handle is never below 1, the coatcheck's own reference |
| Coatcheck.IsFree | src/coatcheck.rs:54-56 | an entry is free exactly when no handle to it is held |
| Coatcheck.NewHandleOf | src/coatcheck.rs:122-127 | `new_handle` appends an entry held once at the next index, keeps the free list, grows the capacity only when the vector is full, and keeps the items within the capacity |
| Coatcheck.ReuseOf | src/coatcheck.rs:116-120 | `reuse_handle` reloads the entry at the free index with the payload and one more holder, returns its handle, and leaves every other item, the capacity and the free list as they were |
| Coatcheck.UpdateFreeListOf | src/coatcheck.rs:129-136 | `update_free_list` lists exactly the indices already listed and the free items' indices, and changes neither the items nor the capacity |
| Coatcheck.CheckOf | src/coatcheck.rs:93-113 | `check` either keeps the number of items or appends one new entry held once with the payload, and never lowers the capacity |
| Coatcheck.ClaimOf | src/coatcheck.rs:143-145 | `claim` gives the payload exactly when the handle's index is in range; the handle it consumes is dropped, and capacity, free list and length are kept |
| Coatcheck.ClaimMutOf | src/coatcheck.rs:138-140 | `claim_mut` stores the payload at the handle's index and drops the consumed handle, keeping capacity, free list and length |
| Coatcheck.ScannedAll | src/coatcheck.rs:129-136 | a full scan lists an index exactly when it was listed or names a free item |
| Coatcheck.ClaimDropsHandle | src/coatcheck.rs:138-145 | both claims keep a sound store sound, and the entry is free afterwards exactly when the claimed handle was its last |
| Coatcheck.DistinctBounded | src/coatcheck.rs:89-91 | a list of distinct indices below n has at most n elements |
| Coatcheck.FreeListBounded | src/coatcheck.rs:89-91 | on a sound store the free list is no longer than the items |
| Coatcheck.Grown | src/coatcheck.rs:108-109 | a full vector grows to a strictly larger capacity of at least 4 |
| Coatcheck.ScannedMembers | src/coatcheck.rs:129-136 | the scan of `update_free_list` adds exactly the free items to the listed ones |
| Coatcheck.ScannedInRange | src/coatcheck.rs:129-136 | the scan lists only indices of items |
| Coatcheck.ScannedShape | src/coatcheck.rs:129-136 | the scan keeps the listed indices at the back and pushes the free ones in front, highest first |
| Coatcheck.ScannedLowest | src/coatcheck.rs:103-136 | after a scan from an empty free list, the back is the lowest free index, the one `check` reuses |
| Coatcheck.CheckValid | src/coatcheck.rs:93-127 | every branch of `check` keeps the store usable |
| Coatcheck.ClaimAfterCheck | src/coatcheck.rs:93-145 | the handle `check` returns is held, and claiming it gives the payload `check` stored |
| Coatcheck.CheckLength | src/coatcheck.rs:93-127 | `check` never shrinks the items, and adds one exactly when its handle is the new last index |
| Coatcheck.CheckStrategy | src/coatcheck.rs:93-113 | the allocation strategy: the back of the free list; else a new item while the vector has room; else the lowest free item; else a new item in a grown vector (also lines 19-24) |
| Coatcheck.CheckKeepsHeld | src/coatcheck.rs:93-127 | on a sound store, `check` keeps it sound, gives the new handle its entry alone, and leaves every held entry as it was (also lines 5-8) |
| Coatcheck.SoundPop | src/coatcheck.rs:94-120 | reloading the back of a sound free list keeps the store sound |
| Coatcheck.ScannedSound | src/coatcheck.rs:129-136 | one scan from an empty free list lists each free entry once |
| Coatcheck.DropKeepsSound | src/coatcheck.rs:6-56 | dropping a copy of a handle keeps the store sound; the entry is free exactly when it was the last copy |
| Coatcheck.CloneAndClaimKeepSound | src/coatcheck.rs:138-145 | on a sound store, cloning a held handle keeps it sound and claiming the clone gives the payload back and restores the store; storing through the clone keeps it sound, changes no other item, and a fresh clone then claims what was stored (also line 3) |
| Coatcheck.UpdateKeepsSound | src/coatcheck.rs:129-136 | as written, a scan keeps a sound store sound only when none of the free entries is listed yet |
| Coatcheck.DedupMembers | src/coatcheck.rs:129-136 | the deduplicating scan lists the same entries as the source's |
| Coatcheck.DedupKeepsSound | src/coatcheck.rs:129-136 | the deduplicating scan keeps a sound free list sound |
| Coatcheck.DedupUpdateSound | src/coatcheck.rs:129-136 | corrected: with the deduplicating scan, `update_free_list` keeps every sound store sound, however often it runs, and lists the same entries |
| Coatcheck.Coatcheck.New | src/coatcheck.rs:71-76 | no items, no capacity, an empty free list |
| Coatcheck.Coatcheck.WithCapacity | src/coatcheck.rs:78-83 | no items, the given capacity, an empty free list |
| Coatcheck.Coatcheck.Len | src/coatcheck.rs:85-87 | `len` counts the items, at most the capacity on a usable coatcheck |
| Coatcheck.Coatcheck.FreeLen | src/coatcheck.rs:89-91 | `free_len` counts the free list, at most the items on a sound coatcheck |
| Coatcheck.Coatcheck.Check | src/coatcheck.rs:93-113 | the new state and handle are CheckOf of the old state |
| Coatcheck.Coatcheck.ReuseHandle | src/coatcheck.rs:115-120 | the new state and handle are ReuseOf of the old state |
| Coatcheck.Coatcheck.NewHandle | src/coatcheck.rs:122-127 | the new state and handle are NewHandleOf of the old state |
| Coatcheck.Coatcheck.UpdateFreeList | src/coatcheck.rs:129-136 | the loop over the items leaves UpdateFreeListOf of the old state |
| Coatcheck.Coatcheck.Claim | src/coatcheck.rs:143-145 | the result and the new state are ClaimOf of the old: the payload when the index is in range, and the consumed handle dropped |
| Coatcheck.Coatcheck.ClaimMut | src/coatcheck.rs:138-140 | the new state is ClaimMutOf of the old: the payload is stored at the handle's index and the consumed handle is dropped; `ok` is false (a panic in the source) exactly when the index is out of range |
| CoatcheckTests.PushStep | src/coatcheck.rs:98-100 | a check while the vector has room appends a new entry held once |
| CoatcheckTests.GrowStep | src/coatcheck.rs:107-110 | a check on a full vector with no free entry appends and grows the vector |
| CoatcheckTests.ReuseStep | src/coatcheck.rs:94-96 | a check with a non-empty free list reloads the entry at its back |
| CoatcheckTests.ScanStep | src/coatcheck.rs:101-106 | a check on a full vector whose scan finds free entries reuses one of them |
| CoatcheckTests.Linear | src/coatcheck.rs:154-165 | `linear`: four items, no free entry, the fourth handle index 3 |
| CoatcheckTests.RecycleRound | src/coatcheck.rs:170-173 | one round of `recycle_all` keeps the store usable |
| CoatcheckTests.RecycleFixed | src/coatcheck.rs:167-176 | the store `recycle_all` reaches after its first round, and keeps |
| CoatcheckTests.RecycleAll | src/coatcheck.rs:167-176 | `recycle_all`: one item and one free entry |
| CoatcheckTests.CheckDropped | src/coatcheck.rs:181-183 | one round of `recycle_one` keeps the store usable |
| CoatcheckTests.RecycleOneFixed | src/coatcheck.rs:178-186 | the store `recycle_one` reaches after its first round, and keeps |
| CoatcheckTests.RecycleOne | src/coatcheck.rs:178-186 | `recycle_one`: one item and no free entry |
| CoatcheckTests.CheckFour | src/coatcheck.rs:193-195 | four held checks keep the store usable |
| CoatcheckTests.AllocFirstBatch | src/coatcheck.rs:193-197 | four checks fill the capacity of 4 |
| CoatcheckTests.AllocSecondBatch | src/coatcheck.rs:199-205 | with nothing free, four more checks grow the vector to 8 |
| CoatcheckTests.LastBatchScan | src/coatcheck.rs:203-210 | after the first handles are dropped, the scan lists them, lowest index last |
| CoatcheckTests.LastBatchReuse | src/coatcheck.rs:208-210 | each check of the last batch reuses the lowest free entry |
| CoatcheckTests.LastBatchReuses | src/coatcheck.rs:208-210 | the four reuses of the last batch |
| CoatcheckTests.AllocLastBatch | src/coatcheck.rs:207-212 | the last batch reuses entries 0 to 3 |
| CoatcheckTests.AllocAndFree | src/coatcheck.rs:188-213 | `alloc_and_free`: 4 items, then 8, then still 8, and never a free entry left |
| CoatcheckTests.GetHandle | src/coatcheck.rs:215-220 | `get_handle`: the handle of a check is held, claiming it gives the checked value, and after the claim drops the handle its entry is free |
| CoatcheckTests.DoubleUpdateOverwrites | src/coatcheck.rs:129-136 | as written, two scans list a free entry twice, and two checks then hand out the same entry, so the first holder claims the second value |
| CoatcheckTests.DedupUpdateKeepsHeld | src/coatcheck.rs:129-136 | corrected, the second check gets its own entry and each handle claims its own value |
| Label.Set | src/label.rs:25-36 | `set`: the key then has the value, every other key keeps its own, and the scope has pairs |
| Label.Get | src/label.rs:59-65 | a scope gives a value exactly when it has a table holding the key, and that value is the table's |
| Label.Unset | src/label.rs:37-57 | `unset`: the key then has no value and every other key keeps its own; an absent key changes nothing, and the scope loses its pairs exactly when the key was its only one |
| Label.SetThenUnset | src/label.rs:25-57 | setting an absent key and unsetting it gives back the scope |
| Label.Collect | src/label.rs:66-74 | `collect`: the map then holds its keys and the scope's, the scope's values winning |
| Label.FromMap | src/label.rs:152-160 | labels built from a map have one scope, which gives each key's value in the map and nothing for other keys |
| Label.FirstWith | src/label.rs:199-206 | the value of the first scope in order that has the key, or None when none has |
| Label.FirstOfTwo | src/label.rs:183-185 | the thread labels, then the application labels |
| Label.FirstOfThree | src/label.rs:193-195 | one scope, then the rest in order |
| Label.FirstWithAppend | src/label.rs:199-206 | searching two lists of scopes in turn is searching their concatenation |
| Label.LookupIn | src/label.rs:182-208 | a found value comes from the thread labels, the application labels or one of the scopes; nothing found means no scope has the key, and, with fewer than two scopes, neither do the thread and application labels |
| Label.LookupNoScope | src/label.rs:189-190 | with no scope, a lookup tries the thread labels, then the application labels |
| Label.LookupOneScope | src/label.rs:192-195 | with one scope, a lookup tries it, then the thread labels, then the application labels |
| Label.LookupManyScopes | src/label.rs:197-206 | with two or more scopes, a lookup tries them in order and never consults the current thread or application labels |
| Label.SavedLookup | src/label.rs:172-208 | a value saved with `save_context` from labels of at most one scope is found later as it would have been at the time of saving, whatever the context has become |
| Label.SavedAfterScopes | src/label.rs:172-206 | a saved context comes after the scopes already there, which win |
| Label.Context.constructor | src/label.rs:13-18 | no thread and no application labels |
| Label.Context.ThreadSet | src/label.rs:93-100 | `ThreadLabel::set` sets the key in the thread labels |
| Label.Context.ThreadUnset | src/label.rs:102-107 | `ThreadLabel::unset` unsets the key in the thread labels |
| Label.Context.AppSet | src/label.rs:126-131 | `AppLabel::set` sets the key in the application labels |
| Label.Context.AppUnset | src/label.rs:133-136 | `AppLabel::unset` unsets the key in the application labels |
| Label.Context.SaveContext | src/label.rs:172-177 | the thread labels and then the application labels are pushed after the existing scopes, and lookups from at most one scope then find what they found before |
| Label.Context.Lookup | src/label.rs:182-208 | the value the search order gives: the loop over two or more scopes returns the first scope that has the key |
| Label.Context.IntoMap | src/label.rs:214-242 | `into_map` holds exactly the keys a lookup finds, each with the value the lookup returns |
| Label.ContextLabels | src/label.rs:258-278 | `context_labels`: "123" from the thread, then "456" from the application, then nothing |
| Label.LabelsMacro | src/label.rs:280-296 | `labels_macro`: "789" and "123" from the value labels |
| Label.ValueLabels | src/label.rs:298-319 | `value_labels`: the value label "789" wins over application and thread labels |
| Format.RenderedConcat | src/output/format.rs:44-75 | a template prints its commands in turn: two lists of commands print their outputs one after the other |
| Format.PrintableConcat | src/output/format.rs:53-55 | both halves of a printable template are printable |
| Format.RenderedIgnoresLabels | src/output/format.rs:58-71 | a template without label commands prints the same whatever the label lookup |
| Format.LabelExistsText | src/output/format.rs:58-71 | a label command prints nothing when the label is absent, and its label commands over the key and the value otherwise |
| Format.RenderedStep | src/output/format.rs:49-73 | one more command appends its text to the output |
| Format.PrintLabel | src/output/format.rs:60-69 | the loop over the label commands prints key, value and literals in order |
| Format.PrintOp | src/output/format.rs:50-72 | each command prints its text: a literal, the value, the value divided by the scale (truncating), a newline or the label |
| Format.Print | src/output/format.rs:44-75 | `print`: the loop over the commands writes the template's output |
| Format.SimpleTemplate | src/output/format.rs:98-110 | the simple format has no label command and prints every value |
| Format.RenderedSnoc | src/output/format.rs:49-73 | the output of a template with one more command at the end |
| Format.SimpleLine | src/output/format.rs:91-110 | the simple format prints the name joined with ".", a space, the value and a newline |
| Format.RenderedThree | src/output/format.rs:49-73 | a template of three commands prints their texts in turn |
| Format.RenderedFirst | src/output/format.rs:49-73 | the first command alone prints its text |
| Format.TestTemplate | src/output/format.rs:136-157 | the test format prints every value |
| Format.TestLine | src/output/format.rs:136-157 | the test format prints kind, "/", the joined name, the value, the value divided by 1000, and `test_key=` with the label's value when it exists |
| Format.TestLabelOp | src/output/format.rs:149-152 | the test format's label command prints `test_key=` and the value when the label exists |
| Format.RenderedSeven | src/output/format.rs:49-73 | a template of seven commands prints their texts in turn |
| Format.RenderedFour | src/output/format.rs:49-73 | the first four commands print their texts in turn |
| Format.PrintLabelExists | src/output/format.rs:159-169 | `print_label_exists`: "Counter/xyz.abc 123000 123 test_key=456\n" |
| Format.PrintLabelNotExists | src/output/format.rs:171-180 | `print_label_not_exists`: "Counter/xyz.abc 123000 123 \n" |
| Format.TestText | src/output/format.rs:163-168 | the test line for xyz.abc, Counter and 123000 |
| Gapless.ReplaysSnoc | src/cache/gapless_in.rs:115-119 | visiting one more entry appends its replay, if any |
| Gapless.Cleared | src/cache/gapless_in.rs:115-116 | after the visit every entry is untouched and keeps its last value |
| Gapless.WritesToAppend | src/cache/gapless_in.rs:115-119 | the writes to a metric in two lists of calls add up |
| Gapless.ReplaysAreLastValues | src/cache/gapless_in.rs:115-119 | every replayed write is a visited metric's last value |
| Gapless.ReplaysCount | src/cache/gapless_in.rs:115-119 | over distinct names, a metric is replayed once when visited and untouched, and not at all otherwise |
| Gapless.ReplayedIffUntouched | src/cache/gapless_in.rs:111-121 | whatever the order of the visit, a flush writes each entry's last value exactly once if it was not written since the previous flush, and a written or unknown metric not at all |
| Gapless.ClearedReplaysAll | src/cache/gapless_in.rs:111-121 | the flush after a flush with no writes in between replays every cached metric's last value |
| Gapless.ClearedIdempotent | src/cache/gapless_in.rs:116 | clearing the touched flags twice is clearing them once |
| Gapless.VisitedStep | src/cache/gapless_in.rs:115-118 | one step of the loop clears one entry and leaves the unvisited ones as they were |
| Gapless.VisitedAll | src/cache/gapless_in.rs:115-119 | once every entry is visited, the cache is the cleared one |
| Gapless.GaplessScope.constructor | src/cache/gapless_in.rs:56-63 | a new scope with the input's attributes, an empty cache and no call to the target |
| Gapless.GaplessScope.NewMetric | src/cache/gapless_in.rs:90-102 | the name is prefix-appended; a cached name changes nothing, and a new one defines the target metric once and caches it untouched with last value 0 |
| Gapless.GaplessScope.Write | src/cache/gapless_in.rs:103-107 | a write stores the value, marks the entry touched and writes the value to the target |
| Gapless.GaplessScope.Visit | src/cache/gapless_in.rs:116-118 | one entry's `touched` is swapped to false, and its last value is written when it was false already |
| Gapless.GaplessScope.Flush | src/cache/gapless_in.rs:111-121 | the loop visits every cached name once in some order, clears every entry, replays the untouched ones, then flushes the target and returns its result |
| Gapless.NeverWrittenScenario | src/cache/gapless_in.rs:90-121 | a metric defined and never written gets 0 on every flush |
| Gapless.WrittenOnceScenario | src/cache/gapless_in.rs:103-121 | a value written once is not repeated by the flush right after, and is by the next |
| Gapless.RedefineScenario | src/cache/gapless_in.rs:90-102 | defining a name twice, even with another kind, defines one target metric and shares its entry |
| Datagram.FlushInnerOf | src/output/statsd.rs:175-190 | `flush_inner`: an empty buffer sends nothing and is Ok; otherwise the buffer is sent as one datagram and cleared when the send succeeds, and kept, with an error, when it fails; nothing given to the outbox is lost or reordered (also src/output/graphite_udp.rs:152-168) |
| Datagram.FlushSendsAll | src/output/statsd.rs:175-190 | after a successful flush, everything given to the outbox has been sent, in order (also src/output/graphite_udp.rs:152-168) |
| Datagram.Scale | src/output/statsd.rs:99-103 | the divisor is 1000 for timers and 1 for every other kind (also src/output/graphite_udp.rs:89-93) |
| Statsd.PrintOf | src/output/statsd.rs:142-173 | `print`, as written, never leaves more than MAX_UDP_PAYLOAD (576) bytes in the buffer |
| Statsd.KindSuffix | src/output/statsd.rs:93-97 | the type suffix is "c" exactly for Marker and Counter, "g" exactly for Gauge and Level, "ms" exactly for Timer |
| Statsd.EntryText | src/output/statsd.rs:142-145 | with scale 1 the entry is the prefix, the value's decimal text and the suffix |
| Statsd.EntryFrame | src/output/statsd.rs:142-145 | every entry starts with the metric's prefix and ends with its suffix, whatever the scaled value (also lines 159-165) |
| Statsd.PrintFixedOf | src/output/statsd.rs:153-166 | `print` as evidently intended, within the same bound |
| Statsd.PrintTooLong | src/output/statsd.rs:148-151 | an entry longer than the buffer changes nothing and sends nothing, even unbuffered |
| Statsd.PrintFits | src/output/statsd.rs:153-172 | an entry that fits the space left goes after the buffer's contents, after a newline when the buffer is not empty; a buffered scope keeps it, an unbuffered one whose send succeeds sends it at once |
| Statsd.PrintNoRoomLoses | src/output/statsd.rs:153-157 | as written, an entry that fits the buffer but not the space left is lost, whatever the sends do |
| Statsd.EntryLostWhenNearlyFull | src/output/statsd.rs:153-157 | with 570 bytes buffered, the entry "hits:1\|c\n" is never sent: only the old buffer goes out |
| Statsd.PrintFixedDelivers | src/output/statsd.rs:153-166 | as intended, every entry that fits the buffer is given to the outbox whenever the send making room succeeds |
| Statsd.FullSizeEntry | src/output/statsd.rs:148-157 | an entry of exactly 576 bytes is never sent as written, and buffered alone as intended |
| Statsd.TwoEntries | src/output/statsd.rs:159-165 | two entries in a buffered scope are separated by a newline |
| Statsd.TimerValueTruncates | src/output/statsd.rs:99-143 | timer microseconds become milliseconds truncated toward zero: -1500 is written -1 |
| Statsd.StatsdScope.constructor | src/output/statsd.rs:57-63 | a new scope with the output's attributes and an empty buffer |
| Statsd.StatsdScope.NewMetric | src/output/statsd.rs:87-130 | the prefix is the prefix-prepended name joined with "." and a ":"; the suffix is "\|", the statsd type of the kind and a newline; the scale is 1000 for timers and 1 otherwise |
| Statsd.StatsdScope.FlushInner | src/output/statsd.rs:175-190 | the new state and result are FlushInnerOf of the old |
| Statsd.StatsdScope.Print | src/output/statsd.rs:142-173 | the new state is PrintOf of the old state and the entry, within the bound |
| Statsd.StatsdScope.Flush | src/output/statsd.rs:133-139 | `flush` is `flush_inner` of the buffer |
| Statsd.UnbufferedCounterScenario | src/output/statsd.rs:87-173 | a counter `app.hits` in an unbuffered scope named "app": writing 3 sends "app.hits:3\|c\n" at once |
| Statsd.CounterEntry | src/output/statsd.rs:87-145 | the entry for 3 is "app.hits:3\|c\n" |
| Graphite.Reserved | src/output/graphite_udp.rs:139 | a `String` that must hold more bytes grows to at least that many |
| Graphite.Pushed | src/output/graphite_udp.rs:139 | pushing an entry keeps the buffer within its capacity, which never shrinks |
| Graphite.PrintOf | src/output/graphite_udp.rs:114-150 | `print`, as written, keeps the buffer within its capacity, which never shrinks |
| Graphite.EntryText | src/output/graphite_udp.rs:114-128 | with scale 1 the entry is the prefix, the value's decimal text, a space, the epoch second and a newline |
| Graphite.EntryFrame | src/output/graphite_udp.rs:114-128 | every entry starts with the metric's prefix and ends with a space, the epoch second and a newline |
| Graphite.PrintFixedOf | src/output/graphite_udp.rs:135-139 | `print` as evidently intended keeps the capacity fixed |
| Graphite.PrintTooLong | src/output/graphite_udp.rs:131-134 | an entry longer than the capacity changes nothing and sends nothing, even unbuffered |
| Graphite.PrintDelivers | src/output/graphite_udp.rs:129-139 | every entry that fits the capacity is given to the outbox after everything before it |
| Graphite.PrintWithoutClock | src/output/graphite_udp.rs:141-149 | without an epoch nothing is added; an unbuffered scope still sends its buffer |
| Graphite.PrintBoundedWhenSent | src/output/graphite_udp.rs:135-139 | the buffer stays within 576 bytes whenever every send made to find room succeeds |
| Graphite.OverflowAfterFailedSend | src/output/graphite_udp.rs:135-139 | as written, with 570 bytes buffered and a failed send, a 10-byte entry is pushed anyway: 580 bytes buffered and the capacity doubled |
| Graphite.PrintFixedBounded | src/output/graphite_udp.rs:135-139 | as intended, the capacity never grows and no buffer exceeds 576 bytes, whatever the sends do |
| Graphite.PrintFixedDelivers | src/output/graphite_udp.rs:135-139 | as intended, an entry is delivered whenever it fits or the send making room succeeds, and dropped otherwise |
| Graphite.GraphiteScope.constructor | src/output/graphite_udp.rs:41-48 | a new scope with the output's attributes, an empty buffer and a capacity of 576 bytes |
| Graphite.GraphiteScope.NewMetric | src/output/graphite_udp.rs:85-102 | the prefix is the prefix-prepended name joined with "." and a space; the scale is 1000 for timers and 1 otherwise; the id is forged from "graphite" and the name |
| Graphite.GraphiteScope.FlushInner | src/output/graphite_udp.rs:152-168 | the new buffer, datagrams and result are FlushInnerOf of the old, with the capacity kept |
| Graphite.GraphiteScope.PushStr | src/output/graphite_udp.rs:139 | the new state is Pushed of the old |
| Graphite.GraphiteScope.Print | src/output/graphite_udp.rs:114-150 | the new state is PrintOf of the old state and the entry at the given epoch second |
| Graphite.GraphiteScope.Flush | src/output/graphite_udp.rs:105-111 | `flush` is `flush_inner` of the buffer |
| Graphite.UnbufferedGaugeScenario | src/output/graphite_udp.rs:85-150 | a gauge `app.cpu` in an unbuffered scope named "app": writing 42 at second 1000 sends "app.cpu 42 1000\n" at once |
| Graphite.FirstEntrySent | src/output/graphite_udp.rs:129-149 | in an empty unbuffered scope, an entry that fits is sent on its own |
| Graphite.GaugeEntry | src/output/graphite_udp.rs:115-128 | the entry for 42 at second 1000 is "app.cpu 42 1000\n" |
| Graphite.GaugeSent | src/output/graphite_udp.rs:114-150 | unbuffered, the gauge app.cpu at 42 in second 1000 sends the one datagram "app.cpu 42 1000\n" |
| Socket.Delay | src/output/socket.rs:69-70 | the delay never exceeds MAX_RECONNECT_DELAY_MS (10000 ms) |
| Socket.SaturatedDelay | src/output/socket.rs:68-70 | the delay as evidently intended is within the cap |
| Socket.DelayStep | src/output/socket.rs:68-70 | below the cap, one more failure doubles the delay |
| Socket.DelayDoubles | src/output/socket.rs:68-70 | up to seven failures, the delay is 50 ms times 2 to the number of failures |
| Socket.DelaySaturates | src/output/socket.rs:69-70 | from the 8th failure to the 62nd, the delay is the cap |
| Socket.DelayWrapsToZero | src/output/socket.rs:69-70 | as written, after the 63rd failure the shift leaves 0, and the next attempt is not delayed at all |
| Socket.DelayRestarts | src/output/socket.rs:69-70 | after the 64th failure a release build's shift starts again from 50 ms; a debug build panics there |
| Socket.SaturatedDelayMonotone | src/output/socket.rs:68-70 | the intended delay never decreases, and agrees with the source's up to 62 failures |
| Socket.DelayConstants | src/output/socket.rs:10-11 | the constants are 50 and 10000 |
| Socket.SaturatedDelayHolds | src/output/socket.rs:68-70 | the intended delay is the cap from the 8th failure on, however many follow |
| Socket.TryConnectOf | src/output/socket.rs:50-63 | `try_connect` fails exactly when there is no stream, the clock is strictly past `next_try` and connecting fails; a successful attempt holds the stream and clears the failure count; nothing else changes the state |
| Socket.BackoffOf | src/output/socket.rs:65-77 | `backoff` drops the stream, counts one more failure and puts the next attempt between now and now plus the cap |
| Socket.WithSocketOf | src/output/socket.rs:79-98 | `with_socket` reports ConnectFailed exactly when an attempt fails, and backs off; NotConnected exactly when the delay has not passed, changing nothing; the operation's value exactly when connected and the operation succeeds, with the failure count cleared by a fresh connection; OperationFailed exactly when connected and the operation fails, dropping the stream and counting one more failure |
| Socket.ConnectedOperationKeepsState | src/output/socket.rs:87-95 | a connected socket whose operation succeeds returns its result and changes nothing |
| Socket.WaitsOutTheDelay | src/output/socket.rs:53-75 | after a failure, every operation until the delay has passed is NotConnected and changes nothing |
| Socket.RetrySocket.constructor | src/output/socket.rs:30-46 | a new socket has no failure and a first attempt 50 ms on, and then runs the early flush |
| Socket.RetrySocket.TryConnect | src/output/socket.rs:50-63 | the new state and result are TryConnectOf of the old |
| Socket.RetrySocket.Backoff | src/output/socket.rs:65-77 | the new state is BackoffOf of the old |
| Socket.RetrySocket.WithSocket | src/output/socket.rs:79-108 | the new state and result are WithSocketOf of the old; `write` and `flush` are this with their operation |
| Socket.EarlyFlushWaits | src/output/socket.rs:34-53 | the early flush of `new`, within 50 ms, attempts nothing and leaves the socket unconnected with no failure |
| Socket.ServerDownScenario | src/output/socket.rs:50-98 | against a server that is down: ConnectFailed at 51 ms, NotConnected at 151 ms (not strictly past the next try), ConnectFailed at 152 ms, leaving two failures and the next try at 352 ms |
| Decimal.DigitRoundTrip | src/output/statsd.rs:144 | a digit written as a character reads back as the same digit |
| Decimal.NatDigitsWellFormed | src/output/format.rs:52 | the text of a natural number is non-empty, all digits, and starts with '0' only when the number is 0 |
| Decimal.NatDigitsRoundTrip | src/output/graphite_udp.rs:116 | reading back the digits of a natural number gives that number |
| Decimal.DecimalRoundTrip | src/output/statsd.rs:144 | the text `to_string` gives an integer is non-empty, an optional '-' then digits, and reads back as that integer |
| Machine.Pow2Monotone | src/output/socket.rs:69 | the doubling factor of the reconnection delay never decreases with the failure count |
| Machine.TruncDiv | src/output/statsd.rs:143 | the truncated quotient's magnitude is the floor of the magnitudes' quotient, and it is non-negative when the operands' signs agree and non-positive otherwise |
| Machine.DivBounds | src/output/statsd.rs:143 | the quotient of two naturals brackets the dividend between two multiples of the divisor |
| Machine.TruncDivByOne | src/output/statsd.rs:143 | dividing by a scale of 1 keeps the value (also src/output/graphite_udp.rs:115) |
| Machine.Shl64 | src/output/socket.rs:69 | a release-build shift by a multiple of 64 leaves the value unchanged |
| Kinds.KindNameInjective | src/core/input.rs:94-95 | the `Debug` names of distinct kinds differ |
| Stats.DefaultStats | src/atomic.rs:29-31 | the default statistics function keeps the metric's name on every score it publishes |
| Attributes.ListenerRegistry.constructor | src/attributes.rs:72-78 | a default component starts with no flush listeners |
| Attributes.IdGenerator.constructor | src/attributes.rs:132 | listener ids are handed out from 0 |
| Attributes.CancelHandle.constructor | src/attributes.rs:178 | the handle `SCHEDULER.schedule` gives `every` starts out not cancelled |
| Attributes.TaskList.constructor | src/attributes.rs:72-79 | a default component starts with no scheduled tasks |
| Orderings.Enumerate | src/atomic.rs:104-108 | the map walk visits every registered key exactly once |
| Orderings.EnumerationCovers | src/atomic.rs:104-108 | every key of the map is visited at some point of the walk |
| Bucket.AtomicBucket.Holders | src/atomic.rs:83-91 | the live-handle count of a metric is defined for exactly the registered names |
| Bucket.StatWritesConcat | src/atomic.rs:104-125 | publishing two batches of statistics writes those of the first batch, then those of the second |
| Bucket.DrainNames | src/atomic.rs:104-111 | every metric collected in the snapshot is a registered one, so its name is non-empty |
| Bucket.PublishedScoresNames | src/atomic.rs:117-125 | the statistics published for a metric with a non-empty name have non-empty names |

## Left out

- Concurrency: locks, `Arc` sharing across threads and interleavings. Every operation runs to completion before the next starts.
- `swap_if` in src/atomic.rs: the compare-and-swap retry loop is one load, compare and store. With sequential operations the exchange cannot fail.
- Floating point: means and rates are exact rationals. `f64::round() as isize` rounds half away from zero and saturates, with NaN giving 0. Sampling rates are not modelled.
- Random sampling (`Sampling::Random`, the `|@rate` suffix, the PCG generator): not modelled, because it reads a random source. Statsd.StatsdScope.NewMetric requires full sampling.
- Statsd.KindSuffix: requires a kind other than Percentile, because the statsd output in src/output/statsd.rs has no arm for that kind.
- Clocks: `Instant::now()`, `TimeHandle::now()` and the epoch are integers given as parameters. Elapsed time is in microseconds, and the clock is assumed monotonic (Bucket.AtomicBucket.FlushTo requires `nowUs >= periodStart`).
- Graphite: the "could not compute epoch timestamp" error is an absent timestamp (`None`), and the entry is dropped as in src/output/graphite_udp.rs.
- I/O: socket sends, stream writes and their `io::Error`s are boolean outcomes given to each call.
- Format: the write errors of `print` are not modelled; the model returns the text written.
- Socket: the address list, DNS and the TCP stream are not modelled. `set_nonblocking` is folded into the connection outcome. The debug-build panic on a shift of 64 or more is the ShlOverflows predicate, not an error path.
- Logging (`warn!`, `debug!`) has no effect on the model and is left out.
- Self-metrics (the bytes and errors counters of the outputs): not modelled, because they belong to the library's own metrics and not to the data path.
- Flush listeners: a listener's effect is a constant gauge write. Only the map scope's flush (src/output/map.rs:74) models `notify_flush_listeners`. The calls in the flushes of the bucket (src/atomic.rs:267), the proxy (src/core/proxy.rs:265), the gapless cache (src/cache/gapless_in.rs:113), statsd (src/output/statsd.rs:135) and graphite (src/output/graphite_udp.rs:107) are not modelled, because the models of those scopes carry no listener registry of their own; the map scope shows the effect of a listener on a flush.
- Gapless: labels passed through writes are not recorded, because the cache does not use them.
- `publish_metadata` in src/atomic.rs is never set to true, so the PERIOD_LENGTH branch is dead and left out.
- The default statistics function and drain, which are globals, are taken as constants (`stats_summary`, no drain).
- Global label scopes (the thread-local and application-wide `Labels`) are a context object passed explicitly.
- Iteration orders of `HashMap` and `BTreeMap`: any order that lists every key once (Orderings.Enumerate). No property depends on the order.
- Names: an empty name panics in `append`, so operations that append require a non-empty name.
- Byte lengths: strings are sequences of characters and lengths count characters, which matches bytes for ASCII names and values only.
- Datagram buffer: `String::with_capacity(576)` is taken to allocate exactly 576 bytes. Graphite's buffer grows by the rule in Graphite.Reserved: twice the old capacity, or what is needed if that is more. The allocator's actual rounding is not modelled.
- Dropping a statsd or graphite output flushes it like `flush`. There are no destructor semantics.
- Coatcheck: a full item vector grows to twice its capacity, or to 4 if that is more (Coatcheck.Grown). This is the standard library's rule and is assumed here, not derived.
- LruFixed.FixedRunBounded: requires capacity 1 or more. With capacity 0 the code finds the length equal to the capacity only while the cache is empty, so it never evicts. The as-written Lru model follows the code here.
- The older versions of the library in the repository (alternate copies of the scheduler, buckets and outputs) are not part of this model.
- Machine.Shl64: states only that a shift by a multiple of 64 leaves the value unchanged, not that the shift is periodic in its amount, because that bit-vector proof does not fit the resource limit; the delay lemmas of Socket evaluate the shift at the failure counts they name.

## Findings

| source | as written | input that shows it | evidently intended | confidence | as-written member | corrected member |
|---|---|---|---|---|---|---|
| src/lru_cache.rs:90-95 | `access` unlinks the entry and makes it `first` without linking it to the old head | capacity 2: insert a, insert b, get a, insert c, insert d leaves three entries | a hit moves the entry to the front of the recency list and the cache never holds more than its capacity | not executed | LruTests.GetBreaksBound | LruFixed.FixedRunBounded |
| src/lru_cache.rs:101-126, 134-144 | `remove_from_list` on the only entry does not clear `last`, so eviction at capacity 1 keeps pointing at the removed slot | capacity 1: insert a, insert b, insert c leaves two entries | evicting the sole entry empties the list | not executed | LruTests.CapacityOneBreaksBound | LruFixed.FixedRemoveLastLinked |
| src/coatcheck.rs:129-136 | `update_free_list` pushes every free slot, including slots already on the free list | two scans with one abandoned slot: two checks hand out the same slot | each free slot is on the free list once, so no two live handles share a slot | not executed | CoatcheckTests.DoubleUpdateOverwrites | Coatcheck.DedupUpdateSound |
| src/output/statsd.rs:153-157 | when an entry does not fit, the buffer is flushed and the entry is dropped | a 570-byte buffer and the 9-byte entry `hits:1\|c` plus newline: the entry is never sent | the entry goes into the emptied buffer and is sent later | not executed | Statsd.EntryLostWhenNearlyFull | Statsd.PrintFixedDelivers |
| src/output/graphite_udp.rs:135-139 | the entry is appended even when the flush that made room failed | a 570-byte buffer whose send fails and a 10-byte entry: the buffer holds 580 bytes | an entry is buffered only when it fits in the 576-byte payload | not executed | Graphite.OverflowAfterFailedSend | Graphite.PrintFixedBounded |
| src/output/socket.rs:69-70 | `50 << retries` on u64 loses its bits, so the delay falls to 0 | 63 failed connections in a row: the next attempt is not delayed | the delay stays at the 10 s cap once reached | not executed | Socket.DelayWrapsToZero | Socket.SaturatedDelayMonotone |
| src/atomic.rs:84-90 | the registry is cloned before the `strong_count == 1` filter runs, so every scores object has a count of at least 2 and nothing is purged | register "a" as a Counter, drop its handle, flush, register "a" as a Gauge: the Counter scores come back | after a flush the entries no handle holds are removed | not executed | BucketTests.UnheldSurvivesFlush | Bucket.AtomicBucket.FixedFlush |
