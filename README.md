# Purge statistics collector: a Dafny model

This project models the `purge` command of the Cassandra sstable tools
(`PurgeStatisticsCollector.run()`). The command reports how much disk space
purging obsolete data would reclaim from a table. It also reports which
partitions would reclaim the most.

The command reads one `PurgeStatistics` record per partition from a reader.
It keeps two running totals over every record: bytes on disk and reclaimable
bytes. It also keeps the `-n` best-ranked records in a bounded min-max
priority queue that is ordered by the purge comparator. Once the reader is
exhausted, it closes the column family, prints the totals and empties the
queue best first into the table of largest reclaimable partitions. If an
exception is raised anywhere, the command closes the column family (if one
was opened) and exits with status 1.

Modules:

- `Ranking` (`ranking.dfy`) treats the comparator as a parameter `le`, where
  `le(a, b)` means `compare(a, b) <= 0`, i.e. `a` ranks at least as high as
  `b`. The comparator is assumed only to be a total preorder. The module
  defines what a top-K is. It proves that a top-K is unique when no
  two records of the stream tie. It also proves that a top-K agrees with a
  reference: sort the whole stream, then truncate.
- `Statistics` (`statistics.dfy`) holds the record and the running totals.
  It proves that the totals do not depend on arrival order, and that they
  also count records the queue evicted.
- `MinMaxQueue` (`min_max_queue.dfy`) models Guava's bounded
  `MinMaxPriorityQueue` as a class over a bag of elements. `Add` evicts a
  greatest element once the queue goes past its maximum size. `Remove` takes
  out a least element.
- `PurgeOptions` (`options.dfy`) covers how the options become settings. `-r`
  becomes a throughput ceiling. `-f` becomes an sstable filter, using Java's
  `String.split` semantics. `-b` turns off interactive progress.
- `Collector` (`collector.dfy`) holds the scan state as a class
  (`PurgeAggregator`: the queue and the two totals) with `Offer` (the
  queue's `add` in the scan loop), `Consume` (one turn of the scan loop), `ConsumeAll`
  (the scan loop) and `Drain` (the output loop). It also holds `Run`, the
  whole command. In `Run`, exceptions are a `Fault` parameter that says
  where one strikes, and the column family is an object that counts how
  often it is closed.

Three points of the code's behaviour that the model makes explicit:

- Guava's builder rejects a maximum size of 0, so the model requires
  `numPartitions >= 1`.
- At capacity the code adds the record first, then evicts a greatest
  element of the queue, which may be the newcomer. Under ties, which equally
  ranked element leaves is not determined.
- The code closes the column family at line 90 and again in the catch block
  when an exception follows line 90, for example while the tables are
  produced. `Run` states that such a run closes it twice.

## Model

| member | source | states |
|---|---|---|
| `MinMaxQueue.BoundedQueue.constructor` | src/main/java/com/instaclustr/sstabletools/PurgeStatisticsCollector.java:76-79 | the queue starts empty, with the given comparator and maximum size |
| `MinMaxQueue.BoundedQueue.Add` | src/main/java/com/instaclustr/sstabletools/PurgeStatisticsCollector.java:84 | below capacity, the element joins the bag; at capacity, a greatest element of the bag plus the newcomer (possibly the newcomer) is evicted, and the size stays at the maximum; the size never exceeds the maximum |
| `MinMaxQueue.BoundedQueue.Remove` | src/main/java/com/instaclustr/sstabletools/PurgeStatisticsCollector.java:103 | returns a least element (best-ranked) and removes exactly one copy of it |
| `MinMaxQueue.BoundedQueue.IsEmpty` | src/main/java/com/instaclustr/sstabletools/PurgeStatisticsCollector.java:102 | true exactly when the queue holds nothing |
| `Ranking.GreatestExists` | src/main/java/com/instaclustr/sstabletools/PurgeStatisticsCollector.java:84 | a non-empty queue has a greatest element to evict |
| `Ranking.LeastExists` | src/main/java/com/instaclustr/sstabletools/PurgeStatisticsCollector.java:103 | a non-empty queue has a least element to remove |
| `Ranking.EvictionKeepsDominance` | src/main/java/com/instaclustr/sstabletools/PurgeStatisticsCollector.java:76-84 | admitting a record and evicting a greatest one keeps every retained record ranked at least as high as every evicted one |
| `Ranking.HeadOfTopSelection` | src/main/java/com/instaclustr/sstabletools/PurgeStatisticsCollector.java:102-103 | the first record listed is a best-ranked record of the whole stream |
| `Ranking.TopSelectionUnique` | src/main/java/com/instaclustr/sstabletools/PurgeStatisticsCollector.java:76-110 | when no two records of the pool tie, two top selections of the same length from that pool are equal |
| `Ranking.TopKDeterministic` | src/main/java/com/instaclustr/sstabletools/PurgeStatisticsCollector.java:76-110 | when no two records of the stream tie, streams holding the same records in any arrival order give the same report |
| `Ranking.FullSortPrefixIsTopK` | src/main/java/com/instaclustr/sstabletools/PurgeStatisticsCollector.java:76-110 | the first min(N, K) records of a full sort are a valid top-K |
| `Ranking.TopKMatchesFullSort` | src/main/java/com/instaclustr/sstabletools/PurgeStatisticsCollector.java:76-110 | when no two records of the stream tie, a top-K equals the full sort truncated to min(N, K) |
| `Ranking.SortBySorted` | src/main/java/com/instaclustr/sstabletools/PurgeStatisticsCollector.java:99-110 | the reference sort lists records best first |
| `Ranking.SortBy` | src/main/java/com/instaclustr/sstabletools/PurgeStatisticsCollector.java:99-110 | the reference sort is a permutation of the stream |
| `Statistics.TallyAppend` | src/main/java/com/instaclustr/sstabletools/PurgeStatisticsCollector.java:73-86 | the totals over a concatenation are the sums of the totals over its parts |
| `Statistics.TallyPermutation` | src/main/java/com/instaclustr/sstabletools/PurgeStatisticsCollector.java:85-86 | the totals depend only on which records arrived, not on their order |
| `Statistics.TallyCoversEvicted` | src/main/java/com/instaclustr/sstabletools/PurgeStatisticsCollector.java:84-86 | the totals over the stream are the totals over the retained records plus the totals over the evicted ones |
| `PurgeOptions.ThroughputCeiling` | src/main/java/com/instaclustr/sstabletools/PurgeStatisticsCollector.java:49-53 | a limiter exists exactly when `-r` is not 0, and its ceiling is that many whole megabytes (2^20 bytes) per second, positive exactly when `-r` is |
| `PurgeOptions.Split` | src/main/java/com/instaclustr/sstabletools/PurgeStatisticsCollector.java:58 | cutting at every comma yields at least one piece, and no piece contains a comma |
| `PurgeOptions.JoinSplit` | src/main/java/com/instaclustr/sstabletools/PurgeStatisticsCollector.java:58 | rejoining the pieces with commas gives back the `-f` string |
| `PurgeOptions.SplitJoin` | src/main/java/com/instaclustr/sstabletools/PurgeStatisticsCollector.java:58 | comma-free pieces joined with commas split back into the same pieces |
| `PurgeOptions.DropTrailingEmpty` | src/main/java/com/instaclustr/sstabletools/PurgeStatisticsCollector.java:58 | keeps a prefix, drops only empty pieces, and the last piece kept is non-empty |
| `PurgeOptions.SstableFilter` | src/main/java/com/instaclustr/sstabletools/PurgeStatisticsCollector.java:55-60 | there is no filter exactly when `-f` is empty |
| `PurgeOptions.FilterNames` | src/main/java/com/instaclustr/sstabletools/PurgeStatisticsCollector.java:55-60 | for a non-empty `-f`, the names are its comma-separated pieces in order, none containing a comma, with only trailing empty pieces dropped |
| `PurgeOptions.FilterRoundTrip` | src/main/java/com/instaclustr/sstabletools/PurgeStatisticsCollector.java:55-60 | comma-free names whose last one is non-empty come back unchanged through `-f` |
| `PurgeOptions.Configure` | src/main/java/com/instaclustr/sstabletools/PurgeStatisticsCollector.java:49-68 | throttling is on exactly when `-r` is not 0, at `-r` times 2^20 bytes per second; a filter exists exactly when `-f` is non-empty; the mode is interactive exactly when `-b` is absent; keyspace, table and snapshot are passed through |
| `Collector.PurgeAggregator.constructor` | src/main/java/com/instaclustr/sstabletools/PurgeStatisticsCollector.java:73-79 | both totals start at 0, and the queue starts empty with the comparator and capacity `-n` |
| `Collector.PurgeAggregator.Offer` | src/main/java/com/instaclustr/sstabletools/PurgeStatisticsCollector.java:84 | the record is recorded as consumed; if nothing is evicted the queue gains exactly the record, otherwise exactly one greatest element of the old contents plus the record (possibly the record) leaves and everything else stays; the queue stays a top-K of everything consumed: each record is kept or evicted, the queue is as full as the stream and the capacity allow, and nothing evicted outranks anything kept |
| `Collector.PurgeAggregator.Consume` | src/main/java/com/instaclustr/sstabletools/PurgeStatisticsCollector.java:82-88 | adds the record's size and reclaimable bytes to the totals, keeps the totals equal to the sums over every record consumed, changes the queue only as one `add` of the record does (nothing evicted and the record joins, or one greatest element of the old contents plus the record leaves), and keeps the queue a top-K of everything consumed |
| `Collector.PurgeAggregator.ConsumeAll` | src/main/java/com/instaclustr/sstabletools/PurgeStatisticsCollector.java:82-88 | the scan loop fails exactly when the reader fails at a record number below the stream length; otherwise it consumes the whole stream in order, with the totals equal to the sums over it and the queue a top-K of it |
| `Collector.OfferKeepsTopK` | src/main/java/com/instaclustr/sstabletools/PurgeStatisticsCollector.java:76-84 | admitting a record outright, or admitting it and evicting a greatest element, turns a top-K of the records so far into a top-K of the records so far plus the new one |
| `Collector.PurgeAggregator.Drain` | src/main/java/com/instaclustr/sstabletools/PurgeStatisticsCollector.java:102-110 | lists the queue best first, as a permutation of its contents; leaves it empty and leaves the totals unchanged |
| `Collector.ColumnFamilyProxy.Close` | src/main/java/com/instaclustr/sstabletools/PurgeStatisticsCollector.java:90 | each close is counted once |
| `Collector.DrainedQueueIsTopK` | src/main/java/com/instaclustr/sstabletools/PurgeStatisticsCollector.java:76-110 | listing, best first, a queue that kept a top-K gives a top-K of the whole stream |
| `Collector.Run` | src/main/java/com/instaclustr/sstabletools/PurgeStatisticsCollector.java:46-119 | a run reports exactly when no exception strikes. It then exits 0, its totals are the sums over every record, and its list is the min(N, `-n`) best-ranked records, best first and taken from the stream. Otherwise it exits 1 with no report. The column family is closed never if opening failed, twice if the failure followed line 90, and once otherwise |

## Left out

- The definition of `PurgeStatistics.PURGE_COMPARATOR` is not part of this model. It is a parameter assumed to be a total preorder. No tie-break is assumed, except in the lemmas that state uniqueness, which require that no two records of the stream tie.
- `ColumnFamilyProxy`, `CassandraBackend` and `PurgeStatisticsReader` are not part of this model. The reader is the finite sequence `stream` given to `Run`. Their exceptions are the `Fault` parameter. The column family's state is reduced to a close counter.
- Guava's `MinMaxPriorityQueue` heap layout is not modelled. Nor is which of several equally ranked elements it evicts or removes.
- `MinMaxQueue.BoundedQueue.Remove`: requires a non-empty queue, whereas Guava throws `NoSuchElementException`. The only call, at line 103, is guarded by `isEmpty()` at line 102.
- `Run`: requires `-n` of at least 1, because Guava's builder rejects a smaller maximum size with an exception that the model does not follow.
- `Run`: does not model that Guava's `RateLimiter.create` rejects the rate a negative `-r` produces, which would end the run with status 1 before the column family is opened. Only the enable and ceiling arithmetic is modelled.
- The rate limiter's time-based blocking is not modelled. The ceiling `limit * 1024.0 * 1024.0` is a `double` in the code. It is exact for every 32-bit `limit`, so it is modelled as an integer.
- The totals are Java `long` values in the code. The model uses unbounded integers and does not model overflow.
- `ProgressBar`, `TableBuilder`, `Util.humanReadableByteCount`, `formatKey` and all console output (lines 80-81, 87, 92-111) are presentation. A failure while the tables are produced is the `ReportFails` fault. That the summary table may already have been printed by then is not modelled.
- picocli option parsing, `printStackTrace` and `System.exit` are not modelled. The exit status is the `exitCode` of `Run`'s result.
