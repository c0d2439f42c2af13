/**
 * The `purge` command's run: stream every partition's purge statistics,
 * keep the `-n` partitions with the most reclaimable data and running totals
 * over all of them, then list the kept partitions best first.
 */
module Collector {
  import opened Wrappers
  import opened Ranking
  import opened Statistics
  import opened MinMaxQueue
  import opened PurgeOptions

  /**
   * The state of the scan loop: the bounded queue of largest partitions and
   * the two running totals. The ghost fields record every record consumed
   * and the multiset of records the queue has evicted.
   */
  class PurgeAggregator {
    const largestPartitions: BoundedQueue<PurgeStatistics>
    var totalSize: int
    var totalReclaim: int
    ghost var consumed: seq<PurgeStatistics>
    ghost var evicted: multiset<PurgeStatistics>

    /** The queue is well formed and the totals are those of everything consumed. */
    ghost predicate Valid()
      reads this`totalSize, this`totalReclaim, this`consumed, largestPartitions
    {
      && largestPartitions.Valid()
      && Totals(totalSize, totalReclaim) == Tally(consumed)
    }

    /**
     * The queue holds a top-K of what was consumed: every consumed record is
     * either in the queue or evicted, the queue is as full as the stream and
     * its capacity allow, and nothing evicted outranks anything kept.
     */
    ghost predicate HoldsTopK()
      reads this`consumed, this`evicted, largestPartitions
    {
      KeepsTopK(largestPartitions.le, largestPartitions.maximumSize, consumed, largestPartitions.Contents(), evicted)
    }

    constructor (le: (PurgeStatistics, PurgeStatistics) -> bool, numPartitions: nat)
      requires TotalPreorder(le) && 1 <= numPartitions
      ensures Valid() && HoldsTopK() && fresh(largestPartitions)
      ensures largestPartitions.le == le && largestPartitions.maximumSize == numPartitions
      ensures consumed == [] && totalSize == 0 && totalReclaim == 0
    {
      largestPartitions := new BoundedQueue(le, numPartitions);
      totalSize, totalReclaim := 0, 0;
      consumed, evicted := [], multiset{};
    }

    /**
     * Offers the record to the queue (`largestPartitions.add(stats)` in
     * `run()`), recording it as consumed and recording in the ghost state
     * what the queue evicted: nothing while there is room, otherwise one
     * greatest element of the old contents plus the record.
     */
    method Offer(stats: PurgeStatistics)
      requires largestPartitions.Valid() && HoldsTopK()
      modifies this`consumed, this`evicted, largestPartitions
      ensures largestPartitions.Valid() && HoldsTopK()
      ensures consumed == old(consumed) + [stats]
      ensures OfferedOnce(largestPartitions.le, old(largestPartitions.Contents()), old(evicted), stats,
                          largestPartitions.Contents(), evicted)
    {
      ghost var kept, before, dropped := largestPartitions.Contents(), consumed, evicted;
      ghost var out := largestPartitions.Add(stats);
      consumed, evicted := before + [stats], if out.Some? then dropped + multiset{out.value} else dropped;
      OfferKeepsTopK(largestPartitions.le, largestPartitions.maximumSize, before, kept, dropped,
                     stats, out, largestPartitions.Contents(), evicted);
    }

    /** One turn of the scan loop: offer the record to the queue and add it to both totals. */
    method Consume(stats: PurgeStatistics)
      requires Valid() && HoldsTopK()
      modifies this, largestPartitions
      ensures Valid() && HoldsTopK()
      ensures consumed == old(consumed) + [stats]
      ensures OfferedOnce(largestPartitions.le, old(largestPartitions.Contents()), old(evicted), stats,
                          largestPartitions.Contents(), evicted)
      ensures totalSize == old(totalSize) + stats.size
      ensures totalReclaim == old(totalReclaim) + stats.reclaimable
    {
      // the code offers the record first; nothing observable happens in between
      TallySnoc(consumed, stats);
      totalSize, totalReclaim := totalSize + stats.size, totalReclaim + stats.reclaimable;
      Offer(stats);
    }

    /**
     * The scan loop: consumes the records in the order the reader yields
     * them until it is exhausted, or until it fails at record `fault.at`.
     */
    method ConsumeAll(stream: seq<PurgeStatistics>, fault: Fault) returns (failed: bool)
      requires Valid() && HoldsTopK() && consumed == []
      modifies this, largestPartitions
      ensures Valid() && HoldsTopK()
      ensures failed <==> fault.StreamFails? && fault.at < |stream|
      ensures !failed ==> consumed == stream
    {
      var i := 0;
      failed := false;
      while i < |stream| && !failed
        invariant 0 <= i <= |stream|
        invariant Valid() && HoldsTopK()
        invariant consumed == stream[..i]
        invariant failed ==> fault == StreamFails(i) && i < |stream|
        invariant fault.StreamFails? && !failed ==> fault.at >= i
        decreases |stream| - i, if failed then 0 else 1
      {
        if fault == StreamFails(i) {
          failed := true;
        } else {
          assert stream[..i] + [stream[i]] == stream[..i + 1];
          Consume(stream[i]);
          i := i + 1;
        }
      }
      assert !failed ==> stream[..i] == stream;
    }

    /**
     * Empties the queue by repeated `remove()`, best-ranked first; the totals
     * and the record of what was consumed stay as they are.
     */
    method Drain() returns (rows: seq<PurgeStatistics>)
      requires Valid()
      modifies largestPartitions
      ensures Valid() && largestPartitions.elems == [] && unchanged(this)
      ensures Sorted(largestPartitions.le, rows)
      ensures multiset(rows) == old(largestPartitions.Contents())
    {
      var le := largestPartitions.le;
      rows := [];
      var empty := largestPartitions.IsEmpty();
      while !empty
        invariant largestPartitions.Valid()
        invariant empty <==> largestPartitions.elems == []
        invariant Sorted(le, rows)
        invariant multiset(rows) + largestPartitions.Contents() == old(largestPartitions.Contents())
        invariant Dominates(le, multiset(rows), largestPartitions.Contents())
        decreases |largestPartitions.elems|
      {
        var stats := largestPartitions.Remove();
        TakeLeastKeepsDominance(le, multiset(rows), stats, largestPartitions.Contents());
        AppendSorted(le, rows, stats);
        rows := rows + [stats];
        empty := largestPartitions.IsEmpty();
      }
    }
  }

  /**
   * The opened column family (`cfProxy`). Only how often it is closed is
   * modelled; reading from it is the `stream` given to `Run`.
   */
  class ColumnFamilyProxy {
    var closeCount: nat

    constructor ()
      ensures closeCount == 0
    {
      closeCount := 0;
    }

    method Close()
      modifies this
      ensures closeCount == old(closeCount) + 1
    {
      closeCount := closeCount + 1;
    }
  }

  /** Where, if anywhere, an exception interrupts the run. */
  datatype Fault =
    | NoFault
      /** opening the column family fails (`cfProxy` stays null) */
    | OpenFails
      /** obtaining the purge-statistics reader fails */
    | ReaderFails
      /** the reader fails when asked for record number `at` (counting from 0); never reached if the stream is shorter */
    | StreamFails(at: nat)
      /** an exception after the column family was closed, while the tables are produced */
    | ReportFails

  /** The run reaches its normal end exactly when no fault interrupts it. */
  predicate Completes(fault: Fault, streamLength: nat) {
    fault.NoFault? || (fault.StreamFails? && fault.at >= streamLength)
  }

  datatype Outcome =
    | Reported(totals: Totals, largest: seq<PurgeStatistics>)
    | Failed

  /** The result of a run: what was reported, how often the column family was closed, and the exit status. */
  datatype RunResult = RunResult(settings: Settings, outcome: Outcome, closes: nat, exitCode: int)

  /**
   * `kept` is what a queue of capacity `k` holds after `consumed` went
   * through it and `evicted` was pushed out: every consumed record is either
   * kept or evicted, the queue is as full as the stream and its capacity
   * allow, and nothing evicted outranks anything kept.
   */
  ghost predicate KeepsTopK(
    le: (PurgeStatistics, PurgeStatistics) -> bool, k: nat, consumed: seq<PurgeStatistics>,
    kept: multiset<PurgeStatistics>, evicted: multiset<PurgeStatistics>)
  {
    && multiset(consumed) == kept + evicted
    && |kept| == Min(|consumed|, k)
    && Dominates(le, kept, evicted)
  }

  /**
   * The queue went from `kept` to `kept'` by one `add(x)`: either `x` joined
   * and nothing was evicted, or exactly one greatest element of `kept` plus
   * `x` (possibly `x` itself) was evicted and everything else stayed.
   */
  ghost predicate OfferedOnce(
    le: (PurgeStatistics, PurgeStatistics) -> bool, kept: multiset<PurgeStatistics>,
    evicted: multiset<PurgeStatistics>, x: PurgeStatistics,
    kept': multiset<PurgeStatistics>, evicted': multiset<PurgeStatistics>)
  {
    && (evicted' == evicted ==> kept' == kept + multiset{x})
    && (evicted' != evicted ==> exists m ::
          && IsGreatest(le, m, kept + multiset{x})
          && evicted' == evicted + multiset{m}
          && kept' + multiset{m} == kept + multiset{x})
  }

  /**
   * Offering one record to the queue keeps it a top-K of everything
   * consumed, whether the record was admitted outright or something
   * (possibly the record itself) was evicted.
   */
  lemma OfferKeepsTopK(
    le: (PurgeStatistics, PurgeStatistics) -> bool, k: nat, consumed: seq<PurgeStatistics>,
    kept: multiset<PurgeStatistics>, evicted: multiset<PurgeStatistics>,
    x: PurgeStatistics, out: Option<PurgeStatistics>,
    kept': multiset<PurgeStatistics>, evicted': multiset<PurgeStatistics>)
    requires TotalPreorder(le) && KeepsTopK(le, k, consumed, kept, evicted)
    requires out.None? <==> |kept| < k
    requires out.None? ==> kept' == kept + multiset{x}
    requires out.Some? ==> IsGreatest(le, out.value, kept + multiset{x}) && kept' + multiset{out.value} == kept + multiset{x}
    requires evicted' == if out.Some? then evicted + multiset{out.value} else evicted
    ensures KeepsTopK(le, k, consumed + [x], kept', evicted')
  {
    assert multiset(consumed + [x]) == multiset(consumed) + multiset{x};
    if out.Some? {
      var m := out.value;
      assert kept' == kept + multiset{x} - multiset{m};
      EvictionKeepsDominance(le, kept, evicted, x, m);
    } else {
      // the queue had room, so it held everything consumed and nothing had been evicted
      assert |multiset(consumed)| == |kept| + |evicted|;
      assert evicted == multiset{};
    }
  }

  /**
   * Listing, best first, a queue that kept a top-K of the stream gives a
   * top-K of the stream.
   */
  lemma DrainedQueueIsTopK(
    le: (PurgeStatistics, PurgeStatistics) -> bool, k: nat, stream: seq<PurgeStatistics>,
    kept: multiset<PurgeStatistics>, evicted: multiset<PurgeStatistics>, rows: seq<PurgeStatistics>)
    requires KeepsTopK(le, k, stream, kept, evicted)
    requires Sorted(le, rows) && multiset(rows) == kept
    ensures IsTopK(le, k, stream, rows)
  {
    assert multiset(stream) - multiset(rows) == evicted;
  }

  /**
   * The whole command. `le` is the purge comparator, `stream` the records the
   * reader yields in order, and `fault` says where an exception strikes.
   */
  method Run(options: CommandOptions, le: (PurgeStatistics, PurgeStatistics) -> bool, stream: seq<PurgeStatistics>, fault: Fault)
    returns (result: RunResult)
    requires TotalPreorder(le) && options.numPartitions >= 1
    ensures result.settings == Configure(options)
    ensures result.outcome.Reported? <==> Completes(fault, |stream|)
    ensures result.exitCode == (if result.outcome.Reported? then 0 else 1)
    ensures result.closes == (if fault.OpenFails? then 0 else if fault.ReportFails? then 2 else 1)
    ensures result.outcome.Reported? ==>
      && result.outcome.totals == Tally(stream)
      && IsTopK(le, options.numPartitions, stream, result.outcome.largest)
  {
    var settings := Configure(options);
    var cfProxy: ColumnFamilyProxy? := null;
    var thrown := false;
    var outcome := Failed;
    // the body of the try block
    if fault.OpenFails? {
      thrown := true;
    } else {
      cfProxy := new ColumnFamilyProxy();
      if fault.ReaderFails? {
        thrown := true;
      } else {
        var aggregator := new PurgeAggregator(le, options.numPartitions);
        thrown := aggregator.ConsumeAll(stream, fault);
        if !thrown {
          cfProxy.Close();
          var totals := Totals(aggregator.totalSize, aggregator.totalReclaim);
          ghost var kept := aggregator.largestPartitions.Contents();
          ghost var evicted := aggregator.evicted;
          var rows := aggregator.Drain();
          if fault.ReportFails? {
            thrown := true;
          } else {
            DrainedQueueIsTopK(le, options.numPartitions, stream, kept, evicted, rows);
            outcome := Reported(totals, rows);
          }
        }
      }
    }
    // the catch block
    if thrown && cfProxy != null {
      cfProxy.Close();
    }
    var closes := if cfProxy == null then 0 else cfProxy.closeCount;
    result := RunResult(settings, outcome, closes, if thrown then 1 else 0);
  }
}
