/**
 * Per-partition purge statistics and the running totals the collector keeps
 * over them.
 */
module Statistics {

  /**
   * One record from the purge-statistics reader: a partition key (opaque
   * bytes, only displayed), its on-disk size, the bytes a purge would reclaim
   * and the sstable generations holding it (only displayed).
   */
  datatype PurgeStatistics = PurgeStatistics(key: seq<bv8>, size: int, reclaimable: int, generations: seq<int>)

  /** The two running totals: bytes on disk and bytes reclaimable. */
  datatype Totals = Totals(size: int, reclaim: int) {

    /** Folds one more record into the totals. */
    function Count(stats: PurgeStatistics): Totals {
      Totals(size + stats.size, reclaim + stats.reclaimable)
    }

    function Plus(other: Totals): Totals {
      Totals(size + other.size, reclaim + other.reclaim)
    }
  }

  /** The totals over every record of `s`: the sum of the sizes and the sum of the reclaimable bytes. */
  function Tally(s: seq<PurgeStatistics>): Totals {
    if |s| == 0 then Totals(0, 0) else Tally(s[..|s| - 1]).Count(s[|s| - 1])
  }

  /** One more record adds its size and reclaimable bytes to the totals. */
  lemma TallySnoc(s: seq<PurgeStatistics>, stats: PurgeStatistics)
    ensures Tally(s + [stats]) == Totals(Tally(s).size + stats.size, Tally(s).reclaim + stats.reclaimable)
  {
    assert (s + [stats])[..|s|] == s;
  }

  /** Totals over a concatenation add up. */
  lemma {:induction false} TallyAppend(a: seq<PurgeStatistics>, b: seq<PurgeStatistics>)
    ensures Tally(a + b) == Tally(a).Plus(Tally(b))
  {
    if b != [] {
      var b' := b[..|b| - 1];
      assert (a + b)[..|a + b| - 1] == a + b';
      TallyAppend(a, b');
    } else {
      assert a + b == a;
    }
  }

  /** Taking one record out of the middle takes its contribution out of the totals. */
  lemma TallyRemoveAt(b: seq<PurgeStatistics>, j: nat)
    requires j < |b|
    ensures Tally(b) == Tally(b[..j] + b[j + 1..]).Count(b[j])
  {
    var left, x, right := b[..j], b[j], b[j + 1..];
    assert b == (left + [x]) + right;
    assert (left + [x])[..|left|] == left;
    assert Tally(left + [x]) == Tally(left).Count(x);
    TallyAppend(left + [x], right);
    TallyAppend(left, right);
  }

  /** The totals depend only on which records arrived, not on their order. */
  lemma {:induction false} TallyPermutation(a: seq<PurgeStatistics>, b: seq<PurgeStatistics>)
    requires multiset(a) == multiset(b)
    ensures Tally(a) == Tally(b)
  {
    if a != [] {
      var x := a[|a| - 1];
      var a' := a[..|a| - 1];
      assert a == a' + [x];
      assert x in multiset(b);
      var j :| 0 <= j < |b| && b[j] == x;
      var b' := b[..j] + b[j + 1..];
      assert multiset(b') == multiset(b) - multiset{x} by {
        assert b == b[..j] + [x] + b[j + 1..];
      }
      assert multiset(a') == multiset(a) - multiset{x};
      TallyPermutation(a', b');
      TallyRemoveAt(b, j);
    } else {
      assert |b| == |multiset(b)| == 0;
    }
  }

  /**
   * Records that were consumed but are no longer retained still count: the
   * totals over the stream are the totals over the retained records plus
   * those over the evicted ones, whatever order either is listed in.
   */
  lemma TallyCoversEvicted(stream: seq<PurgeStatistics>, kept: seq<PurgeStatistics>, evicted: seq<PurgeStatistics>)
    requires multiset(stream) == multiset(kept) + multiset(evicted)
    ensures Tally(stream) == Tally(kept).Plus(Tally(evicted))
  {
    TallyPermutation(stream, kept + evicted);
    TallyAppend(kept, evicted);
  }
}
