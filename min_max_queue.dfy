/**
 * The bounded double-ended priority queue that holds the largest
 * partitions (Guava's `MinMaxPriorityQueue` built with `orderedBy(...)` and
 * `maximumSize(...)`), modelled as a bag of at most `maximumSize` elements.
 * Its heap layout is not modelled: `Add` evicts some greatest element when
 * the bag overflows, `Remove` takes out some least element, and which one is
 * picked among equally ranked elements is left open.
 */
module MinMaxQueue {
  import opened Wrappers
  import opened Ranking

  class BoundedQueue<T(==,!new)> {
    /** The comparator: `le(a, b)` when `compare(a, b) <= 0`. */
    const le: (T, T) -> bool
    const maximumSize: nat
    /** The elements held, in no meaningful order. */
    var elems: seq<T>

    ghost predicate Valid()
      reads this
    {
      TotalPreorder(le) && 1 <= maximumSize && |elems| <= maximumSize
    }

    ghost function Contents(): multiset<T>
      reads this
    {
      multiset(elems)
    }

    constructor (le: (T, T) -> bool, maximumSize: nat)
      requires TotalPreorder(le) && 1 <= maximumSize
      ensures Valid()
      ensures this.le == le && this.maximumSize == maximumSize && elems == []
    {
      this.le := le;
      this.maximumSize := maximumSize;
      elems := [];
    }

    /**
     * Inserts `x`; if that takes the queue past its maximum size, a greatest
     * element of the queue (possibly `x` itself) is evicted and reported in
     * the ghost result.
     */
    method Add(x: T) returns (ghost evicted: Option<T>)
      requires Valid()
      modifies this
      ensures Valid()
      ensures evicted.None? <==> old(|elems|) < maximumSize
      ensures evicted.None? ==> Contents() == old(Contents()) + multiset{x}
      ensures evicted.Some? ==>
        && IsGreatest(le, evicted.value, old(Contents()) + multiset{x})
        && Contents() + multiset{evicted.value} == old(Contents()) + multiset{x}
        && |elems| == maximumSize
    {
      var grown := elems + [x];
      if |grown| > maximumSize {
        ghost var k := GreatestExists(le, grown);
        var i :| 0 <= i < |grown| && GreatestAt(le, grown, i);
        GreatestAtIsGreatest(le, grown, i);
        evicted := Some(grown[i]);
        elems := grown[..i] + grown[i + 1..];
        assert grown == grown[..i] + [grown[i]] + grown[i + 1..];
        assert multiset(grown) == multiset(elems) + multiset{grown[i]};
      } else {
        elems := grown;
        evicted := None;
      }
    }

    /** Removes and returns a least element: the best-ranked one. */
    method Remove() returns (x: T)
      requires Valid() && |elems| > 0
      modifies this
      ensures Valid()
      ensures IsLeast(le, x, old(Contents()))
      ensures Contents() + multiset{x} == old(Contents())
      ensures |elems| == old(|elems|) - 1
    {
      ghost var k := LeastExists(le, elems);
      var i :| 0 <= i < |elems| && LeastAt(le, elems, i);
      LeastAtIsLeast(le, elems, i);
      x := elems[i];
      ghost var before := elems;
      elems := elems[..i] + elems[i + 1..];
      assert before == before[..i] + [x] + before[i + 1..];
      assert multiset(before) == multiset(elems) + multiset{x};
    }

    method IsEmpty() returns (empty: bool)
      ensures empty <==> Contents() == multiset{}
    {
      empty := |elems| == 0;
    }
  }
}
