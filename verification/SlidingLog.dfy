// Counting how many entries of a time-ordered log fall in an interval.
module SlidingLog {

  ghost predicate Sorted(times: seq<int>) {
    forall i, j :: 0 <= i <= j < |times| ==> times[i] <= times[j]
  }

  /** Entries at least `n` apart in the log are at least `gap` apart in time. */
  ghost predicate Spaced(times: seq<int>, n: nat, gap: int) {
    forall i, j :: 0 <= i && i + n <= j < |times| ==> times[j] - times[i] >= gap
  }

  /** Entries `t` with `lo <= t < hi`. */
  function CountIn(times: seq<int>, lo: int, hi: int): nat {
    if times == [] then 0
    else CountIn(times[..|times| - 1], lo, hi) + (if lo <= times[|times| - 1] < hi then 1 else 0)
  }

  lemma {:induction false} CountSkips(times: seq<int>, lo: int, hi: int, k: nat)
    requires k <= |times| && forall i :: 0 <= i < k ==> times[i] < lo
    ensures CountIn(times, lo, hi) <= |times| - k
    decreases |times|
  {
    if times != [] {
      var init := times[..|times| - 1];
      CountSkips(init, lo, hi, if k <= |init| then k else |init|);
    }
  }

  /** A spaced log has at most `n` entries in any half-open interval of the gap's length. */
  lemma {:induction false} AtMostInWindow(times: seq<int>, n: nat, gap: int, lo: int)
    requires Sorted(times) && Spaced(times, n, gap)
    ensures CountIn(times, lo, lo + gap) <= n
    decreases |times|
  {
    if times != [] {
      var last := |times| - 1;
      if lo <= times[last] < lo + gap {
        var k := if last >= n then last - n + 1 else 0;
        forall i | 0 <= i < k ensures times[i] < lo {
          assert times[last] - times[i] >= gap;
        }
        CountSkips(times, lo, lo + gap, k);
      } else {
        AtMostInWindow(times[..last], n, gap, lo);
      }
    }
  }

  lemma SortedMore(times: seq<int>, t: int)
    requires Sorted(times) && forall i :: 0 <= i < |times| ==> times[i] <= t
    ensures Sorted(times + [t])
  {
  }

  lemma SpacedMore(times: seq<int>, n: nat, gap: int, t: int)
    requires Spaced(times, n, gap) && n > 0 && forall i :: 0 <= i <= |times| - n ==> t - times[i] >= gap
    ensures Spaced(times + [t], n, gap)
  {
  }
}
