/**
  The search in raw output for an item's counterpart in the previous sample: round the list, from the
  item's own place.
 */
module PreviousItem {

  /** The place that is looked at in step d, when the search starts at j0. */
  function Place(j0: nat, d: nat, n: nat): nat
    requires j0 < n
  {
    if j0 + d < n then j0 + d else j0 + d - n
  }

  /** In as many steps as there are items, the search looks at each of them once. */
  lemma EveryPlaceOnce(j0: nat, n: nat, j: nat)
    requires j0 < n && j < n
    ensures exists d :: 0 <= d < n && Place(j0, d, n) == j
    ensures forall d, d' :: 0 <= d < n && 0 <= d' < n && Place(j0, d, n) == j == Place(j0, d', n) ==> d == d'
  {
    var d := if j >= j0 then j - j0 else j + n - j0;
    assert Place(j0, d, n) == j;
  }

  /** The key stands at j, and nowhere from j0 up to j, round the end of the list. */
  ghost predicate FirstRound<T>(key: T, prev: seq<T>, j0: int, j: int) {
    forall k :: 0 <= k < |prev| && (if j0 <= j then j0 <= k < j else k < j || j0 <= k) ==> prev[k] != key
  }

  lemma PassedPlaces<T>(key: T, prev: seq<T>, j0: nat, j: nat, steps: nat)
    requires j0 < |prev| && steps < |prev| && j == Place(j0, steps, |prev|)
    requires forall d :: 0 <= d < steps ==> prev[Place(j0, d, |prev|)] != key
    ensures FirstRound(key, prev, j0, j)
  {
    forall k | 0 <= k < |prev| && (if j0 <= j then j0 <= k < j else k < j || j0 <= k) ensures prev[k] != key {
      var d := if k >= j0 then k - j0 else k + |prev| - j0;
      assert Place(j0, d, |prev|) == k;
    }
  }

  /**
    The loop of raw_print_serial_stats and raw_print_fchost_stats for item i of the current
    sample: a counterpart is found exactly if there is one, and it is the first on the way round.
   */
  method FindPrevious<T(==)>(key: T, i: nat, prev: seq<T>) returns (found: bool, j: nat, ghost steps: nat)
    ensures found <==> key in prev
    ensures found ==> j < |prev| && prev[j] == key
    ensures i < |prev| && prev[i] == key ==> j == i
    ensures steps <= |prev|
    ensures prev != [] ==>
              var j0 := if i >= |prev| then |prev| - 1 else i;
              && (forall d :: 0 <= d < steps - (if found then 1 else 0) ==> prev[Place(j0, d, |prev|)] != key)
              && (found ==> steps > 0 && j == Place(j0, steps - 1, |prev|))
    ensures found ==> FirstRound(key, prev, if i >= |prev| then |prev| - 1 else i, j)
  {
    found, j, steps := false, 0, 0;
    if |prev| > 0 {
      j := i;
      if j >= |prev| {
        j := |prev| - 1;
      }
      var j0 := j;
      var again := true;
      while again
        invariant j0 < |prev| && j < |prev| && !found
        invariant if again then steps < |prev| && j == Place(j0, steps, |prev|) else steps == |prev|
        invariant forall d :: 0 <= d < steps ==> prev[Place(j0, d, |prev|)] != key
        decreases again, |prev| - steps
      {
        steps := steps + 1;
        if prev[j] == key {
          found := true;
          PassedPlaces(key, prev, j0, j, steps - 1);
          break;
        }
        j := j + 1;
        if j >= |prev| {
          j := 0;
        }
        again := j != j0;
      }
      if !found {
        forall k | 0 <= k < |prev| ensures prev[k] != key {
          EveryPlaceOnce(j0, |prev|, k);
        }
      }
    }
  }
}
