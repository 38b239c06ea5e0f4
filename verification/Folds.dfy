/** Sums over selected elements of a sequence, in any commutative monoid, and their split among groups. */
module Folds {

  ghost predicate Laws<T(!new)>(zero: T, op: (T, T) -> T) {
    && (forall a, b, c :: op(op(a, b), c) == op(a, op(b, c)))
    && (forall a, b :: op(a, b) == op(b, a))
    && (forall a :: op(a, zero) == a)
  }

  function Fold<T>(s: seq<T>, keep: seq<bool>, start: T, op: (T, T) -> T): T
    requires |keep| == |s|
  {
    if s == [] then start
    else
      var n := |s| - 1;
      var t := Fold(s[..n], keep[..n], start, op);
      if keep[n] then op(t, s[n]) else t
  }

  /** The elements kept for group `g`. */
  function OfGroup(keep: seq<bool>, group: seq<int>, g: int): seq<bool>
    requires |keep| == |group|
  {
    seq(|keep|, i requires 0 <= i < |keep| => keep[i] && group[i] == g)
  }

  /** The sum of the sums of groups 0 to m - 1. */
  function FoldGroups<T>(s: seq<T>, keep: seq<bool>, group: seq<int>, m: nat, zero: T, op: (T, T) -> T): T
    requires |keep| == |s| == |group|
  {
    if m == 0 then zero
    else op(FoldGroups(s, keep, group, m - 1, zero, op), Fold(s, OfGroup(keep, group, m - 1), zero, op))
  }

  function InGroups(keep: seq<bool>, group: seq<int>, m: nat): seq<bool>
    requires |keep| == |group|
  {
    seq(|keep|, i requires 0 <= i < |keep| => keep[i] && 0 <= group[i] < m)
  }

  /** Of two disjoint selections, the sums add up to the sum of both. */
  lemma {:induction false} FoldUnion<T(!new)>(s: seq<T>, k1: seq<bool>, k2: seq<bool>, both: seq<bool>, zero: T,
                                              op: (T, T) -> T)
    requires Laws(zero, op) && |k1| == |k2| == |both| == |s|
    requires forall i :: 0 <= i < |s| ==> !(k1[i] && k2[i]) && (both[i] <==> k1[i] || k2[i])
    ensures op(Fold(s, k1, zero, op), Fold(s, k2, zero, op)) == Fold(s, both, zero, op)
  {
    if s != [] {
      var n := |s| - 1;
      FoldUnion(s[..n], k1[..n], k2[..n], both[..n], zero, op);
    } else {
      assert op(zero, zero) == zero;
    }
  }

  /** The groups' sums add up to the sum of all elements that are in some group. */
  lemma {:induction false} GroupsAddUp<T(!new)>(s: seq<T>, keep: seq<bool>, group: seq<int>, m: nat, zero: T,
                                                op: (T, T) -> T)
    requires Laws(zero, op) && |keep| == |s| == |group|
    ensures FoldGroups(s, keep, group, m, zero, op) == Fold(s, InGroups(keep, group, m), zero, op)
  {
    if m == 0 {
      NothingKept(s, InGroups(keep, group, 0), zero, op);
    } else {
      GroupsAddUp(s, keep, group, m - 1, zero, op);
      FoldUnion(s, InGroups(keep, group, m - 1), OfGroup(keep, group, m - 1), InGroups(keep, group, m), zero, op);
    }
  }

  lemma {:induction false} NothingKept<T>(s: seq<T>, keep: seq<bool>, start: T, op: (T, T) -> T)
    requires |keep| == |s| && forall i :: 0 <= i < |s| ==> !keep[i]
    ensures Fold(s, keep, start, op) == start
  {
    if s != [] { NothingKept(s[..|s| - 1], keep[..|s| - 1], start, op); }
  }

  /**
    The groups' sums, and the sum of the elements that no group has, make the sum of all; so the
    groups alone make it exactly if the left over sum does not matter.
   */
  lemma GroupsAndRest<T(!new)>(s: seq<T>, keep: seq<bool>, group: seq<int>, m: nat, all: seq<bool>, lost: seq<bool>,
                               zero: T, op: (T, T) -> T)
    requires Laws(zero, op) && |keep| == |s| == |group| == |all| == |lost|
    requires forall i :: 0 <= i < |s| && keep[i] ==> all[i]
    requires forall i :: 0 <= i < |s| ==> (lost[i] <==> all[i] && !(keep[i] && 0 <= group[i] < m))
    ensures op(FoldGroups(s, keep, group, m, zero, op), Fold(s, lost, zero, op)) == Fold(s, all, zero, op)
  {
    GroupsAddUp(s, keep, group, m, zero, op);
    FoldUnion(s, InGroups(keep, group, m), lost, all, zero, op);
  }

  /** Starting from something is adding the sum to it. */
  lemma {:induction false} FoldFrom<T(!new)>(s: seq<T>, keep: seq<bool>, start: T, zero: T, op: (T, T) -> T)
    requires Laws(zero, op) && |keep| == |s|
    ensures Fold(s, keep, start, op) == op(start, Fold(s, keep, zero, op))
  {
    if s != [] { FoldFrom(s[..|s| - 1], keep[..|s| - 1], start, zero, op); }
  }

  // ----- The entries of an array of groups

  /** Entry k holds the sum of group k - 1; entry 0 starts from `all`. */
  function Entry<T>(all: T, s: seq<T>, keep: seq<bool>, group: seq<int>, k: nat, zero: T, op: (T, T) -> T): T
    requires |keep| == |s| == |group|
  {
    Fold(s, OfGroup(keep, group, k - 1), if k == 0 then all else zero, op)
  }

  function Entries<T>(all: T, s: seq<T>, keep: seq<bool>, group: seq<int>, n: nat, zero: T, op: (T, T) -> T): seq<T>
    requires |keep| == |s| == |group|
  {
    seq(n, k requires 0 <= k < n => Entry(all, s, keep, group, k, zero, op))
  }

  /** The entries of one sample's array with the first `m` elements added. */
  ghost predicate Split<T>(entries: seq<T>, all: T, s: seq<T>, keep: seq<bool>, group: seq<int>, m: nat, zero: T,
                           op: (T, T) -> T)
    requires |keep| == |s| == |group| && m <= |s|
  {
    entries == Entries(all, s[..m], keep[..m], group[..m], |s| + 1, zero, op)
  }

  lemma SplitStep<T>(entries: seq<T>, all: T, s: seq<T>, keep: seq<bool>, group: seq<int>, m: nat, zero: T,
                     op: (T, T) -> T)
    requires |keep| == |s| == |group| && m < |s| && -1 <= group[m] < |s|
    requires Split(entries, all, s, keep, group, m, zero, op)
    ensures |entries| == |s| + 1
    ensures Split(if keep[m] then entries[group[m] + 1 := op(entries[group[m] + 1], s[m])] else entries,
                  all, s, keep, group, m + 1, zero, op)
  {
    forall k | 0 <= k <= |s|
      ensures Entry(all, s[..m + 1], keep[..m + 1], group[..m + 1], k, zero, op)
              == (var e := Entry(all, s[..m], keep[..m], group[..m], k, zero, op);
                  if keep[m] && k == group[m] + 1 then op(e, s[m]) else e)
    {
      assert s[..m + 1][..m] == s[..m];
      assert OfGroup(keep[..m + 1], group[..m + 1], k - 1)[..m] == OfGroup(keep[..m], group[..m], k - 1);
    }
  }

  lemma SplitEnd<T>(entries: seq<T>, all: T, s: seq<T>, keep: seq<bool>, group: seq<int>, zero: T, op: (T, T) -> T)
    requires |keep| == |s| == |group| && Split(entries, all, s, keep, group, |s|, zero, op)
    ensures entries == Entries(all, s, keep, group, |s| + 1, zero, op)
  {
    assert s[..|s|] == s && keep[..|s|] == keep && group[..|s|] == group;
  }

  /** The sum of entries 1 to m. */
  function EntrySum<T>(entries: seq<T>, m: nat, zero: T, op: (T, T) -> T): T
    requires m < |entries|
  {
    if m == 0 then zero else op(EntrySum(entries, m - 1, zero, op), entries[m])
  }

  lemma {:induction false} EntrySumIsFold<T>(all: T, s: seq<T>, keep: seq<bool>, group: seq<int>, n: nat, m: nat,
                                             zero: T, op: (T, T) -> T)
    requires |keep| == |s| == |group| && m < n
    ensures EntrySum(Entries(all, s, keep, group, n, zero, op), m, zero, op) == FoldGroups(s, keep, group, m, zero, op)
  {
    if m > 0 { EntrySumIsFold(all, s, keep, group, n, m - 1, zero, op); }
  }

  /** The entries of the groups, and the elements of `counted` that no group has, add up to all that is counted. */
  lemma EntriesAddUp<T(!new)>(all: T, s: seq<T>, keep: seq<bool>, group: seq<int>, counted: seq<bool>, lost: seq<bool>,
                              zero: T, op: (T, T) -> T)
    requires Laws(zero, op) && |keep| == |s| == |group| == |counted| == |lost|
    requires forall i :: 0 <= i < |s| ==> group[i] < |s| && (keep[i] ==> counted[i])
    requires forall i :: 0 <= i < |s| ==> (lost[i] <==> counted[i] && !(keep[i] && 0 <= group[i]))
    ensures op(EntrySum(Entries(all, s, keep, group, |s| + 1, zero, op), |s|, zero, op), Fold(s, lost, zero, op))
            == Fold(s, counted, zero, op)
  {
    EntrySumIsFold(all, s, keep, group, |s| + 1, |s|, zero, op);
    GroupsAndRest(s, keep, group, |s|, counted, lost, zero, op);
  }
}
