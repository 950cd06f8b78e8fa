/** Facts about columns of integer keys (a parent id per child row, a
    day per order row): occurrence counts, ordering and ranges. */
module Keys {

  /** How many entries of `ks` equal `k`. */
  function Count(ks: seq<int>, k: int): (n: nat)
    ensures n <= |ks|
  {
    if |ks| == 0 then 0
    else Count(ks[..|ks| - 1], k) + (if ks[|ks| - 1] == k then 1 else 0)
  }

  /** Keys never decrease along the column. */
  predicate Sorted(ks: seq<int>) {
    forall i, j :: 0 <= i < j < |ks| ==> ks[i] <= ks[j]
  }

  /** Every key lies in `lo..hi`, both ends included. */
  predicate Within(ks: seq<int>, lo: int, hi: int) {
    forall i :: 0 <= i < |ks| ==> lo <= ks[i] <= hi
  }

  /** Appending one key adds one to its own count and to no other. */
  lemma CountSnoc(ks: seq<int>, x: int)
    ensures forall k :: Count(ks + [x], k) == Count(ks, k) + (if x == k then 1 else 0)
  {
    assert (ks + [x])[..|ks|] == ks;
  }

  /** A key that does not occur has count zero. */
  lemma {:induction false} CountAbsent(ks: seq<int>, k: int)
    requires forall i :: 0 <= i < |ks| ==> ks[i] != k
    ensures Count(ks, k) == 0
  {
    if |ks| > 0 {
      CountAbsent(ks[..|ks| - 1], k);
    }
  }

  /** A key is counted at least once exactly when it occurs. */
  lemma {:induction false} CountPositive(ks: seq<int>, k: int)
    ensures Count(ks, k) > 0 <==> exists i :: 0 <= i < |ks| && ks[i] == k
  {
    if |ks| > 0 {
      var front := ks[..|ks| - 1];
      CountPositive(front, k);
      if Count(front, k) > 0 {
        var i :| 0 <= i < |front| && front[i] == k;
        assert ks[i] == k;
      }
      if ks[|ks| - 1] != k && exists i :: 0 <= i < |ks| && ks[i] == k {
        var i :| 0 <= i < |ks| && ks[i] == k;
        assert front[i] == k;
      }
    }
  }

  /** Appending a key no smaller than any present keeps the column sorted
      and extends its range. */
  lemma SortedSnoc(ks: seq<int>, x: int, lo: int, hi: int)
    requires Sorted(ks) && Within(ks, lo, x)
    requires lo <= x <= hi
    ensures Sorted(ks + [x]) && Within(ks + [x], lo, hi)
  {
  }

  /** In a sorted column equal keys enclose only that key: the rows with
      one key form one contiguous block. */
  lemma SortedBlocks(ks: seq<int>, i: int, m: int, j: int)
    requires Sorted(ks)
    requires 0 <= i <= m <= j < |ks| && ks[i] == ks[j]
    ensures ks[m] == ks[i]
  {
  }
}
