/** Keys of tables, and facts about finite collections, shared by several components. */
module Collections {
  type ID = string

  /** Every row of a table is stored under its own key. */
  ghost predicate KeysMatch<R>(rows: map<ID, R>, key: R -> ID) {
    forall id :: id in rows ==> key(rows[id]) == id
  }

  function Without<T>(s: seq<T>, i: nat): (r: seq<T>)
    requires i < |s|
    ensures |r| == |s| - 1
  {
    s[..i] + s[i + 1..]
  }

  /** Pigeonhole: elements in pairwise different buckets 0..n are at most n. */
  lemma {:induction false} BucketBound<T>(s: set<T>, bucket: map<T, int>, n: nat)
    requires forall x :: x in s ==> x in bucket && 0 <= bucket[x] < n
    requires forall x, y :: x in s && y in s && x != y ==> bucket[x] != bucket[y]
    ensures |s| <= n
    decreases n
  {
    if n == 0 {
      assert s == {};
    } else if x :| x in s && bucket[x] == n - 1 {
      BucketBound(s - {x}, bucket, n - 1);
    } else {
      BucketBound(s, bucket, n - 1);
    }
  }
}
