/** An in-memory stand-in for one auto-incremented object store of the local
    database: rows keyed by id, scanned in primary-key order. */
module Table {

  /** The keys below `n` whose rows satisfy `p`, in ascending key order: what a
      filtered table scan visits. */
  function MatchingKeys<T>(rows: map<nat, T>, n: nat, p: T -> bool): (ks: seq<nat>)
    ensures forall i :: 0 <= i < |ks| ==> ks[i] in rows && ks[i] < n && p(rows[ks[i]])
    ensures forall i, j :: 0 <= i < j < |ks| ==> ks[i] < ks[j]
    ensures forall k :: k in rows && k < n && p(rows[k]) ==> k in ks
    decreases n
  {
    if n == 0 then []
    else
      var front := MatchingKeys(rows, n - 1, p);
      if n - 1 in rows && p(rows[n - 1]) then front + [n - 1] else front
  }

  /** The rows stored under the given keys, in the same order. */
  function RowsAt<T>(rows: map<nat, T>, ks: seq<nat>): (r: seq<T>)
    requires forall i :: 0 <= i < |ks| ==> ks[i] in rows
    ensures |r| == |ks|
    ensures forall i :: 0 <= i < |ks| ==> r[i] == rows[ks[i]]
  {
    seq(|ks|, i requires 0 <= i < |ks| => rows[ks[i]])
  }

  /** The rows of a filtered scan over every key below `n`. */
  function Scan<T>(rows: map<nat, T>, n: nat, p: T -> bool): seq<T> {
    RowsAt(rows, MatchingKeys(rows, n, p))
  }

  /** A scan over all keys returns exactly the stored values that satisfy the filter. */
  lemma ScanExact<T>(rows: map<nat, T>, n: nat, p: T -> bool, x: T)
    requires forall k :: k in rows ==> k < n
    ensures x in Scan(rows, n, p) <==> x in rows.Values && p(x)
  {
    var ks := MatchingKeys(rows, n, p);
    if x in rows.Values && p(x) {
      var k :| k in rows && rows[k] == x;
      var i :| 0 <= i < |ks| && ks[i] == k;
      assert Scan(rows, n, p)[i] == x;
    }
  }

  /** A scan filtered by `p` keeps only matches, hence the whole table when all rows match. */
  lemma ScanAll<T>(rows: map<nat, T>, n: nat, p: T -> bool)
    requires forall k :: k in rows ==> k < n
    requires forall k :: k in rows ==> p(rows[k])
    ensures |Scan(rows, n, p)| == |rows|
  {
    var ks := MatchingKeys(rows, n, p);
    var keySet := set i | 0 <= i < |ks| :: ks[i];
    assert keySet == rows.Keys;
    DistinctSeqCard(ks);
  }

  /** A strictly increasing sequence has as many elements as the set of its elements. */
  lemma {:induction false} DistinctSeqCard(ks: seq<nat>)
    requires forall i, j :: 0 <= i < j < |ks| ==> ks[i] < ks[j]
    ensures |set i | 0 <= i < |ks| :: ks[i]| == |ks|
  {
    if ks != [] {
      var last := ks[|ks| - 1];
      var front := ks[..|ks| - 1];
      DistinctSeqCard(front);
      var s := set i | 0 <= i < |ks| :: ks[i];
      var f := set i | 0 <= i < |front| :: front[i];
      assert s == f + {last};
      assert last !in f;
    }
  }

  /** `Math.ceil(total / pageSize)` as an IEEE number: finite for a non-zero page size,
      Infinity when a non-empty result is divided by 0, NaN for 0 / 0. */
  datatype PageCount = Pages(count: int) | Infinite | NotANumber

  function PageCountOf(total: nat, pageSize: int): (c: PageCount)
    ensures pageSize > 0 ==> c.Pages? && c.count * pageSize >= total && (c.count - 1) * pageSize < total
    ensures pageSize > 0 && total == 0 ==> c == Pages(0)
  {
    if pageSize > 0 then Pages((total + pageSize - 1) / pageSize)
    else if pageSize < 0 then Pages(-(total / -pageSize))
    else if total == 0 then NotANumber
    else Infinite
  }

}
