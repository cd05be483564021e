/**
  Group-by and reduce: readings are partitioned by bucket key, the groups
  are ordered by ascending key, and each statistic is applied to every
  selected column of every group.
*/
module Grouping {

  import opened Seqs
  import opened Reducers
  import opened Frames

  /** A reading as aggregation sees it: its bucket key and the values of the selected columns. */
  datatype Keyed = Keyed(key: int, values: seq<real>)

  /** Every reading carries one value per selected column. */
  predicate HasWidth(rows: seq<Keyed>, width: nat)
  {
    forall i :: 0 <= i < |rows| ==> |rows[i].values| == width
  }

  function KeysOf(rows: seq<Keyed>): (ks: seq<int>)
    ensures |ks| == |rows|
    ensures forall i :: 0 <= i < |rows| ==> ks[i] == rows[i].key
  {
    seq(|rows|, i requires 0 <= i < |rows| => rows[i].key)
  }

  predicate Increasing(s: seq<int>)
  {
    forall i, j :: 0 <= i < j < |s| ==> s[i] < s[j]
  }

  /**
    `k` added to a strictly ascending run of keys: placed before the first
    larger key, and dropped when it is already there, since a grouped index
    holds each key once.
  */
  function AddKey(k: int, s: seq<int>): (r: seq<int>)
    requires Increasing(s)
    ensures Increasing(r)
    ensures forall x :: x in r <==> x == k || x in s
  {
    if s == [] then [k]
    else if k < s[0] then [k] + s
    else if k == s[0] then s
    else
      var rest := AddKey(k, s[1..]);
      assert forall j :: 0 <= j < |rest| ==> s[0] < rest[j] by {
        forall j | 0 <= j < |rest| ensures s[0] < rest[j] {
          assert rest[j] in rest;
          if rest[j] != k {
            var i :| 0 <= i < |s[1..]| && s[1..][i] == rest[j];
            assert s[i + 1] == rest[j];
          }
        }
      }
      [s[0]] + rest
  }

  /** The distinct keys in ascending order: the index of every grouped result. */
  function GroupKeys(keys: seq<int>): (r: seq<int>)
    ensures Increasing(r)
    ensures forall x :: x in r <==> x in keys
  {
    if keys == [] then [] else AddKey(keys[0], GroupKeys(keys[1..]))
  }

  /** An ascending sequence without repeats is determined by the values it holds. */
  lemma {:induction false} IncreasingUnique(a: seq<int>, b: seq<int>)
    requires Increasing(a) && Increasing(b)
    requires forall x :: x in a <==> x in b
    ensures a == b
  {
    if a != [] {
      assert a[0] in a;
    }
    if b != [] {
      assert b[0] in b;
    }
    if a != [] {
      assert a[0] in b && b[0] in a;
      assert a[0] == b[0];
      forall x
        ensures x in a[1..] <==> x in b[1..]
      {
        assert x in a[1..] <==> x in a && x != a[0];
        assert x in b[1..] <==> x in b && x != b[0];
      }
      IncreasingUnique(a[1..], b[1..]);
      assert a == [a[0]] + a[1..] && b == [b[0]] + b[1..];
    }
  }

  function KeyIs(k: int): Keyed -> bool
  {
    (r: Keyed) => r.key == k
  }

  function Cell(c: nat): Keyed --> real
  {
    (r: Keyed) requires c < |r.values| => r.values[c]
  }

  /** The readings in bucket `k`, in stored order. */
  function GroupRows(rows: seq<Keyed>, k: int): seq<Keyed>
  {
    Filter(KeyIs(k), rows)
  }

  /** Every reading has a value in column `c`. */
  predicate HasColumn(rows: seq<Keyed>, c: nat)
  {
    forall i :: 0 <= i < |rows| ==> c < |rows[i].values|
  }

  lemma GroupRowsHasColumn(rows: seq<Keyed>, k: int, c: nat)
    requires HasColumn(rows, c)
    ensures HasColumn(GroupRows(rows, k), c)
  {
    var g := GroupRows(rows, k);
    forall i | 0 <= i < |g|
      ensures c < |g[i].values|
    {
      assert g[i] in rows;
    }
  }

  /** The values of column `c` in bucket `k`; a bucket that occurs is never empty. */
  function GroupValues(rows: seq<Keyed>, k: int, c: nat): (vs: seq<real>)
    requires HasColumn(rows, c)
    ensures k in KeysOf(rows) ==> |vs| > 0
  {
    var g := GroupRows(rows, k);
    GroupRowsHasColumn(rows, k, c);
    assert k in KeysOf(rows) ==> |g| > 0 by {
      if k in KeysOf(rows) {
        var i :| 0 <= i < |rows| && rows[i].key == k;
        assert rows[i] in g;
      }
    }
    Map(Cell(c), g)
  }

  /** The groups laid end to end, in the order of `ks`. */
  function Flatten(ks: seq<int>, rows: seq<Keyed>): seq<Keyed>
  {
    if ks == [] then [] else GroupRows(rows, ks[0]) + Flatten(ks[1..], rows)
  }

  predicate Distinct(ks: seq<int>)
  {
    forall i, j :: 0 <= i < j < |ks| ==> ks[i] != ks[j]
  }

  lemma {:induction false} FlattenCount(ks: seq<int>, rows: seq<Keyed>, x: Keyed)
    requires Distinct(ks)
    ensures multiset(Flatten(ks, rows))[x] == if x.key in ks then multiset(rows)[x] else 0
  {
    if ks != [] {
      FlattenCount(ks[1..], rows, x);
      FilterCount(KeyIs(ks[0]), rows, x);
      assert x.key in ks <==> x.key == ks[0] || x.key in ks[1..];
      assert x.key == ks[0] ==> x.key !in ks[1..];
    }
  }

  /**
    Grouping partitions the readings: the groups, laid end to end, are a
    permutation of the readings, so every reading lands in exactly one
    group; and no group is empty.
  */
  lemma {:induction false} GroupsPartition(rows: seq<Keyed>)
    ensures multiset(Flatten(GroupKeys(KeysOf(rows)), rows)) == multiset(rows)
    ensures forall k :: k in GroupKeys(KeysOf(rows)) ==> |GroupRows(rows, k)| > 0
  {
    var ks := GroupKeys(KeysOf(rows));
    forall x
      ensures multiset(Flatten(ks, rows))[x] == multiset(rows)[x]
    {
      FlattenCount(ks, rows, x);
      if x in rows {
        var i :| 0 <= i < |rows| && rows[i] == x;
        assert x.key == KeysOf(rows)[i];
      }
    }
    forall k | k in ks
      ensures |GroupRows(rows, k)| > 0
    {
      var i :| 0 <= i < |rows| && KeysOf(rows)[i] == k;
      assert rows[i] in GroupRows(rows, k);
    }
  }

  /**
    The table `grouped[vars].agg(stat)` produces: one row per bucket key in
    ascending order, one column per variable.
  */
  function AggregateTable(rows: seq<Keyed>, stat: Stat, vars: seq<string>): (t: Frame)
    requires HasWidth(rows, |vars|)
    ensures t.columns == vars && t.index == GroupKeys(KeysOf(rows))
  {
    var index := GroupKeys(KeysOf(rows));
    Table(index, vars,
          seq(|index|, j requires 0 <= j < |index| =>
            seq(|vars|, c requires 0 <= c < |vars| => Reduce(stat, GroupValues(rows, index[j], c)))))
  }

  /** Permuting the readings changes no aggregate table. */
  lemma {:induction false} AggregateOrderIndependent(rows1: seq<Keyed>, rows2: seq<Keyed>, stat: Stat, vars: seq<string>)
    requires multiset(rows1) == multiset(rows2)
    requires HasWidth(rows1, |vars|)
    ensures HasWidth(rows2, |vars|)
    ensures AggregateTable(rows1, stat, vars) == AggregateTable(rows2, stat, vars)
  {
    forall i | 0 <= i < |rows2|
      ensures |rows2[i].values| == |vars|
    {
      assert rows2[i] in multiset(rows1);
    }
    forall x
      ensures x in KeysOf(rows1) <==> x in KeysOf(rows2)
    {
      if x in KeysOf(rows1) {
        var i :| 0 <= i < |rows1| && rows1[i].key == x;
        assert rows1[i] in multiset(rows2);
        var j :| 0 <= j < |rows2| && rows2[j] == rows1[i];
        assert KeysOf(rows2)[j] == x;
      }
      if x in KeysOf(rows2) {
        var i :| 0 <= i < |rows2| && rows2[i].key == x;
        assert rows2[i] in multiset(rows1);
        var j :| 0 <= j < |rows1| && rows1[j] == rows2[i];
        assert KeysOf(rows1)[j] == x;
      }
    }
    var index := GroupKeys(KeysOf(rows1));
    IncreasingUnique(index, GroupKeys(KeysOf(rows2)));
    var t1, t2 := AggregateTable(rows1, stat, vars), AggregateTable(rows2, stat, vars);
    forall j, c | 0 <= j < |index| && 0 <= c < |vars|
      ensures t1.rows[j][c] == t2.rows[j][c]
    {
      var k := index[j];
      FilterPermutation(KeyIs(k), rows1, rows2);
      GroupRowsHasColumn(rows1, k, c);
      GroupRowsHasColumn(rows2, k, c);
      MapPermutation(Cell(c), GroupRows(rows1, k), GroupRows(rows2, k));
      ReducePermutation(stat, GroupValues(rows1, k, c), GroupValues(rows2, k, c));
    }
    forall j | 0 <= j < |index|
      ensures t1.rows[j] == t2.rows[j]
    {
      assert |t1.rows[j]| == |vars| == |t2.rows[j]|;
    }
    assert t1.rows == t2.rows;
  }

  /** The minimum cell of a bucket is a value of that bucket, and no value of the bucket is smaller. */
  lemma MinCellIsGroupMinimum(rows: seq<Keyed>, vars: seq<string>, j: nat, c: nat)
    requires HasWidth(rows, |vars|)
    requires j < |GroupKeys(KeysOf(rows))| && c < |vars|
    ensures var t := AggregateTable(rows, Min, vars);
      && (exists i :: 0 <= i < |rows| && rows[i].key == t.index[j] && rows[i].values[c] == t.rows[j][c])
      && (forall i :: 0 <= i < |rows| && rows[i].key == t.index[j] ==> t.rows[j][c] <= rows[i].values[c])
  {
    AggregateCell(rows, Min, vars, j, c);
    GroupMinimum(rows, GroupKeys(KeysOf(rows))[j], c);
  }

  /** The maximum cell of a bucket is a value of that bucket, and no value of the bucket is larger. */
  lemma MaxCellIsGroupMaximum(rows: seq<Keyed>, vars: seq<string>, j: nat, c: nat)
    requires HasWidth(rows, |vars|)
    requires j < |GroupKeys(KeysOf(rows))| && c < |vars|
    ensures var t := AggregateTable(rows, Max, vars);
      && (exists i :: 0 <= i < |rows| && rows[i].key == t.index[j] && rows[i].values[c] == t.rows[j][c])
      && (forall i :: 0 <= i < |rows| && rows[i].key == t.index[j] ==> rows[i].values[c] <= t.rows[j][c])
  {
    AggregateCell(rows, Max, vars, j, c);
    GroupMaximum(rows, GroupKeys(KeysOf(rows))[j], c);
  }

  /** Cell `(j, c)` of an aggregate table: the statistic over column `c` of the `j`-th bucket. */
  lemma AggregateCell(rows: seq<Keyed>, stat: Stat, vars: seq<string>, j: nat, c: nat)
    requires HasWidth(rows, |vars|)
    requires j < |GroupKeys(KeysOf(rows))| && c < |vars|
    ensures HasColumn(rows, c) && GroupKeys(KeysOf(rows))[j] in KeysOf(rows)
    ensures AggregateTable(rows, stat, vars).rows[j][c] == Reduce(stat, GroupValues(rows, GroupKeys(KeysOf(rows))[j], c))
  {
    assert GroupKeys(KeysOf(rows))[j] in GroupKeys(KeysOf(rows));
  }

  /** The minimum of a bucket's column is one of its values and no value is smaller. */
  lemma GroupMinimum(rows: seq<Keyed>, k: int, c: nat)
    requires HasColumn(rows, c) && k in KeysOf(rows)
    ensures var m := Minimum(GroupValues(rows, k, c));
      && (exists i :: 0 <= i < |rows| && rows[i].key == k && rows[i].values[c] == m)
      && (forall i :: 0 <= i < |rows| && rows[i].key == k ==> m <= rows[i].values[c])
  {
    var g := GroupRows(rows, k);
    var vs := GroupValues(rows, k, c);
    GroupRowsHasColumn(rows, k, c);
    var p :| 0 <= p < |vs| && vs[p] == Minimum(vs);
    assert g[p] in rows;
    forall i | 0 <= i < |rows| && rows[i].key == k
      ensures Minimum(vs) <= rows[i].values[c]
    {
      var q :| 0 <= q < |g| && g[q] == rows[i];
      assert vs[q] == rows[i].values[c];
    }
  }

  /** The maximum of a bucket's column is one of its values and no value is larger. */
  lemma GroupMaximum(rows: seq<Keyed>, k: int, c: nat)
    requires HasColumn(rows, c) && k in KeysOf(rows)
    ensures var m := Maximum(GroupValues(rows, k, c));
      && (exists i :: 0 <= i < |rows| && rows[i].key == k && rows[i].values[c] == m)
      && (forall i :: 0 <= i < |rows| && rows[i].key == k ==> rows[i].values[c] <= m)
  {
    var g := GroupRows(rows, k);
    var vs := GroupValues(rows, k, c);
    GroupRowsHasColumn(rows, k, c);
    var p :| 0 <= p < |vs| && vs[p] == Maximum(vs);
    assert g[p] in rows;
    forall i | 0 <= i < |rows| && rows[i].key == k
      ensures rows[i].values[c] <= Maximum(vs)
    {
      var q :| 0 <= q < |g| && g[q] == rows[i];
      assert vs[q] == rows[i].values[c];
    }
  }

  /** In every bucket and column, the min table is at most the mean table, which is at most the max table. */
  lemma MeanWithinMinMax(rows: seq<Keyed>, vars: seq<string>, j: nat, c: nat)
    requires HasWidth(rows, |vars|)
    requires j < |GroupKeys(KeysOf(rows))| && c < |vars|
    ensures AggregateTable(rows, Min, vars).rows[j][c]
         <= AggregateTable(rows, Mean, vars).rows[j][c]
         <= AggregateTable(rows, Max, vars).rows[j][c]
  {
    AggregateCell(rows, Min, vars, j, c);
    AggregateCell(rows, Mean, vars, j, c);
    AggregateCell(rows, Max, vars, j, c);
    AverageBetween(GroupValues(rows, GroupKeys(KeysOf(rows))[j], c));
  }

  /** The total of column `c` in each bucket of `ks`, in the order of `ks`. */
  function GroupTotals(rows: seq<Keyed>, ks: seq<int>, c: nat): (r: seq<real>)
    requires HasColumn(rows, c)
    ensures |r| == |ks|
    ensures forall j :: 0 <= j < |ks| ==> r[j] == Total(GroupValues(rows, ks[j], c))
  {
    if ks == [] then [] else [Total(GroupValues(rows, ks[0], c))] + GroupTotals(rows, ks[1..], c)
  }

  lemma HasColumnAppend(a: seq<Keyed>, b: seq<Keyed>, c: nat)
    requires HasColumn(a, c) && HasColumn(b, c)
    ensures HasColumn(a + b, c)
  {
    forall i | 0 <= i < |a + b|
      ensures c < |(a + b)[i].values|
    {
      if i >= |a| {
        assert (a + b)[i] == b[i - |a|];
      }
    }
  }

  lemma {:induction false} GroupTotalsFlatten(rows: seq<Keyed>, ks: seq<int>, c: nat)
    requires HasColumn(rows, c)
    ensures HasColumn(Flatten(ks, rows), c)
    ensures Total(GroupTotals(rows, ks, c)) == Total(Map(Cell(c), Flatten(ks, rows)))
  {
    if ks != [] {
      GroupTotalsFlatten(rows, ks[1..], c);
      GroupRowsHasColumn(rows, ks[0], c);
      var g, rest := GroupRows(rows, ks[0]), Flatten(ks[1..], rows);
      assert Flatten(ks, rows) == g + rest;
      HasColumnAppend(g, rest, c);
      MapAppend(Cell(c), g, rest);
      var first, others := Total(GroupValues(rows, ks[0], c)), GroupTotals(rows, ks[1..], c);
      assert first == Total(Map(Cell(c), g));
      TotalAppend(Map(Cell(c), g), Map(Cell(c), rest));
      assert GroupTotals(rows, ks, c) == [first] + others;
      TotalAppend([first], others);
    }
  }

  /** Adding up a column of the sum table gives the total of that variable over all readings. */
  lemma SumTableTotal(rows: seq<Keyed>, vars: seq<string>, c: nat)
    requires HasWidth(rows, |vars|) && c < |vars|
    ensures HasColumn(rows, c)
    ensures Total(ColumnValues(AggregateTable(rows, Sum, vars), c)) == Total(Map(Cell(c), rows))
  {
    var ks := GroupKeys(KeysOf(rows));
    SumColumn(rows, vars, c);
    GroupTotalsFlatten(rows, ks, c);
    GroupsPartition(rows);
    MapPermutation(Cell(c), Flatten(ks, rows), rows);
    TotalPermutation(Map(Cell(c), Flatten(ks, rows)), Map(Cell(c), rows));
  }

  /** Column `c` of the sum table holds the bucket totals, bucket by bucket. */
  lemma SumColumn(rows: seq<Keyed>, vars: seq<string>, c: nat)
    requires HasWidth(rows, |vars|) && c < |vars|
    ensures HasColumn(rows, c)
    ensures ColumnValues(AggregateTable(rows, Sum, vars), c) == GroupTotals(rows, GroupKeys(KeysOf(rows)), c)
  {
    var t := AggregateTable(rows, Sum, vars);
    var ks := GroupKeys(KeysOf(rows));
    forall j | 0 <= j < |ks|
      ensures ColumnValues(t, c)[j] == GroupTotals(rows, ks, c)[j]
    {
      AggregateCell(rows, Sum, vars, j, c);
    }
  }

}
