/** Group-by aggregation over (key, amount) rows: `groupby(key).sum()`,
    `groupby(key).count()` and `value_counts()`. Groups are listed once per
    distinct key; pandas' ordering of the groups is not modelled. */
module Groups {
  import opened Seqs

  function Keys<K, V>(rows: seq<(K, V)>): (ks: seq<K>)
    ensures |ks| == |rows|
    ensures forall i :: 0 <= i < |rows| ==> ks[i] == rows[i].0
  {
    Map((row: (K, V)) => row.0, rows)
  }

  /** The sum of all amounts. */
  function Total<K>(rows: seq<(K, nat)>): nat
    decreases |rows|
  {
    if |rows| == 0 then 0 else Total(rows[..|rows| - 1]) + rows[|rows| - 1].1
  }

  /** The sum of the amounts of the rows whose key is `k`. */
  function KeyTotal<K(==)>(rows: seq<(K, nat)>, k: K): nat
    decreases |rows|
  {
    if |rows| == 0 then 0
    else KeyTotal(rows[..|rows| - 1], k) + (if rows[|rows| - 1].0 == k then rows[|rows| - 1].1 else 0)
  }

  /** One (key, KeyTotal) row per key of `ks`, in the order of `ks`. */
  function Tabulate<K(==)>(ks: seq<K>, rows: seq<(K, nat)>): (r: seq<(K, nat)>)
    ensures Keys(r) == ks
    ensures forall i :: 0 <= i < |r| ==> r[i].1 == KeyTotal(rows, ks[i])
    decreases |ks|
  {
    if |ks| == 0 then []
    else Tabulate(ks[..|ks| - 1], rows) + [(ks[|ks| - 1], KeyTotal(rows, ks[|ks| - 1]))]
  }

  /** `groupby(key).sum()`: one row per distinct key, carrying the sum of
      that key's amounts. */
  function GroupTotals<K(==,!new)>(rows: seq<(K, nat)>): (r: seq<(K, nat)>)
    ensures Distinct(Keys(r))
    ensures forall k :: k in Keys(r) <==> k in Keys(rows)
    ensures forall i :: 0 <= i < |r| ==> r[i].1 == KeyTotal(rows, r[i].0)
  {
    Tabulate(Dedup(Keys(rows)), rows)
  }

  lemma {:induction false} TabulateSnoc<K>(ks: seq<K>, rows: seq<(K, nat)>, x: (K, nat))
    requires Distinct(ks)
    ensures Total(Tabulate(ks, rows + [x])) == Total(Tabulate(ks, rows)) + (if x.0 in ks then x.1 else 0)
    decreases |ks|
  {
    if |ks| > 0 {
      var init := ks[..|ks| - 1];
      assert Distinct(init);
      TabulateSnoc(init, rows, x);
      var rx := rows + [x];
      assert rx[..|rx| - 1] == rows;
      var t := Tabulate(ks, rx);
      assert t[..|t| - 1] == Tabulate(init, rx);
      var u := Tabulate(ks, rows);
      assert u[..|u| - 1] == Tabulate(init, rows);
      assert x.0 in ks <==> x.0 in init || x.0 == ks[|ks| - 1];
      assert x.0 in init ==> x.0 != ks[|ks| - 1];
    }
  }

  lemma {:induction false} TabulateCovers<K>(ks: seq<K>, rows: seq<(K, nat)>)
    requires Distinct(ks)
    requires forall i :: 0 <= i < |rows| ==> rows[i].0 in ks
    ensures Total(Tabulate(ks, rows)) == Total(rows)
    decreases |rows|
  {
    if |rows| == 0 {
      TabulateEmpty(ks);
    } else {
      var init, x := rows[..|rows| - 1], rows[|rows| - 1];
      TabulateCovers(ks, init);
      TabulateSnoc(ks, init, x);
      assert init + [x] == rows;
      assert x.0 in ks;
    }
  }

  lemma TabulateEmpty<K>(ks: seq<K>)
    ensures Total(Tabulate(ks, [])) == 0
  {
    var t := Tabulate(ks, []);
    assert forall i :: 0 <= i < |t| ==> t[i].1 == 0;
    TotalZero(t);
  }

  lemma {:induction false} TotalZero<K>(rows: seq<(K, nat)>)
    requires forall i :: 0 <= i < |rows| ==> rows[i].1 == 0
    ensures Total(rows) == 0
    decreases |rows|
  {
    if |rows| > 0 {
      TotalZero(rows[..|rows| - 1]);
    }
  }

  /** Grouping neither loses nor invents any amount: the group sums add up
      to the sum over all rows. */
  lemma GroupTotalsSum<K(!new)>(rows: seq<(K, nat)>)
    ensures Total(GroupTotals(rows)) == Total(rows)
  {
    var ks := Dedup(Keys(rows));
    forall i | 0 <= i < |rows| ensures rows[i].0 in ks {
      assert Keys(rows)[i] == rows[i].0;
    }
    TabulateCovers(ks, rows);
  }

  /** Every key paired with the amount 1, so that sums are counts. */
  function Ones<K>(keys: seq<K>): (rows: seq<(K, nat)>)
    ensures Keys(rows) == keys
    ensures forall i :: 0 <= i < |rows| ==> rows[i].1 == 1
  {
    Map((k: K) => (k, 1), keys)
  }

  lemma {:induction false} OnesCount<K>(keys: seq<K>, k: K)
    ensures KeyTotal(Ones(keys), k) == multiset(keys)[k]
    decreases |keys|
  {
    if |keys| > 0 {
      var init := keys[..|keys| - 1];
      OnesCount(init, k);
      assert keys == init + [keys[|keys| - 1]];
      assert Ones(keys)[..|keys| - 1] == Ones(init);
    }
  }

  lemma {:induction false} OnesTotal<K>(keys: seq<K>)
    ensures Total(Ones(keys)) == |keys|
    decreases |keys|
  {
    if |keys| > 0 {
      var init := keys[..|keys| - 1];
      OnesTotal(init);
      assert Ones(keys)[..|keys| - 1] == Ones(init);
    }
  }

  /** `value_counts()`: every distinct value once, with the number of times
      it occurs (never zero). */
  function ValueCounts<K(==,!new)>(keys: seq<K>): (r: seq<(K, nat)>)
    ensures Distinct(Keys(r))
    ensures forall k :: k in Keys(r) <==> k in keys
    ensures forall i :: 0 <= i < |r| ==> r[i].1 == multiset(keys)[r[i].0] > 0
  {
    var r := GroupTotals(Ones(keys));
    assert forall i :: 0 <= i < |r| ==> r[i].1 == multiset(keys)[r[i].0] by {
      forall i | 0 <= i < |r| ensures r[i].1 == multiset(keys)[r[i].0] {
        OnesCount(keys, r[i].0);
      }
    }
    assert forall i :: 0 <= i < |r| ==> r[i].0 in keys by {
      forall i | 0 <= i < |r| ensures r[i].0 in keys {
        assert Keys(r)[i] == r[i].0;
      }
    }
    r
  }

  /** The counts add up to the number of values counted. */
  lemma ValueCountsTotal<K(!new)>(keys: seq<K>)
    ensures Total(ValueCounts(keys)) == |keys|
  {
    GroupTotalsSum(Ones(keys));
    OnesTotal(keys);
  }
}
