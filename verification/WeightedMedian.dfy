/** `_weighted_median` of scripts/calibrate_fill_model.py over a value-to-count table. */
module WeightedMedian {
  import opened Common
  import opened Sorting

  /** A Python Counter over prices or spreads: how often each value was counted. */
  type Counter = map<real, nat>

  function CountIn<K>(c: map<K, nat>, k: K): nat {
    if k in c then c[k] else 0
  }

  /** One `(value, count)` pair of a table. */
  type Item = (real, nat)

  function Repeat(x: real, n: nat): (s: seq<real>)
    ensures |s| == n && forall i | 0 <= i < n :: s[i] == x
  {
    if n == 0 then [] else Repeat(x, n - 1) + [x]
  }

  function Total(items: seq<Item>): nat {
    if items == [] then 0 else items[0].1 + Total(items[1..])
  }

  /** The values some items count, each as often as it is counted. */
  function Expand(items: seq<Item>): (s: seq<real>)
    ensures |s| == Total(items)
  {
    if items == [] then [] else Repeat(items[0].0, items[0].1) + Expand(items[1..])
  }

  predicate Ascending(items: seq<Item>) {
    forall i, j | 0 <= i < j < |items| :: items[i].0 < items[j].0
  }

  /** How often some items count x. */
  function CountOf(items: seq<Item>, x: real): nat {
    if items == [] then 0 else (if items[0].0 == x then items[0].1 else 0) + CountOf(items[1..], x)
  }

  /** `items` is what sorting the items of the table gives. */
  ghost predicate SortedItemsOf(items: seq<Item>, h: Counter) {
    Ascending(items) && forall x :: CountOf(items, x) == CountIn(h, x)
  }

  lemma {:induction false} RepeatCounts(v: real, n: nat, x: real)
    ensures multiset(Repeat(v, n))[x] == if x == v then n else 0
  {
    if n > 0 {
      RepeatCounts(v, n - 1, x);
    }
  }

  lemma {:induction false} ExpandCounts(items: seq<Item>, x: real)
    ensures multiset(Expand(items))[x] == CountOf(items, x)
  {
    if items != [] {
      RepeatCounts(items[0].0, items[0].1, x);
      ExpandCounts(items[1..], x);
    }
  }

  /** s lists the counted values in ascending order, each as often as the table counts it. */
  ghost predicate Lists(s: seq<real>, h: Counter) {
    Sorted(s) && forall x :: multiset(s)[x] == CountIn(h, x)
  }

  // ---------------------------------------------------------------- the scan

  /** What the scan finds in the remaining items, given the count so far. */
  function Scan(items: seq<Item>, run: nat, total: nat): Option<real> {
    if items == [] then None
    else if (run + items[0].1) * 2 >= total then Some(items[0].0)
    else Scan(items[1..], run + items[0].1, total)
  }

  /** The scan returns the element at the lower middle of the expanded listing. */
  lemma {:induction false} ScanIsMiddle(items: seq<Item>, run: nat, total: nat)
    requires run + Total(items) == total && total > 0 && run * 2 < total
    requires Ascending(items)
    ensures var p := (total - 1) / 2 - run;
            0 <= p < Total(items) && Scan(items, run, total) == Some(Expand(items)[p])
  {
    var p := (total - 1) / 2 - run;
    var n := items[0].1;
    if (run + n) * 2 >= total {
      assert p < n;
      assert Expand(items)[p] == Repeat(items[0].0, n)[p];
    } else {
      ScanIsMiddle(items[1..], run + n, total);
      assert Expand(items)[p] == Expand(items[1..])[p - n];
    }
  }

  // ---------------------------------------------------------------- the expanded listing is ascending

  /** Every expanded value is one of the counted ones. */
  lemma {:induction false} ExpandedFrom(items: seq<Item>, k: nat)
    requires k < Total(items)
    ensures exists i | 0 <= i < |items| :: items[i].0 == Expand(items)[k]
  {
    var n := items[0].1;
    if k < n {
      assert Expand(items)[k] == Repeat(items[0].0, n)[k];
    } else {
      ExpandedFrom(items[1..], k - n);
      var i :| 0 <= i < |items[1..]| && items[1..][i].0 == Expand(items[1..])[k - n];
      assert items[i + 1].0 == Expand(items)[k];
    }
  }

  lemma {:induction false} ExpandAscends(items: seq<Item>)
    requires Ascending(items)
    ensures Sorted(Expand(items))
  {
    if items != [] {
      var rest := items[1..];
      ExpandAscends(rest);
      forall k | 0 <= k < Total(rest) ensures items[0].0 <= Expand(rest)[k] {
        ExpandedFrom(rest, k);
      }
    }
  }

  /** A table's items expand to the one ascending listing of the counted values. */
  lemma {:induction false} ExpansionIs(items: seq<Item>, h: Counter, s: seq<real>)
    requires SortedItemsOf(items, h) && Lists(s, h)
    ensures Expand(items) == s && Total(items) == |s|
  {
    forall x ensures multiset(Expand(items))[x] == multiset(s)[x] {
      ExpandCounts(items, x);
    }
    assert multiset(Expand(items)) == multiset(s);
    ExpandAscends(items);
    SortedUnique(s, Expand(items));
  }

  /**
   The running-sum loop over a table's sorted items returns the lower median of the counted values,
   however they are listed in ascending order; a table without items has none.
   */
  method ComputeMedian(items: seq<Item>, ghost h: Counter, ghost s: seq<real>) returns (m: Option<real>)
    requires SortedItemsOf(items, h) && Lists(s, h)
    ensures items == [] ==> m == None
    ensures s != [] ==> m == Some(s[(|s| - 1) / 2])
  {
    ExpansionIs(items, h, s);
    if items == [] {
      return None;
    }
    var total := 0;
    for i := 0 to |items|
      invariant total + Total(items[i..]) == |s|
    {
      assert items[i..][0] == items[i] && items[i..][1..] == items[i + 1..];
      total := total + items[i].1;
    }
    assert items[|items|..] == [];
    if s != [] {
      ScanIsMiddle(items, 0, total);
    }
    var run: nat := 0;
    assert items[0..] == items;
    for i := 0 to |items|
      invariant Scan(items, 0, total) == Scan(items[i..], run, total)
    {
      assert items[i..][0] == items[i] && items[i..][1..] == items[i + 1..];
      run := run + items[i].1;
      if run * 2 >= total {
        return Some(items[i].0);
      }
    }
    return Some(items[|items| - 1].0);
  }

  // ---------------------------------------------------------------- every table has its items

  /** The sorted items after counting one more value. */
  function Count(items: seq<Item>, v: real): (r: seq<Item>)
    requires Ascending(items)
    ensures Ascending(r) && r != []
    ensures r[0].0 == if items == [] || v < items[0].0 then v else items[0].0
  {
    if items == [] || v < items[0].0 then [(v, 1)] + items
    else if v == items[0].0 then [(v, items[0].1 + 1)] + items[1..]
    else [items[0]] + Count(items[1..], v)
  }

  lemma {:induction false} CountAdds(items: seq<Item>, v: real, x: real)
    requires Ascending(items)
    ensures CountOf(Count(items, v), x) == CountOf(items, x) + if x == v then 1 else 0
  {
    if items == [] || v < items[0].0 {
      assert Count(items, v)[1..] == items;
    } else if v == items[0].0 {
      assert Count(items, v)[1..] == items[1..];
    } else {
      CountAdds(items[1..], v, x);
      assert Count(items, v)[1..] == Count(items[1..], v);
    }
  }

  /** The sorted items of the table that counts `values`, in whatever order they came. */
  function Tally(values: seq<real>): (items: seq<Item>)
    ensures Ascending(items)
  {
    if values == [] then [] else Count(Tally(values[..|values| - 1]), values[|values| - 1])
  }

  /** Counting values one at a time keeps the sorted items of any table that counts those values. */
  lemma {:induction false} TallyCounts(values: seq<real>)
    ensures forall x :: CountOf(Tally(values), x) == multiset(values)[x]
  {
    if values != [] {
      var most, v := values[..|values| - 1], values[|values| - 1];
      TallyCounts(most);
      assert values == most + [v];
      forall x ensures CountOf(Tally(values), x) == multiset(values)[x] {
        CountAdds(Tally(most), v, x);
      }
    }
  }
}
