/**
 The five-minute aggregation of scripts/backtest_candles.py (`five_min_cte`): the one-minute relation
 is filtered by minute, given a running VWAP, grouped into buckets, and thin buckets are dropped.
 */
module FiveMinute {
  import opened Arithmetic
  import opened Common
  import opened Tape

  // ---------------------------------------------------------------- the running VWAP

  function PriceVolume(t: seq<Bar>): real {
    if t == [] then 0.0
    else var b := t[|t| - 1]; PriceVolume(t[..|t| - 1]) + (b.h + b.l + b.c) / 3.0 * b.v
  }

  function Volume(t: seq<Bar>): real {
    if t == [] then 0.0 else Volume(t[..|t| - 1]) + t[|t| - 1].v
  }

  /** NULL while no volume has traded. */
  function Vwap(t: seq<Bar>): Option<real> {
    if Volume(t) == 0.0 then None else Some(PriceVolume(t) / Volume(t))
  }

  datatype VBar = VBar(bar: Bar, vwap: Option<real>)

  /** Each bar with the VWAP over itself and every earlier bar of the relation. */
  function WithVwap(t: seq<Bar>): (r: seq<VBar>)
    ensures |r| == |t| && forall i | 0 <= i < |t| :: r[i].bar == t[i]
  {
    if t == [] then [] else WithVwap(t[..|t| - 1]) + [VBar(t[|t| - 1], Vwap(t))]
  }

  /** Each bar's running VWAP is taken over exactly the bars up to it. */
  lemma {:induction false} VwapIsRunning(t: seq<Bar>, i: nat)
    requires i < |t|
    ensures WithVwap(t)[i].vwap == Vwap(t[..i + 1])
  {
    if i < |t| - 1 {
      VwapIsRunning(t[..|t| - 1], i);
      assert t[..|t| - 1][..i + 1] == t[..i + 1];
    } else {
      assert t[..i + 1] == t;
    }
  }

  // ---------------------------------------------------------------- buckets

  datatype Five = Five(bk: int, n1m: int, lastMfo: int, o: real, h: real, l: real, c: real, v: real, vwap: Option<real>)

  /** The rows of one bucket, `mfo // size = bk`. */
  function RowsOf(r: seq<VBar>, size: int, bk: int): seq<VBar>
    requires size > 0
  {
    if r == [] then []
    else
      var last := r[|r| - 1];
      RowsOf(r[..|r| - 1], size, bk) + if last.bar.mfo / size == bk then [last] else []
  }

  function High(r: seq<VBar>): real
    requires |r| > 0
  {
    var last := r[|r| - 1].bar.h;
    if |r| == 1 then last else MaxReal(High(r[..|r| - 1]), last)
  }

  function Low(r: seq<VBar>): real
    requires |r| > 0
  {
    var last := r[|r| - 1].bar.l;
    if |r| == 1 then last else MinReal(Low(r[..|r| - 1]), last)
  }

  function SumVolume(r: seq<VBar>): real {
    if r == [] then 0.0 else SumVolume(r[..|r| - 1]) + r[|r| - 1].bar.v
  }

  /** `arg_max(vwap_run, mfo)`: the latest running VWAP that is not NULL. */
  function LastVwap(r: seq<VBar>): Option<real> {
    if r == [] then None
    else if r[|r| - 1].vwap.Some? then r[|r| - 1].vwap
    else LastVwap(r[..|r| - 1])
  }

  function Aggregate(r: seq<VBar>, bk: int): Five
    requires |r| > 0
  {
    var last := r[|r| - 1].bar;
    Five(bk, |r|, last.mfo, r[0].bar.o, High(r), Low(r), last.c, SumVolume(r), LastVwap(r))
  }

  /** Bucket bk as a five-minute bar, or nothing when it holds too few one-minute bars. */
  function Valid(rows: seq<VBar>, nMin: int, bk: int): seq<Five> {
    if rows != [] && |rows| >= nMin then [Aggregate(rows, bk)] else []
  }

  /** The valid buckets numbered below k, in order. */
  function Buckets(r: seq<VBar>, size: int, nMin: int, k: int): seq<Five>
    requires size > 0
    decreases k
  {
    if k <= 0 then [] else Buckets(r, size, nMin, k - 1) + Valid(RowsOf(r, size, k - 1), nMin, k - 1)
  }

  /** `five`: the valid buckets of the bars with `mfo BETWEEN 0 AND hi`. */
  function FiveBars(t: seq<Bar>, size: int, nMin: int, hi: int): seq<Five>
    requires size > 0
  {
    Buckets(WithVwap(Between(t, 0, hi)), size, nMin, hi / size + 1)
  }

  // ---------------------------------------------------------------- what a bucket stands for

  lemma {:induction false} RowsOfHas(r: seq<VBar>, size: int, bk: int, x: VBar)
    requires size > 0
    ensures x in RowsOf(r, size, bk) <==> x in r && x.bar.mfo / size == bk
  {
    if r != [] {
      RowsOfHas(r[..|r| - 1], size, bk, x);
      assert r == r[..|r| - 1] + [r[|r| - 1]];
    }
  }

  predicate BarsAscending(r: seq<VBar>) {
    forall i, j | 0 <= i < j < |r| :: r[i].bar.mfo < r[j].bar.mfo
  }

  lemma {:induction false} RowsOfAscend(r: seq<VBar>, size: int, bk: int)
    requires size > 0 && BarsAscending(r)
    ensures BarsAscending(RowsOf(r, size, bk))
    ensures forall i | 0 <= i < |RowsOf(r, size, bk)| :: RowsOf(r, size, bk)[i].bar.mfo / size == bk
  {
    if r != [] {
      var front := r[..|r| - 1];
      RowsOfAscend(front, size, bk);
      var rows := RowsOf(front, size, bk);
      forall i | 0 <= i < |rows| ensures rows[i].bar.mfo < r[|r| - 1].bar.mfo {
        RowsOfHas(front, size, bk, rows[i]);
      }
    }
  }

  /** A bucket holds distinct minutes of its own span, so it has at most as many bars as minutes. */
  lemma {:induction false} BucketSize(r: seq<VBar>, size: int, bk: int)
    requires size > 0 && BarsAscending(r)
    ensures var rows := RowsOf(r, size, bk);
            rows != [] ==> bk * size <= rows[0].bar.mfo
                           && rows[|rows| - 1].bar.mfo < bk * size + size
                           && |rows| <= rows[|rows| - 1].bar.mfo - bk * size + 1
  {
    var rows := RowsOf(r, size, bk);
    RowsOfAscend(r, size, bk);
    if rows != [] {
      assert rows[0].bar.mfo / size == bk && rows[|rows| - 1].bar.mfo / size == bk;
      Quotient(rows[0].bar.mfo, size, bk);
      Quotient(rows[|rows| - 1].bar.mfo, size, bk);
      Spread(rows, |rows| - 1);
    }
  }

  lemma {:induction false} Spread(r: seq<VBar>, i: int)
    requires BarsAscending(r) && 0 <= i < |r|
    ensures i <= r[i].bar.mfo - r[0].bar.mfo
    decreases i
  {
    if i > 0 {
      Spread(r, i - 1);
    }
  }

  // ---------------------------------------------------------------- causality of the aggregation

  /** The running VWAP of a bar does not depend on later bars. */
  lemma {:induction false} WithVwapPrefix(t: seq<Bar>, n: int)
    requires 0 <= n <= |t|
    ensures WithVwap(t[..n]) == WithVwap(t)[..n]
    decreases |t|
  {
    if n < |t| {
      WithVwapPrefix(t[..|t| - 1], n);
      assert t[..|t| - 1][..n] == t[..n];
      assert WithVwap(t)[..n] == WithVwap(t[..|t| - 1])[..n];
    } else {
      assert t[..n] == t;
      assert WithVwap(t)[..n] == WithVwap(t);
    }
  }

  lemma {:induction false} RowsOfPrefix(r: seq<VBar>, size: int, bk: int, n: int)
    requires size > 0 && 0 <= n <= |r|
    requires forall i | n <= i < |r| :: r[i].bar.mfo / size != bk
    ensures RowsOf(r[..n], size, bk) == RowsOf(r, size, bk)
    decreases |r|
  {
    if n < |r| {
      RowsOfPrefix(r[..|r| - 1], size, bk, n);
      assert r[..|r| - 1][..n] == r[..n];
    } else {
      assert r[..n] == r;
    }
  }

  lemma {:induction false} SameRowsSameBuckets(r: seq<VBar>, s: seq<VBar>, size: int, nMin: int, k: int)
    requires size > 0
    requires forall bk | bk < k :: RowsOf(r, size, bk) == RowsOf(s, size, bk)
    ensures Buckets(r, size, nMin, k) == Buckets(s, size, nMin, k)
    decreases k
  {
    if k > 0 {
      SameRowsSameBuckets(r, s, size, nMin, k - 1);
    }
  }

  /** A lower cut keeps exactly the bars up to it. */
  lemma {:induction false} BetweenPrefix(t: seq<Bar>, lo: int, hi: int, hi': int) returns (n: int)
    requires Ascending(t) && hi <= hi'
    ensures 0 <= n <= |Between(t, lo, hi')|
    ensures Between(t, lo, hi) == Between(t, lo, hi')[..n]
    ensures forall i | n <= i < |Between(t, lo, hi')| :: Between(t, lo, hi')[i].mfo > hi
  {
    if t == [] {
      n := 0;
    } else {
      var front := t[..|t| - 1];
      var last := t[|t| - 1];
      n := BetweenPrefix(front, lo, hi, hi');
      var all := Between(front, lo, hi');
      if lo <= last.mfo <= hi {
        if n < |all| {
          BetweenHas(front, lo, hi', all[n]);
          assert false;
        }
        n := n + 1;
        assert Between(t, lo, hi')[..n] == all + [last];
      } else {
        assert Between(t, lo, hi')[..n] == all[..n];
      }
    }
  }

  /** Buckets wholly at or before a bucket boundary are the same whatever bars follow it. */
  lemma {:induction false} BucketsBefore(t: seq<Bar>, size: int, nMin: int, k: int, hi: int)
    requires size > 0 && Ascending(t) && k * size - 1 <= hi
    ensures Buckets(WithVwap(Between(t, 0, hi)), size, nMin, k)
         == Buckets(WithVwap(Between(t, 0, k * size - 1)), size, nMin, k)
  {
    var all := Between(t, 0, hi);
    var n := BetweenPrefix(t, 0, k * size - 1, hi);
    WithVwapPrefix(all, n);
    forall bk | bk < k ensures RowsOf(WithVwap(all)[..n], size, bk) == RowsOf(WithVwap(all), size, bk) {
      forall i | n <= i < |all| ensures WithVwap(all)[i].bar.mfo / size != bk {
        AtLeast(all[i].mfo, size, k);
      }
      RowsOfPrefix(WithVwap(all), size, bk, n);
    }
    SameRowsSameBuckets(WithVwap(all)[..n], WithVwap(all), size, nMin, k);
  }

  lemma {:induction false} AtLeast(m: int, size: int, k: int)
    requires size > 0 && m >= k * size
    ensures m / size >= k
  {
    DivMod(m, size);
    if m / size < k {
      MulStep(m / size, k, size);
    }
  }

  /** Later buckets only extend the sequence, and each bucket carries its own number. */
  lemma {:induction false} BucketsExtend(r: seq<VBar>, size: int, nMin: int, j: int, k: int)
    requires size > 0 && j <= k
    ensures Buckets(r, size, nMin, j) <= Buckets(r, size, nMin, k)
    ensures forall i | |Buckets(r, size, nMin, j)| <= i < |Buckets(r, size, nMin, k)| ::
              Max(j, 0) <= Buckets(r, size, nMin, k)[i].bk < k
    decreases k
  {
    if j < k && k > 0 {
      BucketsExtend(r, size, nMin, j, k - 1);
    }
  }

  /** Each listed bucket is the aggregate of its own rows. */
  lemma {:induction false} BucketAt(r: seq<VBar>, size: int, nMin: int, k: int, i: int)
    requires size > 0 && 0 <= i < |Buckets(r, size, nMin, k)|
    ensures var f := Buckets(r, size, nMin, k)[i];
            var rows := RowsOf(r, size, f.bk);
            0 <= f.bk < k && rows != [] && |rows| >= nMin && f == Aggregate(rows, f.bk)
    decreases k
  {
    if i < |Buckets(r, size, nMin, k - 1)| {
      BucketAt(r, size, nMin, k - 1, i);
    }
  }

  /** The buckets up to and including the i-th are the buckets numbered up to its number. */
  lemma {:induction false} BucketCut(r: seq<VBar>, size: int, nMin: int, k: int, i: int)
    requires size > 0 && 0 <= i < |Buckets(r, size, nMin, k)|
    ensures Buckets(r, size, nMin, Buckets(r, size, nMin, k)[i].bk + 1) == Buckets(r, size, nMin, k)[..i + 1]
    decreases k
  {
    var all, front := Buckets(r, size, nMin, k), Buckets(r, size, nMin, k - 1);
    assert all == front + Valid(RowsOf(r, size, k - 1), nMin, k - 1);
    if i < |front| {
      BucketCut(r, size, nMin, k - 1, i);
      assert all[..i + 1] == front[..i + 1];
    } else {
      assert all[..i + 1] == all;
    }
  }

  // ---------------------------------------------------------------- what a five-minute bar says of the tape

  predicate Spans(f: Five, b: Bar) {
    f.l <= b.l && b.h <= f.h && b.mfo <= f.lastMfo
  }

  lemma {:induction false} HighLow(r: seq<VBar>)
    requires r != []
    ensures forall i | 0 <= i < |r| :: Low(r) <= r[i].bar.l && r[i].bar.h <= High(r)
    ensures exists i :: 0 <= i < |r| && r[i].bar.h == High(r)
    ensures exists i :: 0 <= i < |r| && r[i].bar.l == Low(r)
  {
    var n := |r| - 1;
    if n > 0 {
      var front := r[..n];
      HighLow(front);
      var i :| 0 <= i < n && front[i].bar.h == High(front);
      var j :| 0 <= j < n && front[j].bar.l == Low(front);
      assert r[i] == front[i] && r[j] == front[j];
      assert r[n].bar.h == High(r) || r[i].bar.h == High(r);
      assert r[n].bar.l == Low(r) || r[j].bar.l == Low(r);
      assert forall x | 0 <= x < n :: r[x] == front[x];
    } else {
      assert r[0].bar.h == High(r) && r[0].bar.l == Low(r);
    }
  }

  /** The bars of the tape a bucket stands for. */
  predicate InBucket(t: seq<Bar>, b: Bar, size: int, hi: int, bk: int)
    requires size > 0
  {
    b in t && 0 <= b.mfo <= hi && b.mfo / size == bk
  }

  /** Every bar of the tape in a bucket has its row there. */
  lemma {:induction false} RowOfBar(t: seq<Bar>, size: int, hi: int, bk: int, b: Bar) returns (i: int)
    requires size > 0 && InBucket(t, b, size, hi, bk)
    ensures var rows := RowsOf(WithVwap(Between(t, 0, hi)), size, bk);
            0 <= i < |rows| && rows[i].bar == b
  {
    hide RowsOf, Between, Vwap;
    var all := Between(t, 0, hi);
    var r := WithVwap(all);
    BetweenHas(t, 0, hi, b);
    var x :| 0 <= x < |all| && all[x] == b;
    RowsOfHas(r, size, bk, r[x]);
    i :| 0 <= i < |RowsOf(r, size, bk)| && RowsOf(r, size, bk)[i] == r[x];
  }

  /** Every row of a bucket is a bar of the tape in it. */
  lemma {:induction false} BarOfRow(t: seq<Bar>, size: int, hi: int, bk: int, i: int)
    requires size > 0 && 0 <= i < |RowsOf(WithVwap(Between(t, 0, hi)), size, bk)|
    ensures InBucket(t, RowsOf(WithVwap(Between(t, 0, hi)), size, bk)[i].bar, size, hi, bk)
  {
    hide RowsOf, Between, Vwap;
    var all := Between(t, 0, hi);
    var r := WithVwap(all);
    var v := RowsOf(r, size, bk)[i];
    assert v in RowsOf(r, size, bk);
    RowsOfHas(r, size, bk, v);
    var x :| 0 <= x < |r| && r[x] == v;
    assert all[x] == v.bar && all[x] in all;
    BetweenHas(t, 0, hi, v.bar);
  }

  /**
   A five-minute bar's high and low are the extremes of the one-minute bars of its bucket, its open is
   the earliest one's, its close and last minute are the latest one's, and they are at least nMin many.
   */
  lemma {:induction false} FiveBarIs(t: seq<Bar>, size: int, nMin: int, hi: int, i: int)
    requires size > 0 && Ascending(t) && 0 <= i < |FiveBars(t, size, nMin, hi)|
    ensures var f := FiveBars(t, size, nMin, hi)[i];
            && f.n1m >= nMin
            && (forall b | InBucket(t, b, size, hi, f.bk) :: Spans(f, b))
            && (exists b :: InBucket(t, b, size, hi, f.bk) && b.h == f.h)
            && (exists b :: InBucket(t, b, size, hi, f.bk) && b.l == f.l)
            && (exists b :: InBucket(t, b, size, hi, f.bk) && b.mfo == f.lastMfo && b.c == f.c)
            && (exists b :: InBucket(t, b, size, hi, f.bk) && b.o == f.o
                            && forall x | InBucket(t, x, size, hi, f.bk) :: b.mfo <= x.mfo)
  {
    hide Buckets, Between, RowsOf, WithVwap, High, Low, SumVolume, LastVwap;
    var r := WithVwap(Between(t, 0, hi));
    var f := FiveBars(t, size, nMin, hi)[i];
    var rows := RowsOf(r, size, f.bk);
    BucketAt(r, size, nMin, hi / size + 1, i);
    BetweenAscends(t, 0, hi);
    RowsOfAscend(r, size, f.bk);
    HighLow(rows);
    forall b | InBucket(t, b, size, hi, f.bk) ensures Spans(f, b) && rows[0].bar.mfo <= b.mfo {
      var j := RowOfBar(t, size, hi, f.bk, b);
      assert rows[j].bar == b;
    }
    var x :| 0 <= x < |rows| && rows[x].bar.h == High(rows);
    var y :| 0 <= y < |rows| && rows[y].bar.l == Low(rows);
    BarOfRow(t, size, hi, f.bk, x);
    BarOfRow(t, size, hi, f.bk, y);
    BarOfRow(t, size, hi, f.bk, 0);
    BarOfRow(t, size, hi, f.bk, |rows| - 1);
  }

  /** Every bucket of the relation with enough one-minute bars is listed. */
  lemma {:induction false} BucketListed(r: seq<VBar>, size: int, nMin: int, k: int, bk: int)
    requires size > 0 && 0 <= bk < k
    requires RowsOf(r, size, bk) != [] && |RowsOf(r, size, bk)| >= nMin
    ensures exists i :: 0 <= i < |Buckets(r, size, nMin, k)| && Buckets(r, size, nMin, k)[i].bk == bk
    decreases k
  {
    var front := Buckets(r, size, nMin, k - 1);
    if bk < k - 1 {
      BucketListed(r, size, nMin, k - 1, bk);
      var i :| 0 <= i < |front| && front[i].bk == bk;
      assert Buckets(r, size, nMin, k)[i] == front[i];
    } else {
      assert Buckets(r, size, nMin, k)[|front|].bk == bk;
    }
  }
}
