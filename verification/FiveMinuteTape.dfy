/**
 What the five-minute bars of scripts/backtest_candles.py say of the one-minute tape itself: which buckets
 are listed, how many bars each holds, its volume, and its VWAP over everything traded up to it.
 */
module FiveMinuteTape {
  import opened Arithmetic
  import opened Common
  import opened Tape
  import opened FiveMinute

  /** How many bars of the tape have their minute in [lo, hi]. */
  function BarsIn(t: seq<Bar>, lo: int, hi: int): nat {
    if t == [] then 0 else (if lo <= t[0].mfo <= hi then 1 else 0) + BarsIn(t[1..], lo, hi)
  }

  /** What they traded. */
  function VolumeIn(t: seq<Bar>, lo: int, hi: int): real {
    if t == [] then 0.0 else (if lo <= t[0].mfo <= hi then t[0].v else 0.0) + VolumeIn(t[1..], lo, hi)
  }

  /** A bar's volume, taken at the mean of its high, low and close. */
  function Turnover(b: Bar): real {
    b.v * ((b.h + b.l + b.c) / 3.0)
  }

  function TurnoverIn(t: seq<Bar>, lo: int, hi: int): real {
    if t == [] then 0.0 else (if lo <= t[0].mfo <= hi then Turnover(t[0]) else 0.0) + TurnoverIn(t[1..], lo, hi)
  }

  lemma {:induction false} Append(t: seq<Bar>, b: Bar, lo: int, hi: int)
    ensures BarsIn(t + [b], lo, hi) == BarsIn(t, lo, hi) + if lo <= b.mfo <= hi then 1 else 0
    ensures VolumeIn(t + [b], lo, hi) == VolumeIn(t, lo, hi) + if lo <= b.mfo <= hi then b.v else 0.0
    ensures TurnoverIn(t + [b], lo, hi) == TurnoverIn(t, lo, hi) + if lo <= b.mfo <= hi then Turnover(b) else 0.0
  {
    hide Turnover;
    if t != [] {
      Append(t[1..], b, lo, hi);
      assert (t + [b])[1..] == t[1..] + [b];
    } else {
      assert (t + [b])[1..] == [];
    }
  }

  lemma {:induction false} OneMore(t: seq<Bar>, b: Bar)
    ensures Volume(t + [b]) == Volume(t) + b.v && PriceVolume(t + [b]) == PriceVolume(t) + Turnover(b)
  {
    assert (t + [b])[..|t|] == t;
    assert (b.h + b.l + b.c) / 3.0 * b.v == Turnover(b);
  }

  lemma {:induction false} BetweenStep(t: seq<Bar>, lo: int, hi: int)
    requires t != []
    ensures var front, b := Between(t[..|t| - 1], lo, hi), t[|t| - 1];
            Between(t, lo, hi) == if lo <= b.mfo <= hi then front + [b] else front
  {
  }

  /** The relation's sums are taken over the tape's bars in its range. */
  lemma {:induction false} RelationSums(t: seq<Bar>, lo: int, hi: int)
    ensures Volume(Between(t, lo, hi)) == VolumeIn(t, lo, hi)
    ensures PriceVolume(Between(t, lo, hi)) == TurnoverIn(t, lo, hi)
  {
    hide Volume, PriceVolume, VolumeIn, TurnoverIn, Turnover;
    if t == [] {
      NothingTraded(lo, hi);
    } else {
      var front, b := t[..|t| - 1], t[|t| - 1];
      RelationSums(front, lo, hi);
      Append(front, b, lo, hi);
      OneMore(Between(front, lo, hi), b);
      BetweenStep(t, lo, hi);
      assert t == front + [b];
    }
  }

  lemma {:induction false} NothingTraded(lo: int, hi: int)
    ensures Volume([]) == PriceVolume([]) == VolumeIn([], lo, hi) == TurnoverIn([], lo, hi) == 0.0
  {
  }

  /** Cutting the tape first only narrows the range. */
  lemma {:induction false} InRange(t: seq<Bar>, a: int, b: int, lo: int, hi: int)
    ensures BarsIn(Between(t, a, b), lo, hi) == BarsIn(t, Max(a, lo), Min(b, hi))
    ensures VolumeIn(Between(t, a, b), lo, hi) == VolumeIn(t, Max(a, lo), Min(b, hi))
  {
    hide Turnover;
    if t != [] {
      hide Between, BarsIn, VolumeIn;
      var front, x := t[..|t| - 1], t[|t| - 1];
      InRange(front, a, b, lo, hi);
      Append(front, x, Max(a, lo), Min(b, hi));
      Append(Between(front, a, b), x, lo, hi);
      BetweenStep(t, a, b);
      assert t == front + [x];
    }
  }

  /** The first and the last minute of a bucket, as far as the relation goes. */
  function Start(size: int, bk: int): int {
    bk * size
  }

  function End(size: int, bk: int, hi: int): int {
    Min(bk * size + size - 1, hi)
  }

  lemma {:induction false} RowSumsOf(all: seq<Bar>, size: int, bk: int)
    requires size > 0
    ensures var rows := RowsOf(WithVwap(all), size, bk);
            && |rows| == BarsIn(all, bk * size, bk * size + size - 1)
            && SumVolume(rows) == VolumeIn(all, bk * size, bk * size + size - 1)
  {
    hide Vwap;
    if all != [] {
      var front, b := all[..|all| - 1], all[|all| - 1];
      RowSumsOf(front, size, bk);
      Append(front, b, bk * size, bk * size + size - 1);
      Quotient(b.mfo, size, bk);
      assert all == front + [b];
      OneMoreRow(WithVwap(front), VBar(b, Vwap(all)), size, bk);
    }
  }

  lemma {:induction false} OneMoreRow(r: seq<VBar>, x: VBar, size: int, bk: int)
    requires size > 0
    ensures var rows, rows' := RowsOf(r, size, bk), RowsOf(r + [x], size, bk);
            if x.bar.mfo / size == bk then |rows'| == |rows| + 1 && SumVolume(rows') == SumVolume(rows) + x.bar.v
            else rows' == rows
  {
    assert (r + [x])[..|r|] == r;
  }

  lemma {:induction false} RowSums(t: seq<Bar>, size: int, bk: int, hi: int)
    requires size > 0 && bk >= 0
    ensures var rows := RowsOf(WithVwap(Between(t, 0, hi)), size, bk);
            && |rows| == BarsIn(t, Start(size, bk), End(size, bk, hi))
            && SumVolume(rows) == VolumeIn(t, Start(size, bk), End(size, bk, hi))
  {
    hide WithVwap, RowsOf;
    MulOrder(0, bk, size);
    RowSumsOf(Between(t, 0, hi), size, bk);
    InRange(t, 0, hi, bk * size, bk * size + size - 1);
  }

  // ---------------------------------------------------------------- which buckets are listed

  lemma {:induction false} ValidOnce(rows: seq<VBar>, nMin: int, bk: int)
    ensures var f := Valid(rows, nMin, bk); |f| <= 1 && forall i | 0 <= i < |f| :: f[i].bk == bk
  {
  }

  /** f lists buckets numbered below k, each once and in order. */
  predicate Numbered(f: seq<Five>, k: int) {
    (forall i | 0 <= i < |f| :: 0 <= f[i].bk < k) && forall i, j | 0 <= i < j < |f| :: f[i].bk < f[j].bk
  }

  lemma {:induction false} OneMoreBucket(f: seq<Five>, last: seq<Five>, k: int)
    requires k >= 0 && Numbered(f, k) && |last| <= 1 && forall i | 0 <= i < |last| :: last[i].bk == k
    ensures Numbered(f + last, k + 1)
  {
  }

  lemma {:induction false} ListedOnce(r: seq<VBar>, size: int, nMin: int, k: int)
    requires size > 0
    ensures Numbered(Buckets(r, size, nMin, k), k)
    decreases k
  {
    hide Numbered, Valid, RowsOf;
    if k > 0 {
      ListedOnce(r, size, nMin, k - 1);
      ValidOnce(RowsOf(r, size, k - 1), nMin, k - 1);
      OneMoreBucket(Buckets(r, size, nMin, k - 1), Valid(RowsOf(r, size, k - 1), nMin, k - 1), k - 1);
    } else {
      NoBuckets(k);
    }
  }

  lemma {:induction false} NoBuckets(k: int)
    ensures Numbered([], k)
  {
  }

  /**
   The five-minute bars are, in order, exactly the buckets that hold a bar and at least nMin of them;
   each knows how many it holds and what they traded.
   */
  lemma {:induction false} FiveBarsAre(t: seq<Bar>, size: int, nMin: int, hi: int, bk: int)
    requires size > 0 && bk >= 0
    ensures var f, n := FiveBars(t, size, nMin, hi), BarsIn(t, Start(size, bk), End(size, bk, hi));
            && (forall i | 0 <= i < |f| :: 0 <= f[i].bk)
            && (forall i, j | 0 <= i < j < |f| :: f[i].bk < f[j].bk)
            && ((exists i :: 0 <= i < |f| && f[i].bk == bk) <==> n >= Max(nMin, 1))
            && (forall i | 0 <= i < |f| && f[i].bk == bk ::
                  f[i].n1m == n && f[i].v == VolumeIn(t, Start(size, bk), End(size, bk, hi)))
  {
    hide Buckets, RowsOf, WithVwap, Between, SumVolume, High, Low, LastVwap;
    var r, k := WithVwap(Between(t, 0, hi)), hi / size + 1;
    var f, rows := FiveBars(t, size, nMin, hi), RowsOf(r, size, bk);
    assert f == Buckets(r, size, nMin, k);
    ListedOnce(r, size, nMin, k);
    RowSums(t, size, bk, hi);
    forall i | 0 <= i < |f| && f[i].bk == bk ensures rows != [] && |rows| >= nMin && f[i] == Aggregate(rows, bk) {
      BucketAt(r, size, nMin, k, i);
    }
    if rows != [] && |rows| >= nMin {
      SomeBar(t, Start(size, bk), End(size, bk, hi));
      AtLeast(hi, size, bk);
      BucketListed(r, size, nMin, k, bk);
    }
  }

  lemma {:induction false} SomeBar(t: seq<Bar>, lo: int, hi: int)
    requires BarsIn(t, lo, hi) > 0
    ensures lo <= hi
  {
    if lo > t[0].mfo || t[0].mfo > hi {
      SomeBar(t[1..], lo, hi);
    }
  }

  // ---------------------------------------------------------------- the VWAP a bar carries

  /** The VWAP of everything traded from the open through minute m, if anything was. */
  function VwapThrough(t: seq<Bar>, m: int): Option<real> {
    if VolumeIn(t, 0, m) == 0.0 then None else Some(TurnoverIn(t, 0, m) / VolumeIn(t, 0, m))
  }

  /** The relation's bars through its x-th are the tape's bars through that one's minute. */
  lemma {:induction false} RelationThrough(t: seq<Bar>, hi: int, x: int)
    requires Ascending(t) && 0 <= x < |Between(t, 0, hi)|
    ensures Between(t, 0, hi)[..x + 1] == Between(t, 0, Between(t, 0, hi)[x].mfo)
  {
    hide Between;
    var all := Between(t, 0, hi);
    var m := all[x].mfo;
    BetweenHas(t, 0, hi, all[x]);
    var n := BetweenPrefix(t, 0, m, hi);
    BetweenAscends(t, 0, hi);
    if n > 0 {
      assert all[..n][n - 1] in Between(t, 0, m);
      BetweenHas(t, 0, m, all[n - 1]);
    }
    assert n == x + 1;
  }

  lemma {:induction false} RowVwap(t: seq<Bar>, size: int, bk: int, hi: int, v: VBar)
    requires size > 0 && Ascending(t) && v in RowsOf(WithVwap(Between(t, 0, hi)), size, bk)
    ensures v.vwap == VwapThrough(t, v.bar.mfo)
  {
    hide Between, RowsOf, Volume, PriceVolume, VolumeIn, TurnoverIn;
    var all := Between(t, 0, hi);
    RowsOfHas(WithVwap(all), size, bk, v);
    var x :| 0 <= x < |all| && WithVwap(all)[x] == v;
    VwapIsRunning(all, x);
    RelationThrough(t, hi, x);
    RelationSums(t, 0, v.bar.mfo);
  }

  lemma {:induction false} LastVwapIs(rows: seq<VBar>, w: real)
    ensures LastVwap(rows) == None <==> forall i | 0 <= i < |rows| :: rows[i].vwap == None
    ensures LastVwap(rows) == Some(w) <==>
            exists i :: 0 <= i < |rows| && rows[i].vwap == Some(w) && forall j | i < j < |rows| :: rows[j].vwap == None
  {
    if rows != [] {
      var n := |rows| - 1;
      var front := rows[..n];
      LastVwapIs(front, w);
      if rows[n].vwap.None? {
        if i :| 0 <= i < n && front[i].vwap == Some(w) && forall j | i < j < n :: front[j].vwap == None {
          assert rows[i].vwap == Some(w) && forall j | i < j < |rows| :: rows[j].vwap == None;
        }
        if i :| 0 <= i < |rows| && rows[i].vwap == Some(w) && forall j | i < j < |rows| :: rows[j].vwap == None {
          assert front[i].vwap == Some(w) && forall j | i < j < n :: front[j].vwap == None;
        }
      }
    }
  }

  /** At b something has been traded, and at no later bar of the bucket. */
  predicate LastTraded(t: seq<Bar>, size: int, hi: int, bk: int, b: Bar)
    requires size > 0
  {
    && InBucket(t, b, size, hi, bk) && VwapThrough(t, b.mfo).Some?
    && forall x | x in t && InBucket(t, x, size, hi, bk) && x.mfo > b.mfo :: VwapThrough(t, x.mfo).None?
  }

  /** rows are the bars of the tape in a bucket, in order, each with the VWAP through it. */
  predicate RowsStand(rows: seq<VBar>, t: seq<Bar>, size: int, hi: int, bk: int)
    requires size > 0
  {
    && BarsAscending(rows)
    && (forall i | 0 <= i < |rows| ::
          InBucket(t, rows[i].bar, size, hi, bk) && rows[i].vwap == VwapThrough(t, rows[i].bar.mfo))
    && (forall b | b in t && InBucket(t, b, size, hi, bk) :: exists i :: 0 <= i < |rows| && rows[i].bar == b)
  }

  lemma {:induction false} BucketStands(t: seq<Bar>, size: int, hi: int, bk: int)
    requires size > 0 && Ascending(t)
    ensures RowsStand(RowsOf(WithVwap(Between(t, 0, hi)), size, bk), t, size, hi, bk)
  {
    hide Between, RowsOf, WithVwap, VwapThrough, InBucket;
    var r := WithVwap(Between(t, 0, hi));
    var rows := RowsOf(r, size, bk);
    BetweenAscends(t, 0, hi);
    RowsOfAscend(r, size, bk);
    forall i | 0 <= i < |rows|
      ensures InBucket(t, rows[i].bar, size, hi, bk) && rows[i].vwap == VwapThrough(t, rows[i].bar.mfo)
    {
      BarOfRow(t, size, hi, bk, i);
      RowVwap(t, size, bk, hi, rows[i]);
    }
    forall b | b in t && InBucket(t, b, size, hi, bk) ensures exists i :: 0 <= i < |rows| && rows[i].bar == b {
      var i := RowOfBar(t, size, hi, bk, b);
    }
  }

  lemma {:induction false} LastTradedIs(rows: seq<VBar>, t: seq<Bar>, size: int, hi: int, bk: int, b: Bar)
    requires size > 0 && RowsStand(rows, t, size, hi, bk) && LastTraded(t, size, hi, bk, b)
    ensures LastVwap(rows) == VwapThrough(t, b.mfo)
  {
    hide LastVwap, VwapThrough;
    var i :| 0 <= i < |rows| && rows[i].bar == b;
    assert forall j | i < j < |rows| :: rows[j].vwap == None;
    LastVwapIs(rows, rows[i].vwap.value);
  }

  lemma {:induction false} NoneTradedIff(rows: seq<VBar>, t: seq<Bar>, size: int, hi: int, bk: int)
    requires size > 0 && RowsStand(rows, t, size, hi, bk)
    ensures LastVwap(rows) == None <==>
            forall b | b in t && InBucket(t, b, size, hi, bk) :: VwapThrough(t, b.mfo) == None
    ensures LastVwap(rows).Some? ==> exists b :: LastTraded(t, size, hi, bk, b)
  {
    hide LastVwap, VwapThrough;
    LastVwapIs(rows, if LastVwap(rows).Some? then LastVwap(rows).value else 0.0);
    if LastVwap(rows).Some? {
      var i :| 0 <= i < |rows| && rows[i].vwap == LastVwap(rows) && forall j | i < j < |rows| :: rows[j].vwap == None;
      forall x | x in t && InBucket(t, x, size, hi, bk) && x.mfo > rows[i].bar.mfo
        ensures VwapThrough(t, x.mfo) == None
      {
        var j :| 0 <= j < |rows| && rows[j].bar == x;
        assert j > i;
      }
      assert LastTraded(t, size, hi, bk, rows[i].bar);
    }
  }

  /**
   A five-minute bar carries the VWAP, over everything traded from the open, at the last of its bars by
   which something has been traded; it carries none exactly when there is no such bar.
   */
  lemma {:induction false} FiveVwapIs(t: seq<Bar>, size: int, nMin: int, hi: int, i: int)
    requires size > 0 && Ascending(t) && 0 <= i < |FiveBars(t, size, nMin, hi)|
    ensures var f := FiveBars(t, size, nMin, hi)[i];
            && (forall b | LastTraded(t, size, hi, f.bk, b) :: f.vwap == VwapThrough(t, b.mfo))
            && (f.vwap == None <==>
                  forall b | b in t && InBucket(t, b, size, hi, f.bk) :: VwapThrough(t, b.mfo) == None)
            && (f.vwap.Some? ==> exists b :: LastTraded(t, size, hi, f.bk, b))
  {
    hide Buckets, RowsOf, WithVwap, Between, High, Low, SumVolume, LastVwap;
    hide RowsStand, LastTraded, VwapThrough, InBucket;
    var r := WithVwap(Between(t, 0, hi));
    var f := FiveBars(t, size, nMin, hi)[i];
    var rows := RowsOf(r, size, f.bk);
    BucketAt(r, size, nMin, hi / size + 1, i);
    BucketStands(t, size, hi, f.bk);
    NoneTradedIff(rows, t, size, hi, f.bk);
    forall b | LastTraded(t, size, hi, f.bk, b) ensures f.vwap == VwapThrough(t, b.mfo) {
      LastTradedIs(rows, t, size, hi, f.bk, b);
    }
  }
}
