/**
 The purged K-fold fallback (`_purged_kfold_splits`) over the fill-day series of
 scripts/backtest_brk20.py, and why no train trade's holding window meets a test trade's.
 */
module PurgedFolds {
  import opened Common

  datatype Fold = Fold(train: seq<int>, lo: int, hi: int)

  /** `np.array_split(np.arange(n), k)`: the first n % k blocks hold one observation more. */
  function BlockStart(n: nat, k: nat, i: nat): nat
    requires k > 0
  {
    i * (n / k) + Min(i, n % k)
  }

  /** The observations of [0, m) before lo - purge or after hi + embargo, in order. */
  function TrainUpTo(m: nat, lo: int, hi: int, purge: nat, embargo: nat): seq<int> {
    if m == 0 then []
    else
      var x := m - 1;
      TrainUpTo(x, lo, hi, purge, embargo) + if x < lo - purge || x > hi + embargo then [x] else []
  }

  /** The folds of the first i blocks; an empty block or an empty train set drops its fold. */
  function FoldsUpTo(n: nat, k: nat, purge: nat, embargo: nat, i: nat): seq<Fold>
    requires k > 0
  {
    if i == 0 then []
    else
      var lo, hi := BlockStart(n, k, i - 1), BlockStart(n, k, i) - 1;
      var train := TrainUpTo(n, lo, hi, purge, embargo);
      FoldsUpTo(n, k, purge, embargo, i - 1) + if hi < lo || train == [] then [] else [Fold(train, lo, hi)]
  }

  method PurgedKfoldSplits(n: nat, k: nat, purge: nat, embargo: nat) returns (folds: seq<Fold>)
    requires k > 0
    ensures folds == if n < k * 2 then [] else FoldsUpTo(n, k, purge, embargo, k)
  {
    hide BlockStart;
    if n < k * 2 {
      return [];
    }
    folds := [];
    var i := 0;
    while i < k
      invariant 0 <= i <= k
      invariant folds == FoldsUpTo(n, k, purge, embargo, i)
    {
      var lo, hi := BlockStart(n, k, i), BlockStart(n, k, i + 1) - 1;
      if hi >= lo {
        var train: seq<int> := [];
        var x := 0;
        while x < n
          invariant 0 <= x <= n
          invariant train == TrainUpTo(x, lo, hi, purge, embargo)
        {
          if x < lo - purge || x > hi + embargo {
            train := train + [x];
          }
          x := x + 1;
        }
        if |train| != 0 {
          folds := folds + [Fold(train, lo, hi)];
        }
      }
      i := i + 1;
    }
  }

  // ---------------------------------------------------------------- the test blocks

  /** Blocks follow one another, differ in size by at most one, and end at n. */
  lemma {:induction false} BlocksTile(n: nat, k: nat, i: nat)
    requires k > 0 && i < k
    ensures BlockStart(n, k, 0) == 0 && BlockStart(n, k, k) == n
    ensures BlockStart(n, k, i + 1) - BlockStart(n, k, i) == n / k + if i < n % k then 1 else 0
    ensures n >= k ==> BlockStart(n, k, i) < BlockStart(n, k, i + 1)
  {
    assert (i + 1) * (n / k) == i * (n / k) + n / k;
    assert n == k * (n / k) + n % k;
  }

  lemma {:induction false} BlocksAscend(n: nat, k: nat, i: nat, j: nat)
    requires k > 0 && i <= j <= k
    ensures BlockStart(n, k, i) <= BlockStart(n, k, j)
    decreases j
  {
    hide BlockStart;
    if i < j {
      BlocksTile(n, k, j - 1);
      BlocksAscend(n, k, i, j - 1);
    }
  }

  /** Every observation lies in exactly one test block. */
  lemma {:induction false} BlockOf(n: nat, k: nat, m: nat, x: nat) returns (i: nat)
    requires 0 < k && m <= k && x < BlockStart(n, k, m)
    ensures i < m && BlockStart(n, k, i) <= x < BlockStart(n, k, i + 1)
    ensures forall j: nat | j < k && BlockStart(n, k, j) <= x < BlockStart(n, k, j + 1) :: j == i
    decreases m
  {
    BlocksTile(n, k, 0);
    if BlockStart(n, k, m - 1) <= x {
      i := m - 1;
      forall j: nat | j < k && BlockStart(n, k, j) <= x < BlockStart(n, k, j + 1) ensures j == i {
        if j < i {
          BlocksAscend(n, k, j + 1, i);
        } else if i < j {
          BlocksAscend(n, k, i + 1, j);
        }
      }
    } else {
      i := BlockOf(n, k, m - 1, x);
    }
  }

  // ---------------------------------------------------------------- the train sets

  /** Train is exactly what lies more than purge before and more than embargo after every test observation. */
  lemma {:induction false} TrainIs(m: nat, lo: int, hi: int, purge: nat, embargo: nat)
    requires lo <= hi
    ensures forall x :: x in TrainUpTo(m, lo, hi, purge, embargo) <==>
              0 <= x < m && (x < lo - purge || x > hi + embargo)
    ensures forall i, j | 0 <= i < j < |TrainUpTo(m, lo, hi, purge, embargo)| ::
              TrainUpTo(m, lo, hi, purge, embargo)[i] < TrainUpTo(m, lo, hi, purge, embargo)[j]
  {
    if m > 0 {
      TrainIs(m - 1, lo, hi, purge, embargo);
      var front := TrainUpTo(m - 1, lo, hi, purge, embargo);
      assert forall i | 0 <= i < |front| :: front[i] in front;
    }
  }

  /** The windows [x, x + h] and [y, y + h] do not meet. */
  predicate Apart(x: int, y: int, h: nat) {
    x + h < y || y + h < x
  }

  /** With purge = embargo = h, an observation trains exactly when no h-window of it meets a test one's. */
  lemma {:induction false} TrainIffWindowsApart(n: nat, lo: int, hi: int, h: nat, x: int)
    requires 0 <= lo <= hi < n && 0 <= x < n
    ensures x in TrainUpTo(n, lo, hi, h, h) <==> forall y | lo <= y <= hi :: Apart(x, y, h)
  {
    TrainIs(n, lo, hi, h, h);
    if lo - h <= x <= hi + h {
      assert !Apart(x, if x < lo then lo else if x > hi then hi else x, h);
    }
  }

  /** A returned fold is one of the blocks with its train set. */
  lemma {:induction false} FoldAt(n: nat, k: nat, purge: nat, embargo: nat, m: nat, f: Fold) returns (i: nat)
    requires k > 0 && n >= k && m <= k && f in FoldsUpTo(n, k, purge, embargo, m)
    ensures i < m && f.lo == BlockStart(n, k, i) && f.hi == BlockStart(n, k, i + 1) - 1
    ensures 0 <= f.lo <= f.hi < n && f.train == TrainUpTo(n, f.lo, f.hi, purge, embargo) && f.train != []
  {
    if f in FoldsUpTo(n, k, purge, embargo, m - 1) {
      i := FoldAt(n, k, purge, embargo, m - 1, f);
    } else {
      i := m - 1;
      BlocksTile(n, k, i);
      BlocksAscend(n, k, m, k);
    }
  }

  predicate Ascends(s: seq<int>) {
    forall i, j | 0 <= i < j < |s| :: s[i] < s[j]
  }

  /** An ascending listing is fixed by its members. */
  lemma {:induction false} SameListing(a: seq<int>, b: seq<int>)
    requires Ascends(a) && Ascends(b) && forall x :: x in a <==> x in b
    ensures a == b
  {
    if b != [] {
      assert b[|b| - 1] in b && b[|b| - 1] in a;
    }
    if a != [] {
      var m, n := |a| - 1, |b| - 1;
      assert a[m] in a && a[m] in b;
      assert a[m] == b[n];
      forall x ensures x in a[..m] <==> x in b[..n] {
        ButLast(a, x);
        ButLast(b, x);
      }
      SameListing(a[..m], b[..n]);
    }
  }

  lemma {:induction false} ButLast(s: seq<int>, x: int)
    requires Ascends(s) && s != []
    ensures x in s[..|s| - 1] <==> x in s && x != s[|s| - 1]
  {
    assert s == s[..|s| - 1] + [s[|s| - 1]];
  }

  /** f tests block i, and trains, in order, on all observations clear of it by the purge and the embargo. */
  predicate IsFold(n: nat, k: nat, purge: nat, embargo: nat, i: nat, f: Fold)
    requires k > 0
  {
    && f.lo == BlockStart(n, k, i) && f.hi == BlockStart(n, k, i + 1) - 1
    && f.train != [] && Ascends(f.train)
    && (forall x | x in f.train :: 0 <= x < n && (x < f.lo - purge || x > f.hi + embargo))
    && forall x | 0 <= x < n && (x < f.lo - purge || x > f.hi + embargo) :: x in f.train
  }

  lemma {:induction false} IsFoldIff(n: nat, k: nat, purge: nat, embargo: nat, i: nat, f: Fold)
    requires k > 0 && n >= k && i < k
    ensures IsFold(n, k, purge, embargo, i, f) <==>
            && f.lo == BlockStart(n, k, i) && f.hi == BlockStart(n, k, i + 1) - 1
            && f.train != [] && f.train == TrainUpTo(n, f.lo, f.hi, purge, embargo)
  {
    hide BlockStart;
    BlocksTile(n, k, i);
    var lo, hi := BlockStart(n, k, i), BlockStart(n, k, i + 1) - 1;
    TrainIs(n, lo, hi, purge, embargo);
    if IsFold(n, k, purge, embargo, i, f) {
      SameListing(f.train, TrainUpTo(n, lo, hi, purge, embargo));
    }
  }

  /** The folds are exactly the blocks that leave something to train on, each with its train set, in order. */
  lemma {:induction false} FoldsIff(n: nat, k: nat, purge: nat, embargo: nat, m: nat, f: Fold)
    requires k > 0 && n >= k && m <= k
    ensures f in FoldsUpTo(n, k, purge, embargo, m) <==> exists i: nat | i < m :: IsFold(n, k, purge, embargo, i, f)
    ensures f in FoldsUpTo(n, k, purge, embargo, m) ==> f.lo < BlockStart(n, k, m)
    ensures var fs := FoldsUpTo(n, k, purge, embargo, m); forall a, b | 0 <= a < b < |fs| :: fs[a].lo < fs[b].lo
  {
    hide BlockStart, IsFold, TrainUpTo;
    if m > 0 {
      FoldsIff(n, k, purge, embargo, m - 1, f);
      IsFoldIff(n, k, purge, embargo, m - 1, f);
      BlocksTile(n, k, m - 1);
      var front := FoldsUpTo(n, k, purge, embargo, m - 1);
      forall a | 0 <= a < |front| ensures front[a].lo < BlockStart(n, k, m - 1) {
        FoldsIff(n, k, purge, embargo, m - 1, front[a]);
      }
    }
  }

  // ---------------------------------------------------------------- trades over sessions

  /** A trade's fill session and the last session its window reaches, both on the market's calendar. */
  datatype Held = Held(fill: int, exit: int)

  /** `days`: the distinct fill sessions, ascending; each position is one observation. */
  predicate FillDays(days: seq<int>, ts: seq<Held>) {
    && Ascends(days)
    && (forall i | 0 <= i < |ts| :: ts[i].fill in days)
  }

  lemma {:induction false} DaysSpread(days: seq<int>, i: int, j: int)
    requires Ascends(days)
    requires 0 <= i <= j < |days|
    ensures days[j] - days[i] >= j - i
    decreases j - i
  {
    if i < j {
      DaysSpread(days, i, j - 1);
    }
  }

  predicate Overlap(a: Held, b: Held) {
    a.fill <= b.exit && b.fill <= a.exit
  }

  predicate TrainsOn(days: seq<int>, f: Fold, t: Held) {
    exists i :: 0 <= i < |days| && i in f.train && days[i] == t.fill
  }

  predicate TestsOn(days: seq<int>, f: Fold, t: Held) {
    exists j :: 0 <= j < |days| && f.lo <= j <= f.hi && days[j] == t.fill
  }

  predicate NoLeak(days: seq<int>, folds: seq<Fold>, ts: seq<Held>) {
    forall f, a, b | 0 <= f < |folds| && 0 <= a < |ts| && 0 <= b < |ts| ::
      TrainsOn(days, folds[f], ts[a]) && TestsOn(days, folds[f], ts[b]) ==> !Overlap(ts[a], ts[b])
  }

  /** No trade reaches further than w sessions of the market's calendar past its fill. */
  predicate HeldAtMost(ts: seq<Held>, w: nat) {
    forall i | 0 <= i < |ts| :: ts[i].fill <= ts[i].exit <= ts[i].fill + w
  }

  lemma {:induction false} FoldNeverLeaks(days: seq<int>, h: nat, f: Fold, a: Held, b: Held)
    requires Ascends(days) && 0 <= f.lo <= f.hi < |days| && f.train == TrainUpTo(|days|, f.lo, f.hi, h, h)
    requires a.exit <= a.fill + h && b.exit <= b.fill + h
    requires TrainsOn(days, f, a) && TestsOn(days, f, b)
    ensures !Overlap(a, b)
  {
    var i :| 0 <= i < |days| && i in f.train && days[i] == a.fill;
    var j :| 0 <= j < |days| && f.lo <= j <= f.hi && days[j] == b.fill;
    TrainIffWindowsApart(|days|, f.lo, f.hi, h, i);
    assert Apart(i, j, h);
    if i < j {
      DaysSpread(days, i, j);
    } else {
      DaysSpread(days, j, i);
    }
  }

  /**
   Keyed on fill days, with purge and embargo equal to the horizon, no fold trains on a trade whose
   window meets the window of a trade it tests on, whatever days have no fills, as long as no trade
   reaches further than the horizon past its fill.
   */
  lemma {:induction false} PurgedFoldsNeverLeak(days: seq<int>, ts: seq<Held>, k: nat, h: nat)
    requires k > 0 && |days| >= k * 2 && FillDays(days, ts) && HeldAtMost(ts, h)
    ensures NoLeak(days, FoldsUpTo(|days|, k, h, h, k), ts)
  {
    var folds := FoldsUpTo(|days|, k, h, h, k);
    forall f, a, b | 0 <= f < |folds| && 0 <= a < |ts| && 0 <= b < |ts|
        && TrainsOn(days, folds[f], ts[a]) && TestsOn(days, folds[f], ts[b])
      ensures !Overlap(ts[a], ts[b])
    {
      var n := FoldAt(|days|, k, h, h, k, folds[f]);
      FoldNeverLeaks(days, h, folds[f], ts[a], ts[b]);
    }
  }

  // ---------------------------------------------------------------- the purge is tight

  /** One symbol's trade reaches w sessions past its fill, every other trade exactly h. */
  predicate OneGap(ts: seq<Held>, h: nat, w: nat) {
    exists g :: 0 <= g < |ts| && ts[g].exit == ts[g].fill + w
                && forall i | 0 <= i < |ts| && i != g :: ts[i].exit == ts[i].fill + h
  }

  /** A train and a test session of the first fold that are h + 1 apart. */
  lemma {:induction false} JustApart(n: nat, k: nat, h: nat) returns (x: int, y: int)
    requires k > 0 && n >= k * 2 && FoldsUpTo(n, k, h, h, k) != []
    ensures var f := FoldsUpTo(n, k, h, h, k)[0];
            && 0 <= x < n && x in f.train && 0 <= y < n && f.lo <= y <= f.hi
            && (y == x + h + 1 || x == y + h + 1)
  {
    var f := FoldsUpTo(n, k, h, h, k)[0];
    var i := FoldAt(n, k, h, h, k, f);
    TrainIs(n, f.lo, f.hi, h, h);
    assert f.train[0] in f.train;
    if f.train[0] < f.lo {
      x, y := f.lo - h - 1, f.lo;
    } else {
      x, y := f.hi + h + 1, f.hi;
    }
  }

  /** Trades filled on x and y, the earlier held w sessions and the later h. */
  function GapPair(x: int, y: int, h: nat, w: nat): seq<Held> {
    if x < y then [Held(x, x + w), Held(y, y + h)] else [Held(x, x + h), Held(y, y + w)]
  }

  lemma {:induction false} GapPairIs(n: nat, x: int, y: int, h: nat, w: nat)
    requires 0 <= x < n && 0 <= y < n && w > h && (y == x + h + 1 || x == y + h + 1)
    ensures var ts := GapPair(x, y, h, w);
            FillDays(Dates(0, n), ts) && OneGap(ts, h, w) && HeldAtMost(ts, w) && Overlap(ts[0], ts[1])
  {
    var ts, g := GapPair(x, y, h, w), if x < y then 0 else 1;
    assert Dates(0, n)[x] == x && Dates(0, n)[y] == y;
    assert ts[g].exit == ts[g].fill + w;
  }

  /** One trade held longer than the horizon is enough to leak, though the other is held exactly that long. */
  lemma {:induction false} OneGapLeaks(n: nat, k: nat, h: nat, w: nat) returns (ts: seq<Held>)
    requires k > 0 && n >= k * 2 && FoldsUpTo(n, k, h, h, k) != [] && w > h
    ensures FillDays(Dates(0, n), ts) && OneGap(ts, h, w) && HeldAtMost(ts, w)
    ensures !NoLeak(Dates(0, n), FoldsUpTo(n, k, h, h, k), ts)
  {
    hide FoldsUpTo, OneGap, HeldAtMost, FillDays;
    var days, folds := Dates(0, n), FoldsUpTo(n, k, h, h, k);
    var x, y := JustApart(n, k, h);
    ts := GapPair(x, y, h, w);
    GapPairIs(n, x, y, h, w);
    assert TrainsOn(days, folds[0], ts[0]) by { assert days[x] == ts[0].fill; }
    assert TestsOn(days, folds[0], ts[1]) by { assert days[y] == ts[1].fill; }
  }

  /**
   The purge is tight. With a fill on every session, folds purged at h are free of leaks for every set
   of trades held at most w sessions exactly when w <= h, and so they are when a single trade is held w
   and all others exactly h: one symbol that skips sessions, and so holds its trade longer on the
   market's calendar, is not covered.
   */
  lemma {:induction false} PurgeIsTight(n: nat, k: nat, h: nat, w: nat)
    requires k > 0 && n >= k * 2 && FoldsUpTo(n, k, h, h, k) != []
    ensures (forall ts: seq<Held> | FillDays(Dates(0, n), ts) && HeldAtMost(ts, w) ::
               NoLeak(Dates(0, n), FoldsUpTo(n, k, h, h, k), ts))
            <==> w <= h
    ensures (forall ts: seq<Held> | FillDays(Dates(0, n), ts) && OneGap(ts, h, w) ::
               NoLeak(Dates(0, n), FoldsUpTo(n, k, h, h, k), ts))
            <==> w <= h
  {
    var days, folds := Dates(0, n), FoldsUpTo(n, k, h, h, k);
    if w <= h {
      forall ts: seq<Held> | FillDays(days, ts) && (HeldAtMost(ts, w) || OneGap(ts, h, w))
        ensures NoLeak(days, folds, ts)
      {
        PurgedFoldsNeverLeak(days, ts, k, h);
      }
    } else {
      var ts := OneGapLeaks(n, k, h, w);
    }
  }
}
