/**
 The signal pass of scripts/backtest_candles.py: per-bar features over the five-minute bars, the five
 rules, and the first trigger of a rule in a symbol-day; and its freedom from look-ahead.
 */
module CandleSignals {
  import opened Arithmetic
  import opened Common
  import opened Sorting
  import opened Tape
  import opened FiveMinute

  datatype Params = Params(
    bucket: int, nMin: int, lo: int, hi: int,
    medBack: nat, medMin: int, look: nat, highAgo: nat,
    r1Vol: real, r1Frac: real, r2Vol: real, r3Vol: real,
    r4Above: int, r4Touch: real, r5Below: int, r5Vol: real)

  /** The registered parameter set; the window 09:45 to 14:00 is minutes 30 to 285. */
  const REGISTERED := Params(5, 3, 30, 285, 20, 8, 6, 3, 2.0, 0.75, 1.5, 1.2, 6, 1.0015, 6, 1.5)

  datatype Rule = R1 | R2 | R3 | R4 | R5

  /** `signal_relation_mfo_hi`: the last minute of the last bucket that can hold a signal bar. */
  function RelationHi(p: Params): int
    requires p.bucket > 0
  {
    var bk := p.hi / p.bucket;
    var last := if p.hi - bk * p.bucket + 1 < p.nMin then bk - 1 else bk;
    last * p.bucket + p.bucket - 1
  }

  // ---------------------------------------------------------------- SQL comparisons with NULL

  predicate Gt(a: Option<real>, b: Option<real>) {
    a.Some? && b.Some? && a.value > b.value
  }

  predicate Le(a: Option<real>, b: Option<real>) {
    a.Some? && b.Some? && a.value <= b.value
  }

  // ---------------------------------------------------------------- windows and lags

  /** `ROWS BETWEEN n PRECEDING AND 1 PRECEDING`. */
  function Prior(f: seq<Five>, i: nat, n: nat): seq<Five>
    requires i < |f|
  {
    f[Max(0, i - n)..i]
  }

  function MaxHigh(s: seq<Five>): Option<real> {
    if s == [] then None
    else
      var front := MaxHigh(s[..|s| - 1]);
      Some(if front.None? then s[|s| - 1].h else MaxReal(front.value, s[|s| - 1].h))
  }

  function CountAbove(s: seq<Five>): int {
    if s == [] then 0
    else CountAbove(s[..|s| - 1]) + if Gt(Some(s[|s| - 1].c), s[|s| - 1].vwap) then 1 else 0
  }

  function CountBelow(s: seq<Five>): int {
    if s == [] then 0
    else CountBelow(s[..|s| - 1]) + if Gt(s[|s| - 1].vwap, Some(s[|s| - 1].c)) then 1 else 0
  }

  function Volumes(s: seq<Five>): seq<real> {
    seq(|s|, i requires 0 <= i < |s| => s[i].v)
  }

  function MedianVolume(s: seq<Five>): Option<real> {
    if s == [] then None else Some(Median(Volumes(s)))
  }

  function LagBar(f: seq<Five>, i: nat, n: nat): Option<Five>
    requires i < |f|
  {
    if i < n then None else Some(f[i - n])
  }

  /** The `w` relation: one bar with its windows and lags. */
  datatype Features = Features(
    x: Five, prior: seq<Five>, n20: nat, med: Option<real>,
    b1: Option<Five>, b2: Option<Five>, b3: Option<Five>, b4: Option<Five>,
    runMaxHigh: Option<real>, maxHighAgo: Option<real>)

  function FeaturesAt(f: seq<Five>, i: nat, p: Params): Features
    requires i < |f|
  {
    var back := Prior(f, i, p.medBack);
    Features(
      f[i], Prior(f, i, p.look), |back|, MedianVolume(back),
      LagBar(f, i, 1), LagBar(f, i, 2), LagBar(f, i, 3), LagBar(f, i, 4),
      MaxHigh(f[..i + 1]), if i < p.highAgo then None else MaxHigh(f[..i - p.highAgo + 1]))
  }

  function C(b: Option<Five>): Option<real> { if b.None? then None else Some(b.value.c) }
  function O(b: Option<Five>): Option<real> { if b.None? then None else Some(b.value.o) }
  function H(b: Option<Five>): Option<real> { if b.None? then None else Some(b.value.h) }
  function W(b: Option<Five>): Option<real> { if b.None? then None else b.value.vwap }

  // ---------------------------------------------------------------- the rules

  predicate VolumeAtLeast(w: Features, mult: real) {
    w.med.Some? && w.x.v >= mult * w.med.value
  }

  predicate Fired(w: Features, rule: Rule, p: Params) {
    var x := w.x;
    && Gt(Some(x.c), x.vwap)
    && match rule
       case R1 =>
         && |w.prior| == p.look && Gt(Some(x.c), MaxHigh(w.prior))
         && VolumeAtLeast(w, p.r1Vol)
         && x.c >= x.l + p.r1Frac * (x.h - x.l)
       case R2 =>
         && x.c > x.o && Gt(C(w.b1), O(w.b1)) && Gt(C(w.b2), O(w.b2))
         && Gt(Some(x.c), H(w.b1)) && Gt(C(w.b1), H(w.b2)) && Gt(C(w.b2), H(w.b3))
         && VolumeAtLeast(w, p.r2Vol)
       case R3 =>
         && Le(w.runMaxHigh, w.maxHighAgo)
         && Gt(C(w.b2), C(w.b1)) && Gt(C(w.b3), C(w.b2)) && Gt(C(w.b4), C(w.b3))
         && Gt(C(w.b1), W(w.b1)) && Gt(C(w.b2), W(w.b2)) && Gt(C(w.b3), W(w.b3))
         && x.c > x.o && Le(Some(x.o), C(w.b1)) && Le(O(w.b1), Some(x.c))
         && VolumeAtLeast(w, p.r3Vol)
       case R4 =>
         && |w.prior| == p.r4Above && CountAbove(w.prior) == p.r4Above
         && x.l <= x.vwap.value * p.r4Touch && x.c > x.o
       case R5 =>
         && |w.prior| == p.r5Below && CountBelow(w.prior) == p.r5Below
         && VolumeAtLeast(w, p.r5Vol)
  }

  /** A bar inside the signal window with enough valid bars before it. */
  predicate Candidate(w: Features, p: Params) {
    p.lo <= w.x.lastMfo <= p.hi && w.n20 >= p.medMin && Gt(w.med, Some(0.0))
  }

  predicate Triggers(f: seq<Five>, i: nat, rule: Rule, p: Params)
    requires i < |f|
  {
    Candidate(FeaturesAt(f, i, p), p) && Fired(FeaturesAt(f, i, p), rule, p)
  }

  /** The first triggering bar at lo or later, or |f|. */
  function TriggerFrom(f: seq<Five>, lo: nat, rule: Rule, p: Params): (i: nat)
    requires lo <= |f|
    ensures lo <= i <= |f|
    decreases |f| - lo
  {
    if lo == |f| || Triggers(f, lo, rule, p) then lo else TriggerFrom(f, lo + 1, rule, p)
  }

  function FirstTrigger(f: seq<Five>, rule: Rule, p: Params): (r: Option<nat>)
    ensures r.Some? ==> r.value < |f|
  {
    var i := TriggerFrom(f, 0, rule, p);
    if i < |f| then Some(i) else None
  }

  lemma {:induction false} TriggerIsFirst(f: seq<Five>, lo: nat, rule: Rule, p: Params, j: nat)
    requires lo <= j < |f|
    ensures j < TriggerFrom(f, lo, rule, p) ==> !Triggers(f, j, rule, p)
    ensures j == TriggerFrom(f, lo, rule, p) ==> Triggers(f, j, rule, p)
    decreases |f| - lo
  {
    if lo < j && !Triggers(f, lo, rule, p) {
      TriggerIsFirst(f, lo + 1, rule, p, j);
    }
  }

  /** A rule's first trigger is a bar of the window on which it fires, and no earlier one is. */
  lemma {:induction false} FirstTriggerIs(f: seq<Five>, rule: Rule, p: Params, j: nat)
    requires j < |f|
    ensures FirstTrigger(f, rule, p) == Some(j) ==> Triggers(f, j, rule, p)
    ensures FirstTrigger(f, rule, p).None? || j < FirstTrigger(f, rule, p).value ==> !Triggers(f, j, rule, p)
  {
    TriggerIsFirst(f, 0, rule, p, j);
  }

  /** A signal bar and its volume over the median of the bars before it. */
  datatype Signal = Signal(bar: Five, volRatio: real)

  function SignalAt(w: Features): Signal {
    Signal(w.x, if w.med.Some? && w.med.value != 0.0 then w.x.v / w.med.value else 0.0)
  }

  /** The symbol-day's first trigger of a rule, over the one-minute bars up to minute `mfoHi`. */
  function SignalOf(t: seq<Bar>, rule: Rule, p: Params, mfoHi: int): Option<Signal>
    requires p.bucket > 0
  {
    var f := FiveBars(t, p.bucket, p.nMin, mfoHi);
    var i := FirstTrigger(f, rule, p);
    if i.None? then None else Some(SignalAt(FeaturesAt(f, i.value, p)))
  }

  // ---------------------------------------------------------------- causality of features and rules

  /** A bar's features depend on the bars up to and including it. */
  lemma {:induction false} FeaturesAreCausal(f: seq<Five>, g: seq<Five>, i: nat, p: Params)
    requires i < |f| && i < |g| && f[..i + 1] == g[..i + 1]
    ensures FeaturesAt(g, i, p) == FeaturesAt(f, i, p)
  {
    var s := f[..i + 1];
    forall n: nat ensures Prior(f, i, n) == Prior(g, i, n) {
      assert Prior(f, i, n) == s[Max(0, i - n)..i] == Prior(g, i, n);
    }
    forall n: nat ensures LagBar(f, i, n) == LagBar(g, i, n) {
      if n <= i {
        assert f[i - n] == s[i - n] == g[i - n];
      }
    }
    if p.highAgo <= i {
      assert f[..i - p.highAgo + 1] == s[..i - p.highAgo + 1] == g[..i - p.highAgo + 1];
    }
    assert f[i] == s[i] == g[i];
  }

  lemma {:induction false} TriggersIsCausal(f: seq<Five>, g: seq<Five>, i: nat, rule: Rule, p: Params)
    requires i < |f| && i < |g| && f[..i + 1] == g[..i + 1]
    ensures Triggers(f, i, rule, p) == Triggers(g, i, rule, p)
  {
    FeaturesAreCausal(f, g, i, p);
  }

  lemma {:induction false} TriggerFromIsCausal(f: seq<Five>, g: seq<Five>, lo: nat, rule: Rule, p: Params, i: nat)
    requires lo <= i < |f| && i < |g| && f[..i + 1] == g[..i + 1]
    requires TriggerFrom(f, lo, rule, p) == i
    ensures TriggerFrom(g, lo, rule, p) == i
    decreases i - lo
  {
    assert f[..lo + 1] == f[..i + 1][..lo + 1] == g[..lo + 1];
    TriggersIsCausal(f, g, lo, rule, p);
    if lo < i {
      TriggerFromIsCausal(f, g, lo + 1, rule, p, i);
    }
  }

  lemma {:induction false} TriggerFromOfPrefix(f: seq<Five>, g: seq<Five>, lo: nat, rule: Rule, p: Params)
    requires f <= g && lo <= |f|
    requires forall j | |f| <= j < |g| :: !Candidate(FeaturesAt(g, j, p), p)
    ensures var (a, b) := (TriggerFrom(f, lo, rule, p), TriggerFrom(g, lo, rule, p));
            if a < |f| then a == b else b == |g|
    decreases |f| - lo
  {
    if lo < |f| {
      assert f[..lo + 1] == g[..lo + 1];
      TriggersIsCausal(f, g, lo, rule, p);
      TriggerFromOfPrefix(f, g, lo + 1, rule, p);
    } else {
      NoMoreTriggers(g, lo, rule, p);
    }
  }

  lemma {:induction false} NoMoreTriggers(g: seq<Five>, lo: nat, rule: Rule, p: Params)
    requires lo <= |g|
    requires forall j | lo <= j < |g| :: !Candidate(FeaturesAt(g, j, p), p)
    ensures TriggerFrom(g, lo, rule, p) == |g|
    decreases |g| - lo
  {
    if lo < |g| {
      NoMoreTriggers(g, lo + 1, rule, p);
    }
  }

  /** The first trigger at i is decided by the bars up to i. */
  lemma {:induction false} FirstTriggerIsCausal(f: seq<Five>, g: seq<Five>, rule: Rule, p: Params, i: nat)
    requires FirstTrigger(f, rule, p) == Some(i)
    requires i < |g| && f[..i + 1] == g[..i + 1]
    ensures FirstTrigger(g, rule, p) == Some(i)
    ensures FeaturesAt(g, i, p) == FeaturesAt(f, i, p)
  {
    TriggerFromIsCausal(f, g, 0, rule, p, i);
    FeaturesAreCausal(f, g, i, p);
  }

  /** Bars after f that are not candidates do not matter. */
  lemma {:induction false} FirstTriggerOfPrefix(f: seq<Five>, g: seq<Five>, rule: Rule, p: Params)
    requires f <= g
    requires forall j | |f| <= j < |g| :: !Candidate(FeaturesAt(g, j, p), p)
    ensures FirstTrigger(f, rule, p) == FirstTrigger(g, rule, p)
  {
    TriggerFromOfPrefix(f, g, 0, rule, p);
  }

  // ---------------------------------------------------------------- the cut loses nothing

  /** A valid bucket numbered k or later closes after hi when bucket k cannot be valid by hi. */
  lemma {:induction false} LateBucketCloses(r: seq<VBar>, size: int, nMin: int, top: int, j: int, k: int, hi: int)
    requires size > 0 && BarsAscending(r) && 0 <= j < |Buckets(r, size, nMin, top)|
    requires k <= Buckets(r, size, nMin, top)[j].bk
    requires k * size + size > hi
    requires k * size <= hi ==> hi - k * size + 1 < nMin
    ensures Buckets(r, size, nMin, top)[j].lastMfo > hi
  {
    var bk := Buckets(r, size, nMin, top)[j].bk;
    BucketAt(r, size, nMin, top, j);
    BucketSize(r, size, bk);
    if bk > k {
      MulOrder(k + 1, bk, size);
      assert (k + 1) * size == k * size + size;
    }
  }

  /**
   The cut relation's five-minute bars begin the full day's, and every bar it leaves out closes
   after the signal window: no valid bar with its last minute inside the window is lost or changed.
   */
  lemma {:induction false} CutKeepsWindowBars(t: seq<Bar>, p: Params, full: int)
    requires p.bucket > 0 && Ascending(t) && RelationHi(p) <= full
    ensures var f := FiveBars(t, p.bucket, p.nMin, RelationHi(p));
            var g := FiveBars(t, p.bucket, p.nMin, full);
            f <= g && forall j | |f| <= j < |g| :: g[j].lastMfo > p.hi
  {
    var size := p.bucket;
    var k := (RelationHi(p) + 1) / size;
    var r := WithVwap(Between(t, 0, full));
    BoundaryBucket(p);
    BucketsBefore(t, size, p.nMin, k, full);
    Quotient(full, size, full / size);
    AtLeast(full, size, k - 1);
    BucketsExtend(r, size, p.nMin, k, full / size + 1);
    BetweenAscends(t, 0, full);
    var f, g := FiveBars(t, size, p.nMin, RelationHi(p)), FiveBars(t, size, p.nMin, full);
    assert f == Buckets(r, size, p.nMin, k) && g == Buckets(r, size, p.nMin, full / size + 1);
    forall j | |f| <= j < |g| ensures g[j].lastMfo > p.hi {
      LateBucketCloses(r, size, p.nMin, full / size + 1, j, k, p.hi);
    }
  }

  /** The cut falls on a bucket boundary, and no valid bucket after it closes inside the window. */
  lemma {:induction false} BoundaryBucket(p: Params)
    requires p.bucket > 0
    ensures var k := (RelationHi(p) + 1) / p.bucket;
            && RelationHi(p) + 1 == k * p.bucket && RelationHi(p) / p.bucket + 1 == k
            && k * p.bucket + p.bucket > p.hi
            && (k * p.bucket <= p.hi ==> p.hi - k * p.bucket + 1 < p.nMin)
  {
    var size := p.bucket;
    var bk := p.hi / size;
    var last := if p.hi - bk * size + 1 < p.nMin then bk - 1 else bk;
    assert p.hi == bk * size + p.hi % size;
    assert (last + 1) * size == last * size + size;
    Quotient(RelationHi(p) + 1, size, last + 1);
    Quotient(RelationHi(p), size, last);
  }

  /**
   Look-ahead freedom of the signal pass: for every tape, rule, window, bucket size and validity
   floor, the pass over the cut relation finds exactly the signal the whole day would give.
   */
  lemma {:induction false} CutTapeSameSignal(t: seq<Bar>, rule: Rule, p: Params, full: int)
    requires p.bucket > 0 && Ascending(t) && RelationHi(p) <= full
    ensures SignalOf(t, rule, p, RelationHi(p)) == SignalOf(t, rule, p, full)
  {
    var f := FiveBars(t, p.bucket, p.nMin, RelationHi(p));
    var g := FiveBars(t, p.bucket, p.nMin, full);
    CutKeepsWindowBars(t, p, full);
    FirstTriggerOfPrefix(f, g, rule, p);
    var i := FirstTrigger(f, rule, p);
    if i.Some? {
      assert f[..i.value + 1] == g[..i.value + 1];
      FeaturesAreCausal(f, g, i.value, p);
    }
  }

  /** For the registered window the cut is 13:59. */
  lemma {:induction false} RegisteredCut()
    ensures RelationHi(REGISTERED) == 284
  {
  }
}
