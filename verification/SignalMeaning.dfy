/**
 What a reported signal of scripts/backtest_candles.py is, bar by bar: each rule as a statement about the
 five-minute bars by position, and the signal as the first position of the window at which it holds.
 */
module SignalMeaning {
  import opened Common
  import opened Sorting
  import opened Tape
  import opened FiveMinute
  import opened CandleSignals

  /** The bar closed above, or below, a VWAP that is known. */
  predicate ClosedAbove(x: Five) {
    x.vwap.Some? && x.c > x.vwap.value
  }

  predicate ClosedBelow(x: Five) {
    x.vwap.Some? && x.c < x.vwap.value
  }

  predicate Bullish(x: Five) {
    x.c > x.o
  }

  /** The volumes of the bars lo, lo + 1, .., hi - 1. */
  function VolumesFrom(f: seq<Five>, lo: nat, hi: nat): (s: seq<real>)
    requires lo <= hi <= |f|
    ensures |s| == hi - lo
    ensures forall k | 0 <= k < hi - lo :: s[k] == f[lo + k].v
    decreases hi - lo
  {
    if lo == hi then [] else [f[lo].v] + VolumesFrom(f, lo + 1, hi)
  }

  /** m is the median volume of the up to n bars before bar i. */
  predicate MiddleVolume(f: seq<Five>, i: nat, n: nat, m: real)
    requires i < |f|
  {
    i > 0 && n > 0 && m == Median(VolumesFrom(f, if i < n then 0 else i - n, i))
  }

  /** The bar lies in the signal window and has enough traded bars before it. */
  predicate InWindow(f: seq<Five>, i: nat, p: Params, m: real)
    requires i < |f|
  {
    && p.lo <= f[i].lastMfo <= p.hi
    && i >= p.medMin && p.medBack >= p.medMin
    && MiddleVolume(f, i, p.medBack, m) && m > 0.0
  }

  /** Volume-backed close above the highs of the `look` bars before, in the top of its own range. */
  predicate Breakout(f: seq<Five>, i: nat, p: Params, m: real)
    requires i < |f|
  {
    && 0 < p.look <= i && (forall j | i - p.look <= j < i :: f[j].h < f[i].c)
    && f[i].v >= p.r1Vol * m
    && f[i].c - f[i].l >= p.r1Frac * (f[i].h - f[i].l)
  }

  /** Three bullish bars in a row, each closing above the high of the one before. */
  predicate ThreeSoldiers(f: seq<Five>, i: nat, p: Params, m: real)
    requires i < |f|
  {
    && i >= 3 && (forall j | i - 2 <= j <= i :: Bullish(f[j]) && f[j].c > f[j - 1].h)
    && f[i].v >= p.r2Vol * m
  }

  /** The session's high is old enough; three falling closes above VWAP are engulfed by a bullish bar. */
  predicate EngulfedPullback(f: seq<Five>, i: nat, p: Params, m: real)
    requires i < |f|
  {
    && i >= 4
    && (exists k :: 0 <= k <= i - p.highAgo && forall j | 0 <= j <= i :: f[j].h <= f[k].h)
    && (forall j | i - 3 <= j < i :: f[j].c < f[j - 1].c && ClosedAbove(f[j]))
    && Bullish(f[i]) && f[i].o <= f[i - 1].c && f[i].c >= f[i - 1].o
    && f[i].v >= p.r3Vol * m
  }

  /** The bars before all closed above VWAP, and this one touches it and closes up. */
  predicate VwapHold(f: seq<Five>, i: nat, p: Params)
    requires i < |f| && f[i].vwap.Some?
  {
    && 0 <= p.r4Above == Min(i, p.look) && (forall j | i - p.r4Above <= j < i :: ClosedAbove(f[j]))
    && f[i].l <= f[i].vwap.value * p.r4Touch && Bullish(f[i])
  }

  /** The bars before all closed below VWAP. */
  predicate VwapReclaim(f: seq<Five>, i: nat, p: Params, m: real)
    requires i < |f|
  {
    && 0 <= p.r5Below == Min(i, p.look) && (forall j | i - p.r5Below <= j < i :: ClosedBelow(f[j]))
    && f[i].v >= p.r5Vol * m
  }

  /** The rule's pattern, on bars that close above VWAP. */
  predicate Pattern(f: seq<Five>, i: nat, rule: Rule, p: Params, m: real)
    requires i < |f|
  {
    && ClosedAbove(f[i])
    && match rule
       case R1 => Breakout(f, i, p, m)
       case R2 => ThreeSoldiers(f, i, p, m)
       case R3 => EngulfedPullback(f, i, p, m)
       case R4 => VwapHold(f, i, p)
       case R5 => VwapReclaim(f, i, p, m)
  }

  ghost predicate IsTrigger(f: seq<Five>, i: nat, rule: Rule, p: Params, m: real)
    requires i < |f|
  {
    InWindow(f, i, p, m) && Pattern(f, i, rule, p, m)
  }

  /** Whatever the median volume before it is, the bar triggers the rule. */
  ghost predicate Shows(f: seq<Five>, i: nat, rule: Rule, p: Params)
    requires i < |f|
  {
    exists m :: IsTrigger(f, i, rule, p, m)
  }

  /** s is bar i, the first to trigger the rule, and its volume over the median of those before it. */
  ghost predicate IsSignal(f: seq<Five>, i: nat, rule: Rule, p: Params, s: Signal)
    requires i < |f|
  {
    && (forall j: nat | j < i :: !Shows(f, j, rule, p))
    && exists m :: IsTrigger(f, i, rule, p, m) && s.bar == f[i] && s.volRatio * m == f[i].v
  }

  // ---------------------------------------------------------------- windows and counts by position

  lemma {:induction false} MaxHighBelow(s: seq<Five>, x: real)
    ensures Gt(Some(x), MaxHigh(s)) <==> s != [] && forall j | 0 <= j < |s| :: s[j].h < x
  {
    if s != [] {
      MaxHighBelow(s[..|s| - 1], x);
    }
  }

  lemma {:induction false} CountAboveAll(s: seq<Five>)
    ensures CountAbove(s) <= |s|
    ensures CountAbove(s) == |s| <==> forall j | 0 <= j < |s| :: ClosedAbove(s[j])
  {
    if s != [] {
      CountAboveAll(s[..|s| - 1]);
    }
  }

  lemma {:induction false} CountBelowAll(s: seq<Five>)
    ensures CountBelow(s) <= |s|
    ensures CountBelow(s) == |s| <==> forall j | 0 <= j < |s| :: ClosedBelow(s[j])
  {
    if s != [] {
      CountBelowAll(s[..|s| - 1]);
    }
  }

  lemma {:induction false} HighestOf(s: seq<Five>) returns (k: int)
    requires s != []
    ensures MaxHigh(s).Some? && 0 <= k < |s| && s[k].h == MaxHigh(s).value
    ensures forall j | 0 <= j < |s| :: s[j].h <= MaxHigh(s).value
  {
    var n := |s| - 1;
    k := n;
    if n > 0 {
      var front := s[..n];
      var x := HighestOf(front);
      assert s[x] == front[x];
      if s[n].h < s[x].h {
        k := x;
      }
    }
  }

  /** The highest high up to i is already that of the bars up to i - ago. */
  lemma {:induction false} OldHighIff(f: seq<Five>, i: nat, ago: nat)
    requires i < |f|
    ensures Le(MaxHigh(f[..i + 1]), if i < ago then None else MaxHigh(f[..i - ago + 1]))
        <==> exists k :: 0 <= k <= i - ago && forall j | 0 <= j <= i :: f[j].h <= f[k].h
  {
    var x := HighestOf(f[..i + 1]);
    if i >= ago {
      var k := HighestOf(f[..i - ago + 1]);
      if y :| 0 <= y <= i - ago && forall j | 0 <= j <= i :: f[j].h <= f[y].h {
        assert f[x].h <= f[y].h && f[..i - ago + 1][y].h <= f[k].h;
      }
      if f[x].h <= f[k].h {
        forall j | 0 <= j <= i ensures f[j].h <= f[k].h {
          assert f[..i + 1][j] == f[j];
        }
      }
    }
  }

  lemma {:induction false} PriorVolumes(f: seq<Five>, i: nat, n: nat)
    requires i < |f|
    ensures |Prior(f, i, n)| == Min(i, n)
    ensures Volumes(Prior(f, i, n)) == VolumesFrom(f, i - Min(i, n), i)
  {
  }

  // ---------------------------------------------------------------- each rule fires exactly on its pattern

  lemma {:induction false} CandidateIff(f: seq<Five>, i: nat, p: Params, m: real)
    requires i < |f|
    ensures InWindow(f, i, p, m) <==> Candidate(FeaturesAt(f, i, p), p) && FeaturesAt(f, i, p).med == Some(m)
  {
    PriorVolumes(f, i, p.medBack);
  }

  lemma {:induction false} WindowHighs(f: seq<Five>, i: nat, n: nat, x: real)
    requires i < |f|
    ensures |Prior(f, i, n)| == n && Gt(Some(x), MaxHigh(Prior(f, i, n)))
        <==> 0 < n <= i && forall j | i - n <= j < i :: f[j].h < x
  {
    hide MaxHigh;
    var prior := Prior(f, i, n);
    MaxHighBelow(prior, x);
    if 0 < n <= i {
      if Gt(Some(x), MaxHigh(prior)) {
        forall j | i - n <= j < i ensures f[j].h < x {
          assert f[j] == prior[j - (i - n)];
        }
      } else {
        var k :| 0 <= k < |prior| && prior[k].h >= x;
        assert f[i - n + k] == prior[k];
      }
    }
  }

  lemma {:induction false} WindowAbove(f: seq<Five>, i: nat, look: nat, n: int)
    requires i < |f|
    ensures |Prior(f, i, look)| == n && CountAbove(Prior(f, i, look)) == n
        <==> n == Min(i, look) && forall j | i - n <= j < i :: ClosedAbove(f[j])
  {
    hide CountAbove, ClosedAbove;
    var prior := Prior(f, i, look);
    CountAboveAll(prior);
    if |prior| == n {
      if CountAbove(prior) == n {
        forall j | i - n <= j < i ensures ClosedAbove(f[j]) {
          assert f[j] == prior[j - (i - n)];
        }
      } else {
        var k :| 0 <= k < |prior| && !ClosedAbove(prior[k]);
        assert f[i - n + k] == prior[k];
      }
    }
  }

  lemma {:induction false} WindowBelow(f: seq<Five>, i: nat, look: nat, n: int)
    requires i < |f|
    ensures |Prior(f, i, look)| == n && CountBelow(Prior(f, i, look)) == n
        <==> n == Min(i, look) && forall j | i - n <= j < i :: ClosedBelow(f[j])
  {
    hide CountBelow, ClosedBelow;
    var prior := Prior(f, i, look);
    CountBelowAll(prior);
    if |prior| == n {
      if CountBelow(prior) == n {
        forall j | i - n <= j < i ensures ClosedBelow(f[j]) {
          assert f[j] == prior[j - (i - n)];
        }
      } else {
        var k :| 0 <= k < |prior| && !ClosedBelow(prior[k]);
        assert f[i - n + k] == prior[k];
      }
    }
  }

  lemma {:induction false} BreakoutIff(f: seq<Five>, i: nat, p: Params, m: real)
    requires i < |f| && FeaturesAt(f, i, p).med == Some(m) && ClosedAbove(f[i])
    ensures Fired(FeaturesAt(f, i, p), R1, p) <==> Breakout(f, i, p, m)
  {
    hide MaxHigh, MedianVolume, Prior, CountAbove, CountBelow;
    WindowHighs(f, i, p.look, f[i].c);
  }

  lemma {:induction false} SoldiersIff(f: seq<Five>, i: nat, p: Params, m: real)
    requires i < |f| && FeaturesAt(f, i, p).med == Some(m) && ClosedAbove(f[i])
    ensures Fired(FeaturesAt(f, i, p), R2, p) <==> ThreeSoldiers(f, i, p, m)
  {
    hide MaxHigh, MedianVolume, Prior;
    if i >= 3 {
      assert (forall j | i - 2 <= j <= i :: Bullish(f[j]) && f[j].c > f[j - 1].h) <==>
             && Bullish(f[i]) && f[i].c > f[i - 1].h && Bullish(f[i - 1]) && f[i - 1].c > f[i - 2].h
             && Bullish(f[i - 2]) && f[i - 2].c > f[i - 3].h;
    }
  }

  lemma {:induction false} PullbackIff(f: seq<Five>, i: nat, p: Params, m: real)
    requires i < |f| && FeaturesAt(f, i, p).med == Some(m) && ClosedAbove(f[i])
    ensures Fired(FeaturesAt(f, i, p), R3, p) <==> EngulfedPullback(f, i, p, m)
  {
    hide MaxHigh, MedianVolume, Prior, CountAbove, CountBelow;
    OldHighIff(f, i, p.highAgo);
    if i >= 4 {
      assert (forall j | i - 3 <= j < i :: f[j].c < f[j - 1].c && ClosedAbove(f[j])) <==>
             && f[i - 1].c < f[i - 2].c && ClosedAbove(f[i - 1]) && f[i - 2].c < f[i - 3].c && ClosedAbove(f[i - 2])
             && f[i - 3].c < f[i - 4].c && ClosedAbove(f[i - 3]);
    }
  }

  lemma {:induction false} HoldIff(f: seq<Five>, i: nat, p: Params)
    requires i < |f| && ClosedAbove(f[i])
    ensures Fired(FeaturesAt(f, i, p), R4, p) <==> VwapHold(f, i, p)
  {
    hide MaxHigh, MedianVolume, Prior, CountAbove, CountBelow;
    WindowAbove(f, i, p.look, p.r4Above);
  }

  lemma {:induction false} ReclaimIff(f: seq<Five>, i: nat, p: Params, m: real)
    requires i < |f| && FeaturesAt(f, i, p).med == Some(m) && ClosedAbove(f[i])
    ensures Fired(FeaturesAt(f, i, p), R5, p) <==> VwapReclaim(f, i, p, m)
  {
    hide MaxHigh, MedianVolume, Prior, CountAbove, CountBelow;
    WindowBelow(f, i, p.look, p.r5Below);
  }

  lemma {:induction false} PatternIff(f: seq<Five>, i: nat, rule: Rule, p: Params, m: real)
    requires i < |f| && FeaturesAt(f, i, p).med == Some(m)
    ensures Fired(FeaturesAt(f, i, p), rule, p) <==> Pattern(f, i, rule, p, m)
  {
    hide Breakout, ThreeSoldiers, EngulfedPullback, VwapHold, VwapReclaim, MaxHigh, MedianVolume, Prior;
    if ClosedAbove(f[i]) {
      match rule
      case R1 => BreakoutIff(f, i, p, m);
      case R2 => SoldiersIff(f, i, p, m);
      case R3 => PullbackIff(f, i, p, m);
      case R4 => HoldIff(f, i, p);
      case R5 => ReclaimIff(f, i, p, m);
    }
  }

  /** A bar triggers a rule exactly when it lies in the window and shows the rule's pattern. */
  lemma {:induction false} TriggersIff(f: seq<Five>, i: nat, rule: Rule, p: Params)
    requires i < |f|
    ensures Triggers(f, i, rule, p) <==> Shows(f, i, rule, p)
    ensures forall m :: IsTrigger(f, i, rule, p, m) ==> FeaturesAt(f, i, p).med == Some(m) && m > 0.0
  {
    hide InWindow, Pattern, Fired, FeaturesAt;
    var w := FeaturesAt(f, i, p);
    forall m ensures IsTrigger(f, i, rule, p, m) ==> w.med == Some(m) && m > 0.0 && Triggers(f, i, rule, p) {
      CandidateIff(f, i, p, m);
      if w.med == Some(m) {
        PatternIff(f, i, rule, p, m);
      }
    }
    if Triggers(f, i, rule, p) {
      var m := w.med.value;
      CandidateIff(f, i, p, m);
      PatternIff(f, i, rule, p, m);
      assert IsTrigger(f, i, rule, p, m);
    }
  }

  lemma {:induction false} RatioIs(x: real, m: real, q: real)
    requires m > 0.0
    ensures q == x / m <==> q * m == x
  {
    assert (x / m) * m == x;
    if q * m == x {
      assert q == q * m / m;
    }
  }

  /** A rule's first trigger is the first bar of the window that shows its pattern, if any does. */
  lemma {:induction false} FirstTriggerIff(f: seq<Five>, rule: Rule, p: Params, i: nat)
    requires i < |f|
    ensures FirstTrigger(f, rule, p) == Some(i) <==>
            Shows(f, i, rule, p) && forall j: nat | j < i :: !Shows(f, j, rule, p)
    ensures FirstTrigger(f, rule, p) == None ==> !Shows(f, i, rule, p)
  {
    hide Shows, Triggers, FirstTrigger;
    var r := FirstTrigger(f, rule, p);
    forall j: nat | j < |f|
      ensures r == Some(j) ==> Shows(f, j, rule, p)
      ensures r.None? || j < r.value ==> !Shows(f, j, rule, p)
    {
      TriggersIff(f, j, rule, p);
      FirstTriggerIs(f, rule, p, j);
    }
    assert r.Some? ==> Shows(f, r.value, rule, p);
  }

  lemma {:induction false} SignalAtIs(f: seq<Five>, i: nat, rule: Rule, p: Params, s: Signal, m: real)
    requires i < |f| && IsTrigger(f, i, rule, p, m)
    ensures SignalAt(FeaturesAt(f, i, p)) == s <==> s.bar == f[i] && s.volRatio * m == f[i].v
  {
    hide IsTrigger, Prior, MaxHigh, MedianVolume;
    TriggersIff(f, i, rule, p);
    RatioIs(f[i].v, m, s.volRatio);
  }

  lemma {:induction false} ReportedIff(f: seq<Five>, i: nat, rule: Rule, p: Params, s: Signal)
    requires i < |f|
    ensures IsSignal(f, i, rule, p, s) <==> FirstTrigger(f, rule, p) == Some(i) && SignalAt(FeaturesAt(f, i, p)) == s
  {
    hide IsTrigger, FirstTrigger, FeaturesAt, SignalAt;
    FirstTriggerIff(f, rule, p, i);
    forall m | IsTrigger(f, i, rule, p, m)
      ensures SignalAt(FeaturesAt(f, i, p)) == s <==> s.bar == f[i] && s.volRatio * m == f[i].v
    {
      SignalAtIs(f, i, rule, p, s, m);
    }
  }

  /**
   The signal pass reports a signal exactly when it is the first bar of the window that shows the rule's
   pattern; the reported ratio is its volume over the median volume of the bars before it.
   */
  lemma {:induction false} SignalIff(t: seq<Bar>, rule: Rule, p: Params, hi: int, s: Signal)
    requires p.bucket > 0
    ensures var f := FiveBars(t, p.bucket, p.nMin, hi);
            SignalOf(t, rule, p, hi) == Some(s) <==> exists i: nat | i < |f| :: IsSignal(f, i, rule, p, s)
  {
    hide IsSignal, FirstTrigger, FiveBars, FeaturesAt, SignalAt;
    var f := FiveBars(t, p.bucket, p.nMin, hi);
    var r := FirstTrigger(f, rule, p);
    forall i: nat | i < |f|
      ensures IsSignal(f, i, rule, p, s) <==> r == Some(i) && SignalAt(FeaturesAt(f, i, p)) == s
    {
      ReportedIff(f, i, rule, p, s);
    }
    assert r.Some? ==> (IsSignal(f, r.value, rule, p, s) <==> SignalAt(FeaturesAt(f, r.value, p)) == s);
  }

  /** It reports none exactly when no bar of the window shows the pattern. */
  lemma {:induction false} NoSignalIff(t: seq<Bar>, rule: Rule, p: Params, hi: int)
    requires p.bucket > 0
    ensures var f := FiveBars(t, p.bucket, p.nMin, hi);
            SignalOf(t, rule, p, hi) == None <==> forall i: nat | i < |f| :: !Shows(f, i, rule, p)
  {
    hide Shows, FirstTrigger, FiveBars;
    var f := FiveBars(t, p.bucket, p.nMin, hi);
    var r := FirstTrigger(f, rule, p);
    forall i: nat | i < |f|
      ensures r == Some(i) ==> Shows(f, i, rule, p)
      ensures r == None ==> !Shows(f, i, rule, p)
    {
      FirstTriggerIff(f, rule, p, i);
    }
    assert r.Some? ==> Shows(f, r.value, rule, p);
  }
}
