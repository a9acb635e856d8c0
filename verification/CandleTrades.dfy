/**
 A candles trade from tape to fill: the first trigger of the signal pass, the entry one minute after
 the signal bar, and either exit. A trade does not depend on any bar after the one it exits on.
 */
module CandleTrades {
  import opened Arithmetic
  import opened Common
  import opened Tape
  import opened FiveMinute
  import opened CandleSignals
  import opened CandleExits

  // The 15:29 bar.
  const LAST_1M_MFO := 374

  /** `load_post_signal_1m`: the bars from the start of the signal window to squareoff. */
  function PostSignal(t: seq<Bar>, p: Params, squareoff: int): seq<Bar> {
    Between(t, p.lo, squareoff)
  }

  /** R5 stops at the signal bar's VWAP, every other rule at its low. */
  function StopOf(s: Signal, rule: Rule): Option<real> {
    if rule == R5 then s.bar.vwap else Some(s.bar.l)
  }

  function TrailOf(f: seq<Five>): (trail: seq<Trail>)
    ensures |trail| == Max(|f| - 1, 0)
    ensures forall i | 0 <= i < |trail| :: trail[i] == Trail(f[i + 1].bk, f[i + 1].lastMfo, f[i + 1].c, f[i].l)
  {
    if |f| < 2 then []
    else seq(|f| - 1, i requires 0 <= i < |f| - 1 => Trail(f[i + 1].bk, f[i + 1].lastMfo, f[i + 1].c, f[i].l))
  }

  /** `load_trail_bars`: the whole session's five-minute bars, each with its predecessor's low. */
  function DayTrail(t: seq<Bar>, p: Params): seq<Trail>
    requires p.bucket > 0
  {
    TrailOf(FiveBars(t, p.bucket, p.nMin, LAST_1M_MFO))
  }

  function TradeE1(t: seq<Bar>, rule: Rule, p: Params, r: real, squareoff: int): Option<Fill>
    requires p.bucket > 0
  {
    var s := SignalOf(t, rule, p, RelationHi(p));
    if s.None? then None
    else E1(PostSignal(t, p, squareoff), s.value.bar.lastMfo + 1, StopOf(s.value, rule), r, squareoff)
  }

  function TradeE2(t: seq<Bar>, rule: Rule, p: Params, squareoff: int): Option<Fill>
    requires p.bucket > 0
  {
    var s := SignalOf(t, rule, p, RelationHi(p));
    if s.None? then None
    else E2(PostSignal(t, p, squareoff), DayTrail(t, p), s.value.bar.lastMfo + 1, s.value.bar.bk, squareoff)
  }

  // ---------------------------------------------------------------- five-minute bars over agreeing tapes

  /** The last minute of a bucket bounds every bar of the tape that falls in it. */
  lemma {:induction false} LastOfBucket(t: seq<Bar>, size: int, nMin: int, hi: int, i: int, j: int)
    requires size > 0 && Ascending(t) && 0 <= i < |FiveBars(t, size, nMin, hi)|
    requires 0 <= j < |t| && 0 <= t[j].mfo <= hi
    requires t[j].mfo / size == FiveBars(t, size, nMin, hi)[i].bk
    ensures t[j].mfo <= FiveBars(t, size, nMin, hi)[i].lastMfo
  {
    hide FiveBars;
    FiveBarIs(t, size, nMin, hi, i);
    assert InBucket(t, t[j], size, hi, FiveBars(t, size, nMin, hi)[i].bk);
    assert Spans(FiveBars(t, size, nMin, hi)[i], t[j]);
  }

  lemma {:induction false} BucketMinutes(t: seq<Bar>, size: int, nMin: int, hi: int, i: int)
    requires size > 0 && Ascending(t) && 0 <= i < |FiveBars(t, size, nMin, hi)|
    ensures var f := FiveBars(t, size, nMin, hi)[i];
            && 0 <= f.bk <= hi / size && f.bk * size <= f.lastMfo < f.bk * size + size
            && f.lastMfo <= hi
            && (exists j :: 0 <= j < |t| && t[j].mfo == f.lastMfo)
  {
    hide Buckets, High, Low, SumVolume, LastVwap;
    var all := Between(t, 0, hi);
    var r := WithVwap(all);
    var bk := FiveBars(t, size, nMin, hi)[i].bk;
    BucketAt(r, size, nMin, hi / size + 1, i);
    BetweenAscends(t, 0, hi);
    BucketSize(r, size, bk);
    var rows := RowsOf(r, size, bk);
    var last := rows[|rows| - 1];
    RowsOfHas(r, size, bk, last);
    Quotient(last.bar.mfo, size, bk);
    var x :| 0 <= x < |r| && r[x] == last;
    BetweenHas(t, 0, hi, all[x]);
    var j :| 0 <= j < |t| && t[j] == all[x];
    assert t[j].mfo == last.bar.mfo;
  }

  lemma {:induction false} AgreeThroughBucket(a: seq<Bar>, b: seq<Bar>, size: int, nMin: int, hi: int, i: int, m: int)
    requires size > 0 && Ascending(a) && AgreeToOpen(a, b, m)
    requires 0 <= i < |FiveBars(a, size, nMin, hi)| && FiveBars(a, size, nMin, hi)[i].lastMfo < m
    ensures AgreeThrough(a, b, Min((FiveBars(a, size, nMin, hi)[i].bk + 1) * size - 1, hi))
  {
    var bk := FiveBars(a, size, nMin, hi)[i].bk;
    BucketMinutes(a, size, nMin, hi, i);
    assert (bk + 1) * size == bk * size + size;
    forall j | 0 <= j < |a| && m <= a[j].mfo ensures a[j].mfo > Min((bk + 1) * size - 1, hi) {
      if a[j].mfo <= Min((bk + 1) * size - 1, hi) {
        assert 0 <= bk * size <= a[j].mfo < bk * size + size;
        Quotient(a[j].mfo, size, bk);
        LastOfBucket(a, size, nMin, hi, i, j);
      }
    }
  }

  /** Tapes that agree before minute m have the same five-minute bars up to any that ends before m. */
  lemma {:induction false} BarsAgree(a: seq<Bar>, b: seq<Bar>, size: int, nMin: int, hi: int, i: int, m: int)
    requires size > 0 && Ascending(a) && Ascending(b) && AgreeToOpen(a, b, m)
    requires 0 <= i < |FiveBars(a, size, nMin, hi)| && FiveBars(a, size, nMin, hi)[i].lastMfo < m
    ensures i < |FiveBars(b, size, nMin, hi)|
    ensures FiveBars(a, size, nMin, hi)[..i + 1] == FiveBars(b, size, nMin, hi)[..i + 1]
  {
    var ra, rb := WithVwap(Between(a, 0, hi)), WithVwap(Between(b, 0, hi));
    var top := hi / size + 1;
    var k := FiveBars(a, size, nMin, hi)[i].bk + 1;
    AgreeThroughBucket(a, b, size, nMin, hi, i, m);
    BetweenEqual(a, b, 0, Min(k * size - 1, hi));
    BucketsUpTo(a, size, nMin, k, hi);
    BucketsUpTo(b, size, nMin, k, hi);
    BucketNumber(ra, size, nMin, top, i);
    BucketCut(ra, size, nMin, top, i);
    BucketsExtend(rb, size, nMin, k, top);
    assert Buckets(rb, size, nMin, k) == FiveBars(a, size, nMin, hi)[..i + 1];
  }

  lemma {:induction false} BucketNumber(r: seq<VBar>, size: int, nMin: int, k: int, i: int)
    requires size > 0 && 0 <= i < |Buckets(r, size, nMin, k)|
    ensures 0 <= Buckets(r, size, nMin, k)[i].bk < k
  {
    BucketAt(r, size, nMin, k, i);
  }

  lemma {:induction false} BucketsUpTo(t: seq<Bar>, size: int, nMin: int, k: int, hi: int)
    requires size > 0 && Ascending(t)
    ensures Buckets(WithVwap(Between(t, 0, hi)), size, nMin, k)
         == Buckets(WithVwap(Between(t, 0, Min(k * size - 1, hi))), size, nMin, k)
  {
    if k * size - 1 <= hi {
      BucketsBefore(t, size, nMin, k, hi);
    }
  }

  /** A signal is decided by the bars through its own last minute. */
  lemma {:induction false} SignalAgrees(a: seq<Bar>, b: seq<Bar>, rule: Rule, p: Params, m: int)
    requires p.bucket > 0 && Ascending(a) && Ascending(b) && AgreeToOpen(a, b, m)
    requires var s := SignalOf(a, rule, p, RelationHi(p)); s.Some? && s.value.bar.lastMfo < m
    ensures SignalOf(b, rule, p, RelationHi(p)) == SignalOf(a, rule, p, RelationHi(p))
  {
    var f, g := FiveBars(a, p.bucket, p.nMin, RelationHi(p)), FiveBars(b, p.bucket, p.nMin, RelationHi(p));
    var i := FirstTrigger(f, rule, p).value;
    BarsAgree(a, b, p.bucket, p.nMin, RelationHi(p), i, m);
    FirstTriggerIsCausal(f, g, rule, p, i);
  }

  // ---------------------------------------------------------------- entry

  /** Where a minute up to the end of bucket bk falls, when hi closes a bucket. */
  lemma {:induction false} MinuteInBucket(m: int, bk: int, size: int, hi: int)
    requires size > 0 && 0 <= bk <= hi / size && hi + 1 == (hi / size + 1) * size
    requires bk * size < m <= bk * size + size
    ensures m <= (bk + 1) * size
    ensures m < (bk + 1) * size ==> m / size == bk && 0 <= m <= hi
  {
    MulOrder(0, bk, size);
    MulOrder(bk + 1, hi / size + 1, size);
    Distribute(bk, 1, size);
    if m < (bk + 1) * size {
      Quotient(m, size, bk);
    }
  }

  /** A bar one minute after a five-minute bar's last minute is in the next bucket. */
  lemma {:induction false} NextMinuteIsNextBucket(t: seq<Bar>, p: Params, i: int, j: int)
    requires p.bucket > 0 && Ascending(t)
    requires 0 <= i < |FiveBars(t, p.bucket, p.nMin, RelationHi(p))| && 0 <= j < |t|
    requires t[j].mfo == FiveBars(t, p.bucket, p.nMin, RelationHi(p))[i].lastMfo + 1
    ensures t[j].mfo == (FiveBars(t, p.bucket, p.nMin, RelationHi(p))[i].bk + 1) * p.bucket
  {
    hide FiveBars, RelationHi;
    var hi := RelationHi(p);
    var f := FiveBars(t, p.bucket, p.nMin, hi)[i];
    BucketMinutes(t, p.bucket, p.nMin, hi, i);
    BoundaryBucket(p);
    MinuteInBucket(f.lastMfo + 1, f.bk, p.bucket, hi);
    if t[j].mfo < (f.bk + 1) * p.bucket {
      LastOfBucket(t, p.bucket, p.nMin, hi, i, j);
    }
  }

  lemma {:induction false} OnTape(t: seq<Bar>, p: Params, squareoff: int, entryMfo: int) returns (j: int)
    requires EntryIndex(PostSignal(t, p, squareoff), entryMfo).Some?
    ensures 0 <= j < |t| && t[j].mfo == entryMfo
  {
    var bars := PostSignal(t, p, squareoff);
    EntryIndexIs(bars, entryMfo);
    var e := EntryIndex(bars, entryMfo).value;
    BetweenHas(t, p.lo, squareoff, bars[e]);
    j :| 0 <= j < |t| && t[j] == bars[e];
  }

  lemma {:induction false} SignalBar(t: seq<Bar>, rule: Rule, p: Params) returns (i: nat)
    requires p.bucket > 0 && SignalOf(t, rule, p, RelationHi(p)).Some?
    ensures i < |FiveBars(t, p.bucket, p.nMin, RelationHi(p))|
    ensures SignalOf(t, rule, p, RelationHi(p)).value.bar == FiveBars(t, p.bucket, p.nMin, RelationHi(p))[i]
  {
    hide FiveBars, FirstTrigger;
    i := FirstTrigger(FiveBars(t, p.bucket, p.nMin, RelationHi(p)), rule, p).value;
  }

  lemma {:induction false} TradeHasEntry(t: seq<Bar>, rule: Rule, p: Params, r: real, squareoff: int)
    requires p.bucket > 0
    requires TradeE1(t, rule, p, r, squareoff).Some? || TradeE2(t, rule, p, squareoff).Some?
    ensures var s := SignalOf(t, rule, p, RelationHi(p));
            s.Some? && EntryIndex(PostSignal(t, p, squareoff), s.value.bar.lastMfo + 1).Some?
  {
    hide SignalOf, PostSignal, DayTrail;
  }

  /**
   A trade that is filled at all enters on the first minute of the bucket after its signal bar: the
   signal bar's last minute was the last of its bucket.
   */
  lemma {:induction false} EntryOpensNextBucket(t: seq<Bar>, rule: Rule, p: Params, r: real, squareoff: int)
    requires p.bucket > 0 && Ascending(t)
    requires TradeE1(t, rule, p, r, squareoff).Some? || TradeE2(t, rule, p, squareoff).Some?
    ensures var s := SignalOf(t, rule, p, RelationHi(p)).value.bar;
            s.lastMfo + 1 == (s.bk + 1) * p.bucket
  {
    hide SignalOf, FiveBars, PostSignal;
    TradeHasEntry(t, rule, p, r, squareoff);
    var s := SignalOf(t, rule, p, RelationHi(p)).value.bar;
    var i := SignalBar(t, rule, p);
    var j := OnTape(t, p, squareoff, s.lastMfo + 1);
    NextMinuteIsNextBucket(t, p, i, j);
  }

  // ---------------------------------------------------------------- no look-ahead, tape to fill

  lemma {:induction false} E1Timing(bars: seq<Bar>, entryMfo: int, stop: Option<real>, r: real, squareoff: int)
    requires Ascending(bars) && E1(bars, entryMfo, stop, r, squareoff).Some?
    ensures entryMfo <= E1(bars, entryMfo, stop, r, squareoff).value.exitMfo <= squareoff
  {
    Positions(bars, entryMfo, squareoff);
    E1ExitAfterEntry(bars, EntryIndex(bars, entryMfo).value, LastAtOrBefore(bars, squareoff), stop.value, r);
  }

  lemma {:induction false} E1Agrees(
      a: seq<Bar>, b: seq<Bar>, p: Params, entryMfo: int, stop: Option<real>, r: real, squareoff: int)
    requires Ascending(a) && E1(PostSignal(a, p, squareoff), entryMfo, stop, r, squareoff).Some?
    requires AgreeThrough(a, b, E1(PostSignal(a, p, squareoff), entryMfo, stop, r, squareoff).value.exitMfo)
    ensures E1(PostSignal(b, p, squareoff), entryMfo, stop, r, squareoff)
         == E1(PostSignal(a, p, squareoff), entryMfo, stop, r, squareoff)
    ensures entryMfo <= E1(PostSignal(a, p, squareoff), entryMfo, stop, r, squareoff).value.exitMfo
  {
    var pa, pb := PostSignal(a, p, squareoff), PostSignal(b, p, squareoff);
    BetweenAscends(a, p.lo, squareoff);
    E1Timing(pa, entryMfo, stop, r, squareoff);
    BetweenAgrees(a, b, p.lo, squareoff, E1(pa, entryMfo, stop, r, squareoff).value.exitMfo);
    E1NonAnticipating(pa, pb, entryMfo, stop, r, squareoff);
  }

  lemma {:induction false} ThroughIsToOpen(a: seq<Bar>, b: seq<Bar>, m: int)
    requires AgreeThrough(a, b, m)
    ensures AgreeToOpen(a, b, m)
  {
  }

  /** Signal, entry, stop, exit and reason of an E1 trade are settled by the bars through its exit. */
  lemma {:induction false} TradeE1NoLookAhead(
      a: seq<Bar>, b: seq<Bar>, rule: Rule, p: Params, r: real, squareoff: int, f: Fill)
    requires p.bucket > 0 && Ascending(a) && Ascending(b)
    requires TradeE1(a, rule, p, r, squareoff) == Some(f) && AgreeThrough(a, b, f.exitMfo)
    ensures TradeE1(b, rule, p, r, squareoff) == Some(f)
  {
    hide SignalOf, E1, PostSignal;
    var m := f.exitMfo;
    var s := SignalOf(a, rule, p, RelationHi(p)).value;
    E1Agrees(a, b, p, s.bar.lastMfo + 1, StopOf(s, rule), r, squareoff);
    ThroughIsToOpen(a, b, m);
    SignalAgrees(a, b, rule, p, m);
  }

  /** The trail bars of agreeing tapes are the same up to any that ends before minute m. */
  lemma {:induction false} TrailAgrees(a: seq<Bar>, b: seq<Bar>, p: Params, j: int, m: int)
    requires p.bucket > 0 && Ascending(a) && Ascending(b) && AgreeToOpen(a, b, m)
    requires 0 <= j < |DayTrail(a, p)| && DayTrail(a, p)[j].lastMfo < m
    ensures j < |DayTrail(b, p)| && DayTrail(a, p)[..j + 1] == DayTrail(b, p)[..j + 1]
  {
    var f, g := FiveBars(a, p.bucket, p.nMin, LAST_1M_MFO), FiveBars(b, p.bucket, p.nMin, LAST_1M_MFO);
    BarsAgree(a, b, p.bucket, p.nMin, LAST_1M_MFO, j + 1, m);
    forall x | 0 <= x <= j ensures DayTrail(a, p)[x] == DayTrail(b, p)[x] {
      assert f[x] == f[..j + 2][x] == g[x] && f[x + 1] == f[..j + 2][x + 1] == g[x + 1];
    }
  }

  lemma {:induction false} SwapAgreement(a: seq<Bar>, b: seq<Bar>, m: int)
    requires AgreeToOpen(a, b, m)
    ensures AgreeToOpen(b, a, m)
  {
  }

  /** Agreeing tapes have the same trail as far as it is over before minute m. */
  lemma {:induction false} DayTrailsAgree(a: seq<Bar>, b: seq<Bar>, p: Params, m: int)
    requires p.bucket > 0 && Ascending(a) && Ascending(b) && AgreeToOpen(a, b, m)
    ensures SameTrail(DayTrail(a, p), DayTrail(b, p), m)
  {
    hide DayTrail;
    var ta, tb := DayTrail(a, p), DayTrail(b, p);
    SwapAgreement(a, b, m);
    forall j | 0 <= j < |ta| && ta[j].lastMfo < m ensures j < |tb| && ta[..j + 1] == tb[..j + 1] {
      TrailAgrees(a, b, p, j, m);
    }
    forall j | 0 <= j < |tb| && tb[j].lastMfo < m ensures j < |ta| && tb[..j + 1] == ta[..j + 1] {
      TrailAgrees(b, a, p, j, m);
    }
  }

  lemma {:induction false} E2Timing(bars: seq<Bar>, trail: seq<Trail>, entryMfo: int, signalBk: int, squareoff: int)
    requires Ascending(bars) && E2(bars, trail, entryMfo, signalBk, squareoff).Some?
    ensures var f := E2(bars, trail, entryMfo, signalBk, squareoff).value;
            entryMfo <= f.exitMfo <= squareoff && (f.reason == TrailNextOpen ==> entryMfo < f.exitMfo)
  {
    Positions(bars, entryMfo, squareoff);
  }

  lemma {:induction false} E2Agrees(a: seq<Bar>, b: seq<Bar>, p: Params, entryMfo: int, signalBk: int, squareoff: int)
    requires p.bucket > 0 && Ascending(a) && Ascending(b)
    requires E2(PostSignal(a, p, squareoff), DayTrail(a, p), entryMfo, signalBk, squareoff).Some?
    requires AgreeToExit(a, b, E2(PostSignal(a, p, squareoff), DayTrail(a, p), entryMfo, signalBk, squareoff).value)
    ensures E2(PostSignal(b, p, squareoff), DayTrail(b, p), entryMfo, signalBk, squareoff)
         == E2(PostSignal(a, p, squareoff), DayTrail(a, p), entryMfo, signalBk, squareoff)
    ensures var f := E2(PostSignal(a, p, squareoff), DayTrail(a, p), entryMfo, signalBk, squareoff).value;
            entryMfo <= f.exitMfo && AgreeToOpen(a, b, f.exitMfo)
  {
    hide DayTrail, E2, Between;
    var pa, pb := PostSignal(a, p, squareoff), PostSignal(b, p, squareoff);
    var f := E2(pa, DayTrail(a, p), entryMfo, signalBk, squareoff).value;
    BetweenAscends(a, p.lo, squareoff);
    E2Timing(pa, DayTrail(a, p), entryMfo, signalBk, squareoff);
    assert AgreeToOpen(a, b, f.exitMfo);
    DayTrailsAgree(a, b, p, f.exitMfo);
    BetweenAgrees(a, b, p.lo, squareoff, f.exitMfo);
    E2NonAnticipating(pa, pb, DayTrail(a, p), DayTrail(b, p), entryMfo, signalBk, squareoff);
  }

  /** Signal, entry, exit and reason of an E2 trade are settled by the bars through its exit. */
  lemma {:induction false} TradeE2NoLookAhead(
      a: seq<Bar>, b: seq<Bar>, rule: Rule, p: Params, squareoff: int, f: Fill)
    requires p.bucket > 0 && Ascending(a) && Ascending(b)
    requires TradeE2(a, rule, p, squareoff) == Some(f) && AgreeToExit(a, b, f)
    ensures TradeE2(b, rule, p, squareoff) == Some(f)
  {
    hide SignalOf, E2, DayTrail, PostSignal;
    var s := SignalOf(a, rule, p, RelationHi(p)).value;
    var m := f.exitMfo;
    E2Agrees(a, b, p, s.bar.lastMfo + 1, s.bar.bk, squareoff);
    SignalAgrees(a, b, rule, p, m);
  }

  /** The trail bar that triggers an exit: the first to break after the signal, over before the squareoff bar. */
  function Trigger(t: seq<Bar>, p: Params, signalBk: int, squareoff: int): Option<Trail>
    requires p.bucket > 0
  {
    var bars := PostSignal(t, p, squareoff);
    var last := LastAtOrBefore(bars, squareoff);
    var j := if last < 0 then |DayTrail(t, p)| else FirstBreak(DayTrail(t, p), signalBk, bars[last].mfo, 0);
    if j == |DayTrail(t, p)| then None else Some(DayTrail(t, p)[j])
  }

  /** The fill answers to trail bar x: x broke after bucket bk and was over before the fill, in an earlier bucket. */
  predicate AnswersTo(f: Fill, x: Trail, bk: int, size: int)
    requires size > 0
  {
    x.bk > bk && x.c < x.priorLow && x.lastMfo < f.exitMfo && x.bk < f.exitMfo / size
  }

  /** Where the fill of a triggered exit sits: after the trigger's last minute, on a bar of the position. */
  lemma {:induction false} TrailFillOf(bars: seq<Bar>, trail: seq<Trail>, entryMfo: int, signalBk: int, squareoff: int)
    returns (k: int)
    requires E2(bars, trail, entryMfo, signalBk, squareoff).Some?
    requires E2(bars, trail, entryMfo, signalBk, squareoff).value.reason == TrailNextOpen
    ensures 0 <= LastAtOrBefore(bars, squareoff) < |bars|
    ensures var j := FirstBreak(trail, signalBk, bars[LastAtOrBefore(bars, squareoff)].mfo, 0);
            && j < |trail| && 0 <= k < |bars| && trail[j].lastMfo < bars[k].mfo
            && bars[k].mfo == E2(bars, trail, entryMfo, signalBk, squareoff).value.exitMfo
  {
    var i0, last := EntryIndex(bars, entryMfo).value, LastAtOrBefore(bars, squareoff);
    k := FirstAfter(bars, trail[FirstBreak(trail, signalBk, bars[last].mfo, 0)].lastMfo, i0 + 1, last + 1);
  }

  lemma {:induction false} TrailFillBucket(t: seq<Bar>, p: Params, entryMfo: int, signalBk: int, squareoff: int)
    requires p.bucket > 0 && Ascending(t) && squareoff <= LAST_1M_MFO
    requires E2(PostSignal(t, p, squareoff), DayTrail(t, p), entryMfo, signalBk, squareoff).Some?
    requires TrailNextOpen ==
             E2(PostSignal(t, p, squareoff), DayTrail(t, p), entryMfo, signalBk, squareoff).value.reason
    ensures Trigger(t, p, signalBk, squareoff).Some?
    ensures AnswersTo(E2(PostSignal(t, p, squareoff), DayTrail(t, p), entryMfo, signalBk, squareoff).value,
                      Trigger(t, p, signalBk, squareoff).value, signalBk, p.bucket)
  {
    hide E2, DayTrail, PostSignal;
    var bars := PostSignal(t, p, squareoff);
    var k := TrailFillOf(bars, DayTrail(t, p), entryMfo, signalBk, squareoff);
    var j := FirstBreak(DayTrail(t, p), signalBk, bars[LastAtOrBefore(bars, squareoff)].mfo, 0);
    PostSignalHas(t, p, squareoff, bars[k]);
    var x :| 0 <= x < |t| && t[x] == bars[k];
    AfterTrailBar(t, p, j, x);
  }

  lemma {:induction false} PostSignalHas(t: seq<Bar>, p: Params, squareoff: int, bar: Bar)
    requires bar in PostSignal(t, p, squareoff)
    ensures bar in t && bar.mfo <= squareoff
  {
    BetweenHas(t, p.lo, squareoff, bar);
  }

  /** An E2 trail fill lies in a strictly later five-minute bucket than the very bar that triggered it. */
  lemma {:induction false} TrailFillIsInLaterBucket(t: seq<Bar>, rule: Rule, p: Params, squareoff: int, f: Fill)
    requires p.bucket > 0 && Ascending(t) && squareoff <= LAST_1M_MFO
    requires TradeE2(t, rule, p, squareoff) == Some(f) && f.reason == TrailNextOpen
    ensures var bk := SignalOf(t, rule, p, RelationHi(p)).value.bar.bk;
            Trigger(t, p, bk, squareoff).Some? && AnswersTo(f, Trigger(t, p, bk, squareoff).value, bk, p.bucket)
  {
    hide SignalOf, E2, DayTrail, PostSignal, Trigger, AnswersTo;
    var s := SignalOf(t, rule, p, RelationHi(p)).value.bar;
    TrailFillBucket(t, p, s.lastMfo + 1, s.bk, squareoff);
  }

  /** A bar after a trail bar's last minute is in a later bucket. */
  lemma {:induction false} AfterTrailBar(t: seq<Bar>, p: Params, j: int, x: int)
    requires p.bucket > 0 && Ascending(t) && 0 <= j < |DayTrail(t, p)| && 0 <= x < |t|
    requires DayTrail(t, p)[j].lastMfo < t[x].mfo <= LAST_1M_MFO
    ensures t[x].mfo / p.bucket > DayTrail(t, p)[j].bk
  {
    var bk := DayTrail(t, p)[j].bk;
    BucketMinutes(t, p.bucket, p.nMin, LAST_1M_MFO, j + 1);
    MulOrder(0, bk, p.bucket);
    AtLeast(t[x].mfo, p.bucket, bk);
    if t[x].mfo / p.bucket == bk {
      LastOfBucket(t, p.bucket, p.nMin, LAST_1M_MFO, j + 1, x);
    }
  }
}
