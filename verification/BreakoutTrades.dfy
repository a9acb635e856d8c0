/**
 What a booked trade of scripts/backtest_brk20.py is, session by session: which signals are admitted, where
 each variant fills, and what the trade returns at each horizon.
 */
module BreakoutTrades {
  import opened Common
  import opened BreakoutFills
  import opened BreakoutCohorts

  // ---------------------------------------------------------------- admission

  predicate PositivePrice(x: Option<real>) {
    x.Some? && 0.0 < x.value
  }

  /** The 25 sessions after the signal exist, each with four positive prices. */
  predicate HasSessions(s: Series, idx: nat) {
    && idx + 25 < |s.bars|
    && forall j | idx < j <= idx + 25 ::
         var b := s.bars[j];
         PositivePrice(b.open) && PositivePrice(b.high) && PositivePrice(b.low) && PositivePrice(b.close)
  }

  lemma {:induction false} AdmittedIff(s: Series, sig: Signal)
    ensures Admitted(s, sig) <==> HasSessions(s, sig.idx)
  {
  }

  /** The offer is a signal found on one of the scanned symbols, with the sessions to measure it. */
  predicate Found(scan: seq<(Series, seq<Signal>)>, o: Offer) {
    HasSessions(o.0, o.1.idx) && exists i :: 0 <= i < |scan| && scan[i].0 == o.0 && o.1 in scan[i].1
  }

  lemma {:induction false} AdmittedOfIff(s: Series, sigs: seq<Signal>, o: Offer)
    ensures o in AdmittedOf(s, sigs) <==> o.0 == s && o.1 in sigs && HasSessions(s, o.1.idx)
  {
    hide HasSessions, Admitted;
    if sigs != [] {
      var front, last := sigs[..|sigs| - 1], sigs[|sigs| - 1];
      AdmittedOfIff(s, front, o);
      AdmittedIff(s, last);
      assert sigs == front + [last];
    }
  }

  /** The population holds exactly the signals found and measurable. */
  lemma {:induction false} PopulationIff(scan: seq<(Series, seq<Signal>)>, o: Offer)
    ensures o in Population(scan) <==> Found(scan, o)
  {
    hide HasSessions, AdmittedOf;
    if scan != [] {
      var front, last := scan[..|scan| - 1], scan[|scan| - 1];
      PopulationIff(front, o);
      AdmittedOfIff(last.0, last.1, o);
      if i :| 0 <= i < |front| && front[i].0 == o.0 && o.1 in front[i].1 {
        assert scan[i] == front[i];
      }
      if i :| 0 <= i < |scan| && scan[i].0 == o.0 && o.1 in scan[i].1 {
        assert i < |front| ==> front[i] == scan[i];
      }
    }
  }

  // ---------------------------------------------------------------- fills

  /** The sessions a resting limit waits. */
  function Waits(v: Variant): nat {
    if v == V2LimitN3 then 3 else 5
  }

  predicate TradesAt(b: DayBar, level: real) {
    b.low.Some? && b.low.value <= level
  }

  /**
   V1 buys at the next session's open; a limit on the first session of its wait to trade at the level, at
   the level or at an open already below it.
   */
  predicate FillsAt(s: Series, sig: Signal, v: Variant, j: int, px: real) {
    sig.idx < j < |s.bars| &&
    if v == V1NextOpen then j == sig.idx + 1 && s.bars[j].open == Some(px)
    else
      && j <= sig.idx + Waits(v) && TradesAt(s.bars[j], sig.level)
      && (forall i | sig.idx < i < j :: !TradesAt(s.bars[i], sig.level))
      && s.bars[j].open.Some? && px == if s.bars[j].open.value < sig.level then s.bars[j].open.value else sig.level
  }

  lemma {:induction false} FillIff(s: Series, sig: Signal, v: Variant, j: nat, px: real)
    requires Admitted(s, sig)
    ensures Fill(s, sig, v) == Some((j, px)) <==> FillsAt(s, sig, v, j, px)
  {
    if v == V1NextOpen {
      assert Usable(s.bars[sig.idx + 1]);
    } else {
      var n := Waits(v);
      var x := FirstTouch(s, sig.level, sig.idx + 1, sig.idx + 1 + n);
      assert x < sig.idx + 1 + n ==> Usable(s.bars[x]) && TradesAt(s.bars[x], sig.level);
      assert FillsAt(s, sig, v, j, px) ==> TradesAt(s.bars[j], sig.level) && Reaches(s.bars[j], sig.level);
      assert forall i | sig.idx < i < x :: !Reaches(s.bars[i], sig.level);
    }
  }

  // ---------------------------------------------------------------- measurement

  /** At k sessions: gross is the percent gain from the fill to that session's close, net is the cost less. */
  predicate Earns(s: Series, t: Trade, k: nat, cost: real) {
    && k in t.gross && k in t.net
    && t.fillIdx + k < |s.bars| && s.bars[t.fillIdx + k].close.Some?
    && t.gross[k] * t.fillPx == (s.bars[t.fillIdx + k].close.value - t.fillPx) * 100.0
    && t.net[k] == t.gross[k] - cost
  }

  /** The trade variant v books on a signal: where it fills, and what it earns after 5, 10 and 20 sessions. */
  predicate Books(o: Offer, v: Variant, cost: real, t: Trade) {
    && t.symbol == o.0.symbol && t.variant == v && t.signalDate == o.1.date
    && FillsAt(o.0, o.1, v, t.fillIdx, t.fillPx)
    && t.fillIdx < |o.0.dates| && t.fillDate == o.0.dates[t.fillIdx] && t.delay == t.fillIdx - o.1.idx
    && t.gross.Keys == {5, 10, 20} && t.net.Keys == {5, 10, 20}
    && Earns(o.0, t, 5, cost) && Earns(o.0, t, 10, cost) && Earns(o.0, t, 20, cost)
  }

  lemma {:induction false} GrossIff(close: real, px: real, g: real)
    requires px > 0.0
    ensures g == (close / px - 1.0) * 100.0 <==> g * px == (close - px) * 100.0
  {
    var x := close / px;
    assert x * px == close;
    assert (x - 1.0) * 100.0 * px == (x * px - px) * 100.0;
    if g * px == (close - px) * 100.0 {
      var d := g - (x - 1.0) * 100.0;
      assert d * px == 0.0;
      assert d > 0.0 ==> d * px > 0.0;
      assert d < 0.0 ==> -d * px > 0.0;
    }
  }

  /** One horizon of a measured trade. */
  lemma {:induction false} EarnsIff(s: Series, fillIdx: nat, px: real, k: nat, g: real)
    requires Measurable(s, fillIdx, px) && k <= MAX_HORIZON
    ensures s.bars[fillIdx + k].close.Some?
    ensures g == GrossPct(s, fillIdx, px, k) <==> g * px == (s.bars[fillIdx + k].close.value - px) * 100.0
  {
    assert Usable(s.bars[fillIdx + k]);
    GrossIff(s.bars[fillIdx + k].close.value, px, g);
  }

  lemma {:induction false} EarnsAt(s: Series, sig: Signal, v: Variant, j: nat, px: real, cost: real, k: nat)
    requires Measurable(s, j, px) && Horizons(HORIZONS) && k in HORIZONS
    ensures Earns(s, Measured(s, sig, v, j, px, cost, HORIZONS), k, cost)
  {
    hide Returns, GrossPct, Horizons;
    ReturnsAt(s, j, px, 0.0, HORIZONS);
    ReturnsAt(s, j, px, cost, HORIZONS);
    EarnsIff(s, j, px, k, Measured(s, sig, v, j, px, cost, HORIZONS).gross[k]);
  }

  lemma {:induction false} EarnsWhen(s: Series, sig: Signal, v: Variant, j: nat, px: real, cost: real)
    requires Measurable(s, j, px) && Horizons(HORIZONS)
    ensures var t := Measured(s, sig, v, j, px, cost, HORIZONS);
            t.gross.Keys == {5, 10, 20} && t.net.Keys == {5, 10, 20}
  {
    hide Returns, Measurable, Horizons;
    var t := Measured(s, sig, v, j, px, cost, HORIZONS);
    ReturnsAt(s, j, px, 0.0, HORIZONS);
    ReturnsAt(s, j, px, cost, HORIZONS);
    forall k: int ensures (k in t.gross.Keys <==> k in {5, 10, 20}) && (k in t.net.Keys <==> k in {5, 10, 20}) {
      assert k in HORIZONS <==> k == 5 || k == 10 || k == 20;
    }
  }

  lemma {:induction false} MeasuredEarns(s: Series, sig: Signal, v: Variant, j: nat, px: real, cost: real)
    requires Measurable(s, j, px) && Horizons(HORIZONS)
    ensures var t := Measured(s, sig, v, j, px, cost, HORIZONS);
            && t.gross.Keys == {5, 10, 20} && t.net.Keys == {5, 10, 20}
            && Earns(s, t, 5, cost) && Earns(s, t, 10, cost) && Earns(s, t, 20, cost)
  {
    hide Earns, Measured;
    EarnsWhen(s, sig, v, j, px, cost);
    assert HORIZONS == [5, 10, 20];
    EarnsAt(s, sig, v, j, px, cost, 5);
    EarnsAt(s, sig, v, j, px, cost, 10);
    EarnsAt(s, sig, v, j, px, cost, 20);
  }

  lemma {:induction false} SameEarnings(s: Series, t: Trade, u: Trade, k: nat, cost: real)
    requires t.fillIdx == u.fillIdx && t.fillPx == u.fillPx && t.fillPx > 0.0
    requires Earns(s, t, k, cost) && Earns(s, u, k, cost)
    ensures k in t.gross && k in t.net && k in u.gross && k in u.net
    ensures t.gross[k] == u.gross[k] && t.net[k] == u.net[k]
  {
    GrossIff(s.bars[t.fillIdx + k].close.value, t.fillPx, t.gross[k]);
    GrossIff(s.bars[t.fillIdx + k].close.value, t.fillPx, u.gross[k]);
  }

  /** A signal's fill is unique, and so is what the trade earns. */
  lemma {:induction false} BooksUnique(o: Offer, v: Variant, cost: real, t: Trade, u: Trade)
    requires Offerable(o) && Books(o, v, cost, t) && Books(o, v, cost, u)
    ensures t == u
  {
    hide FillsAt, Admitted, Earns;
    FillIff(o.0, o.1, v, t.fillIdx, t.fillPx);
    FillIff(o.0, o.1, v, u.fillIdx, u.fillPx);
    FillIsMeasurable(o.0, o.1, v);
    SameEarnings(o.0, t, u, 5, cost);
    SameEarnings(o.0, t, u, 10, cost);
    SameEarnings(o.0, t, u, 20, cost);
    assert t.gross == u.gross && t.net == u.net;
  }

  /** The fill loop books exactly the trade described, and none where the variant does not fill. */
  lemma {:induction false} TradeIff(o: Offer, v: Variant, cost: real, t: Trade)
    requires Offerable(o)
    ensures TradeOf(o, v, cost) == Some(t) <==> Books(o, v, cost, t)
  {
    hide Earns, FillsAt, Admitted, Fill, Measured;
    FillIsMeasurable(o.0, o.1, v);
    var fill := Fill(o.0, o.1, v);
    if fill.Some? {
      var (j, px) := fill.value;
      MeasuredEarns(o.0, o.1, v, j, px, cost);
      FillIff(o.0, o.1, v, j, px);
      MeasuredIs(o, v, cost, j, px);
      if Books(o, v, cost, t) {
        BooksUnique(o, v, cost, t, Measured(o.0, o.1, v, j, px, cost, HORIZONS));
      }
    } else if Books(o, v, cost, t) {
      FillIff(o.0, o.1, v, t.fillIdx, t.fillPx);
    }
  }

  lemma {:induction false} MeasuredIs(o: Offer, v: Variant, cost: real, j: nat, px: real)
    requires Measurable(o.0, j, px) && Horizons(HORIZONS)
    ensures var t := Measured(o.0, o.1, v, j, px, cost, HORIZONS);
            && t.symbol == o.0.symbol && t.variant == v && t.signalDate == o.1.date
            && t.fillIdx == j && t.fillPx == px && t.fillDate == o.0.dates[j] && t.delay == j - o.1.idx
  {
  }

  // ---------------------------------------------------------------- the booked trades

  lemma {:induction false} FilledIff(xs: seq<Option<Trade>>, t: Trade)
    ensures t in Filled(xs) <==> Some(t) in xs
  {
    if xs != [] {
      FilledIff(xs[..|xs| - 1], t);
      assert xs == xs[..|xs| - 1] + [xs[|xs| - 1]];
    }
  }

  /**
   The trades a study books for a variant are exactly those described, on the signals found and
   measurable, one for each; they are in the order of their symbols and signal dates.
   */
  lemma {:induction false} BookedIff(scan: seq<(Series, seq<Signal>)>, v: Variant, cost: real, t: Trade)
    requires ScanOrder(scan)
    ensures AllOfferable(Population(scan))
    ensures t in Trades(Population(scan), v, cost) <==> exists o :: Found(scan, o) && Books(o, v, cost, t)
  {
    hide ScanOrder, Found, Books, Population, TradeOf;
    PopulationAscends(scan);
    var fired := Population(scan);
    var xs := Attempts(fired, v, cost);
    FilledIff(xs, t);
    forall i | 0 <= i < |fired| ensures Found(scan, fired[i]) && (xs[i] == Some(t) <==> Books(fired[i], v, cost, t)) {
      PopulationIff(scan, fired[i]);
      TradeIff(fired[i], v, cost, t);
    }
    if o :| Found(scan, o) && Books(o, v, cost, t) {
      PopulationIff(scan, o);
      var i :| 0 <= i < |fired| && fired[i] == o;
      assert xs[i] == Some(t);
    }
  }

  lemma {:induction false} BookedAscend(scan: seq<(Series, seq<Signal>)>, v: Variant, cost: real)
    requires ScanOrder(scan)
    ensures AllOfferable(Population(scan)) && Ascend(Keys(Trades(Population(scan), v, cost)))
  {
    hide ScanOrder, Population, TradeOf;
    PopulationAscends(scan);
    AttemptsKeyed(Population(scan), v, cost);
    FilledKeys(Attempts(Population(scan), v, cost), OfferKeys(Population(scan)));
  }
}
