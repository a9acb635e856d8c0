/**
 One signal population, three trade sets: the fill loop of scripts/backtest_brk20.py over every
 admitted signal, and the split of the unconditional variant into matched cohorts.
 */
module BreakoutCohorts {
  import opened Common
  import opened BreakoutFills

  type Offer = (Series, Signal)

  /** What `signals_for` returns for one symbol: ascending sessions, each dated by its own series. */
  predicate Scanned(s: Series, sigs: seq<Signal>) {
    && |s.dates| == |s.bars|
    && (forall i, j | 0 <= i < j < |s.dates| :: s.dates[i] < s.dates[j])
    && (forall i, j | 0 <= i < j < |sigs| :: sigs[i].idx < sigs[j].idx)
    && (forall i | 0 <= i < |sigs| :: sigs[i].idx < |s.dates| && sigs[i].date == s.dates[sigs[i].idx]
                                   && sigs[i].symbol == s.symbol && sigs[i].level > 0.0)
  }

  /** Symbols are scanned once each, in sorted order. */
  predicate ScanOrder(scan: seq<(Series, seq<Signal>)>) {
    && (forall i, j | 0 <= i < j < |scan| :: scan[i].0.symbol < scan[j].0.symbol)
    && (forall i | 0 <= i < |scan| :: Scanned(scan[i].0, scan[i].1))
  }

  function AdmittedOf(s: Series, sigs: seq<Signal>): seq<Offer> {
    if sigs == [] then []
    else
      var last := sigs[|sigs| - 1];
      AdmittedOf(s, sigs[..|sigs| - 1]) + if Admitted(s, last) then [(s, last)] else []
  }

  function Population(scan: seq<(Series, seq<Signal>)>): seq<Offer> {
    if scan == [] then []
    else
      var last := scan[|scan| - 1];
      Population(scan[..|scan| - 1]) + AdmittedOf(last.0, last.1)
  }

  method AdmitSignals(scan: seq<(Series, seq<Signal>)>) returns (fired: seq<Offer>)
    ensures fired == Population(scan)
  {
    fired := [];
    var i := 0;
    while i < |scan|
      invariant 0 <= i <= |scan|
      invariant fired == Population(scan[..i])
    {
      var (s, sigs) := scan[i];
      ghost var before := fired;
      var j := 0;
      while j < |sigs|
        invariant 0 <= j <= |sigs|
        invariant fired == before + AdmittedOf(s, sigs[..j])
      {
        var ok := BarsUsable(s, sigs[j].idx, ADMISSION_SPAN);
        assert sigs[..j + 1][..j] == sigs[..j];
        if ok {
          fired := fired + [(s, sigs[j])];
        }
        j := j + 1;
      }
      assert sigs[..j] == sigs;
      assert scan[..i + 1][..i] == scan[..i];
      i := i + 1;
    }
    assert scan[..i] == scan;
  }

  predicate Offerable(o: Offer) {
    Admitted(o.0, o.1) && o.1.level > 0.0 && |o.0.dates| == |o.0.bars| && o.1.symbol == o.0.symbol
  }

  predicate AllOfferable(fired: seq<Offer>) {
    forall i | 0 <= i < |fired| :: Offerable(fired[i])
  }

  /** The identity of a signal. */
  function KeyOf(o: Offer): (int, int) {
    (o.0.symbol, o.1.date)
  }

  predicate Before(a: (int, int), b: (int, int)) {
    a.0 < b.0 || (a.0 == b.0 && a.1 < b.1)
  }

  predicate KeysAscend(fired: seq<Offer>) {
    forall i, j | 0 <= i < j < |fired| :: Before(KeyOf(fired[i]), KeyOf(fired[j]))
  }

  lemma {:induction false} AdmittedAscend(s: Series, sigs: seq<Signal>)
    requires Scanned(s, sigs)
    ensures KeysAscend(AdmittedOf(s, sigs)) && AllOfferable(AdmittedOf(s, sigs))
    ensures forall i | 0 <= i < |AdmittedOf(s, sigs)| ::
              AdmittedOf(s, sigs)[i].0 == s && AdmittedOf(s, sigs)[i].1 in sigs
  {
    hide Admitted;
    if sigs != [] {
      var front, last := sigs[..|sigs| - 1], sigs[|sigs| - 1];
      AdmittedAscend(s, front);
      var kept := AdmittedOf(s, front);
      forall i | 0 <= i < |kept| ensures Before(KeyOf(kept[i]), (s.symbol, last.date)) {
        var j :| 0 <= j < |front| && front[j] == kept[i].1;
        assert sigs[j].idx < last.idx;
      }
    }
  }

  /** Each (symbol, signal date) is offered at most once, and every offer is measurable. */
  lemma {:induction false} PopulationAscends(scan: seq<(Series, seq<Signal>)>)
    requires ScanOrder(scan)
    ensures KeysAscend(Population(scan)) && AllOfferable(Population(scan))
    ensures scan == [] ==> Population(scan) == []
    ensures forall i | 0 <= i < |Population(scan)| :: Population(scan)[i].0.symbol <= scan[|scan| - 1].0.symbol
  {
    if scan != [] {
      var front, last := scan[..|scan| - 1], scan[|scan| - 1];
      PopulationAscends(front);
      AdmittedAscend(last.0, last.1);
      var earlier, latest := Population(front), AdmittedOf(last.0, last.1);
      forall i | 0 <= i < |earlier| ensures earlier[i].0.symbol < last.0.symbol {
        assert front[|front| - 1].0.symbol < last.0.symbol;
      }
      AppendAscends(earlier, latest);
    }
  }

  lemma {:induction false} AppendAscends(a: seq<Offer>, b: seq<Offer>)
    requires KeysAscend(a) && KeysAscend(b) && AllOfferable(a) && AllOfferable(b)
    requires forall i, j | 0 <= i < |a| && 0 <= j < |b| :: a[i].0.symbol < b[j].0.symbol
    ensures KeysAscend(a + b) && AllOfferable(a + b)
  {
  }

  // ---------------------------------------------------------------- the fill loop

  function TradeOf(o: Offer, v: Variant, cost: real): Option<Trade>
    requires Offerable(o)
  {
    var fill := Fill(o.0, o.1, v);
    FillIsMeasurable(o.0, o.1, v);
    if fill.None? then None else Some(Measured(o.0, o.1, v, fill.value.0, fill.value.1, cost, HORIZONS))
  }

  /** One variant's outcome on every signal, in order, and the trades among them. */
  function Attempts(fired: seq<Offer>, v: Variant, cost: real): seq<Option<Trade>>
    requires AllOfferable(fired)
  {
    seq(|fired|, i requires 0 <= i < |fired| => TradeOf(fired[i], v, cost))
  }

  function Filled(xs: seq<Option<Trade>>): seq<Trade> {
    if xs == [] then []
    else Filled(xs[..|xs| - 1]) + if xs[|xs| - 1].Some? then [xs[|xs| - 1].value] else []
  }

  function Trades(fired: seq<Offer>, v: Variant, cost: real): seq<Trade>
    requires AllOfferable(fired)
  {
    Filled(Attempts(fired, v, cost))
  }

  lemma {:induction false} FilledStep(xs: seq<Option<Trade>>, n: nat)
    requires n < |xs|
    ensures Filled(xs[..n + 1]) == Filled(xs[..n]) + if xs[n].Some? then [xs[n].value] else []
  {
    assert xs[..n + 1][..n] == xs[..n];
  }

  method OfferTo(o: Offer, v: Variant, cost: real) returns (t: Option<Trade>)
    requires Offerable(o)
    ensures t == TradeOf(o, v, cost)
  {
    var fill := FillFor(o.0, o.1, v);
    FillIsMeasurable(o.0, o.1, v);
    if fill.None? {
      return None;
    }
    var trade := Measure(o.0, o.1, v, fill.value.0, fill.value.1, cost, HORIZONS);
    return Some(trade);
  }

  /** The state of the fill loop once variant v has been offered its first n signals. */
  predicate Booked(xs: seq<Option<Trade>>, n: nat, trades: seq<Trade>, unfilled: int) {
    n <= |xs| && trades == Filled(xs[..n]) && unfilled == n - |trades|
  }

  method Book(ghost xs: seq<Option<Trade>>, ghost n: nat, t: Option<Trade>, trades: seq<Trade>, unfilled: int)
    returns (trades': seq<Trade>, unfilled': int)
    requires Booked(xs, n, trades, unfilled) && n < |xs| && xs[n] == t
    ensures Booked(xs, n + 1, trades', unfilled')
  {
    FilledStep(xs, n);
    if t.None? {
      return trades, unfilled + 1;
    } else {
      return trades + [t.value], unfilled;
    }
  }

  /** Every variant is offered every signal; what it does not fill is counted. */
  method RunVariants(fired: seq<Offer>, cost: real)
    returns (trades: map<Variant, seq<Trade>>, unfilled: map<Variant, int>)
    requires AllOfferable(fired)
    ensures forall v :: v in VARIANTS ==> v in trades && trades[v] == Trades(fired, v, cost)
    ensures forall v :: v in VARIANTS ==> v in unfilled && unfilled[v] == |fired| - |trades[v]|
  {
    hide TradeOf;
    trades := map[V1NextOpen := [], V2LimitN3 := [], V2LimitN5 := []];
    unfilled := map[V1NextOpen := 0, V2LimitN3 := 0, V2LimitN5 := 0];
    var i := 0;
    while i < |fired|
      invariant 0 <= i <= |fired|
      invariant forall v :: v in VARIANTS ==>
                  v in trades && v in unfilled && Booked(Attempts(fired, v, cost), i, trades[v], unfilled[v])
    {
      var n := 0;
      while n < |VARIANTS|
        invariant 0 <= n <= |VARIANTS|
        invariant forall x | 0 <= x < |VARIANTS| ::
          VARIANTS[x] in trades && VARIANTS[x] in unfilled &&
          Booked(Attempts(fired, VARIANTS[x], cost), if x < n then i + 1 else i,
                 trades[VARIANTS[x]], unfilled[VARIANTS[x]])
      {
        var v := VARIANTS[n];
        var t := OfferTo(fired[i], v, cost);
        var ts, u := Book(Attempts(fired, v, cost), i, t, trades[v], unfilled[v]);
        trades := trades[v := ts];
        unfilled := unfilled[v := u];
        n := n + 1;
      }
      i := i + 1;
    }
    assert forall v :: Attempts(fired, v, cost)[..i] == Attempts(fired, v, cost);
  }

  // ---------------------------------------------------------------- matched cohorts

  function TradeKey(t: Trade): (int, int) {
    (t.symbol, t.signalDate)
  }

  function Keys(ts: seq<Trade>): seq<(int, int)> {
    seq(|ts|, i requires 0 <= i < |ts| => TradeKey(ts[i]))
  }

  function KeySet(ts: seq<Trade>): set<(int, int)> {
    set i | 0 <= i < |ts| :: TradeKey(ts[i])
  }

  /** The trades whose signal is (or is not) one of the given ones. */
  function Select(ts: seq<Trade>, keys: set<(int, int)>, inside: bool): seq<Trade> {
    if ts == [] then []
    else
      var last := ts[|ts| - 1];
      Select(ts[..|ts| - 1], keys, inside) + if (TradeKey(last) in keys) == inside then [last] else []
  }

  lemma {:induction false} SelectSplits(ts: seq<Trade>, keys: set<(int, int)>)
    ensures |Select(ts, keys, true)| + |Select(ts, keys, false)| == |ts|
  {
    if ts != [] {
      SelectSplits(ts[..|ts| - 1], keys);
    }
  }

  /** Each outcome that is a trade carries the key at its own position. */
  predicate Keyed(xs: seq<Option<Trade>>, ks: seq<(int, int)>) {
    |xs| == |ks| && forall i | 0 <= i < |xs| :: xs[i].Some? ==> TradeKey(xs[i].value) == ks[i]
  }

  predicate Ascend(ks: seq<(int, int)>) {
    forall i, j | 0 <= i < j < |ks| :: Before(ks[i], ks[j])
  }

  predicate Marks(xs: seq<Option<Trade>>, ks: seq<(int, int)>, k: (int, int)) {
    |xs| == |ks| && exists i :: 0 <= i < |xs| && xs[i].Some? && ks[i] == k
  }

  /** The trades' keys are the keys of the filled positions, in order. */
  lemma {:induction false} FilledKeys(xs: seq<Option<Trade>>, ks: seq<(int, int)>)
    requires Keyed(xs, ks) && Ascend(ks)
    ensures Ascend(Keys(Filled(xs)))
    ensures forall k :: k in Keys(Filled(xs)) <==> Marks(xs, ks, k)
  {
    if xs != [] {
      var n := |xs| - 1;
      var front := Filled(xs[..n]);
      FilledKeys(xs[..n], ks[..n]);
      forall k ensures Marks(xs, ks, k) <==> Marks(xs[..n], ks[..n], k) || (xs[n].Some? && ks[n] == k) {
        if Marks(xs, ks, k) {
          var i :| 0 <= i < |xs| && xs[i].Some? && ks[i] == k;
          assert i < n ==> xs[..n][i] == xs[i] && ks[..n][i] == ks[i];
        }
        if Marks(xs[..n], ks[..n], k) {
          var i :| 0 <= i < n && xs[..n][i].Some? && ks[..n][i] == k;
          assert xs[i].Some? && ks[i] == k;
        }
      }
      if xs[n].Some? {
        assert Keys(Filled(xs)) == Keys(front) + [ks[n]];
        forall j | 0 <= j < |Keys(front)| ensures Before(Keys(front)[j], ks[n]) {
          assert Marks(xs[..n], ks[..n], Keys(front)[j]);
          var i :| 0 <= i < n && xs[..n][i].Some? && ks[..n][i] == Keys(front)[j];
          assert ks[i] == Keys(front)[j];
        }
      } else {
        assert Filled(xs) == front;
      }
    }
  }

  /** With keys marking exactly the filled positions, the selected legs pair off with the fills. */
  lemma {:induction false} LegsPairOff(
      legs: seq<Option<Trade>>, xs: seq<Option<Trade>>, ks: seq<(int, int)>, keys: set<(int, int)>)
    requires Keyed(legs, ks) && Keyed(xs, ks)
    requires forall i | 0 <= i < |legs| :: legs[i].Some?
    requires forall i | 0 <= i < |ks| :: ks[i] in keys <==> xs[i].Some?
    ensures |Filled(legs)| == |legs|
    ensures Keys(Select(Filled(legs), keys, true)) == Keys(Filled(xs))
  {
    if legs != [] {
      var n := |legs| - 1;
      LegsPairOff(legs[..n], xs[..n], ks[..n], keys);
      var front := Filled(legs[..n]);
      var leg := legs[n].value;
      assert (front + [leg])[..n] == front;
      if xs[n].Some? {
        assert Select(front + [leg], keys, true) == Select(front, keys, true) + [leg];
        assert Keys(Select(front, keys, true) + [leg]) == Keys(Select(front, keys, true)) + [ks[n]];
        assert Keys(Filled(xs[..n]) + [xs[n].value]) == Keys(Filled(xs[..n])) + [ks[n]];
      } else {
        assert Select(front + [leg], keys, true) == Select(front, keys, true);
        assert Filled(xs) == Filled(xs[..n]);
      }
    }
  }

  function OfferKeys(fired: seq<Offer>): seq<(int, int)> {
    seq(|fired|, i requires 0 <= i < |fired| => KeyOf(fired[i]))
  }

  lemma {:induction false} AttemptsKeyed(fired: seq<Offer>, v: Variant, cost: real)
    requires AllOfferable(fired)
    ensures Keyed(Attempts(fired, v, cost), OfferKeys(fired))
    ensures v == V1NextOpen ==> forall i | 0 <= i < |fired| :: Attempts(fired, v, cost)[i].Some?
  {
    forall i | 0 <= i < |fired|
      ensures Attempts(fired, v, cost)[i].Some? ==> TradeKey(Attempts(fired, v, cost)[i].value) == OfferKeys(fired)[i]
      ensures v == V1NextOpen ==> Attempts(fired, v, cost)[i].Some?
    {
      assert Offerable(fired[i]);
      assert Attempts(fired, v, cost)[i] == TradeOf(fired[i], v, cost);
    }
  }

  /**
   For either limit variant the V1 trades split exactly into the filled and the unfilled cohort: the
   filled cohort's legs are, in order, the limit's own signals, so every limit fill has one V1 leg,
   and the unfilled cohort is as large as the fill loop's count of unfilled signals.
   */
  lemma {:induction false} CohortsMatch(fired: seq<Offer>, v: Variant, cost: real)
    requires AllOfferable(fired) && KeysAscend(fired)
    ensures var v1, v2 := Trades(fired, V1NextOpen, cost), Trades(fired, v, cost);
            var filled := Select(v1, KeySet(v2), true);
            var unfilled := Select(v1, KeySet(v2), false);
            && |v1| == |fired| && |filled| + |unfilled| == |v1|
            && Keys(filled) == Keys(v2) && |filled| == |KeySet(v2)|
            && |unfilled| == |fired| - |v2|
  {
    var legs, xs, ks := Attempts(fired, V1NextOpen, cost), Attempts(fired, v, cost), OfferKeys(fired);
    var v2 := Filled(xs);
    AttemptsKeyed(fired, V1NextOpen, cost);
    AttemptsKeyed(fired, v, cost);
    CohortKeys(legs, xs, ks);
  }

  lemma {:induction false} AscendMarks(xs: seq<Option<Trade>>, ks: seq<(int, int)>, i: int)
    requires |xs| == |ks| && Ascend(ks) && 0 <= i < |xs|
    ensures Marks(xs, ks, ks[i]) <==> xs[i].Some?
  {
    forall j | 0 <= j < |ks| && j != i ensures ks[j] != ks[i] {
      assert if i < j then Before(ks[i], ks[j]) else Before(ks[j], ks[i]);
    }
  }

  lemma {:induction false} CohortKeys(legs: seq<Option<Trade>>, xs: seq<Option<Trade>>, ks: seq<(int, int)>)
    requires Keyed(legs, ks) && Keyed(xs, ks) && Ascend(ks)
    requires forall i | 0 <= i < |legs| :: legs[i].Some?
    ensures var v1, v2 := Filled(legs), Filled(xs);
            var filled := Select(v1, KeySet(v2), true);
            && |v1| == |legs| && |filled| + |Select(v1, KeySet(v2), false)| == |v1|
            && Keys(filled) == Keys(v2) && |filled| == |KeySet(v2)| == |v2|
  {
    var v1, v2 := Filled(legs), Filled(xs);
    FilledKeys(xs, ks);
    forall k ensures k in KeySet(v2) <==> k in Keys(v2) {
      if k in KeySet(v2) {
        var i :| 0 <= i < |v2| && TradeKey(v2[i]) == k;
        assert Keys(v2)[i] == k;
      }
    }
    forall i | 0 <= i < |ks| ensures ks[i] in KeySet(v2) <==> xs[i].Some? {
      AscendMarks(xs, ks, i);
    }
    LegsPairOff(legs, xs, ks, KeySet(v2));
    SelectSplits(v1, KeySet(v2));
    assert forall i, j | 0 <= i < j < |Keys(v2)| :: Before(Keys(v2)[i], Keys(v2)[j]);
    DistinctCardinality(Keys(v2), KeySet(v2));
    assert |Keys(Select(v1, KeySet(v2), true))| == |Keys(v2)|;
  }
}
