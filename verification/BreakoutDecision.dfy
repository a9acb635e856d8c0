/**
 The registered decision rule of scripts/backtest_brk20.py and the tightened reporting gate stacked on
 it: ranking, ties, and what the tightening can and cannot change.
 */
module BreakoutDecision {
  import opened Common
  import opened Sorting
  import opened BreakoutFills
  import opened BreakoutCohorts

  datatype Verdict = Unknown | Viable | Dead

  // ---------------------------------------------------------------- geometry and the reporting rule

  /** Python's `round(y)`: to the nearest integer, ties to the even one. */
  function HalfEven(y: real): int {
    var q := y.Floor;
    var r := y - q as real;
    if r < 0.5 then q else if r > 0.5 then q + 1 else if q % 2 == 0 then q else q + 1
  }

  /** `round(x, 4)`. */
  function Round4(x: real): real {
    HalfEven(x * 10000.0) as real / 10000.0
  }

  /** Rounding moves a value by at most half a unit of the last place, and keeps the zero. */
  lemma {:induction false} Round4Near(x: real)
    ensures x - 0.00005 <= Round4(x) <= x + 0.00005
    ensures Round4(x) > 0.0 <==> x > 0.00005
  {
    var y := x * 10000.0;
    assert y - 0.5 <= HalfEven(y) as real <= y + 0.5;
    assert HalfEven(y) >= 1 <==> y > 0.5;
  }

  /** n ten-thousandths are nearest to x, and of two equally near n is the even one. */
  predicate NearestTick(x: real, n: int) {
    && n as real - 0.5 <= x * 10000.0 <= n as real + 0.5
    && (x * 10000.0 == n as real - 0.5 || x * 10000.0 == n as real + 0.5 ==> n % 2 == 0)
  }

  /** The rounded median is the nearest multiple of 0.0001, and of two equally near the even one. */
  lemma {:induction false} Round4Is(x: real)
    ensures exists n: int :: NearestTick(x, n) && Round4(x) == n as real / 10000.0
  {
    assert NearestTick(x, HalfEven(x * 10000.0));
  }

  /** Median gross drift against one round trip. */
  function Geometry(gross: seq<real>, cost: real): Verdict {
    if gross == [] then Unknown else if Median(gross) > cost then Viable else Dead
  }

  /** The cell's published median, rounded to four decimals. */
  function MedianNet(net: seq<real>): Option<real> {
    if net == [] then None else Some(Round4(Median(net)))
  }

  predicate MedianPositive(median: Option<real>) {
    median.Some? && median.value > 0.0
  }

  /** One variant's cross-validation block at the decision horizon. */
  class CpcvBlock {
    const promotable: bool
    var medianNet: Option<real>
    var geometryVerdict: Verdict
    var gatesDisagree: bool
    var reportedPromotable: bool

    constructor (pass: bool)
      ensures promotable == pass && !reportedPromotable
    {
      promotable := pass;
      medianNet, geometryVerdict, gatesDisagree, reportedPromotable := None, Unknown, false, false;
    }

    method ApplyReportingRule(verdict: Verdict, median: Option<real>)
      modifies this
      ensures medianNet == median && geometryVerdict == verdict
      ensures reportedPromotable <==> promotable && MedianPositive(median)
      ensures gatesDisagree <==> reportedPromotable != (promotable || MedianPositive(median))
    {
      var viable := MedianPositive(median);
      medianNet := median;
      geometryVerdict := verdict;
      gatesDisagree := promotable != viable;
      reportedPromotable := promotable && viable;
    }
  }

  predicate AllHave(ts: seq<Trade>, k: int) {
    forall i | 0 <= i < |ts| :: k in ts[i].gross && k in ts[i].net
  }

  function GrossAt(ts: seq<Trade>, k: int): seq<real>
    requires AllHave(ts, k)
  {
    seq(|ts|, i requires 0 <= i < |ts| => ts[i].gross[k])
  }

  function NetAt(ts: seq<Trade>, k: int): seq<real>
    requires AllHave(ts, k)
  {
    seq(|ts|, i requires 0 <= i < |ts| => ts[i].net[k])
  }

  /** A trade measured by the fill loop at horizon k, net of one round trip. */
  predicate MeasuredAt(t: Trade, k: int, cost: real) {
    k in t.gross && k in t.net && t.net[k] == t.gross[k] - cost
  }

  predicate AllMeasured(ts: seq<Trade>, k: int, cost: real) {
    AllHave(ts, k) && forall i | 0 <= i < |ts| :: MeasuredAt(ts[i], k, cost)
  }

  lemma {:induction false} TradesMeasured(xs: seq<Option<Trade>>, k: int, cost: real)
    requires forall i | 0 <= i < |xs| :: xs[i].Some? ==> MeasuredAt(xs[i].value, k, cost)
    ensures AllMeasured(Filled(xs), k, cost)
  {
    if xs != [] {
      TradesMeasured(xs[..|xs| - 1], k, cost);
    }
  }

  /** The geometry is viable (median gross above the cost) exactly when the unrounded median net is positive. */
  lemma {:induction false} GeometryIsNetSign(ts: seq<Trade>, k: int, cost: real)
    requires AllMeasured(ts, k, cost)
    ensures Geometry(GrossAt(ts, k), cost) == Viable <==> ts != [] && Median(NetAt(ts, k)) > 0.0
  {
    if ts != [] {
      assert NetAt(ts, k) == Shift(GrossAt(ts, k), -cost);
      MedianShift(GrossAt(ts, k), -cost);
    }
  }

  /** The verdict says viable but the published median net does not: too small a gain survives no rounding. */
  predicate LostToRounding(ts: seq<Trade>, k: int)
    requires AllHave(ts, k)
  {
    ts != [] && 0.0 < Median(NetAt(ts, k)) <= 0.00005
  }

  /**
   The two statistics of one block, the verdict on the median gross and the sign of the published
   median net, say the same except exactly on the band (0, 0.00005], where only the verdict is viable.
   */
  lemma {:induction false} GatesPartIff(ts: seq<Trade>, k: int, cost: real)
    requires AllMeasured(ts, k, cost)
    ensures var viable := Geometry(GrossAt(ts, k), cost) == Viable;
            var positive := MedianPositive(MedianNet(NetAt(ts, k)));
            (positive ==> viable) && (viable && !positive <==> LostToRounding(ts, k))
  {
    GeometryIsNetSign(ts, k, cost);
    if ts != [] {
      Round4Near(Median(NetAt(ts, k)));
    }
  }

  /** Every trade the fill loop books is measured at every horizon, net of one round trip. */
  lemma {:induction false} BookedIsMeasured(fired: seq<Offer>, v: Variant, cost: real, k: int)
    requires AllOfferable(fired) && k in HORIZONS
    ensures AllMeasured(Trades(fired, v, cost), k, cost)
  {
    var xs := Attempts(fired, v, cost);
    forall i | 0 <= i < |xs| ensures xs[i].Some? ==> MeasuredAt(xs[i].value, k, cost) {
      assert Offerable(fired[i]) && xs[i] == TradeOf(fired[i], v, cost);
      if Fill(fired[i].0, fired[i].1, v).Some? {
        FilledIsMeasured(fired[i].0, fired[i].1, v, cost);
      }
    }
    TradesMeasured(xs, k, cost);
  }

  /** So the gates part on just that band for the trades the fill loop books, at every horizon. */
  lemma {:induction false} BookedGatesPartIff(fired: seq<Offer>, v: Variant, cost: real, k: int)
    requires AllOfferable(fired) && k in HORIZONS
    ensures var ts := Trades(fired, v, cost);
            && AllMeasured(ts, k, cost)
            && (Geometry(GrossAt(ts, k), cost) == Viable && !MedianPositive(MedianNet(NetAt(ts, k))) <==>
                LostToRounding(ts, k))
            && (MedianPositive(MedianNet(NetAt(ts, k))) ==> Geometry(GrossAt(ts, k), cost) == Viable)
  {
    BookedIsMeasured(fired, v, cost, k);
    GatesPartIff(Trades(fired, v, cost), k, cost);
  }

  // ---------------------------------------------------------------- ranking

  /** One variant at the decision horizon; variants are numbered in name order. */
  datatype Row = Row(name: int, promotable: bool, reported: bool, median: Option<real>)

  datatype Gate = Registered | Tightened

  type Entry = (real, int)

  predicate Passes(r: Row, gate: Gate) {
    (match gate case Registered => r.promotable case Tightened => r.reported) && r.median.Some?
  }

  function Gated(rows: seq<Row>, gate: Gate): seq<Entry> {
    if rows == [] then []
    else
      var r := rows[|rows| - 1];
      Gated(rows[..|rows| - 1], gate) + if Passes(r, gate) then [(r.median.value, r.name)] else []
  }

  /** The sort key `(-median, name)`. */
  predicate Ahead(a: Entry, b: Entry) {
    a.0 > b.0 || (a.0 == b.0 && a.1 < b.1)
  }

  function Place(x: Entry, s: seq<Entry>): seq<Entry> {
    if s == [] || !Ahead(s[0], x) then [x] + s else [s[0]] + Place(x, s[1..])
  }

  function Rank(s: seq<Entry>): seq<Entry> {
    if s == [] then [] else Place(s[|s| - 1], Rank(s[..|s| - 1]))
  }

  datatype Outcome = Winner(name: int) | Tie | Neither

  function Decide(ranked: seq<Entry>): Outcome {
    if ranked == [] then Neither
    else if |ranked| > 1 && ranked[0].0 == ranked[1].0 then Tie
    else Winner(ranked[0].1)
  }

  function Decision(rows: seq<Row>, gate: Gate): Outcome {
    Decide(Rank(Gated(rows, gate)))
  }

  method DecisionOutcome(rows: seq<Row>, gate: Gate) returns (outcome: Outcome, promotableAtHorizon: seq<int>)
    ensures outcome == Decision(rows, gate)
    ensures |promotableAtHorizon| == |Rank(Gated(rows, gate))|
    ensures forall i | 0 <= i < |promotableAtHorizon| :: promotableAtHorizon[i] == Rank(Gated(rows, gate))[i].1
  {
    var entries: seq<Entry> := [];
    var n := 0;
    while n < |rows|
      invariant 0 <= n <= |rows|
      invariant entries == Gated(rows[..n], gate)
    {
      var pass := if gate == Registered then rows[n].promotable else rows[n].reported;
      assert rows[..n + 1][..n] == rows[..n];
      if pass && rows[n].median.Some? {
        entries := entries + [(rows[n].median.value, rows[n].name)];
      }
      n := n + 1;
    }
    assert rows[..n] == rows;
    var ranked := Rank(entries);
    promotableAtHorizon := seq(|ranked|, i requires 0 <= i < |ranked| => ranked[i].1);
    if ranked == [] {
      outcome := Neither;
    } else if |ranked| > 1 && ranked[0].0 == ranked[1].0 {
      outcome := Tie;
    } else {
      outcome := Winner(ranked[0].1);
    }
  }

  predicate InOrder(s: seq<Entry>) {
    forall i, j | 0 <= i < j < |s| :: s[i].0 > s[j].0 || (s[i].0 == s[j].0 && s[i].1 < s[j].1)
  }

  predicate NamesDistinct(s: seq<Entry>) {
    forall i, j | 0 <= i < j < |s| :: s[i].1 != s[j].1
  }

  lemma {:induction false} PlaceOrders(x: Entry, s: seq<Entry>)
    requires InOrder(s) && NamesDistinct(s) && forall i | 0 <= i < |s| :: s[i].1 != x.1
    ensures InOrder(Place(x, s)) && NamesDistinct(Place(x, s))
    ensures Place(x, s) != [] && (Place(x, s)[0] == x || (s != [] && Place(x, s)[0] == s[0] && s[0].0 >= x.0))
    ensures forall e :: e in Place(x, s) <==> e == x || e in s
  {
    if s != [] && Ahead(s[0], x) {
      PlaceOrders(x, s[1..]);
      var rest := Place(x, s[1..]);
      forall j | 0 <= j < |rest| ensures Ahead(s[0], rest[j]) && s[0].1 != rest[j].1 {
        assert rest[j] in rest;
        if rest[j] != x {
          var i :| 0 <= i < |s[1..]| && s[1..][i] == rest[j];
          assert s[i + 1] == rest[j];
        }
      }
    }
  }

  lemma {:induction false} RankOrders(s: seq<Entry>)
    requires NamesDistinct(s)
    ensures InOrder(Rank(s)) && NamesDistinct(Rank(s))
    ensures forall e :: e in Rank(s) <==> e in s
  {
    if s != [] {
      var front, last := s[..|s| - 1], s[|s| - 1];
      RankOrders(front);
      forall i | 0 <= i < |Rank(front)| ensures Rank(front)[i].1 != last.1 {
        assert Rank(front)[i] in front;
      }
      PlaceOrders(last, Rank(front));
      assert s == front + [last];
    }
  }

  lemma {:induction false} GatedNames(rows: seq<Row>, gate: Gate)
    requires forall i, j | 0 <= i < j < |rows| :: rows[i].name != rows[j].name
    ensures NamesDistinct(Gated(rows, gate))
    ensures forall i | 0 <= i < |Gated(rows, gate)| ::
              exists j :: 0 <= j < |rows| && Gated(rows, gate)[i].1 == rows[j].name
  {
    if rows != [] {
      var front := rows[..|rows| - 1];
      GatedNames(front, gate);
      var s := Gated(front, gate);
      forall i | 0 <= i < |s|
        ensures s[i].1 != rows[|rows| - 1].name && exists j :: 0 <= j < |rows| && s[i].1 == rows[j].name
      {
        var j :| 0 <= j < |front| && s[i].1 == front[j].name;
        assert rows[j].name == s[i].1;
      }
      assert rows[|rows| - 1].name == rows[|rows| - 1].name;
    }
  }

  /** The entry is that of a row that passes the gate. */
  predicate From(rows: seq<Row>, gate: Gate, e: Entry) {
    exists i :: 0 <= i < |rows| && Passes(rows[i], gate) && e == (rows[i].median.value, rows[i].name)
  }

  lemma {:induction false} GatedIff(rows: seq<Row>, gate: Gate, e: Entry)
    ensures e in Gated(rows, gate) <==> From(rows, gate, e)
  {
    if rows != [] {
      var front, last := rows[..|rows| - 1], rows[|rows| - 1];
      GatedIff(front, gate, e);
      if From(front, gate, e) {
        var i :| 0 <= i < |front| && Passes(front[i], gate) && e == (front[i].median.value, front[i].name);
        assert rows[i] == front[i];
      }
      if From(rows, gate, e) && !(Passes(last, gate) && e == (last.median.value, last.name)) {
        var i :| 0 <= i < |rows| && Passes(rows[i], gate) && e == (rows[i].median.value, rows[i].name);
        assert front[i] == rows[i];
      }
    }
  }

  /** What the outcome means over the gated variants themselves, whatever order they came in. */
  lemma {:induction false} DecisionMeaning(rows: seq<Row>, gate: Gate, n: int)
    requires forall i, j | 0 <= i < j < |rows| :: rows[i].name != rows[j].name
    ensures var s := Gated(rows, gate);
            && (Decision(rows, gate) == Neither <==> s == [])
            && (Decision(rows, gate) == Winner(n) <==>
                  exists m :: (m, n) in s && forall e | e in s && e != (m, n) :: e.0 < m)
  {
    hide Gated, Rank;
    var s := Gated(rows, gate);
    var ranked := Rank(s);
    GatedNames(rows, gate);
    RankOrders(s);
    if ranked != [] {
      assert ranked[0] in ranked;
    }
    if s != [] {
      assert s[0] in ranked;
      var top := ranked[0];
      assert top in s;
      forall e | e in s && e != top ensures |ranked| > 1 && e.0 <= ranked[1].0 {
        var i :| 0 <= i < |ranked| && ranked[i] == e;
      }
      if |ranked| > 1 {
        assert ranked[1] in s && ranked[1].1 != top.1;
      }
    }
  }

  /** Row n passes the gate, and every other row that does has a strictly lower median. */
  predicate Leads(rows: seq<Row>, gate: Gate, n: int) {
    && 0 <= n < |rows| && Passes(rows[n], gate)
    && forall v | 0 <= v < |rows| && v != n && Passes(rows[v], gate) :: rows[v].median.value < rows[n].median.value
  }

  lemma {:induction false} WinnerLeads(rows: seq<Row>, gate: Gate, n: int)
    requires forall i | 0 <= i < |rows| :: rows[i].name == i
    ensures Decision(rows, gate) == Winner(n) <==> Leads(rows, gate, n)
  {
    hide Decision, Gated;
    DecisionMeaning(rows, gate, n);
    forall e ensures e in Gated(rows, gate) <==> From(rows, gate, e) {
      GatedIff(rows, gate, e);
    }
    if Leads(rows, gate, n) {
      assert From(rows, gate, (rows[n].median.value, n));
    }
    if Decision(rows, gate) == Winner(n) {
      var m :| (m, n) in Gated(rows, gate) && forall e | e in Gated(rows, gate) && e != (m, n) :: e.0 < m;
      forall v | 0 <= v < |rows| && v != n && Passes(rows[v], gate)
        ensures rows[v].median.value < m
      {
        assert From(rows, gate, (rows[v].median.value, v));
      }
    }
  }

  // ---------------------------------------------------------------- the tightening

  /** The reporting rule has been applied to every variant. */
  predicate Reported(rows: seq<Row>) {
    forall i | 0 <= i < |rows| ::
      rows[i].reported <==> rows[i].promotable && MedianPositive(rows[i].median)
  }

  function Positive(s: seq<Entry>): seq<Entry> {
    if s == [] then []
    else Positive(s[..|s| - 1]) + if s[|s| - 1].0 > 0.0 then [s[|s| - 1]] else []
  }

  function LeadingPositive(s: seq<Entry>): seq<Entry> {
    if s == [] || s[0].0 <= 0.0 then [] else [s[0]] + LeadingPositive(s[1..])
  }

  lemma {:induction false} TightenedIsPositive(rows: seq<Row>)
    requires Reported(rows)
    ensures Gated(rows, Tightened) == Positive(Gated(rows, Registered))
  {
    if rows != [] {
      TightenedIsPositive(rows[..|rows| - 1]);
      var s, e := Gated(rows[..|rows| - 1], Registered), Gated(rows, Registered);
      if Passes(rows[|rows| - 1], Registered) {
        assert e[..|e| - 1] == s;
      } else {
        assert e == s;
      }
    }
  }

  lemma {:induction false} PlacePositive(x: Entry, s: seq<Entry>)
    requires InOrder(s)
    ensures LeadingPositive(Place(x, s)) == if x.0 > 0.0 then Place(x, LeadingPositive(s)) else LeadingPositive(s)
  {
    if s == [] || !Ahead(s[0], x) {
      assert ([x] + s)[1..] == s;
    } else {
      PlacePositive(x, s[1..]);
      assert ([s[0]] + Place(x, s[1..]))[1..] == Place(x, s[1..]);
      if s[0].0 > 0.0 {
        assert LeadingPositive(s)[1..] == LeadingPositive(s[1..]);
      }
    }
  }

  lemma {:induction false} RankPositive(s: seq<Entry>)
    requires NamesDistinct(s)
    ensures Rank(Positive(s)) == LeadingPositive(Rank(s))
  {
    if s != [] {
      var front, last := s[..|s| - 1], s[|s| - 1];
      RankPositive(front);
      RankOrders(front);
      PlacePositive(last, Rank(front));
      if last.0 > 0.0 {
        assert Positive(s)[..|Positive(s)| - 1] == Positive(front);
      } else {
        assert Positive(s) == Positive(front);
      }
    }
  }

  /** The tightened ranking is the registered one, cut where medians stop being positive. */
  lemma {:induction false} TightenedRankingIsPrefix(rows: seq<Row>)
    requires Reported(rows) && forall i, j | 0 <= i < j < |rows| :: rows[i].name != rows[j].name
    ensures Rank(Gated(rows, Tightened)) == LeadingPositive(Rank(Gated(rows, Registered)))
  {
    TightenedIsPositive(rows);
    GatedNames(rows, Registered);
    RankPositive(Gated(rows, Registered));
  }

  /**
   Tightening never renames a winner: the tightened outcome is the registered one or `neither`; and
   where the registered rule names a winner or a tie, it becomes `neither` exactly when the top
   median net is not positive.
   */
  lemma {:induction false} TighteningNeverRenames(rows: seq<Row>)
    requires Reported(rows) && forall i, j | 0 <= i < j < |rows| :: rows[i].name != rows[j].name
    ensures var registered, tightened := Decision(rows, Registered), Decision(rows, Tightened);
            && (tightened == registered || tightened == Neither)
            && (registered != Neither ==>
                  Rank(Gated(rows, Registered)) != []
                  && (tightened == Neither <==> Rank(Gated(rows, Registered))[0].0 <= 0.0))
  {
    TightenedRankingIsPrefix(rows);
  }
}
