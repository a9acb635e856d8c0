/**
 The study of scripts/backtest_brk20.py from its signals to its outcomes: the fill loop's trades, the
 reporting rule stamped onto every variant's block at every horizon, and the decision under both gates.
 */
module BreakoutReport {
  import opened Common
  import opened BreakoutFills
  import opened BreakoutCohorts
  import opened BreakoutDecision
  import opened Sorting

  // Position of the ten-session decision horizon among HORIZONS.
  const DECISION_AT := 1

  predicate AllHorizons(ts: seq<Trade>) {
    forall x | 0 <= x < |HORIZONS| :: AllHave(ts, HORIZONS[x])
  }

  /** What the reporting rule leaves on a block of trades ts at horizon k. */
  predicate Stamped(b: CpcvBlock, ts: seq<Trade>, k: int, cost: real)
    requires AllHave(ts, k)
    reads b
  {
    var positive := MedianPositive(MedianNet(NetAt(ts, k)));
    && b.medianNet == MedianNet(NetAt(ts, k)) && b.geometryVerdict == Geometry(GrossAt(ts, k), cost)
    && (b.reportedPromotable <==> b.promotable && positive)
    && (b.gatesDisagree <==> b.promotable != positive)
  }

  predicate VariantStamped(cpcv: seq<CpcvBlock>, ts: seq<Trade>, cost: real)
    requires |cpcv| == |HORIZONS| && AllHorizons(ts)
    reads set b | b in cpcv
  {
    forall x | 0 <= x < |HORIZONS| :: Stamped(cpcv[x], ts, HORIZONS[x], cost)
  }

  function Members(blocks: seq<seq<CpcvBlock>>): set<CpcvBlock> {
    set v, x | 0 <= v < |blocks| && 0 <= x < |blocks[v]| :: blocks[v][x]
  }

  /** One block per variant and horizon, no two of them the same object. */
  predicate Grid(blocks: seq<seq<CpcvBlock>>) {
    && (forall v | 0 <= v < |blocks| :: |blocks[v]| == |HORIZONS|)
    && (forall v, w, x, y | 0 <= v < |blocks| && 0 <= w < |blocks| && 0 <= x < |HORIZONS| && 0 <= y < |HORIZONS| ::
          blocks[v][x] == blocks[w][y] ==> v == w && x == y)
  }

  method StampVariant(cpcv: seq<CpcvBlock>, ts: seq<Trade>, cost: real)
    requires |cpcv| == |HORIZONS| && Distinct(cpcv) && AllHorizons(ts)
    modifies set b | b in cpcv
    ensures VariantStamped(cpcv, ts, cost)
  {
    for i := 0 to |HORIZONS|
      invariant forall x | 0 <= x < i :: Stamped(cpcv[x], ts, HORIZONS[x], cost)
    {
      var k := HORIZONS[i];
      cpcv[i].ApplyReportingRule(Geometry(GrossAt(ts, k), cost), MedianNet(NetAt(ts, k)));
    }
  }

  method StampAll(blocks: seq<seq<CpcvBlock>>, trades: seq<seq<Trade>>, cost: real)
    requires Grid(blocks) && |trades| == |blocks| && forall v | 0 <= v < |trades| :: AllHorizons(trades[v])
    modifies Members(blocks)
    ensures forall v | 0 <= v < |blocks| :: VariantStamped(blocks[v], trades[v], cost)
  {
    for i := 0 to |blocks|
      invariant forall v | 0 <= v < i :: VariantStamped(blocks[v], trades[v], cost)
    {
      forall b | b in blocks[i] ensures b in Members(blocks) {
        var x :| 0 <= x < |blocks[i]| && blocks[i][x] == b;
      }
      StampVariant(blocks[i], trades[i], cost);
    }
  }

  /** The first n variants at one horizon, as the decision rule reads them; variants are in name order. */
  function RowsAt(blocks: seq<seq<CpcvBlock>>, x: nat, n: nat): (rows: seq<Row>)
    requires n <= |blocks| && forall v | 0 <= v < n :: x < |blocks[v]|
    reads set v | 0 <= v < n :: blocks[v][x]
    ensures |rows| == n
    ensures forall v | 0 <= v < n ::
              rows[v] == Row(v, blocks[v][x].promotable, blocks[v][x].reportedPromotable, blocks[v][x].medianNet)
  {
    if n == 0 then []
    else
      var b := blocks[n - 1][x];
      RowsAt(blocks, x, n - 1) + [Row(n - 1, b.promotable, b.reportedPromotable, b.medianNet)]
  }

  function DecisionRows(blocks: seq<seq<CpcvBlock>>): (rows: seq<Row>)
    requires Grid(blocks)
    reads Members(blocks)
    ensures |rows| == |blocks|
  {
    RowsAt(blocks, DECISION_AT, |blocks|)
  }

  /** Stamped blocks give the decision rule rows to which the reporting rule has been applied. */
  lemma {:induction false} StampedIsReported(blocks: seq<seq<CpcvBlock>>, trades: seq<seq<Trade>>, cost: real)
    requires Grid(blocks) && |trades| == |blocks| && forall v | 0 <= v < |trades| :: AllHorizons(trades[v])
    requires forall v | 0 <= v < |blocks| :: VariantStamped(blocks[v], trades[v], cost)
    ensures Reported(DecisionRows(blocks))
  {
    forall v | 0 <= v < |blocks|
      ensures var b := blocks[v][DECISION_AT]; b.reportedPromotable <==> b.promotable && MedianPositive(b.medianNet)
    {
      assert Stamped(blocks[v][DECISION_AT], trades[v], HORIZONS[DECISION_AT], cost);
    }
  }

  /** The unrounded median net of some trades at the decision horizon. */
  function NetMedian(ts: seq<Trade>): real
    requires ts != [] && AllHorizons(ts)
  {
    assert AllHave(ts, HORIZONS[DECISION_AT]);
    Median(NetAt(ts, HORIZONS[DECISION_AT]))
  }

  /** A variant the cross-validation gate passed, with trades to rank it by. */
  predicate Contends(b: CpcvBlock, ts: seq<Trade>) {
    b.promotable && ts != []
  }

  /** The row reads as its block and its trades do. */
  predicate Ranks(r: Row, b: CpcvBlock, ts: seq<Trade>)
    requires AllHorizons(ts)
  {
    && (Passes(r, Registered) <==> Contends(b, ts))
    && (Passes(r, Tightened) <==> Contends(b, ts) && r.median.value > 0.0)
    && (Contends(b, ts) ==>
          r.median == Some(Round4(NetMedian(ts))) && (r.median.value > 0.0 <==> NetMedian(ts) > 0.00005))
  }

  lemma {:induction false} StampedRanks(blocks: seq<seq<CpcvBlock>>, trades: seq<seq<Trade>>, cost: real, v: nat)
    requires Grid(blocks) && |trades| == |blocks| && v < |blocks| && AllHorizons(trades[v])
    requires VariantStamped(blocks[v], trades[v], cost)
    ensures Ranks(DecisionRows(blocks)[v], blocks[v][DECISION_AT], trades[v])
  {
    if trades[v] != [] {
      Round4Near(NetMedian(trades[v]));
    }
    assert Stamped(blocks[v][DECISION_AT], trades[v], HORIZONS[DECISION_AT], cost);
  }

  /** Block n contends, and every other contender's rounded median net is strictly lower. */
  predicate Best(bs: seq<CpcvBlock>, trades: seq<seq<Trade>>, n: int)
    requires |trades| == |bs| && forall v | 0 <= v < |trades| :: AllHorizons(trades[v])
  {
    && 0 <= n < |bs| && Contends(bs[n], trades[n])
    && forall v | 0 <= v < |bs| && v != n && Contends(bs[v], trades[v]) ::
         Round4(NetMedian(trades[v])) < Round4(NetMedian(trades[n]))
  }

  /** Variant n is the best contender, and its unrounded median net survives the rounding. */
  predicate BestGains(bs: seq<CpcvBlock>, trades: seq<seq<Trade>>, n: int)
    requires |trades| == |bs| && forall v | 0 <= v < |trades| :: AllHorizons(trades[v])
  {
    Best(bs, trades, n) && NetMedian(trades[n]) > 0.00005
  }

  lemma {:induction false} BestLeads(rows: seq<Row>, bs: seq<CpcvBlock>, trades: seq<seq<Trade>>, n: int)
    requires |rows| == |trades| == |bs| && forall v | 0 <= v < |trades| :: AllHorizons(trades[v])
    requires forall v | 0 <= v < |rows| :: Ranks(rows[v], bs[v], trades[v])
    ensures Leads(rows, Registered, n) <==> Best(bs, trades, n)
    ensures Leads(rows, Tightened, n) <==> BestGains(bs, trades, n)
  {
    hide NetMedian, Round4, AllHorizons, Contends, Passes;
    if 0 <= n < |rows| {
      assert Ranks(rows[n], bs[n], trades[n]);
    }
  }

  /** The blocks at the decision horizon. */
  function AtDecision(blocks: seq<seq<CpcvBlock>>): (bs: seq<CpcvBlock>)
    requires Grid(blocks)
    ensures |bs| == |blocks| && forall v | 0 <= v < |bs| :: bs[v] == blocks[v][DECISION_AT]
  {
    seq(|blocks|, v requires 0 <= v < |blocks| => blocks[v][DECISION_AT])
  }

  /**
   In terms of the trades alone: the registered winner is the contender with strictly the highest
   median net, and the tightened one is the same if its unrounded median net exceeds 0.00005.
   */
  lemma {:induction false} WinnerIff(blocks: seq<seq<CpcvBlock>>, trades: seq<seq<Trade>>, cost: real, n: int)
    requires Grid(blocks) && |trades| == |blocks| && forall v | 0 <= v < |trades| :: AllHorizons(trades[v])
    requires forall v | 0 <= v < |blocks| :: VariantStamped(blocks[v], trades[v], cost)
    ensures var rows, bs := DecisionRows(blocks), AtDecision(blocks);
            && (Decision(rows, Registered) == Winner(n) <==> Best(bs, trades, n))
            && (Decision(rows, Tightened) == Winner(n) <==> BestGains(bs, trades, n))
  {
    hide VariantStamped, Ranks, Decision, Leads, AllHorizons, Best, BestGains;
    var rows := DecisionRows(blocks);
    WinnerLeads(rows, Registered, n);
    WinnerLeads(rows, Tightened, n);
    forall v: nat | v < |blocks| ensures Ranks(rows[v], AtDecision(blocks)[v], trades[v]) {
      StampedRanks(blocks, trades, cost, v);
    }
    BestLeads(rows, AtDecision(blocks), trades, n);
  }

  /** A winner is the best contender, under the tightened rule only if it also gains. */
  ghost predicate NamedByTrades(
      bs: seq<CpcvBlock>, trades: seq<seq<Trade>>, registered: Outcome, tightened: Outcome)
    requires |trades| == |bs| && forall v | 0 <= v < |trades| :: AllHorizons(trades[v])
  {
    forall n ::
      && (registered == Winner(n) <==> Best(bs, trades, n))
      && (tightened == Winner(n) <==> BestGains(bs, trades, n))
  }

  lemma {:induction false} WinnersAreNamed(blocks: seq<seq<CpcvBlock>>, trades: seq<seq<Trade>>, cost: real)
    requires Grid(blocks) && |trades| == |blocks| && forall v | 0 <= v < |trades| :: AllHorizons(trades[v])
    requires forall v | 0 <= v < |blocks| :: VariantStamped(blocks[v], trades[v], cost)
    ensures var rows := DecisionRows(blocks);
            NamedByTrades(AtDecision(blocks), trades, Decision(rows, Registered), Decision(rows, Tightened))
  {
    hide VariantStamped, Decision, AllHorizons, Best, BestGains;
    var rows, bs := DecisionRows(blocks), AtDecision(blocks);
    forall n
      ensures Decision(rows, Registered) == Winner(n) <==> Best(bs, trades, n)
      ensures Decision(rows, Tightened) == Winner(n) <==> BestGains(bs, trades, n)
    {
      WinnerIff(blocks, trades, cost, n);
    }
  }

  /**
   The two outcomes of some rows: the tightened one is the registered one or `neither`, and where the
   registered rule names a winner or a tie it is `neither` exactly when the top published median net is
   not positive.
   */
  predicate Decided(rows: seq<Row>, registered: Outcome, tightened: Outcome) {
    && registered == Decision(rows, Registered) && tightened == Decision(rows, Tightened)
    && Reported(rows)
    && (tightened == registered || tightened == Neither)
    && (registered != Neither ==>
          Rank(Gated(rows, Registered)) != []
          && (tightened == Neither <==> Rank(Gated(rows, Registered))[0].0 <= 0.0))
  }

  lemma {:induction false} StampedIsDecided(blocks: seq<seq<CpcvBlock>>, trades: seq<seq<Trade>>, cost: real)
    requires Grid(blocks) && |trades| == |blocks| && forall v | 0 <= v < |trades| :: AllHorizons(trades[v])
    requires forall v | 0 <= v < |blocks| :: VariantStamped(blocks[v], trades[v], cost)
    ensures var rows := DecisionRows(blocks);
            Decided(rows, Decision(rows, Registered), Decision(rows, Tightened))
  {
    hide VariantStamped, Reported, Decision, Rank, Gated;
    StampedIsReported(blocks, trades, cost);
    TighteningNeverRenames(DecisionRows(blocks));
  }

  /** Both outcomes of a finished study, from the blocks the gate stamped; the trades name the winners. */
  method ReportDecisions(blocks: seq<seq<CpcvBlock>>, trades: seq<seq<Trade>>, cost: real)
    returns (registered: Outcome, tightened: Outcome)
    requires Grid(blocks) && |trades| == |blocks| && forall v | 0 <= v < |trades| :: AllHorizons(trades[v])
    modifies Members(blocks)
    ensures forall v | 0 <= v < |blocks| :: VariantStamped(blocks[v], trades[v], cost)
    ensures Decided(DecisionRows(blocks), registered, tightened)
    ensures NamedByTrades(AtDecision(blocks), trades, registered, tightened)
  {
    hide VariantStamped, Decided, Decision, NamedByTrades, Rank, Gated, Grid, DecisionRows, AtDecision;
    StampAll(blocks, trades, cost);
    StampedIsDecided(blocks, trades, cost);
    WinnersAreNamed(blocks, trades, cost);
    var rows := DecisionRows(blocks);
    var names: seq<int>;
    registered, names := DecisionOutcome(rows, Registered);
    tightened, names := DecisionOutcome(rows, Tightened);
  }

  // ---------------------------------------------------------------- the whole study

  /** The trades a variant books on the scanned symbols' admitted signals. */
  function BookedBy(scan: seq<(Series, seq<Signal>)>, v: Variant, cost: real): seq<Trade>
    requires ScanOrder(scan)
  {
    PopulationAscends(scan);
    Trades(Population(scan), v, cost)
  }

  lemma {:induction false} BookedAllHorizons(scan: seq<(Series, seq<Signal>)>, v: Variant, cost: real)
    requires ScanOrder(scan)
    ensures AllHorizons(BookedBy(scan, v, cost))
  {
    hide Trades, ScanOrder, AllOfferable;
    PopulationAscends(scan);
    forall x | 0 <= x < |HORIZONS| ensures AllHave(BookedBy(scan, v, cost), HORIZONS[x]) {
      BookedIsMeasured(Population(scan), v, cost, HORIZONS[x]);
    }
  }

  function StudyTrades(scan: seq<(Series, seq<Signal>)>, cost: real): (trades: seq<seq<Trade>>)
    requires ScanOrder(scan)
    ensures |trades| == |VARIANTS|
    ensures forall v | 0 <= v < |VARIANTS| ::
              trades[v] == BookedBy(scan, VARIANTS[v], cost) && AllHorizons(trades[v])
  {
    BookedAllHorizons(scan, V1NextOpen, cost);
    BookedAllHorizons(scan, V2LimitN3, cost);
    BookedAllHorizons(scan, V2LimitN5, cost);
    [BookedBy(scan, V1NextOpen, cost), BookedBy(scan, V2LimitN3, cost), BookedBy(scan, V2LimitN5, cost)]
  }

  /**
   Admission, the fill loop, the stamping and both decisions: every block is stamped from the trades its
   own variant booked, every admitted signal is booked or counted unfilled, the tightening renames no
   winner, and the winners are those the booked trades themselves name.
   */
  method RunStudy(scan: seq<(Series, seq<Signal>)>, cost: real, blocks: seq<seq<CpcvBlock>>)
    returns (unfilled: map<Variant, int>, registered: Outcome, tightened: Outcome)
    requires ScanOrder(scan) && Grid(blocks) && |blocks| == |VARIANTS|
    modifies Members(blocks)
    ensures forall v | 0 <= v < |VARIANTS| ::
              && VARIANTS[v] in unfilled
              && unfilled[VARIANTS[v]] == |Population(scan)| - |StudyTrades(scan, cost)[v]|
              && VariantStamped(blocks[v], StudyTrades(scan, cost)[v], cost)
    ensures Decided(DecisionRows(blocks), registered, tightened)
    ensures NamedByTrades(AtDecision(blocks), StudyTrades(scan, cost), registered, tightened)
  {
    hide VariantStamped, AllHorizons, Trades, AllOfferable, Decided, NamedByTrades;
    var fired := AdmitSignals(scan);
    PopulationAscends(scan);
    var byVariant: map<Variant, seq<Trade>>;
    byVariant, unfilled := RunVariants(fired, cost);
    var trades := [byVariant[V1NextOpen], byVariant[V2LimitN3], byVariant[V2LimitN5]];
    assert trades == StudyTrades(scan, cost);
    registered, tightened := ReportDecisions(blocks, trades, cost);
  }
}
