/**
 What the blocks and the outcomes of scripts/backtest_brk20.py say of the booked trades themselves, horizon
 by horizon.
 */
module BreakoutOutcome {
  import opened Common
  import opened Sorting
  import opened BreakoutFills
  import opened BreakoutDecision
  import opened BreakoutReport

  /** xs lists what each trade earns net, or gross, after k sessions. */
  predicate ListsNet(ts: seq<Trade>, k: int, xs: seq<real>) {
    |xs| == |ts| && forall i | 0 <= i < |ts| :: k in ts[i].net && xs[i] == ts[i].net[k]
  }

  predicate ListsGross(ts: seq<Trade>, k: int, xs: seq<real>) {
    |xs| == |ts| && forall i | 0 <= i < |ts| :: k in ts[i].gross && xs[i] == ts[i].gross[k]
  }

  /** The block of horizon k reads as the trades' returns there do. */
  predicate Reads(b: CpcvBlock, ts: seq<Trade>, k: int, cost: real, net: seq<real>, gross: seq<real>)
    requires |net| == |ts| == |gross|
    reads b
  {
    var gains := ts != [] && Median(net) > 0.00005;
    && b.medianNet == (if ts == [] then None else Some(Round4(Median(net))))
    && (b.geometryVerdict == Unknown <==> ts == [])
    && (b.geometryVerdict == Viable <==> ts != [] && Median(gross) > cost)
    && (b.reportedPromotable <==> b.promotable && gains)
    && (b.gatesDisagree <==> b.promotable != gains)
  }

  lemma {:induction false} StampedReads(
      b: CpcvBlock, ts: seq<Trade>, k: int, cost: real, net: seq<real>, gross: seq<real>)
    requires AllHave(ts, k) && Stamped(b, ts, k, cost) && ListsNet(ts, k, net) && ListsGross(ts, k, gross)
    ensures Reads(b, ts, k, cost, net, gross)
  {
    assert net == NetAt(ts, k) && gross == GrossAt(ts, k);
    if ts != [] {
      Round4Near(Median(net));
    }
  }

  /** A variant's blocks are those of 5, 10 and 20 sessions, and each reads as its trades there do. */
  lemma {:induction false} VariantReads(
      cpcv: seq<CpcvBlock>, ts: seq<Trade>, cost: real, x: nat, net: seq<real>, gross: seq<real>)
    requires |cpcv| == |HORIZONS| && AllHorizons(ts) && VariantStamped(cpcv, ts, cost) && x < 3
    requires var k := [5, 10, 20][x]; ListsNet(ts, k, net) && ListsGross(ts, k, gross)
    ensures |cpcv| == 3 && Reads(cpcv[x], ts, [5, 10, 20][x], cost, net, gross)
  {
    assert Stamped(cpcv[x], ts, HORIZONS[x], cost);
    StampedReads(cpcv[x], ts, HORIZONS[x], cost, net, gross);
  }

  /** Variants are compared by what their trades earn after ten sessions. */
  lemma {:induction false} NetMedianIs(ts: seq<Trade>, net: seq<real>)
    requires ts != [] && AllHorizons(ts) && ListsNet(ts, 10, net)
    ensures NetMedian(ts) == Median(net)
  {
    assert AllHave(ts, HORIZONS[DECISION_AT]);
    assert net == NetAt(ts, HORIZONS[DECISION_AT]);
  }

  lemma {:induction false} NeitherPasses(rows: seq<Row>, gate: Gate)
    requires forall i, j | 0 <= i < j < |rows| :: rows[i].name != rows[j].name
    ensures Decision(rows, gate) == Neither <==> forall i | 0 <= i < |rows| :: !Passes(rows[i], gate)
  {
    hide Decision, Gated, Passes;
    var s := Gated(rows, gate);
    DecisionMeaning(rows, gate, 0);
    if s != [] {
      GatedIff(rows, gate, s[0]);
      assert s[0] in s;
    }
    forall i | 0 <= i < |rows| && Passes(rows[i], gate) ensures s != [] {
      PassesIsGated(rows, gate, i);
    }
  }

  lemma {:induction false} PassesIsGated(rows: seq<Row>, gate: Gate, i: nat)
    requires i < |rows| && Passes(rows[i], gate)
    ensures Gated(rows, gate) != []
  {
    var e := (rows[i].median.value, rows[i].name);
    assert From(rows, gate, e);
    GatedIff(rows, gate, e);
  }

  /**
   The registered outcome is `neither` exactly when no variant contends, the tightened one exactly when
   none contends with a median net above 0.00005.
   */
  lemma {:induction false} NeitherIff(blocks: seq<seq<CpcvBlock>>, trades: seq<seq<Trade>>, cost: real)
    requires Grid(blocks) && |trades| == |blocks| && forall v | 0 <= v < |trades| :: AllHorizons(trades[v])
    requires forall v | 0 <= v < |blocks| :: VariantStamped(blocks[v], trades[v], cost)
    ensures Decision(DecisionRows(blocks), Registered) == Neither <==>
            forall v | 0 <= v < |blocks| :: !Contends(blocks[v][1], trades[v])
    ensures Decision(DecisionRows(blocks), Tightened) == Neither <==>
            forall v | 0 <= v < |blocks| :: !(Contends(blocks[v][1], trades[v]) && NetMedian(trades[v]) > 0.00005)
  {
    hide VariantStamped, Decision, Passes, AllHorizons, NetMedian;
    var rows := DecisionRows(blocks);
    NeitherPasses(rows, Registered);
    NeitherPasses(rows, Tightened);
    forall v: nat | v < |blocks|
      ensures Passes(rows[v], Registered) <==> Contends(blocks[v][1], trades[v])
      ensures Passes(rows[v], Tightened) <==> Contends(blocks[v][1], trades[v]) && NetMedian(trades[v]) > 0.00005
    {
      StampedRanks(blocks, trades, cost, v);
    }
  }
}
