/**
 A fade trade of scripts/backtest_fade.py from session to fill: the levels read through the decision
 bar, the entry one minute later, and the short exit.
 */
module FadeTrades {
  import opened Common
  import opened Tape
  import opened FadeExits

  // Bars of the opening range start at 09:15 and end before 09:30.
  const OR_START := 0
  const OR_END := 15

  datatype ExitKind = OrHighLevel | TBarHighLevel | NoLevel

  datatype RuleSpec = RuleSpec(decision: int, exitKind: ExitKind, sessionStop: bool, trigger: Trigger)

  // The registered rules (decision bars 11:00 and 10:00) and the reporting-only cells beside them.
  const F1 := RuleSpec(105, OrHighLevel, true, OnClose)
  const F2 := RuleSpec(45, TBarHighLevel, true, OnClose)
  const F1_T1200 := RuleSpec(165, OrHighLevel, true, OnClose)
  const F2_1515_ONLY := RuleSpec(45, NoLevel, false, OnClose)

  predicate InRange(m: int, lo: Option<int>, hi: int) {
    (lo.None? || lo.value <= m) && m <= hi
  }

  /** `MAX(h) FILTER (minute in range)`, NULL when no bar qualifies. */
  function HighIn(t: seq<Bar>, lo: Option<int>, hi: int): Option<real> {
    if t == [] then None
    else
      var front := HighIn(t[..|t| - 1], lo, hi);
      var b := t[|t| - 1];
      if !InRange(b.mfo, lo, hi) then front
      else Some(if front.None? then b.h else MaxReal(front.value, b.h))
  }

  /** The filtered aggregate is the highest high of the bars in range, and NULL when there is none. */
  lemma {:induction false} HighInIs(t: seq<Bar>, lo: Option<int>, hi: int)
    ensures HighIn(t, lo, hi).None? ==> forall i | 0 <= i < |t| :: !InRange(t[i].mfo, lo, hi)
    ensures HighIn(t, lo, hi).Some? ==>
              && (forall i | 0 <= i < |t| && InRange(t[i].mfo, lo, hi) :: t[i].h <= HighIn(t, lo, hi).value)
              && (exists i :: 0 <= i < |t| && InRange(t[i].mfo, lo, hi) && t[i].h == HighIn(t, lo, hi).value)
  {
    if t != [] {
      var n := |t| - 1;
      var front := t[..n];
      HighInIs(front, lo, hi);
      assert forall i | 0 <= i < n :: t[i] == front[i];
      if HighIn(front, lo, hi).Some? {
        var i :| 0 <= i < n && InRange(front[i].mfo, lo, hi) && front[i].h == HighIn(front, lo, hi).value;
        assert t[i] == front[i];
      }
      assert InRange(t[n].mfo, lo, hi) ==> t[n].h <= HighIn(t, lo, hi).value;
    }
  }

  /** `or_high`, `high_t` and `sess_high_t`, all over the bars with `minute <= decision`. */
  function OrHigh(t: seq<Bar>, decision: int): Option<real> {
    HighIn(t, Some(OR_START), Min(OR_END - 1, decision))
  }

  function HighT(t: seq<Bar>, decision: int): Option<real> {
    HighIn(t, Some(decision), decision)
  }

  function SessHighT(t: seq<Bar>, decision: int): Option<real> {
    HighIn(t, None, decision)
  }

  function LevelsOf(t: seq<Bar>, spec: RuleSpec): Levels {
    var exitLevel := match spec.exitKind
      case OrHighLevel => OrHigh(t, spec.decision)
      case TBarHighLevel => HighT(t, spec.decision)
      case NoLevel => None;
    Levels(exitLevel, if spec.sessionStop then SessHighT(t, spec.decision) else None, spec.trigger)
  }

  /** A symbol-day without an opening range or a decision bar is not traded. */
  function FadeTrade(t: seq<Bar>, spec: RuleSpec, squareoff: int): Option<Exit> {
    if OrHigh(t, spec.decision).None? || HighT(t, spec.decision).None? then None
    else Short(Between(t, spec.decision + 1, squareoff), spec.decision + 1, squareoff, LevelsOf(t, spec))
  }

  // ---------------------------------------------------------------- the stop against the failure level

  lemma {:induction false} WiderHigh(t: seq<Bar>, lo: Option<int>, hi: int, hi': int)
    requires hi <= hi' && HighIn(t, lo, hi).Some?
    ensures HighIn(t, None, hi').Some? && HighIn(t, None, hi').value >= HighIn(t, lo, hi).value
  {
    if HighIn(t[..|t| - 1], lo, hi).Some? {
      WiderHigh(t[..|t| - 1], lo, hi, hi');
    }
  }

  /** The session high is a maximum over a superset of the bars of either failure level. */
  lemma {:induction false} StopAboveFailureLevels(t: seq<Bar>, spec: RuleSpec)
    requires spec.sessionStop ==> spec.exitKind != NoLevel
    requires OrHigh(t, spec.decision).Some? && HighT(t, spec.decision).Some?
    ensures Dominated(LevelsOf(t, spec))
  {
    WiderHigh(t, Some(OR_START), Min(OR_END - 1, spec.decision), spec.decision);
    WiderHigh(t, Some(spec.decision), spec.decision, spec.decision);
  }

  lemma {:induction false} WithoutStop(t: seq<Bar>, spec: RuleSpec)
    ensures LevelsOf(t, spec.(sessionStop := false)) == LevelsOf(t, spec).(stopLevel := None)
    ensures LevelsOf(t, spec).trigger == spec.trigger
  {
  }

  /** On no session does a close-triggered fade stop bind: the trade is the trade without a stop. */
  lemma {:induction false} FadeStopNeverBinds(t: seq<Bar>, spec: RuleSpec, squareoff: int)
    requires spec.trigger == OnClose && (spec.sessionStop ==> spec.exitKind != NoLevel)
    ensures FadeTrade(t, spec, squareoff) == FadeTrade(t, spec.(sessionStop := false), squareoff)
    ensures FadeTrade(t, spec, squareoff).Some? ==> FadeTrade(t, spec, squareoff).value.reason != StopNextOpen
  {
    hide LevelsOf, Short, Between, OrHigh, HighT;
    if OrHigh(t, spec.decision).Some? && HighT(t, spec.decision).Some? {
      StopAboveFailureLevels(t, spec);
      WithoutStop(t, spec);
      CloseStopIsDominated(Between(t, spec.decision + 1, squareoff), spec.decision + 1, squareoff, LevelsOf(t, spec));
    }
  }

  /** So the stop of each registered rule, and of the 12:00 cell beside them, could be left out. */
  lemma {:induction false} RegisteredStopsAreDead(t: seq<Bar>, squareoff: int)
    ensures forall spec | spec in [F1, F2, F1_T1200, F2_1515_ONLY] ::
              FadeTrade(t, spec, squareoff) == FadeTrade(t, spec.(sessionStop := false), squareoff)
  {
    FadeStopNeverBinds(t, F1, squareoff);
    FadeStopNeverBinds(t, F2, squareoff);
    FadeStopNeverBinds(t, F1_T1200, squareoff);
    FadeStopNeverBinds(t, F2_1515_ONLY, squareoff);
  }

  /** The first trade exits no later than the second, and differently only by an intrabar stop. */
  predicate ExitsNoLater(high: Option<Exit>, close: Option<Exit>) {
    close.Some? && high.Some? ==>
      high.value.exitMfo <= close.value.exitMfo && (high == close || high.value.reason == StopIntrabar)
  }

  lemma {:induction false} ShortOnHighExitsNoLater(bars: seq<Bar>, entryMfo: int, squareoff: int, v: Levels)
    requires Ascending(bars) && Dominated(v)
    ensures ExitsNoLater(Short(bars, entryMfo, squareoff, v.(trigger := OnHigh)),
                         Short(bars, entryMfo, squareoff, v.(trigger := OnClose)))
  {
    if Tradeable(bars, entryMfo, squareoff) {
      HighTriggerIsEarlier(bars, entryMfo, squareoff, v);
    }
  }

  lemma {:induction false} LevelsWithTrigger(t: seq<Bar>, spec: RuleSpec, trigger: Trigger)
    ensures LevelsOf(t, spec.(trigger := trigger)) == LevelsOf(t, spec).(trigger := trigger)
  {
  }

  lemma {:induction false} WithTrigger(t: seq<Bar>, spec: RuleSpec, trigger: Trigger, squareoff: int)
    requires OrHigh(t, spec.decision).Some? && HighT(t, spec.decision).Some?
    ensures FadeTrade(t, spec.(trigger := trigger), squareoff)
         == Short(Between(t, spec.decision + 1, squareoff), spec.decision + 1, squareoff,
                  LevelsOf(t, spec).(trigger := trigger))
  {
    hide LevelsOf, Short, Between;
    LevelsWithTrigger(t, spec, trigger);
    assert FadeTrade(t, spec.(trigger := trigger), squareoff)
        == Short(Between(t, spec.decision + 1, squareoff), spec.decision + 1, squareoff,
                 LevelsOf(t, spec.(trigger := trigger)));
  }

  /** Moving the stop to the bar highs never makes a fade trade exit later. */
  lemma {:induction false} StopOnHighExitsNoLater(t: seq<Bar>, spec: RuleSpec, squareoff: int)
    requires Ascending(t) && (spec.sessionStop ==> spec.exitKind != NoLevel)
    ensures ExitsNoLater(FadeTrade(t, spec.(trigger := OnHigh), squareoff),
                         FadeTrade(t, spec.(trigger := OnClose), squareoff))
  {
    if OrHigh(t, spec.decision).Some? && HighT(t, spec.decision).Some? {
      BetweenAscends(t, spec.decision + 1, squareoff);
      StopAboveFailureLevels(t, spec);
      var bars := Between(t, spec.decision + 1, squareoff);
      ShortOnHighExitsNoLater(bars, spec.decision + 1, squareoff, LevelsOf(t, spec));
      WithTrigger(t, spec, OnClose, squareoff);
      WithTrigger(t, spec, OnHigh, squareoff);
    }
  }

  // ---------------------------------------------------------------- no look-ahead, session to fill

  lemma {:induction false} HighAgrees(a: seq<Bar>, b: seq<Bar>, lo: Option<int>, hi: int)
    requires AgreeThrough(a, b, hi)
    ensures HighIn(a, lo, hi) == HighIn(b, lo, hi)
  {
    if a != [] {
      HighAgrees(a[..|a| - 1], b[..|b| - 1], lo, hi);
    }
  }

  lemma {:induction false} LevelsAgree(a: seq<Bar>, b: seq<Bar>, spec: RuleSpec)
    requires AgreeThrough(a, b, spec.decision)
    ensures OrHigh(a, spec.decision) == OrHigh(b, spec.decision) && HighT(a, spec.decision) == HighT(b, spec.decision)
    ensures OrHigh(a, spec.decision).Some? && HighT(a, spec.decision).Some? ==> LevelsOf(a, spec) == LevelsOf(b, spec)
  {
    HighAgrees(a, b, None, spec.decision);
    HighAgrees(a, b, Some(spec.decision), spec.decision);
    BelowAgrees(a, b, spec.decision);
    HighAgrees(a, b, Some(OR_START), Min(OR_END - 1, spec.decision));
  }

  lemma {:induction false} BelowAgrees(a: seq<Bar>, b: seq<Bar>, m: int)
    requires AgreeThrough(a, b, m)
    ensures AgreeThrough(a, b, Min(OR_END - 1, m))
  {
  }

  /** Levels, entry, exit and reason of a fade trade are settled by the bars through its exit. */
  lemma {:induction false} FadeTradeNoLookAhead(a: seq<Bar>, b: seq<Bar>, spec: RuleSpec, squareoff: int)
    requires Ascending(a) && FadeTrade(a, spec, squareoff).Some?
    requires AgreeToExit(a, b, FadeTrade(a, spec, squareoff).value)
    ensures FadeTrade(b, spec, squareoff) == FadeTrade(a, spec, squareoff)
  {
    hide LevelsOf, Short, Between, OrHigh, HighT;
    var x := FadeTrade(a, spec, squareoff).value;
    var pa, pb := Between(a, spec.decision + 1, squareoff), Between(b, spec.decision + 1, squareoff);
    BetweenAscends(a, spec.decision + 1, squareoff);
    ExitAfterEntry(pa, spec.decision + 1, squareoff, LevelsOf(a, spec));
    LevelsAgree(a, b, spec);
    BetweenAgrees(a, b, spec.decision + 1, squareoff, x.exitMfo);
    ShortNonAnticipating(pa, pb, spec.decision + 1, squareoff, LevelsOf(a, spec));
  }

  lemma {:induction false} ExitAfterEntry(bars: seq<Bar>, entryMfo: int, squareoff: int, v: Levels)
    requires Ascending(bars) && Short(bars, entryMfo, squareoff, v).Some?
    ensures entryMfo <= Short(bars, entryMfo, squareoff, v).value.exitMfo <= squareoff
  {
    Positions(bars, entryMfo, squareoff);
    var i0, last := EntryIndex(bars, entryMfo).value, LastAtOrBefore(bars, squareoff);
    var k := FirstEnd(bars, v, i0, last);
    assert k < last ==> bars[i0].mfo <= bars[k].mfo < bars[k + 1].mfo <= bars[last].mfo;
  }
}
