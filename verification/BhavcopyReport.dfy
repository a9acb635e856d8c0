/** The bars leg's report: conserved counters, and a failure list that is exactly what is left to do. */
module BhavcopyReport {
  import opened Common
  import opened Checkpoints
  import opened Bhavcopy
  import opened BhavcopyRuns

  /** The dates of [lo, hi) that are not done, in order. */
  function Undone(rows: Rows, lo: int, hi: int): seq<int>
    decreases hi - lo
  {
    if hi <= lo then [] else Undone(rows, lo, hi - 1) + if Done(rows, DayKey(hi - 1)) then [] else [hi - 1]
  }

  lemma {:induction false} UndoneLists(rows: Rows, lo: int, hi: int)
    ensures forall d :: d in Undone(rows, lo, hi) <==> lo <= d < hi && !Done(rows, DayKey(d))
    ensures Distinct(Undone(rows, lo, hi))
    decreases hi - lo
  {
    if lo < hi {
      UndoneLists(rows, lo, hi - 1);
      var front := Undone(rows, lo, hi - 1);
      assert forall i | 0 <= i < |front| :: front[i] in front;
    }
  }

  lemma {:induction false} UndoneSame(a: Rows, b: Rows, lo: int, hi: int)
    requires forall d | lo <= d < hi :: Done(a, DayKey(d)) == Done(b, DayKey(d))
    ensures Undone(a, lo, hi) == Undone(b, lo, hi)
    decreases hi - lo
  {
    if lo < hi {
      UndoneSame(a, b, lo, hi - 1);
    }
  }

  lemma {:induction false} UndoneTail(rows: Rows, lo: int, mid: int, hi: int)
    requires lo <= mid <= hi
    requires forall d | mid <= d < hi :: !Done(rows, DayKey(d))
    ensures Undone(rows, lo, hi) == Undone(rows, lo, mid) + Dates(mid, hi)
    decreases hi - mid
  {
    if mid < hi {
      UndoneTail(rows, lo, mid, hi - 1);
    } else {
      assert Dates(mid, hi) == [];
    }
  }

  ghost predicate Balanced(r: Report) {
    r.attempted == r.ingested + r.holiday + r.failed && r.failed == |r.failedDates|
  }

  ghost predicate Tally(rows: Rows, frm: int, leg: Leg, d: int) {
    && Balanced(leg.report)
    && leg.report.attempted == |Undone(rows, frm, d)|
    && leg.report.attempted + leg.report.skipped == d - frm
    && leg.report.failedDates == Undone(leg.rows, frm, d)
  }

  lemma {:induction false} UndoneDone(rows: Rows, lo: int, mid: int, hi: int)
    requires lo <= mid <= hi
    requires forall d | mid <= d < hi :: Done(rows, DayKey(d))
    ensures Undone(rows, lo, hi) == Undone(rows, lo, mid)
    decreases hi - mid
  {
    if mid < hi {
      UndoneDone(rows, lo, mid, hi - 1);
    }
  }

  /** Taking seven holidays back puts just those dates at the end of what is left to do. */
  lemma {:induction false} UndoneTakenBack(before: Rows, after: Rows, lo: int, d: int)
    requires lo <= d - 6
    requires forall x | d - 6 <= x < d :: Done(before, DayKey(x))
    requires forall x | d - 6 <= x <= d :: !Done(after, DayKey(x))
    requires forall x | lo <= x < d - 6 :: Done(before, DayKey(x)) == Done(after, DayKey(x))
    ensures Undone(after, lo, d + 1) == Undone(before, lo, d) + Dates(d - 6, d + 1)
  {
    UndoneDone(before, lo, d - 6, d);
    UndoneSame(before, after, lo, d - 6);
    UndoneTail(after, lo, d - 6, d + 1);
  }

  lemma {:induction false} StoppedTally(archive: Archive, rows: Rows, frm: int, leg: Leg, d: int)
    requires Underway(archive, rows, frm, leg, d) && Tally(rows, frm, leg, d)
    requires Visit(archive, leg, d).stopped
    ensures var leg' := Visit(archive, leg, d);
            Undone(leg'.rows, frm, d + 1) == Undone(leg.rows, frm, d) + leg'.streak
  {
    var leg' := Visit(archive, leg, d);
    VisitUnderway(archive, rows, frm, leg, d);
    assert leg'.streak == Dates(d - 6, d + 1);
    forall x | frm <= x <= d
      ensures d - 6 <= x < d ==> Done(leg.rows, DayKey(x))
      ensures d - 6 <= x ==> !Done(leg'.rows, DayKey(x))
      ensures x < d - 6 ==> Done(leg.rows, DayKey(x)) == Done(leg'.rows, DayKey(x))
    {
      assert d - 6 <= x ==> FreshHoliday(archive, rows, x);
      assert At(leg.rows, DayKey(x)) == Settled(archive, rows, frm, d - 1, DayKey(x));
      assert At(leg'.rows, DayKey(x)) ==
             if DayIn(DayKey(x), d - 6, d) then None else Settled(archive, rows, frm, d, DayKey(x));
    }
    UndoneTakenBack(leg.rows, leg'.rows, frm, d);
  }

  lemma {:induction false} VisitTally(archive: Archive, rows: Rows, frm: int, leg: Leg, d: int)
    requires Underway(archive, rows, frm, leg, d) && Tally(rows, frm, leg, d)
    requires leg.report.abortedAt == None
    ensures Tally(rows, frm, Visit(archive, leg, d), d + 1)
    ensures Visit(archive, leg, d).report.abortedAt == if Visit(archive, leg, d).stopped then Some(d) else None
  {
    var leg' := Visit(archive, leg, d);
    assert At(leg.rows, DayKey(d)) == At(rows, DayKey(d));
    if leg'.stopped {
      StoppedTally(archive, rows, frm, leg, d);
    } else {
      UndoneSame(leg.rows, leg'.rows, frm, d);
    }
  }

  lemma {:induction false} RunTally(archive: Archive, rows: Rows, frm: int, leg: Leg, d: int, til: int)
    requires Underway(archive, rows, frm, leg, d) && Tally(rows, frm, leg, d)
    requires leg.report.abortedAt == None && d <= til + 1
    ensures var end := Run(archive, leg, d, til);
            && Tally(rows, frm, end, LastVisited(archive, rows, frm, til) + 1)
            && end.report.abortedAt == StopDate(archive, rows, frm, til)
    decreases til - d
  {
    hide Tally, Visit;
    if d > til {
      assert StopDate(archive, rows, frm, til).None?;
    } else {
      VisitUnderway(archive, rows, frm, leg, d);
      VisitTally(archive, rows, frm, leg, d);
      var leg' := Visit(archive, leg, d);
      if leg'.stopped {
        assert StopDate(archive, rows, frm, til) == Some(d);
        assert Run(archive, leg', d + 1, til) == leg';
      } else {
        RunTally(archive, rows, frm, leg', d + 1, til);
      }
    }
  }

  // ---------------------------------------------------------------- the two success counters

  /** Not done before, and afterwards completed: as a holiday, or through the date itself. */
  predicate Marked(before: Rows, after: Rows, d: int, holiday: bool) {
    !Done(before, DayKey(d)) && At(after, DayKey(d)) == Some(Some(if holiday then HolidayMark else Through(d)))
  }

  /** How many dates of [lo, hi) were so marked. */
  function CountMarked(before: Rows, after: Rows, lo: int, hi: int, holiday: bool): nat
    decreases hi - lo
  {
    if hi <= lo then 0
    else CountMarked(before, after, lo, hi - 1, holiday) + if Marked(before, after, hi - 1, holiday) then 1 else 0
  }

  lemma {:induction false} CountSame(before: Rows, a: Rows, b: Rows, lo: int, hi: int, holiday: bool)
    requires forall d | lo <= d < hi :: At(a, DayKey(d)) == At(b, DayKey(d))
    ensures CountMarked(before, a, lo, hi, holiday) == CountMarked(before, b, lo, hi, holiday)
    decreases hi - lo
  {
    if lo < hi {
      CountSame(before, a, b, lo, hi - 1, holiday);
    }
  }

  lemma {:induction false} CountNone(before: Rows, after: Rows, lo: int, mid: int, hi: int, holiday: bool)
    requires lo <= mid <= hi && forall d | mid <= d < hi :: !Marked(before, after, d, holiday)
    ensures CountMarked(before, after, lo, hi, holiday) == CountMarked(before, after, lo, mid, holiday)
    decreases hi - mid
  {
    if mid < hi {
      CountNone(before, after, lo, mid, hi - 1, holiday);
    }
  }

  lemma {:induction false} CountAll(before: Rows, after: Rows, lo: int, mid: int, hi: int, holiday: bool)
    requires lo <= mid <= hi && forall d | mid <= d < hi :: Marked(before, after, d, holiday)
    ensures CountMarked(before, after, lo, hi, holiday) == CountMarked(before, after, lo, mid, holiday) + hi - mid
    decreases hi - mid
  {
    if mid < hi {
      CountAll(before, after, lo, mid, hi - 1, holiday);
    }
  }

  /** Both counters count the dates marked so far. */
  ghost predicate Counting(rows: Rows, frm: int, leg: Leg, d: int) {
    && leg.report.ingested == CountMarked(rows, leg.rows, frm, d, false)
    && leg.report.holiday == CountMarked(rows, leg.rows, frm, d, true)
  }

  lemma {:induction false} StoppedCounts(archive: Archive, rows: Rows, frm: int, leg: Leg, d: int)
    requires Underway(archive, rows, frm, leg, d) && Visit(archive, leg, d).stopped
    ensures var leg' := Visit(archive, leg, d);
            && CountMarked(rows, leg'.rows, frm, d + 1, true) == CountMarked(rows, leg.rows, frm, d, true) - 6
            && CountMarked(rows, leg'.rows, frm, d + 1, false) == CountMarked(rows, leg.rows, frm, d, false)
  {
    hide Visit, Classify, Settled;
    var leg' := Visit(archive, leg, d);
    VisitUnderway(archive, rows, frm, leg, d);
    forall x | frm <= x <= d
      ensures x < d - 6 ==> At(leg.rows, DayKey(x)) == At(leg'.rows, DayKey(x))
      ensures d - 6 <= x < d ==> Marked(rows, leg.rows, x, true) && !Marked(rows, leg.rows, x, false)
      ensures d - 6 <= x ==> !Marked(rows, leg'.rows, x, true) && !Marked(rows, leg'.rows, x, false)
    {
      SettledAt(archive, rows, frm, d, x);
    }
    CountAll(rows, leg.rows, frm, d - 6, d, true);
    CountNone(rows, leg.rows, frm, d - 6, d, false);
    CountNone(rows, leg'.rows, frm, d - 6, d + 1, true);
    CountNone(rows, leg'.rows, frm, d - 6, d + 1, false);
    CountSame(rows, leg.rows, leg'.rows, frm, d - 6, true);
    CountSame(rows, leg.rows, leg'.rows, frm, d - 6, false);
  }

  lemma {:induction false} SettledAt(archive: Archive, rows: Rows, frm: int, d: int, x: int)
    requires frm <= x <= d
    ensures x < d ==> Settled(archive, rows, frm, d - 1, DayKey(x)) == Settled(archive, rows, frm, d, DayKey(x))
    ensures FreshHoliday(archive, rows, x) ==>
              !Done(rows, DayKey(x)) && Settled(archive, rows, frm, d, DayKey(x)) == Some(Some(HolidayMark))
  {
  }

  lemma {:induction false} VisitCounts(archive: Archive, rows: Rows, frm: int, leg: Leg, d: int)
    requires Underway(archive, rows, frm, leg, d) && Counting(rows, frm, leg, d)
    ensures Counting(rows, frm, Visit(archive, leg, d), d + 1)
  {
    var leg' := Visit(archive, leg, d);
    assert At(leg.rows, DayKey(d)) == At(rows, DayKey(d));
    if leg'.stopped {
      StoppedCounts(archive, rows, frm, leg, d);
    } else {
      CountSame(rows, leg.rows, leg'.rows, frm, d, true);
      CountSame(rows, leg.rows, leg'.rows, frm, d, false);
    }
  }

  lemma {:induction false} RunCounts(archive: Archive, rows: Rows, frm: int, leg: Leg, d: int, til: int)
    requires Underway(archive, rows, frm, leg, d) && Counting(rows, frm, leg, d) && d <= til + 1
    ensures Counting(rows, frm, Run(archive, leg, d, til), LastVisited(archive, rows, frm, til) + 1)
    decreases til - d
  {
    hide Counting, Visit;
    if d > til {
      assert StopDate(archive, rows, frm, til).None?;
    } else {
      VisitUnderway(archive, rows, frm, leg, d);
      VisitCounts(archive, rows, frm, leg, d);
      var leg' := Visit(archive, leg, d);
      if leg'.stopped {
        assert StopDate(archive, rows, frm, til) == Some(d);
        assert Run(archive, leg', d + 1, til) == leg';
      } else {
        RunCounts(archive, rows, frm, leg', d + 1, til);
      }
    }
  }

  /**
   The report of a run, stopped early or not: every visited date is skipped or attempted, the
   attempted ones are exactly those not done before, the ingested and the holiday ones are counted by the
   mark they end with, and the failure list is exactly, in order and
   without repetition, the visited dates not done after.
   */
  lemma {:induction false} RunReport(archive: Archive, rows: Rows, frm: int, til: int)
    requires frm <= til + 1
    ensures var end := FullRun(archive, rows, frm, til);
            var r := end.report;
            var next := LastVisited(archive, rows, frm, til) + 1;
            && r.attempted == r.ingested + r.holiday + r.failed
            && r.ingested == CountMarked(rows, end.rows, frm, next, false)
            && r.holiday == CountMarked(rows, end.rows, frm, next, true)
            && r.attempted + r.skipped == next - frm
            && r.attempted == |Undone(rows, frm, next)|
            && r.failed == |r.failedDates|
            && r.failedDates == Undone(end.rows, frm, next) && Distinct(r.failedDates)
            && (forall d :: d in r.failedDates <==> frm <= d < next && !Done(end.rows, DayKey(d)))
            && r.abortedAt == StopDate(archive, rows, frm, til)
  {
    hide Run, StopDate, LastVisited, Done, Distinct;
    RunTally(archive, rows, frm, Leg(rows, NEW_REPORT, [], false), frm, til);
    RunCounts(archive, rows, frm, Leg(rows, NEW_REPORT, [], false), frm, til);
    UndoneLists(FullRun(archive, rows, frm, til).rows, frm, LastVisited(archive, rows, frm, til) + 1);
  }
}
