/**
 What a whole run of the bars leg leaves behind, stated date by date, and what follows for re-runs,
 for interrupted runs and for the report.
 */
module BhavcopyRuns {
  import opened Common
  import opened Checkpoints
  import opened Bhavcopy

  // ---------------------------------------------------------------- the stop date

  predicate FreshHoliday(archive: Archive, rows: Rows, d: int) {
    !Done(rows, DayKey(d)) && Classify(archive, d) == Holiday
  }

  /** Seven dates in a row up to a, all inside the range, are not done and not in the archive. */
  predicate StreakEnds(archive: Archive, rows: Rows, frm: int, a: int) {
    frm <= a - 6 && forall x | a - 6 <= x <= a :: FreshHoliday(archive, rows, x)
  }

  function StopTest(archive: Archive, rows: Rows, frm: int): int -> bool {
    a => StreakEnds(archive, rows, frm, a)
  }

  /** The first date the leg stops at, if any: a function of the table it starts from. */
  function StopDate(archive: Archive, rows: Rows, frm: int, til: int): (s: Option<int>)
    ensures s.Some? ==> frm + 6 <= s.value <= til && StreakEnds(archive, rows, frm, s.value)
    ensures s.Some? ==> forall a | a < s.value :: !StreakEnds(archive, rows, frm, a)
    ensures s.None? ==> forall a | a <= til :: !StreakEnds(archive, rows, frm, a)
  {
    if til < frm then None
    else
      var a := FirstFrom(StopTest(archive, rows, frm), frm, til + 1);
      assert forall j | frm <= j < a :: !StopTest(archive, rows, frm)(j) ==> !StreakEnds(archive, rows, frm, j);
      if a <= til then Some(a) else None
  }

  function LastVisited(archive: Archive, rows: Rows, frm: int, til: int): int {
    var s := StopDate(archive, rows, frm, til);
    if s.Some? then s.value else til
  }

  // ---------------------------------------------------------------- the table afterwards

  predicate DayIn(k: Key, lo: int, hi: int) {
    k.feed == BhavcopyArchive && k.work.DayUnit? && lo <= k.work.day <= hi
  }

  function Settled(archive: Archive, rows: Rows, frm: int, end: int, k: Key): Option<Option<Through>> {
    if !DayIn(k, frm, end) || Done(rows, k) then At(rows, k)
    else
      match Classify(archive, k.work.day)
      case Ingested => Some(Some(Through(k.work.day)))
      case Holiday => Some(Some(HolidayMark))
      case Failed => At(rows, k)
  }

  function Final(archive: Archive, rows: Rows, frm: int, til: int, k: Key): Option<Option<Through>> {
    match StopDate(archive, rows, frm, til)
    case None => Settled(archive, rows, frm, til, k)
    case Some(a) => if DayIn(k, a - 6, a) then None else Settled(archive, rows, frm, a, k)
  }

  /** What holds before each date: the dates so far are settled and the streak is short. */
  ghost predicate Underway(archive: Archive, rows: Rows, frm: int, leg: Leg, d: int) {
    && !leg.stopped && |leg.streak| < MAX_HOLIDAY_STREAK
    && StreakBefore(archive, rows, frm, leg.streak, d)
    && (forall a | a < d :: !StreakEnds(archive, rows, frm, a))
    && (forall k :: At(leg.rows, k) == Settled(archive, rows, frm, d - 1, k))
  }

  /** Checkpointing d settles d and nothing else. */
  lemma {:induction false} MarkSettles(archive: Archive, rows: Rows, frm: int, now: Rows, d: int, k: Key)
    requires frm <= d
    requires At(now, k) == Settled(archive, rows, frm, d - 1, k)
    ensures Done(rows, DayKey(d)) ==> At(now, k) == Settled(archive, rows, frm, d, k)
    ensures !Done(rows, DayKey(d)) ==>
              At(Checkpointed(now, d, Classify(archive, d)), k) == Settled(archive, rows, frm, d, k)
  {
    assert k == DayKey(d) || (DayIn(k, frm, d) <==> DayIn(k, frm, d - 1));
  }

  /** The streak is the run of fresh holidays just before the next date. */
  ghost predicate StreakBefore(archive: Archive, rows: Rows, frm: int, streak: seq<int>, d: int) {
    var n := |streak|;
    && frm <= d - n && streak == Dates(d - n, d)
    && (forall x | d - n <= x < d :: FreshHoliday(archive, rows, x))
    && (d - n == frm || !FreshHoliday(archive, rows, d - n - 1))
  }

  lemma {:induction false} StreakGrows(archive: Archive, rows: Rows, frm: int, streak: seq<int>, d: int)
    requires StreakBefore(archive, rows, frm, streak, d) && |streak| < MAX_HOLIDAY_STREAK
    ensures FreshHoliday(archive, rows, d) ==> StreakBefore(archive, rows, frm, streak + [d], d + 1)
    ensures !FreshHoliday(archive, rows, d) ==> StreakBefore(archive, rows, frm, [], d + 1)
    ensures StreakEnds(archive, rows, frm, d) <==> FreshHoliday(archive, rows, d) && |streak| == 6
  {
    var n := |streak|;
    if FreshHoliday(archive, rows, d) && n < 6 && frm <= d - 6 {
      assert !FreshHoliday(archive, rows, d - n - 1);
    }
  }

  lemma {:induction false} VisitUnderway(archive: Archive, rows: Rows, frm: int, leg: Leg, d: int)
    requires Underway(archive, rows, frm, leg, d)
    ensures var leg' := Visit(archive, leg, d);
            if leg'.stopped then
              StreakEnds(archive, rows, frm, d)
              && forall k :: At(leg'.rows, k) == if DayIn(k, d - 6, d) then None else Settled(archive, rows, frm, d, k)
            else Underway(archive, rows, frm, leg', d + 1)
  {
    var leg' := Visit(archive, leg, d);
    assert At(leg.rows, DayKey(d)) == At(rows, DayKey(d));
    StreakGrows(archive, rows, frm, leg.streak, d);
    var now := if Done(rows, DayKey(d)) then leg.rows else Checkpointed(leg.rows, d, Classify(archive, d));
    forall k ensures At(now, k) == Settled(archive, rows, frm, d, k) {
      MarkSettles(archive, rows, frm, leg.rows, d, k);
    }
    if leg'.stopped {
      forall k ensures k in DayKeys(leg'.streak) <==> DayIn(k, d - 6, d) {
        if DayIn(k, d - 6, d) {
          assert k == DayKey(k.work.day) && leg'.streak[k.work.day - (d - 6)] == k.work.day;
        }
      }
    }
  }

  lemma {:induction false} RunFinishes(archive: Archive, rows: Rows, frm: int, leg: Leg, d: int, til: int)
    requires Underway(archive, rows, frm, leg, d)
    requires d <= til + 1
    ensures var end := Run(archive, leg, d, til);
            && (forall k :: At(end.rows, k) == Final(archive, rows, frm, til, k))
            && end.stopped == StopDate(archive, rows, frm, til).Some?
    decreases til - d
  {
    if d > til {
      assert StopDate(archive, rows, frm, til).None?;
    } else {
      VisitUnderway(archive, rows, frm, leg, d);
      var leg' := Visit(archive, leg, d);
      if leg'.stopped {
        assert StopDate(archive, rows, frm, til) == Some(d);
        assert Run(archive, leg', d + 1, til) == leg';
      } else {
        RunFinishes(archive, rows, frm, leg', d + 1, til);
      }
    }
  }

  /** The closed form: a run's table is Final, key by key, and it stops exactly at StopDate. */
  lemma {:induction false} RunIsFinal(archive: Archive, rows: Rows, frm: int, til: int)
    ensures var end := FullRun(archive, rows, frm, til);
            && (forall k :: At(end.rows, k) == Final(archive, rows, frm, til, k))
            && end.stopped == StopDate(archive, rows, frm, til).Some?
  {
    if frm <= til + 1 {
      RunFinishes(archive, rows, frm, Leg(rows, NEW_REPORT, [], false), frm, til);
    } else {
      assert StopDate(archive, rows, frm, til).None?;
    }
  }

  // ---------------------------------------------------------------- safety of the table

  /** No unit done before the run is lost, and no other feed is touched. */
  lemma {:induction false} DoneIsKept(archive: Archive, rows: Rows, frm: int, til: int, k: Key)
    ensures var end := FullRun(archive, rows, frm, til).rows;
            && (Done(rows, k) ==> At(end, k) == At(rows, k))
            && (k.feed != BhavcopyArchive ==> At(end, k) == At(rows, k))
  {
    RunIsFinal(archive, rows, frm, til);
    assert At(FullRun(archive, rows, frm, til).rows, k) == Final(archive, rows, frm, til, k);
    assert k.work.DayUnit? && k.feed == BhavcopyArchive ==> k == DayKey(k.work.day);
    assert k.work.DayUnit? && FreshHoliday(archive, rows, k.work.day) ==> !Done(rows, DayKey(k.work.day));
  }

  predicate NewlyHoliday(rows: Rows, end: Rows, d: int) {
    !Done(rows, DayKey(d)) && At(end, DayKey(d)) == Some(Some(HolidayMark))
  }

  /** A run never leaves seven dates in a row that it marked 'holiday' itself. */
  lemma {:induction false} NoStreakIsLeft(archive: Archive, rows: Rows, frm: int, til: int, b: int)
    ensures exists x :: b - 6 <= x <= b && !NewlyHoliday(rows, FullRun(archive, rows, frm, til).rows, x)
  {
    var end := FullRun(archive, rows, frm, til).rows;
    RunIsFinal(archive, rows, frm, til);
    assert At(end, DayKey(b)) == Final(archive, rows, frm, til, DayKey(b));
    assert b - 6 <= b && (NewlyHoliday(rows, end, b) ==> At(end, DayKey(b)).Some?);
    if forall x | b - 6 <= x <= b :: NewlyHoliday(rows, end, x) {
      forall x | b - 6 <= x <= b
        ensures FreshHoliday(archive, rows, x) && frm <= x <= LastVisited(archive, rows, frm, til)
      {
        assert NewlyHoliday(rows, end, x);
        assert At(end, DayKey(x)) == Final(archive, rows, frm, til, DayKey(x));
      }
      assert FreshHoliday(archive, rows, b - 6) && FreshHoliday(archive, rows, b);
      assert StreakEnds(archive, rows, frm, b);
      assert false;
    }
  }

  // ---------------------------------------------------------------- re-runs and interruptions

  /** A run up to m settles its own dates: the only holidays still to do there are the taken-back ones. */
  lemma {:induction false} FreshAfter(archive: Archive, rows: Rows, frm: int, m: int, d: int)
    ensures var first := FullRun(archive, rows, frm, m).rows;
            var stop := StopDate(archive, rows, frm, m);
            FreshHoliday(archive, first, d) <==>
            FreshHoliday(archive, rows, d)
            && (d < frm || d > LastVisited(archive, rows, frm, m) || (stop.Some? && stop.value - 6 <= d))
  {
    RunIsFinal(archive, rows, frm, m);
    assert At(FullRun(archive, rows, frm, m).rows, DayKey(d)) == Final(archive, rows, frm, m, DayKey(d));
  }

  predicate InsideStoppingStreak(archive: Archive, rows: Rows, frm: int, til: int, m: int) {
    var stop := StopDate(archive, rows, frm, til);
    stop.Some? && stop.value - 6 <= m < stop.value
  }

  lemma {:induction false} SameStop(archive: Archive, rows: Rows, frm: int, m: int, til: int)
    requires m <= til && !InsideStoppingStreak(archive, rows, frm, til, m)
    ensures StopDate(archive, FullRun(archive, rows, frm, m).rows, frm, til) == StopDate(archive, rows, frm, til)
  {
    var first := FullRun(archive, rows, frm, m).rows;
    forall d ensures FreshHoliday(archive, first, d) ==> FreshHoliday(archive, rows, d) {
      FreshAfter(archive, rows, frm, m, d);
    }
    assert forall a :: StreakEnds(archive, first, frm, a) ==> StreakEnds(archive, rows, frm, a);
    match StopDate(archive, rows, frm, til)
    case None =>
    case Some(a) =>
      forall x | a - 6 <= x <= a ensures FreshHoliday(archive, first, x) {
        FreshAfter(archive, rows, frm, m, x);
        assert FreshHoliday(archive, rows, x);
      }
      assert StreakEnds(archive, first, frm, a);
  }

  /**
   Killed after date m and started again, the leg ends where one uninterrupted run would have ended,
   unless m fell among the holidays that run would have stopped at and taken back.
   */
  lemma {:induction false} ResumeAgrees(archive: Archive, rows: Rows, frm: int, m: int, til: int)
    requires m <= til
    ensures var first := FullRun(archive, rows, frm, m);
            FullRun(archive, first.rows, frm, til).rows == FullRun(archive, rows, frm, til).rows
            <==> !InsideStoppingStreak(archive, rows, frm, til, m)
  {
    var first := FullRun(archive, rows, frm, m).rows;
    var resumed := FullRun(archive, first, frm, til).rows;
    var single := FullRun(archive, rows, frm, til).rows;
    RunIsFinal(archive, rows, frm, m);
    RunIsFinal(archive, rows, frm, til);
    if InsideStoppingStreak(archive, rows, frm, til, m) {
      assert At(first, DayKey(m)) == Final(archive, rows, frm, m, DayKey(m));
      assert FreshHoliday(archive, rows, m);
      assert Done(first, DayKey(m));
      DoneIsKept(archive, first, frm, til, DayKey(m));
      assert At(single, DayKey(m)) == Final(archive, rows, frm, til, DayKey(m));
    } else {
      RunIsFinal(archive, first, frm, til);
      SameStop(archive, rows, frm, m, til);
      forall k ensures At(resumed, k) == At(single, k) {
        assert At(first, k) == Final(archive, rows, frm, m, k);
        assert At(single, k) == Final(archive, rows, frm, til, k);
        assert At(resumed, k) == Final(archive, first, frm, til, k);
      }
      SameRows(resumed, single);
    }
  }

  /** Running the leg twice over the same range is running it once, also when it stops early. */
  lemma {:induction false} RunIsIdempotent(archive: Archive, rows: Rows, frm: int, til: int)
    ensures var once := FullRun(archive, rows, frm, til);
            var twice := FullRun(archive, once.rows, frm, til);
            && twice.rows == once.rows && twice.stopped == once.stopped
            && StopDate(archive, once.rows, frm, til) == StopDate(archive, rows, frm, til)
  {
    ResumeAgrees(archive, rows, frm, til, til);
    SameStop(archive, rows, frm, til, til);
    RunIsFinal(archive, rows, frm, til);
    RunIsFinal(archive, FullRun(archive, rows, frm, til).rows, frm, til);
  }
}
