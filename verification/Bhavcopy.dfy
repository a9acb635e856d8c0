/**
 The bars leg of scripts/backfill_bhavcopy.py: one archive date after another, resumed from the
 checkpoint table, stopped (and its last holidays taken back) after seven holidays in a row.
 */
module Bhavcopy {
  import opened Common
  import opened Checkpoints

  // Dates are proleptic Gregorian ordinals; this one is 2024-07-08.
  const LEGACY_UDIFF_SWITCH_DATE := 739075
  const MAX_HOLIDAY_STREAK := 7

  datatype Format = Legacy | Udiff

  /** What fetching, unwrapping, parsing and persisting one archive file comes to. */
  datatype Fetch = NotFound | OtherError | Served(file: File)
  datatype File = Unreadable | Parsed(bars: nat, persisted: bool)

  /** The archive answers every (date, format) request the same way each time. */
  type Archive = (int, Format) -> Fetch

  datatype Outcome = Ingested | Holiday | Failed

  datatype Report = Report(
    attempted: int, ingested: int, holiday: int, skipped: int, failed: int,
    failedDates: seq<int>, abortedAt: Option<int>)

  const NEW_REPORT := Report(0, 0, 0, 0, 0, [], None)

  function CandidateUrls(d: int): seq<Format> {
    if d < LEGACY_UDIFF_SWITCH_DATE then [Legacy, Udiff] else [Udiff, Legacy]
  }

  predicate Usable(f: Fetch) {
    f.Served? && f.file.Parsed? && f.file.bars > 0 && f.file.persisted
  }

  /** The fallback format is tried only when the first one is absent. */
  function Classify(archive: Archive, d: int): Outcome {
    var first := archive(d, CandidateUrls(d)[0]);
    var got := if first.NotFound? then archive(d, CandidateUrls(d)[1]) else first;
    if got.NotFound? then Holiday else if Usable(got) then Ingested else Failed
  }

  /** A date is a holiday exactly when neither format has it, whichever is asked first. */
  lemma {:induction false} HolidayMeansAbsent(archive: Archive, d: int)
    ensures Classify(archive, d) == Holiday <==>
            archive(d, Legacy).NotFound? && archive(d, Udiff).NotFound?
    ensures Classify(archive, d) == Ingested ==> Usable(archive(d, Legacy)) || Usable(archive(d, Udiff))
    ensures archive(d, Legacy).NotFound? && Usable(archive(d, Udiff)) ==> Classify(archive, d) == Ingested
    ensures archive(d, Udiff).NotFound? && Usable(archive(d, Legacy)) ==> Classify(archive, d) == Ingested
  {
    assert CandidateUrls(d) == [Legacy, Udiff] || CandidateUrls(d) == [Udiff, Legacy];
  }

  /** The file was read, held rows, and was stored. */
  ghost predicate Stored(f: Fetch) {
    exists n: nat :: n > 0 && f == Served(Parsed(n, true))
  }

  /**
   Which format counts: before 2024-07-08 the legacy one and from then on the UDiFF one, the other only
   where that is absent. A date is ingested when the file that counts is stored, a holiday when there is
   none, and failed otherwise.
   */
  lemma {:induction false} OutcomeIff(archive: Archive, d: int)
    ensures var (first, other) := if d < 739075 then (Legacy, Udiff) else (Udiff, Legacy);
            var counts := if archive(d, first) == NotFound then archive(d, other) else archive(d, first);
            && (Classify(archive, d) == Ingested <==> Stored(counts))
            && (Classify(archive, d) == Holiday <==> counts == NotFound)
            && (Classify(archive, d) == Failed <==> !Stored(counts) && counts != NotFound)
  {
    forall f: Fetch ensures Usable(f) <==> Stored(f) {
      if Usable(f) {
        assert f == Served(Parsed(f.file.bars, true));
      }
    }
  }

  function DayKey(d: int): Key {
    Key(BhavcopyArchive, DayUnit(d))
  }

  function DayKeys(ds: seq<int>): (ks: set<Key>)
    ensures forall d :: DayKey(d) in ks <==> d in ds
  {
    set d | d in ds :: DayKey(d)
  }

  // ---------------------------------------------------------------- one date, then the whole leg

  datatype Leg = Leg(rows: Rows, report: Report, streak: seq<int>, stopped: bool)

  function Checkpointed(rows: Rows, d: int, o: Outcome): Rows {
    match o
    case Ingested => rows[DayKey(d) := Some(Through(d))]
    case Holiday => rows[DayKey(d) := Some(HolidayMark)]
    case Failed => rows
  }

  function Counted(r: Report, d: int, o: Outcome): Report {
    match o
    case Ingested => r.(ingested := r.ingested + 1)
    case Holiday => r.(holiday := r.holiday + 1)
    case Failed => r.(failed := r.failed + 1, failedDates := r.failedDates + [d])
  }

  function TakenBack(r: Report, streak: seq<int>, d: int): Report {
    r.(holiday := r.holiday - |streak|, failed := r.failed + |streak|,
       failedDates := r.failedDates + streak, abortedAt := Some(d))
  }

  function Visit(archive: Archive, leg: Leg, d: int): Leg {
    if Done(leg.rows, DayKey(d)) then
      leg.(report := leg.report.(skipped := leg.report.skipped + 1), streak := [])
    else
      var o := Classify(archive, d);
      var rows := Checkpointed(leg.rows, d, o);
      var report := Counted(leg.report.(attempted := leg.report.attempted + 1), d, o);
      var streak := if o == Holiday then leg.streak + [d] else [];
      if |streak| >= MAX_HOLIDAY_STREAK then
        Leg(rows - DayKeys(streak), TakenBack(report, streak, d), streak, true)
      else
        Leg(rows, report, streak, false)
  }

  function Run(archive: Archive, leg: Leg, d: int, til: int): Leg
    decreases til - d
  {
    if d > til || leg.stopped then leg else Run(archive, Visit(archive, leg, d), d + 1, til)
  }

  /** The leg over [frm, til] against a table, with a new report. */
  function FullRun(archive: Archive, rows: Rows, frm: int, til: int): Leg {
    Run(archive, Leg(rows, NEW_REPORT, [], false), frm, til)
  }

  class Backfill {
    const table: Table
    var report: Report

    constructor (t: Table)
      ensures table == t && report == NEW_REPORT
    {
      table := t;
      report := NEW_REPORT;
    }

    method IngestDate(archive: Archive, d: int) returns (o: Outcome)
      modifies this, table
      ensures o == Classify(archive, d)
      ensures table.rows == Checkpointed(old(table.rows), d, o)
      ensures report == Counted(old(report), d, o)
    {
      var urls := CandidateUrls(d);
      var i := 0;
      var got := archive(d, urls[0]);
      while got.NotFound? && i < |urls| - 1
        invariant 0 <= i < |urls|
        invariant got == archive(d, urls[i])
        invariant i > 0 ==> archive(d, urls[0]).NotFound?
      {
        i := i + 1;
        got := archive(d, urls[i]);
      }
      if got.NotFound? {
        table.CpSet(DayKey(d), HolidayMark);
        report := report.(holiday := report.holiday + 1);
        o := Holiday;
      } else if Usable(got) {
        table.CpSet(DayKey(d), Through(d));
        report := report.(ingested := report.ingested + 1);
        o := Ingested;
      } else {
        report := report.(failed := report.failed + 1, failedDates := report.failedDates + [d]);
        o := Failed;
      }
    }

    method RunBhavcopyLeg(archive: Archive, frm: int, til: int)
      modifies this, table
      ensures var leg := Run(archive, Leg(old(table.rows), old(report), [], false), frm, til);
              table.rows == leg.rows && report == leg.report
    {
      var d := frm;
      var streak: seq<int> := [];
      ghost var start := Leg(table.rows, report, streak, false);
      while d <= til
        invariant Run(archive, start, frm, til) == Run(archive, Leg(table.rows, report, streak, false), d, til)
        decreases til - d
      {
        var done := table.CpDone(DayKey(d));
        if done {
          report := report.(skipped := report.skipped + 1);
          streak := [];
        } else {
          report := report.(attempted := report.attempted + 1);
          var o := IngestDate(archive, d);
          streak := if o == Holiday then streak + [d] else [];
          if |streak| >= MAX_HOLIDAY_STREAK {
            var ks := seq(|streak|, i requires 0 <= i < |streak| => DayKey(streak[i]));
            table.CpClear(ks);
            SameKeys(streak, ks);
            report := TakenBack(report, streak, d);
            return;
          }
        }
        d := d + 1;
      }
    }
  }

  lemma {:induction false} SameKeys(streak: seq<int>, ks: seq<Key>)
    requires |ks| == |streak| && forall i | 0 <= i < |ks| :: ks[i] == DayKey(streak[i])
    ensures (set k | k in ks) == DayKeys(streak)
  {
    forall d | d in streak ensures DayKey(d) in ks {
      var i :| 0 <= i < |streak| && streak[i] == d;
      assert ks[i] == DayKey(d);
    }
  }
}
