/** The corporate-actions leg of scripts/backfill_bhavcopy.py. */
module CorpActions {
  import opened Common
  import opened Checkpoints
  import opened Windows

  const CORP_ACTIONS_WINDOW_DAYS := 35

  /** A window is fetched, parsed to some rows and stored, or one of these fails. */
  datatype WindowFetch = FetchError | Rows(count: nat, stored: bool)

  function WindowKey(): Span -> Key {
    (w: Span) => Key(CorpActionsArchive, SpanUnit(w.0, w.1))
  }

  /** A window that parses to zero rows is a capped or failed response, not history. */
  function WindowOk(fetch: Span -> WindowFetch): Span -> bool {
    (w: Span) => fetch(w).Rows? && fetch(w).count > 0 && fetch(w).stored
  }

  class CorpActionsLeg {
    const table: Table
    var windows: int
    var skipped: int
    var failed: int
    var failedWindows: seq<Span>

    constructor (t: Table)
      ensures table == t && windows == 0 && skipped == 0 && failed == 0 && failedWindows == []
    {
      table := t;
      windows, skipped, failed, failedWindows := 0, 0, 0, [];
    }

    function State(): Progress
      reads this, table
    {
      Progress(table.rows, windows, skipped, failed, failedWindows)
    }

    method Run(fetch: Span -> WindowFetch, frm: int, til: int)
      modifies this, table
      ensures State() ==
              Walk(old(State()), WindowList(frm, til, CORP_ACTIONS_WINDOW_DAYS), WindowKey(), WindowOk(fetch))
    {
      var ws := BuildWindows(frm, til, CORP_ACTIONS_WINDOW_DAYS);
      ghost var start := State();
      var i := 0;
      while i < |ws|
        invariant 0 <= i <= |ws|
        invariant Walk(State(), ws[i..], WindowKey(), WindowOk(fetch)) == Walk(start, ws, WindowKey(), WindowOk(fetch))
      {
        var w := ws[i];
        assert ws[i..][0] == w && ws[i..][1..] == ws[i + 1..];
        var k := Key(CorpActionsArchive, SpanUnit(w.0, w.1));
        var done := table.CpDone(k);
        if done {
          skipped := skipped + 1;
        } else {
          var got := fetch(w);
          if got.FetchError? || got.count == 0 || !got.stored {
            failed := failed + 1;
            failedWindows := failedWindows + [w];
          } else {
            table.CpSet(k, Through(w.1));
            windows := windows + 1;
          }
        }
        i := i + 1;
      }
    }
  }

  lemma {:induction false} WindowKeysDistinct(frm: int, til: int)
    ensures KeysDistinct(WindowList(frm, til, CORP_ACTIONS_WINDOW_DAYS), WindowKey())
  {
    WindowsTile(frm, til, CORP_ACTIONS_WINDOW_DAYS);
    TilingBounds(WindowList(frm, til, CORP_ACTIONS_WINDOW_DAYS), frm, til);
  }

  /**
   A leg over [frm, til] counts each of its ceil((til - frm + 1) / 35) windows once, lists as failed
   exactly those still open, and a second leg does nothing but retry them.
   */
  lemma {:induction false} LegConserves(rows: Checkpoints.Rows, fetch: Span -> WindowFetch, frm: int, til: int)
    requires frm <= til + 1
    ensures var ws := WindowList(frm, til, CORP_ACTIONS_WINDOW_DAYS);
            var once := Walk(Progress(rows, 0, 0, 0, []), ws, WindowKey(), WindowOk(fetch));
            var twice := Walk(Progress(once.rows, 0, 0, 0, []), ws, WindowKey(), WindowOk(fetch));
            && once.windows + once.skipped + once.failed == (til - frm + 35) / 35
            && once.failedWindows == Open(once.rows, ws, WindowKey())
            && twice.rows == once.rows && twice.windows == 0 && twice.failedWindows == once.failedWindows
  {
    var ws := WindowList(frm, til, CORP_ACTIONS_WINDOW_DAYS);
    WindowKeysDistinct(frm, til);
    WindowCount(frm, til, CORP_ACTIONS_WINDOW_DAYS);
    WalkSettles(Progress(rows, 0, 0, 0, []), ws, WindowKey(), WindowOk(fetch));
    WalkTwice(Progress(rows, 0, 0, 0, []), ws, WindowKey(), WindowOk(fetch));
  }

  /** The window was fetched, held rows, and was stored. */
  ghost predicate Stored(f: WindowFetch) {
    exists n: nat :: n > 0 && f == Rows(n, true)
  }

  /** After a leg a window's row is new exactly when it was not done and its fetch was stored with rows. */
  lemma {:induction false} LegRow(rows: Checkpoints.Rows, fetch: Span -> WindowFetch, frm: int, til: int, w: Span)
    requires w in WindowList(frm, til, 35)
    ensures var e := Walk(Progress(rows, 0, 0, 0, []), WindowList(frm, til, 35), WindowKey(), WindowOk(fetch)).rows;
            var k := Key(CorpActionsArchive, SpanUnit(w.0, w.1));
            At(e, k) == if !Done(rows, k) && Stored(fetch(w)) then Some(Some(Through(w.1))) else At(rows, k)
  {
    var ws := WindowList(frm, til, 35);
    WindowKeysDistinct(frm, til);
    WalkSettles(Progress(rows, 0, 0, 0, []), ws, WindowKey(), WindowOk(fetch));
    var i :| 0 <= i < |ws| && ws[i] == w;
    assert WindowKey()(w) == Key(CorpActionsArchive, SpanUnit(w.0, w.1));
    assert WindowOk(fetch)(w) ==> fetch(w) == Rows(fetch(w).count, true);
  }
}
