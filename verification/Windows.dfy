/** The dated windows both backfill scripts walk, and what a resumable walk over them leaves. */
module Windows {
  import opened Arithmetic
  import opened Common
  import opened Checkpoints

  /** An inclusive span of dates. */
  type Span = (int, int)

  function WindowList(frm: int, til: int, days: int): seq<Span>
    requires days >= 1
    decreases til - frm
  {
    if frm > til then []
    else
      var end := Min(frm + days - 1, til);
      [(frm, end)] + WindowList(end + 1, til, days)
  }

  method BuildWindows(frm: int, til: int, days: int) returns (out: seq<Span>)
    requires days >= 1
    ensures out == WindowList(frm, til, days)
  {
    out := [];
    var cur := frm;
    while cur <= til
      invariant out + WindowList(cur, til, days) == WindowList(frm, til, days)
      decreases til - cur
    {
      var end := Min(cur + days - 1, til);
      assert out + WindowList(cur, til, days) == out + [(cur, end)] + WindowList(end + 1, til, days);
      out := out + [(cur, end)];
      cur := end + 1;
    }
    assert WindowList(cur, til, days) == [];
  }

  /** The spans follow one another without gap or overlap from lo to hi. */
  predicate Tiling(spans: seq<Span>, lo: int, hi: int) {
    if lo > hi then spans == []
    else |spans| > 0 && spans[0].0 == lo <= spans[0].1 <= hi && Tiling(spans[1..], spans[0].1 + 1, hi)
  }

  lemma {:induction false} WindowsTile(frm: int, til: int, days: int)
    requires days >= 1
    ensures Tiling(WindowList(frm, til, days), frm, til)
    decreases til - frm
  {
    if frm <= til {
      WindowsTile(Min(frm + days - 1, til) + 1, til, days);
    }
  }

  /** In a tiling every date of the range lies in exactly one span, and the spans are distinct. */
  lemma {:induction false} TilingCovers(spans: seq<Span>, lo: int, hi: int, d: int)
    requires Tiling(spans, lo, hi) && lo <= d <= hi
    ensures exists i :: 0 <= i < |spans| && spans[i].0 <= d <= spans[i].1
    ensures forall i, j | 0 <= i < |spans| && 0 <= j < |spans|
                       && spans[i].0 <= d <= spans[i].1 && spans[j].0 <= d <= spans[j].1 :: i == j
  {
    var rest := spans[1..];
    TilingBounds(rest, spans[0].1 + 1, hi);
    assert forall i | 1 <= i < |spans| :: spans[i] == rest[i - 1];
    if d > spans[0].1 {
      TilingCovers(rest, spans[0].1 + 1, hi, d);
      var i :| 0 <= i < |rest| && rest[i].0 <= d <= rest[i].1;
      assert spans[i + 1].0 <= d <= spans[i + 1].1;
      forall i, j | 0 <= i < |spans| && 0 <= j < |spans|
                 && spans[i].0 <= d <= spans[i].1 && spans[j].0 <= d <= spans[j].1
        ensures i == j
      {
        assert rest[i - 1].0 <= d <= rest[i - 1].1 && rest[j - 1].0 <= d <= rest[j - 1].1;
      }
    }
  }

  lemma {:induction false} TilingBounds(spans: seq<Span>, lo: int, hi: int)
    requires Tiling(spans, lo, hi)
    ensures forall i | 0 <= i < |spans| :: lo <= spans[i].0 <= spans[i].1 <= hi
    ensures forall i, j | 0 <= i < j < |spans| :: spans[i].1 < spans[j].0
  {
    if lo <= hi {
      TilingBounds(spans[1..], spans[0].1 + 1, hi);
      assert forall i | 1 <= i < |spans| :: spans[i] == spans[1..][i - 1];
    }
  }

  lemma {:induction false} WindowAt(frm: int, til: int, days: int, i: int)
    requires days >= 1 && 0 <= i < |WindowList(frm, til, days)|
    ensures WindowList(frm, til, days)[i] == (frm + i * days, Min(frm + i * days + days - 1, til))
    decreases i
  {
    if i > 0 {
      var end := Min(frm + days - 1, til);
      assert end == frm + days - 1;
      WindowAt(end + 1, til, days, i - 1);
      assert (i - 1) * days == i * days - days;
    }
  }

  lemma {:induction false} OneMoreSpan(m: int, days: int)
    requires days >= 1
    ensures (m + days) / days == m / days + 1
  {
    DivMod(m, days);
    Distribute(m / days, 1, days);
    Quotient(m + days, days, m / days + 1);
  }

  /** There are ceil((til - frm + 1) / days) windows. */
  lemma {:induction false} WindowCount(frm: int, til: int, days: int)
    requires days >= 1 && frm <= til + 1
    ensures |WindowList(frm, til, days)| == (til - frm + days) / days
    decreases til - frm
  {
    if frm > til {
      Quotient(days - 1, days, 0);
    } else if til < frm + days {
      assert WindowList(til + 1, til, days) == [];
      Quotient(til - frm + days, days, 1);
    } else {
      WindowCount(frm + days, til, days);
      OneMoreSpan(til - frm, days);
    }
  }

  // ---------------------------------------------------------------- the resumable walk

  datatype Progress = Progress(rows: Rows, windows: int, skipped: int, failed: int, failedWindows: seq<Span>)

  function Step(p: Progress, w: Span, key: Span -> Key, ok: Span -> bool): Progress {
    if Done(p.rows, key(w)) then p.(skipped := p.skipped + 1)
    else if ok(w) then p.(rows := p.rows[key(w) := Some(Through(w.1))], windows := p.windows + 1)
    else p.(failed := p.failed + 1, failedWindows := p.failedWindows + [w])
  }

  function Walk(p: Progress, ws: seq<Span>, key: Span -> Key, ok: Span -> bool): Progress
    decreases |ws|
  {
    if ws == [] then p else Walk(Step(p, ws[0], key, ok), ws[1..], key, ok)
  }

  predicate KeysDistinct(ws: seq<Span>, key: Span -> Key) {
    forall i, j | 0 <= i < j < |ws| :: key(ws[i]) != key(ws[j])
  }

  /** The windows of ws that are not done, in order. */
  function Open(rows: Rows, ws: seq<Span>, key: Span -> Key): seq<Span> {
    if ws == [] then []
    else (if Done(rows, key(ws[0])) then [] else [ws[0]]) + Open(rows, ws[1..], key)
  }

  lemma {:induction false} StepSettles(p: Progress, w: Span, key: Span -> Key, ok: Span -> bool)
    ensures var q := Step(p, w, key, ok);
            && (forall k :: k != key(w) ==> At(q.rows, k) == At(p.rows, k))
            && At(q.rows, key(w)) == (if Done(p.rows, key(w)) || !ok(w) then At(p.rows, key(w))
                                      else Some(Some(Through(w.1))))
            && q.windows + q.skipped + q.failed == p.windows + p.skipped + p.failed + 1
            && q.skipped == p.skipped + (if Done(p.rows, key(w)) then 1 else 0)
            && q.failedWindows == p.failedWindows + (if Done(q.rows, key(w)) then [] else [w])
            && q.failed == p.failed + (if Done(q.rows, key(w)) then 0 else 1)
  {
  }

  lemma {:induction false} SameOpen(a: Rows, b: Rows, ws: seq<Span>, key: Span -> Key)
    requires forall i | 0 <= i < |ws| :: At(a, key(ws[i])) == At(b, key(ws[i]))
    ensures Open(a, ws, key) == Open(b, ws, key)
  {
    if ws != [] {
      assert At(a, key(ws[0])) == At(b, key(ws[0]));
      assert forall i | 0 <= i < |ws[1..]| :: ws[1..][i] == ws[i + 1];
      SameOpen(a, b, ws[1..], key);
    }
  }

  /**
   A walk keeps every row it does not own, completes exactly the open windows that succeed, counts every
   window once, as skipped exactly those done before, and lists as failed exactly those still open after.
   */
  lemma {:induction false} WalkSettles(p: Progress, ws: seq<Span>, key: Span -> Key, ok: Span -> bool)
    requires KeysDistinct(ws, key)
    ensures var e := Walk(p, ws, key, ok);
            && e.windows + e.skipped + e.failed == p.windows + p.skipped + p.failed + |ws|
            && e.skipped == p.skipped + |ws| - |Open(p.rows, ws, key)|
            && e.failedWindows == p.failedWindows + Open(e.rows, ws, key)
            && e.failed == p.failed + |Open(e.rows, ws, key)|
            && (forall k :: (forall i | 0 <= i < |ws| :: key(ws[i]) != k) ==> At(e.rows, k) == At(p.rows, k))
            && (forall i | 0 <= i < |ws| ::
                  At(e.rows, key(ws[i])) ==
                  if Done(p.rows, key(ws[i])) || !ok(ws[i]) then At(p.rows, key(ws[i]))
                  else Some(Some(Through(ws[i].1))))
    decreases |ws|
  {
    hide Step;
    if ws != [] {
      var w, rest := ws[0], ws[1..];
      var q := Step(p, w, key, ok);
      StepSettles(p, w, key, ok);
      assert forall i | 0 <= i < |rest| :: rest[i] == ws[i + 1];
      WalkSettles(q, rest, key, ok);
      SameOpen(p.rows, q.rows, rest, key);
      var e := Walk(p, ws, key, ok);
      assert At(e.rows, key(w)) == At(q.rows, key(w));
      forall i | 1 <= i < |ws| ensures At(e.rows, key(ws[i])) ==
                  if Done(p.rows, key(ws[i])) || !ok(ws[i]) then At(p.rows, key(ws[i]))
                  else Some(Some(Through(ws[i].1)))
      {
        assert ws[i] == rest[i - 1];
        assert At(q.rows, key(ws[i])) == At(p.rows, key(ws[i]));
      }
      forall k | forall i | 0 <= i < |ws| :: key(ws[i]) != k ensures At(e.rows, k) == At(p.rows, k) {
        assert key(ws[0]) != k;
        forall i | 0 <= i < |rest| ensures key(rest[i]) != k {
          assert key(ws[i + 1]) != k;
        }
        assert At(q.rows, k) == At(p.rows, k);
      }
    }
  }

  /** Walking again completes nothing new and loses nothing: only the failed windows are retried. */
  lemma {:induction false} WalkTwice(p: Progress, ws: seq<Span>, key: Span -> Key, ok: Span -> bool)
    requires KeysDistinct(ws, key)
    requires p.windows == p.skipped == p.failed == 0 && p.failedWindows == []
    ensures var once := Walk(p, ws, key, ok);
            var twice := Walk(p.(rows := once.rows), ws, key, ok);
            && twice.rows == once.rows && twice.windows == 0
            && twice.skipped == once.windows + once.skipped
            && twice.failedWindows == once.failedWindows
  {
    var once := Walk(p, ws, key, ok);
    var again := p.(rows := once.rows);
    var twice := Walk(again, ws, key, ok);
    WalkSettles(p, ws, key, ok);
    WalkSettles(again, ws, key, ok);
    forall k ensures At(twice.rows, k) == At(once.rows, k) {
      if i :| 0 <= i < |ws| && key(ws[i]) == k {
        assert At(once.rows, key(ws[i])) == At(twice.rows, key(ws[i]));
      }
    }
    SameRows(twice.rows, once.rows);
    NothingNew(again, ws, key, ok);
  }

  lemma {:induction false} NothingNew(p: Progress, ws: seq<Span>, key: Span -> Key, ok: Span -> bool)
    requires forall i | 0 <= i < |ws| :: Done(p.rows, key(ws[i])) || !ok(ws[i])
    ensures Walk(p, ws, key, ok).windows == p.windows
    decreases |ws|
  {
    if ws != [] {
      NothingNew(Step(p, ws[0], key, ok), ws[1..], key, ok);
    }
  }
}
