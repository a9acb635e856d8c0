/** The windowed walk of scripts/backfill_filings.py and its change of route for insider trades. */
module Filings {
  import opened Common
  import opened Checkpoints
  import opened Windows

  const PIT_WINDOW_DAYS := 31
  // 2026-05-03: the first day of the PIT V2.0 listing.
  const PIT_GG_FIRST_DAY := 739739

  datatype Request = OldRoute(span: Span) | ListingV2(span: Span) | ResultsUrl(span: Span)
                   | EventCalendar(span: Span) | IntegratedUrl(span: Span)

  datatype Reply = Error | Stored(xbrlFailed: nat)

  type Net = Request -> Reply

  /** A PIT window reaching the V2.0 era checkpoints apart from the old route's windows. */
  function FilingKey(feed: Feed): Span -> Key {
    (w: Span) => Key(if feed == Pit && w.1 >= PIT_GG_FIRST_DAY then PitGg else feed, SpanUnit(w.0, w.1))
  }

  function OldPart(w: Span): seq<Request> {
    if w.0 < PIT_GG_FIRST_DAY then [OldRoute(w)] else []
  }

  function ListingPart(w: Span): seq<Request> {
    if w.1 >= PIT_GG_FIRST_DAY then [ListingV2((Max(w.0, PIT_GG_FIRST_DAY), w.1))] else []
  }

  /** What a window asks for when every reply is good, in order. */
  function Plan(feed: Feed, w: Span): seq<Request> {
    match feed
    case Pit => OldPart(w) + ListingPart(w)
    case Integrated => [IntegratedUrl(w)]
    case _ => [ResultsUrl(w), EventCalendar(w)]
  }

  /** What some windows ask for when every reply is good, in order. */
  function Plans(feed: Feed, ws: seq<Span>): seq<Request> {
    if ws == [] then [] else Plans(feed, ws[..|ws| - 1]) + Plan(feed, ws[|ws| - 1])
  }

  predicate Good(net: Net, r: Request) {
    net(r).Stored? && (r.ListingV2? ==> net(r).xbrlFailed == 0)
  }

  function WindowOk(feed: Feed, net: Net): Span -> bool {
    (w: Span) => forall i | 0 <= i < |Plan(feed, w)| :: Good(net, Plan(feed, w)[i])
  }

  lemma {:induction false} FilingKeysDistinct(feed: Feed, frm: int, til: int)
    ensures KeysDistinct(WindowList(frm, til, PIT_WINDOW_DAYS), FilingKey(feed))
  {
    WindowsTile(frm, til, PIT_WINDOW_DAYS);
    TilingBounds(WindowList(frm, til, PIT_WINDOW_DAYS), frm, til);
  }

  /** Every window is still to do, and every reply to it will be good. */
  ghost predicate AllOpen(rows: Rows, feed: Feed, net: Net, ws: seq<Span>) {
    forall i | 0 <= i < |ws| :: !Done(rows, FilingKey(feed)(ws[i])) && WindowOk(feed, net)(ws[i])
  }

  class FilingsSeed {
    const table: Table
    var windows: int
    var skipped: int
    var failed: int

    constructor (t: Table)
      ensures table == t && windows == 0 && skipped == 0 && failed == 0
    {
      table := t;
      windows, skipped, failed := 0, 0, 0;
    }

    /** The requests of one window, in order, up to and including the first bad reply. */
    method FetchWindow(feed: Feed, net: Net, w: Span) returns (ok: bool, ghost asked: seq<Request>)
      ensures ok == WindowOk(feed, net)(w)
      ensures asked <= Plan(feed, w)
      ensures ok ==> asked == Plan(feed, w)
      ensures forall i | 0 <= i < |asked| - 1 :: Good(net, asked[i])
    {
      ok, asked := true, [];
      if feed == Pit {
        if w.0 < PIT_GG_FIRST_DAY {
          var reply := net(OldRoute(w));
          asked := asked + [OldRoute(w)];
          if reply.Error? {
            assert Plan(feed, w)[0] == OldRoute(w);
            return false, asked;
          }
        }
        if w.1 >= PIT_GG_FIRST_DAY {
          var sub := (Max(w.0, PIT_GG_FIRST_DAY), w.1);
          var reply := net(ListingV2(sub));
          asked := asked + [ListingV2(sub)];
          assert asked == Plan(feed, w);
          if reply.Error? || reply.xbrlFailed > 0 {
            assert !Good(net, Plan(feed, w)[|asked| - 1]);
            return false, asked;
          }
        }
      } else if feed == Integrated {
        var reply := net(IntegratedUrl(w));
        asked := [IntegratedUrl(w)];
        ok := reply.Stored?;
        assert Plan(feed, w)[0] == IntegratedUrl(w);
      } else {
        var reply := net(ResultsUrl(w));
        asked := [ResultsUrl(w)];
        assert Plan(feed, w)[0] == ResultsUrl(w) && Plan(feed, w)[1] == EventCalendar(w);
        if reply.Error? {
          return false, asked;
        }
        var events := net(EventCalendar(w));
        asked := asked + [EventCalendar(w)];
        ok := events.Stored?;
      }
    }

    /** The leg so far, with the windows it has failed on. */
    ghost function State(failedWindows: seq<Span>): Progress
      reads this, table
    {
      Progress(table.rows, windows, skipped, failed, failedWindows)
    }

    /** One window of the walk: skipped when done, else fetched and checkpointed if every reply was good. */
    method SeedWindow(feed: Feed, net: Net, w: Span, ghost failedWindows: seq<Span>)
      returns (ghost failedWindows': seq<Span>, ghost asked: seq<Request>)
      modifies this, table
      ensures State(failedWindows') == Step(old(State(failedWindows)), w, FilingKey(feed), WindowOk(feed, net))
      ensures !Done(old(table.rows), FilingKey(feed)(w)) && WindowOk(feed, net)(w) ==> asked == Plan(feed, w)
    {
      failedWindows', asked := failedWindows, [];
      var k := Key(if feed == Pit && w.1 >= PIT_GG_FIRST_DAY then PitGg else feed, SpanUnit(w.0, w.1));
      var done := table.CpDone(k);
      if done {
        skipped := skipped + 1;
        return;
      }
      var ok;
      ok, asked := FetchWindow(feed, net, w);
      if ok {
        table.CpSet(k, Through(w.1));
        windows := windows + 1;
      } else {
        failed := failed + 1;
        failedWindows' := failedWindows + [w];
      }
    }

    /** The walk; with nothing done and every reply good it asks for every window's requests, in order. */
    method SeedNseWindowed(feed: Feed, net: Net, frm: int, til: int) returns (ghost asked: seq<Request>)
      modifies this, table
      ensures var p := Walk(old(State([])), WindowList(frm, til, PIT_WINDOW_DAYS), FilingKey(feed),
                            WindowOk(feed, net));
              table.rows == p.rows && windows == p.windows && skipped == p.skipped && failed == p.failed
      ensures AllOpen(old(table.rows), feed, net, WindowList(frm, til, PIT_WINDOW_DAYS)) ==>
                asked == Plans(feed, WindowList(frm, til, PIT_WINDOW_DAYS))
    {
      hide Underway;
      var ws := BuildWindows(frm, til, PIT_WINDOW_DAYS);
      ghost var start := State([]);
      ghost var failedWindows: seq<Span> := [];
      asked := [];
      FilingKeysDistinct(feed, frm, til);
      Starts(start, feed, net, ws);
      var i := 0;
      while i < |ws|
        invariant 0 <= i <= |ws|
        invariant Underway(start, State(failedWindows), feed, net, ws, i, asked)
      {
        ghost var before := State(failedWindows);
        ghost var more;
        failedWindows, more := SeedWindow(feed, net, ws[i], failedWindows);
        Onward(start, before, feed, net, ws, i, asked, more);
        asked := asked + more;
        i := i + 1;
      }
      Arrives(start, State(failedWindows), feed, net, ws, asked);
    }
  }

  /** The walk before its i-th window: p is what the first i windows made of start, and asked what they asked. */
  ghost predicate Underway(
      start: Progress, p: Progress, feed: Feed, net: Net, ws: seq<Span>, i: nat, asked: seq<Request>)
    requires i <= |ws|
  {
    && Walk(p, ws[i..], FilingKey(feed), WindowOk(feed, net)) == Walk(start, ws, FilingKey(feed), WindowOk(feed, net))
    && (AllOpen(start.rows, feed, net, ws) ==> asked == Plans(feed, ws[..i]) && AllOpen(p.rows, feed, net, ws[i..]))
  }

  lemma {:induction false} Starts(start: Progress, feed: Feed, net: Net, ws: seq<Span>)
    ensures Underway(start, start, feed, net, ws, 0, [])
  {
    hide AllOpen, Walk;
    assert ws[0..] == ws && ws[..0] == [];
  }

  lemma {:induction false} Onward(
      start: Progress, p: Progress, feed: Feed, net: Net, ws: seq<Span>, i: nat,
      asked: seq<Request>, more: seq<Request>)
    requires i < |ws| && KeysDistinct(ws, FilingKey(feed)) && Underway(start, p, feed, net, ws, i, asked)
    requires !Done(p.rows, FilingKey(feed)(ws[i])) && WindowOk(feed, net)(ws[i]) ==> more == Plan(feed, ws[i])
    ensures Underway(start, Step(p, ws[i], FilingKey(feed), WindowOk(feed, net)), feed, net, ws, i + 1, asked + more)
  {
    hide AllOpen, Plan, FilingKey, WindowOk, Step;
    assert ws[i..][0] == ws[i] && ws[i..][1..] == ws[i + 1..];
    if AllOpen(start.rows, feed, net, ws) {
      StillOpen(p, feed, net, ws, i);
      assert ws[..i + 1][..i] == ws[..i];
    }
  }

  lemma {:induction false} Arrives(
      start: Progress, p: Progress, feed: Feed, net: Net, ws: seq<Span>, asked: seq<Request>)
    requires Underway(start, p, feed, net, ws, |ws|, asked)
    ensures p == Walk(start, ws, FilingKey(feed), WindowOk(feed, net))
    ensures AllOpen(start.rows, feed, net, ws) ==> asked == Plans(feed, ws)
  {
    hide AllOpen;
    assert ws[|ws|..] == [] && ws[..|ws|] == ws;
  }

  /** Walking one open window leaves the ones after it open. */
  lemma {:induction false} StillOpen(p: Progress, feed: Feed, net: Net, ws: seq<Span>, i: nat)
    requires i < |ws| && KeysDistinct(ws, FilingKey(feed)) && AllOpen(p.rows, feed, net, ws[i..])
    ensures !Done(p.rows, FilingKey(feed)(ws[i])) && WindowOk(feed, net)(ws[i])
    ensures AllOpen(Step(p, ws[i], FilingKey(feed), WindowOk(feed, net)).rows, feed, net, ws[i + 1..])
  {
    hide WindowOk, FilingKey;
    assert ws[i..][0] == ws[i];
    forall j | i < j < |ws| ensures !Done(p.rows, FilingKey(feed)(ws[j])) && WindowOk(feed, net)(ws[j]) {
      assert ws[i..][j - i] == ws[j];
    }
  }

  // ---------------------------------------------------------------- the two PIT routes

  /** Whether a request goes to the V2.0 listing, or to the old route. */
  predicate GoesTo(r: Request, v2: bool) {
    if v2 then r.ListingV2? else r.OldRoute?
  }

  /** The spans some requests put to it, in order. */
  function SpansTo(rs: seq<Request>, v2: bool): seq<Span> {
    if rs == [] then [] else SpansTo(rs[..|rs| - 1], v2) + if GoesTo(rs[|rs| - 1], v2) then [rs[|rs| - 1].span] else []
  }

  lemma {:induction false} SpansOfBoth(a: seq<Request>, b: seq<Request>, v2: bool)
    ensures SpansTo(a + b, v2) == SpansTo(a, v2) + SpansTo(b, v2)
  {
    hide GoesTo;
    if b == [] {
      assert a + b == a;
    } else {
      SpansOfBoth(a, b[..|b| - 1], v2);
      assert (a + b)[..|a + b| - 1] == a + b[..|b| - 1];
    }
  }

  /** What one PIT window asks of each route. */
  lemma {:induction false} SpansOfWindow(w: Span)
    ensures SpansTo(Plan(Pit, w), true)
         == if w.1 >= PIT_GG_FIRST_DAY then [(Max(w.0, PIT_GG_FIRST_DAY), w.1)] else []
    ensures SpansTo(Plan(Pit, w), false) == if w.0 < PIT_GG_FIRST_DAY then [w] else []
  {
    SpansOfBoth(OldPart(w), ListingPart(w), true);
    SpansOfBoth(OldPart(w), ListingPart(w), false);
    forall rs: seq<Request>, v2 | |rs| <= 1
      ensures SpansTo(rs, v2) == if rs != [] && GoesTo(rs[0], v2) then [rs[0].span] else []
    {
      if rs != [] {
        assert rs[..0] == [];
      }
    }
  }

  lemma {:induction false} PlansOfBoth(a: seq<Span>, b: seq<Span>)
    ensures Plans(Pit, a + b) == Plans(Pit, a) + Plans(Pit, b)
  {
    hide Plan;
    if b == [] {
      assert a + b == a;
    } else {
      PlansOfBoth(a, b[..|b| - 1]);
      assert (a + b)[..|a + b| - 1] == a + b[..|b| - 1];
    }
  }

  /** The requests of some windows are the first one's and then the others'. */
  lemma {:induction false} PlansFrom(ws: seq<Span>, v2: bool)
    requires ws != []
    ensures SpansTo(Plans(Pit, ws), v2) == SpansTo(Plan(Pit, ws[0]), v2) + SpansTo(Plans(Pit, ws[1..]), v2)
  {
    hide Plan, SpansTo;
    assert ws == [ws[0]] + ws[1..];
    PlansOfBoth([ws[0]], ws[1..]);
    assert [ws[0]][..0] == [];
    assert Plans(Pit, [ws[0]]) == Plan(Pit, ws[0]);
    SpansOfBoth(Plan(Pit, ws[0]), Plans(Pit, ws[1..]), v2);
  }

  /** Over the requests a leg puts, those to the V2.0 listing tile exactly the V2.0 days of the range. */
  lemma {:induction false} ListingTiles(ws: seq<Span>, frm: int, til: int)
    requires Tiling(ws, frm, til)
    ensures Tiling(SpansTo(Plans(Pit, ws), true), Max(frm, PIT_GG_FIRST_DAY), til)
  {
    if frm <= til {
      hide SpansTo, Plans, Plan;
      ListingTiles(ws[1..], ws[0].1 + 1, til);
      PlansFrom(ws, true);
      SpansOfWindow(ws[0]);
      var spans := SpansTo(Plans(Pit, ws), true);
      if ws[0].1 >= PIT_GG_FIRST_DAY {
        assert spans[1..] == SpansTo(Plans(Pit, ws[1..]), true);
      } else {
        assert spans == SpansTo(Plans(Pit, ws[1..]), true);
      }
    }
  }

  /** Those to the old route tile every earlier day and overrun the change by less than one window. */
  lemma {:induction false} OldRouteTiles(frm: int, til: int)
    requires frm <= til && frm < PIT_GG_FIRST_DAY
    ensures exists end :: Min(til, PIT_GG_FIRST_DAY - 1) <= end <= til && end < PIT_GG_FIRST_DAY + PIT_WINDOW_DAYS - 1
                       && Tiling(SpansTo(Plans(Pit, WindowList(frm, til, PIT_WINDOW_DAYS)), false), frm, end)
    decreases til - frm
  {
    hide SpansTo, Plans, Plan;
    var ws := WindowList(frm, til, PIT_WINDOW_DAYS);
    var next := ws[0].1 + 1;
    assert ws[1..] == WindowList(next, til, PIT_WINDOW_DAYS);
    PlansFrom(ws, false);
    SpansOfWindow(ws[0]);
    var spans, rest := SpansTo(Plans(Pit, ws), false), SpansTo(Plans(Pit, ws[1..]), false);
    assert spans[1..] == rest;
    if next <= til && next < PIT_GG_FIRST_DAY {
      OldRouteTiles(next, til);
      var end :| Min(til, PIT_GG_FIRST_DAY - 1) <= end <= til && end < PIT_GG_FIRST_DAY + PIT_WINDOW_DAYS - 1
              && Tiling(rest, next, end);
      assert Tiling(spans, frm, end);
    } else {
      LateWindowsSkipOldRoute(next, til);
      assert Tiling(spans, frm, ws[0].1);
    }
  }

  lemma {:induction false} LateWindowsSkipOldRoute(frm: int, til: int)
    requires frm > til || frm >= PIT_GG_FIRST_DAY
    ensures SpansTo(Plans(Pit, WindowList(frm, til, PIT_WINDOW_DAYS)), false) == []
    decreases til - frm
  {
    if frm <= til {
      var ws := WindowList(frm, til, PIT_WINDOW_DAYS);
      LateWindowsSkipOldRoute(ws[0].1 + 1, til);
      assert ws[1..] == WindowList(ws[0].1 + 1, til, PIT_WINDOW_DAYS);
      PlansFrom(ws, false);
      SpansOfWindow(ws[0]);
    }
  }

  // ---------------------------------------------------------------- what completes a window

  /**
   A PIT window needs a reply from the old route for its days before 2026-05-03 and, for the later ones, a
   listing of which no XBRL failed; a results window needs the results and the event calendar.
   */
  predicate Answered(feed: Feed, net: Net, w: Span) {
    match feed
    case Pit =>
      && (w.0 < 739739 ==> net(OldRoute(w)) != Error)
      && (w.1 >= 739739 ==> net(ListingV2((if w.0 < 739739 then 739739 else w.0, w.1))) == Stored(0))
    case Integrated => net(IntegratedUrl(w)) != Error
    case _ => net(ResultsUrl(w)) != Error && net(EventCalendar(w)) != Error
  }

  lemma {:induction false} AnsweredIff(feed: Feed, net: Net, w: Span)
    ensures WindowOk(feed, net)(w) <==> Answered(feed, net, w)
  {
    var plan := Plan(feed, w);
    match feed
    case Pit =>
      if w.0 < PIT_GG_FIRST_DAY {
        assert plan[0] == OldRoute(w);
      }
      if w.1 >= PIT_GG_FIRST_DAY {
        assert plan[|plan| - 1] == ListingV2((Max(w.0, PIT_GG_FIRST_DAY), w.1));
      }
    case Integrated => assert plan[0] == IntegratedUrl(w);
    case _ => assert plan[0] == ResultsUrl(w) && plan[1] == EventCalendar(w);
  }

  /** After a leg a window's row is new exactly when it was not done and every reply it needs was good. */
  lemma {:induction false} LegRow(rows: Rows, feed: Feed, net: Net, frm: int, til: int, w: Span)
    requires w in WindowList(frm, til, 31)
    ensures var e := Walk(Progress(rows, 0, 0, 0, []), WindowList(frm, til, 31), FilingKey(feed),
                          WindowOk(feed, net)).rows;
            var k := Key(if feed == Pit && w.1 >= 739739 then PitGg else feed, SpanUnit(w.0, w.1));
            At(e, k) == if !Done(rows, k) && Answered(feed, net, w) then Some(Some(Through(w.1))) else At(rows, k)
  {
    var ws := WindowList(frm, til, 31);
    FilingKeysDistinct(feed, frm, til);
    WalkSettles(Progress(rows, 0, 0, 0, []), ws, FilingKey(feed), WindowOk(feed, net));
    var i :| 0 <= i < |ws| && ws[i] == w;
    AnsweredIff(feed, net, w);
  }

  /**
   Whatever the table held before, after a PIT leg each window reaching the V2.0 era is done if it
   was done as `pit_gg` or every reply of its plan was good, and only then: an old `pit` row for the
   same span never stands in for the V2.0 listing. The leg counts every window once.
   */
  lemma {:induction false} PitLegSettles(rows: Rows, net: Net, frm: int, til: int)
    requires frm <= til + 1
    ensures var ws := WindowList(frm, til, PIT_WINDOW_DAYS);
            var p := Walk(Progress(rows, 0, 0, 0, []), ws, FilingKey(Pit), WindowOk(Pit, net));
            && p.windows + p.skipped + p.failed == (til - frm + 31) / 31
            && (forall i | 0 <= i < |ws| && ws[i].1 >= PIT_GG_FIRST_DAY ::
                  Done(p.rows, Key(PitGg, SpanUnit(ws[i].0, ws[i].1))) <==>
                  Done(rows, Key(PitGg, SpanUnit(ws[i].0, ws[i].1))) || WindowOk(Pit, net)(ws[i]))
            && (forall i | 0 <= i < |ws| && ws[i].1 >= PIT_GG_FIRST_DAY ::
                  At(p.rows, Key(Pit, SpanUnit(ws[i].0, ws[i].1))) == At(rows, Key(Pit, SpanUnit(ws[i].0, ws[i].1))))
  {
    var ws := WindowList(frm, til, PIT_WINDOW_DAYS);
    var p := Walk(Progress(rows, 0, 0, 0, []), ws, FilingKey(Pit), WindowOk(Pit, net));
    WindowsTile(frm, til, PIT_WINDOW_DAYS);
    TilingBounds(ws, frm, til);
    WindowCount(frm, til, PIT_WINDOW_DAYS);
    WalkSettles(Progress(rows, 0, 0, 0, []), ws, FilingKey(Pit), WindowOk(Pit, net));
    forall i | 0 <= i < |ws| && ws[i].1 >= PIT_GG_FIRST_DAY
      ensures Done(p.rows, Key(PitGg, SpanUnit(ws[i].0, ws[i].1))) <==>
              Done(rows, Key(PitGg, SpanUnit(ws[i].0, ws[i].1))) || WindowOk(Pit, net)(ws[i])
      ensures At(p.rows, Key(Pit, SpanUnit(ws[i].0, ws[i].1))) == At(rows, Key(Pit, SpanUnit(ws[i].0, ws[i].1)))
    {
      assert FilingKey(Pit)(ws[i]) == Key(PitGg, SpanUnit(ws[i].0, ws[i].1));
    }
  }
}
