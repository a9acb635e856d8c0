/** One symbol-day of one-minute bars, ordered by minute, and the agreement of two such tapes. */
module Tape {
  import opened Common

  /** `mfo` counts minutes from the 09:15 open. */
  datatype Bar = Bar(mfo: int, o: real, h: real, l: real, c: real, v: real)

  predicate Ascending(t: seq<Bar>) {
    forall i, j | 0 <= i < j < |t| :: t[i].mfo < t[j].mfo
  }

  /** The bars with `mfo BETWEEN lo AND hi`. */
  function Between(t: seq<Bar>, lo: int, hi: int): seq<Bar> {
    if t == [] then []
    else
      var last := t[|t| - 1];
      Between(t[..|t| - 1], lo, hi) + if lo <= last.mfo <= hi then [last] else []
  }

  lemma {:induction false} BetweenHas(t: seq<Bar>, lo: int, hi: int, b: Bar)
    ensures b in Between(t, lo, hi) <==> b in t && lo <= b.mfo <= hi
  {
    if t != [] {
      BetweenHas(t[..|t| - 1], lo, hi, b);
      assert t == t[..|t| - 1] + [t[|t| - 1]];
    }
  }

  lemma {:induction false} BetweenAscends(t: seq<Bar>, lo: int, hi: int)
    requires Ascending(t)
    ensures Ascending(Between(t, lo, hi))
  {
    if t != [] {
      var front := t[..|t| - 1];
      var kept := Between(front, lo, hi);
      BetweenAscends(front, lo, hi);
      forall i | 0 <= i < |kept| ensures kept[i].mfo < t[|t| - 1].mfo && lo <= kept[i].mfo <= hi {
        BetweenHas(front, lo, hi, kept[i]);
      }
    }
  }

  predicate SameMinutes(a: seq<Bar>, b: seq<Bar>) {
    |a| == |b| && forall i | 0 <= i < |a| :: a[i].mfo == b[i].mfo
  }

  /** Same minutes, the same bars before minute m, and the same open at m. */
  predicate AgreeToOpen(a: seq<Bar>, b: seq<Bar>, m: int) {
    SameMinutes(a, b) && forall i | 0 <= i < |a| ::
      (a[i].mfo < m ==> a[i] == b[i]) && (a[i].mfo == m ==> a[i].o == b[i].o)
  }

  /** Same minutes, and the same bars through minute m. */
  predicate AgreeThrough(a: seq<Bar>, b: seq<Bar>, m: int) {
    SameMinutes(a, b) && forall i | 0 <= i < |a| :: a[i].mfo <= m ==> a[i] == b[i]
  }

  /** Filtering both tapes to one window keeps minutes and agreement. */
  lemma {:induction false} BetweenAgrees(a: seq<Bar>, b: seq<Bar>, lo: int, hi: int, m: int)
    requires SameMinutes(a, b)
    ensures SameMinutes(Between(a, lo, hi), Between(b, lo, hi))
    ensures AgreeToOpen(a, b, m) ==> AgreeToOpen(Between(a, lo, hi), Between(b, lo, hi), m)
    ensures AgreeThrough(a, b, m) ==> AgreeThrough(Between(a, lo, hi), Between(b, lo, hi), m)
  {
    if a != [] {
      BetweenAgrees(a[..|a| - 1], b[..|b| - 1], lo, hi, m);
    }
  }

  /** Tapes that agree on every bar up to minute hi have the same filtered relation. */
  lemma {:induction false} BetweenEqual(a: seq<Bar>, b: seq<Bar>, lo: int, hi: int)
    requires AgreeThrough(a, b, hi)
    ensures Between(a, lo, hi) == Between(b, lo, hi)
  {
    if a != [] {
      BetweenEqual(a[..|a| - 1], b[..|b| - 1], lo, hi);
    }
  }

  /** `list.index`: the position of the bar at exactly minute m. */
  function EntryIndex(t: seq<Bar>, m: int): (r: Option<int>)
    ensures r.Some? ==> 0 <= r.value < |t|
  {
    if t == [] then None
    else
      var front := EntryIndex(t[..|t| - 1], m);
      if front.Some? then front else if t[|t| - 1].mfo == m then Some(|t| - 1) else None
  }

  lemma {:induction false} EntryIndexIs(t: seq<Bar>, m: int)
    requires EntryIndex(t, m).Some?
    ensures t[EntryIndex(t, m).value].mfo == m
  {
    if EntryIndex(t[..|t| - 1], m).Some? {
      EntryIndexIs(t[..|t| - 1], m);
    }
  }

  /** The entry index is the first bar at minute m, and is missing only when no bar is at m. */
  lemma {:induction false} EntryIndexIsFirst(t: seq<Bar>, m: int, j: int)
    requires 0 <= j < |t| && t[j].mfo == m
    ensures EntryIndex(t, m).Some? && EntryIndex(t, m).value <= j
  {
    if j < |t| - 1 {
      EntryIndexIsFirst(t[..|t| - 1], m, j);
    }
  }

  /** The last bar at or before minute m, or -1. */
  function LastAtOrBefore(t: seq<Bar>, m: int): (r: int)
    ensures -1 <= r < |t|
  {
    if t == [] then -1
    else if t[|t| - 1].mfo <= m then |t| - 1
    else LastAtOrBefore(t[..|t| - 1], m)
  }

  lemma {:induction false} LastIs(t: seq<Bar>, m: int)
    ensures var r := LastAtOrBefore(t, m);
            (r >= 0 ==> t[r].mfo <= m) && forall j | r < j < |t| :: t[j].mfo > m
  {
    if t != [] && t[|t| - 1].mfo > m {
      LastIs(t[..|t| - 1], m);
    }
  }

  lemma {:induction false} LastUnique(t: seq<Bar>, m: int, r: int)
    requires -1 <= r < |t| && (r >= 0 ==> t[r].mfo <= m)
    requires forall j | r < j < |t| :: t[j].mfo > m
    ensures r == LastAtOrBefore(t, m)
  {
    LastIs(t, m);
  }

  /** The minutes of the entry bar and of the squareoff bar. */
  lemma {:induction false} Positions(t: seq<Bar>, m: int, squareoff: int)
    ensures EntryIndex(t, m).Some? ==> t[EntryIndex(t, m).value].mfo == m
    ensures LastAtOrBefore(t, squareoff) >= 0 ==> t[LastAtOrBefore(t, squareoff)].mfo <= squareoff
  {
    if EntryIndex(t, m).Some? {
      EntryIndexIs(t, m);
    }
    LastIs(t, squareoff);
  }

  /** Positions depend on the minutes alone. */
  lemma {:induction false} SamePositions(a: seq<Bar>, b: seq<Bar>, m: int, squareoff: int)
    requires SameMinutes(a, b)
    ensures EntryIndex(a, m) == EntryIndex(b, m)
    ensures LastAtOrBefore(a, squareoff) == LastAtOrBefore(b, squareoff)
  {
    SameEntry(a, b, m);
    LastIs(a, squareoff);
    LastIs(b, squareoff);
  }

  lemma {:induction false} SameEntry(a: seq<Bar>, b: seq<Bar>, m: int)
    requires SameMinutes(a, b)
    ensures EntryIndex(a, m) == EntryIndex(b, m)
  {
    if EntryIndex(a, m).Some? {
      EntryIndexIs(a, m);
      EntryIndexIsFirst(b, m, EntryIndex(a, m).value);
    }
    if EntryIndex(b, m).Some? {
      EntryIndexIs(b, m);
      EntryIndexIsFirst(a, m, EntryIndex(b, m).value);
    }
  }

  /** Bars with positive prices whose open and close lie between low and high. */
  predicate WellFormed(t: seq<Bar>) {
    forall i | 0 <= i < |t| :: 0.0 < t[i].l <= t[i].o <= t[i].h && t[i].l <= t[i].c <= t[i].h
  }
}
