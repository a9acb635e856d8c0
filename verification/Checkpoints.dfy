/** The `filings_backfill_checkpoints` table both backfill scripts resume from. */
module Checkpoints {
  import opened Common

  datatype Feed = BhavcopyArchive | CorpActionsArchive | Pit | PitGg | Results | Integrated

  datatype WorkUnit = DayUnit(day: int) | SpanUnit(first: int, last: int)

  datatype Through = Through(date: int) | HolidayMark

  datatype Key = Key(feed: Feed, work: WorkUnit)

  /** A row may exist with a NULL or empty `through_date` (None); such a unit is not done. */
  type Rows = map<Key, Option<Through>>

  predicate Done(rows: Rows, k: Key) {
    k in rows && rows[k].Some?
  }

  /** What the table holds for one key: no row, a row without a date, or a completed row. */
  function At(rows: Rows, k: Key): Option<Option<Through>> {
    if k in rows then Some(rows[k]) else None
  }

  lemma {:induction false} SameRows(a: Rows, b: Rows)
    requires forall k :: At(a, k) == At(b, k)
    ensures a == b
  {
    forall k ensures (k in a <==> k in b) && (k in a ==> a[k] == b[k]) {
      assert At(a, k) == At(b, k);
    }
  }

  class Table {
    var rows: Rows

    constructor ()
      ensures rows == map[]
    {
      rows := map[];
    }

    method CpDone(k: Key) returns (done: bool)
      ensures done == Done(rows, k)
      ensures done <==> exists t :: At(rows, k) == Some(Some(t))
    {
      done := k in rows && rows[k].Some?;
      assert done ==> At(rows, k) == Some(Some(rows[k].value));
    }

    method CpSet(k: Key, through: Through)
      modifies this
      ensures rows == old(rows)[k := Some(through)]
    {
      rows := rows[k := Some(through)];
    }

    method CpClear(ks: seq<Key>)
      modifies this
      ensures rows == old(rows) - (set k | k in ks)
    {
      var i := 0;
      while i < |ks|
        invariant 0 <= i <= |ks|
        invariant rows == old(rows) - (set k | k in ks[..i])
      {
        rows := rows - {ks[i]};
        i := i + 1;
        assert ks[..i] == ks[..i - 1] + [ks[i - 1]];
      }
      assert ks[..i] == ks;
    }
  }
}
