/** The duplicate delete of scripts/dedupe_news.py over the `news` table of src/engine/marketdata/store.py. */
module NewsDedupe {
  import opened Common

  type Url = string
  type Cluster = string

  /** One headline; ids and timestamps matter only by their order. A table never repeats an id. */
  datatype Row = Row(id: int, url: Url, cluster: Option<Cluster>, ingested: int)

  predicate UniqueIds(rows: seq<Row>) {
    forall i, j | 0 <= i < j < |rows| :: rows[i].id != rows[j].id
  }

  // ---------------------------------------------------------------- the query, window by window

  /** ORDER BY ingested_at, headline_id. */
  predicate Before(a: Row, b: Row) {
    a.ingested < b.ingested || (a.ingested == b.ingested && a.id < b.id)
  }

  /** PARTITION BY url, cluster_id: two missing cluster ids fall into one partition. */
  predicate SamePair(a: Row, b: Row) {
    a.url == b.url && a.cluster == b.cluster
  }

  function RowsBefore(rows: seq<Row>, r: Row): nat {
    if rows == [] then 0
    else RowsBefore(rows[1..], r) + if SamePair(rows[0], r) && Before(rows[0], r) then 1 else 0
  }

  function RowNumber(rows: seq<Row>, r: Row): nat {
    RowsBefore(rows, r) + 1
  }

  /** count(cluster_id) OVER (PARTITION BY url). */
  function ClusteredCopies(rows: seq<Row>, url: Url): nat {
    if rows == [] then 0
    else ClusteredCopies(rows[1..], url) + if rows[0].url == url && rows[0].cluster.Some? then 1 else 0
  }

  predicate IsDuplicate(rows: seq<Row>, r: Row) {
    RowNumber(rows, r) > 1 || (r.cluster.None? && ClusteredCopies(rows, r.url) > 0)
  }

  /** The ids the subquery selects from those rows of the table given second. */
  function DuplicateIds(table: seq<Row>, rows: seq<Row>): set<int> {
    if rows == [] then {}
    else DuplicateIds(table, rows[1..]) + if IsDuplicate(table, rows[0]) then {rows[0].id} else {}
  }

  /** DELETE .. WHERE headline_id IN dead. */
  function Without(rows: seq<Row>, dead: set<int>): seq<Row> {
    if rows == [] then []
    else (if rows[0].id in dead then [] else [rows[0]]) + Without(rows[1..], dead)
  }

  function Deduped(rows: seq<Row>): seq<Row> {
    Without(rows, DuplicateIds(rows, rows))
  }

  function Urls(rows: seq<Row>): set<Url> {
    set r | r in rows :: r.url
  }

  function Clusters(rows: seq<Row>): set<Cluster> {
    set r | r in rows && r.cluster.Some? :: r.cluster.value
  }

  // ---------------------------------------------------------------- what each piece means

  lemma {:induction false} RowsBeforeZero(rows: seq<Row>, r: Row)
    ensures RowsBefore(rows, r) == 0 <==> forall q | q in rows :: !(SamePair(q, r) && Before(q, r))
  {
    if rows != [] {
      RowsBeforeZero(rows[1..], r);
      assert rows == [rows[0]] + rows[1..];
    }
  }

  lemma {:induction false} ClusteredCopiesZero(rows: seq<Row>, url: Url)
    ensures ClusteredCopies(rows, url) == 0 <==> forall q | q in rows :: !(q.url == url && q.cluster.Some?)
  {
    if rows != [] {
      ClusteredCopiesZero(rows[1..], url);
      assert rows == [rows[0]] + rows[1..];
    }
  }

  lemma {:induction false} DuplicateIdsAre(table: seq<Row>, rows: seq<Row>, id: int)
    ensures id in DuplicateIds(table, rows) <==> exists r :: r in rows && r.id == id && IsDuplicate(table, r)
  {
    if rows != [] {
      DuplicateIdsAre(table, rows[1..], id);
      assert rows == [rows[0]] + rows[1..];
    }
  }

  lemma {:induction false} WithoutKeeps(rows: seq<Row>, dead: set<int>, r: Row)
    ensures r in Without(rows, dead) <==> r in rows && r.id !in dead
  {
    if rows != [] {
      WithoutKeeps(rows[1..], dead, r);
      assert rows == [rows[0]] + rows[1..];
    }
  }

  lemma {:induction false} WithoutUnique(rows: seq<Row>, dead: set<int>)
    requires UniqueIds(rows)
    ensures UniqueIds(Without(rows, dead)) && |Without(rows, dead)| <= |rows|
  {
    if rows != [] {
      var rest := Without(rows[1..], dead);
      WithoutUnique(rows[1..], dead);
      forall i | 0 <= i < |rest| ensures rest[i].id != rows[0].id {
        WithoutKeeps(rows[1..], dead, rest[i]);
      }
    }
  }

  lemma {:induction false} SameIdSameRow(rows: seq<Row>, a: Row, b: Row)
    requires UniqueIds(rows) && a in rows && b in rows && a.id == b.id
    ensures a == b
  {}

  /** A row survives exactly when it is the earliest of its url and cluster, and clustered unless no copy is. */
  ghost predicate Survives(rows: seq<Row>, r: Row) {
    && r in rows
    && (forall q | q in rows && q.url == r.url && q.cluster == r.cluster ::
          r.ingested < q.ingested || (r.ingested == q.ingested && r.id <= q.id))
    && (r.cluster.None? ==> forall q | q in rows :: !(q.url == r.url && q.cluster.Some?))
  }

  lemma {:induction false} KeptIff(rows: seq<Row>, r: Row)
    requires UniqueIds(rows)
    ensures r in Deduped(rows) <==> Survives(rows, r)
  {
    var dead := DuplicateIds(rows, rows);
    WithoutKeeps(rows, dead, r);
    if r in rows {
      DuplicateIdsAre(rows, rows, r.id);
      RowsBeforeZero(rows, r);
      ClusteredCopiesZero(rows, r.url);
      forall q | q in rows && q.id == r.id ensures q == r {
        SameIdSameRow(rows, q, r);
      }
    }
  }

  // ---------------------------------------------------------------- nothing is lost

  predicate IsEarliest(rows: seq<Row>, r: Row, e: Row) {
    e in rows && SamePair(e, r) && forall q | q in rows :: !(SamePair(q, r) && Before(q, e))
  }

  lemma {:induction false} EarlierOf(first: Row, rest: seq<Row>, r: Row, e: Row) returns (e': Row)
    requires SamePair(first, r) && IsEarliest(rest, r, e)
    ensures IsEarliest([first] + rest, r, e')
  {
    e' := if Before(first, e) then first else e;
  }

  /** The earliest row of r's url and cluster. */
  lemma {:induction false} EarliestOf(rows: seq<Row>, r: Row) returns (e: Row)
    requires exists q :: q in rows && SamePair(q, r)
    ensures IsEarliest(rows, r, e)
  {
    var first, rest := rows[0], rows[1..];
    assert rows == [first] + rest;
    if exists q :: q in rest && SamePair(q, r) {
      e := EarliestOf(rest, r);
      if SamePair(first, r) {
        e := EarlierOf(first, rest, r, e);
      }
    } else {
      e := first;
    }
  }

  /** Every (url, cluster) pair of a clustered row keeps exactly one row, its earliest. */
  lemma {:induction false} ClusteredPairSurvives(rows: seq<Row>, r: Row) returns (e: Row)
    requires UniqueIds(rows) && r in rows && r.cluster.Some?
    ensures e in Deduped(rows) && SamePair(e, r)
  {
    e := EarliestOf(rows, r);
    KeptIff(rows, e);
  }

  /** Every url keeps a row. */
  lemma {:induction false} UrlSurvives(rows: seq<Row>, r: Row) returns (e: Row)
    requires UniqueIds(rows) && r in rows
    ensures e in Deduped(rows) && e.url == r.url
  {
    if exists q :: q in rows && q.url == r.url && q.cluster.Some? {
      var q :| q in rows && q.url == r.url && q.cluster.Some?;
      e := ClusteredPairSurvives(rows, q);
    } else {
      e := EarliestOf(rows, r);
      KeptIff(rows, e);
    }
  }

  lemma {:induction false} DedupedIsSubset(rows: seq<Row>)
    ensures forall r | r in Deduped(rows) :: r in rows
  {
    forall r | r in Deduped(rows) ensures r in rows {
      WithoutKeeps(rows, DuplicateIds(rows, rows), r);
    }
  }

  /** No url and no cluster with members disappears. */
  lemma {:induction false} NothingIsLost(rows: seq<Row>)
    requires UniqueIds(rows)
    ensures Urls(Deduped(rows)) == Urls(rows) && Clusters(Deduped(rows)) == Clusters(rows)
  {
    DedupedIsSubset(rows);
    forall r | r in rows ensures r.url in Urls(Deduped(rows)) {
      var e := UrlSurvives(rows, r);
    }
    forall r | r in rows && r.cluster.Some? ensures r.cluster.value in Clusters(Deduped(rows)) {
      var e := ClusteredPairSurvives(rows, r);
    }
  }

  // ---------------------------------------------------------------- nothing is left to delete

  /** One row is left per url and cluster, and an unclustered row is the only one of its url. */
  lemma {:induction false} OnePerPair(rows: seq<Row>, a: Row, b: Row)
    requires UniqueIds(rows) && a in Deduped(rows) && b in Deduped(rows) && a.url == b.url
    ensures a.cluster == b.cluster || a.cluster.None? || b.cluster.None? ==> a == b
  {
    KeptIff(rows, a);
    KeptIff(rows, b);
    if a.cluster == b.cluster {
      assert SamePair(a, b) && SamePair(b, a) && !Before(a, b) && !Before(b, a);
      SameIdSameRow(rows, a, b);
    }
  }

  lemma {:induction false} NothingWithout(rows: seq<Row>, dead: set<int>)
    requires forall r | r in rows :: r.id !in dead
    ensures Without(rows, dead) == rows
  {
    if rows != [] {
      assert rows == [rows[0]] + rows[1..];
      NothingWithout(rows[1..], dead);
    }
  }

  /** A second run deletes nothing. */
  lemma {:induction false} SecondRunIsNoOp(rows: seq<Row>)
    requires UniqueIds(rows)
    ensures Deduped(Deduped(rows)) == Deduped(rows)
  {
    var kept := Deduped(rows);
    WithoutUnique(rows, DuplicateIds(rows, rows));
    DedupedIsSubset(rows);
    forall r | r in kept ensures r.id !in DuplicateIds(kept, kept) {
      KeptIff(rows, r);
      KeptIff(kept, r);
      WithoutKeeps(kept, DuplicateIds(kept, kept), r);
    }
    NothingWithout(kept, DuplicateIds(kept, kept));
  }

  // ---------------------------------------------------------------- the transaction

  /** What the two checks after the delete compare. */
  predicate GuardsPass(before: seq<Row>, after: seq<Row>) {
    |Urls(after)| == |Urls(before)| && Clusters(after) == Clusters(before)
  }

  lemma {:induction false} SubsetOfSameSize(a: set<Url>, b: set<Url>)
    requires a <= b
    ensures |a| == |b| <==> a == b
  {
    assert b == a + (b - a);
  }

  /** For any delete, comparing the number of urls is as good as comparing the urls. */
  lemma {:induction false} GuardsAreExact(rows: seq<Row>, dead: set<int>)
    ensures GuardsPass(rows, Without(rows, dead))
       <==> Urls(Without(rows, dead)) == Urls(rows) && Clusters(Without(rows, dead)) == Clusters(rows)
  {
    forall r | r in Without(rows, dead) ensures r in rows {
      WithoutKeeps(rows, dead, r);
    }
    SubsetOfSameSize(Urls(Without(rows, dead)), Urls(rows));
  }

  class NewsStore {
    var news: seq<Row>

    /** The delete inside its transaction: committed when both checks pass, else rolled back. */
    method DeleteChecked(dead: set<int>) returns (deleted: Option<nat>)
      requires UniqueIds(news)
      modifies this
      ensures UniqueIds(news)
      ensures deleted.Some? <==> Urls(Without(old(news), dead)) == Urls(old(news))
                                 && Clusters(Without(old(news), dead)) == Clusters(old(news))
      ensures deleted.Some? ==> news == Without(old(news), dead) && deleted.value == |old(news)| - |news|
      ensures deleted.None? ==> news == old(news)
    {
      var before := news;
      WithoutUnique(before, dead);
      GuardsAreExact(before, dead);
      news := Without(before, dead);
      if |Urls(news)| != |Urls(before)| {
        news := before;
        return None;
      }
      if Clusters(news) != Clusters(before) {
        news := before;
        return None;
      }
      return Some(|before| - |news|);
    }

    /** `dedupe_news`: neither check can fail, so it always commits. */
    method Dedupe() returns (deleted: nat)
      requires UniqueIds(news)
      modifies this
      ensures UniqueIds(news)
      ensures forall r :: r in news <==> Survives(old(news), r)
      ensures deleted == |old(news)| - |news|
      ensures Deduped(news) == news
    {
      ghost var before := news;
      NothingIsLost(before);
      SecondRunIsNoOp(before);
      var outcome := DeleteChecked(DuplicateIds(news, news));
      deleted := outcome.value;
      forall r ensures r in news <==> Survives(before, r) {
        KeptIff(before, r);
      }
    }
  }
}
