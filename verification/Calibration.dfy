/** `_Accumulator`, `_process_day` and the retry loop of `calibrate` in scripts/calibrate_fill_model.py. */
module Calibration {
  import opened Common
  import opened WeightedMedian
  import opened CalibrationTotals

  /** `_DAY_RETRIES`. */
  const DAY_RETRIES := 3

  /** How much of an error's text a skipped day keeps. */
  const ERROR_CHARS := 200

  /** The query that raises, and the text of its exception. */
  datatype Failure = Failure(query: nat, message: string)

  /** One pass over a session: what its queries would return, and the one that raises, if one does. */
  datatype Attempt = Attempt(facts: Facts, failure: Option<Failure>)

  /** The queries of one pass, in the order they run. */
  const LOAD := 0
  const L1 := 1
  const SYMBOLS := 2
  const HOURS := 3
  const SPREAD := 4
  const PRICE := 5
  const SAMPLES := 6
  const DROPS := 7
  const OPEN_BLOCK := 8
  const MID_BLOCK := 9
  const CLOSE_BLOCK := 10

  predicate Raises(a: Attempt, query: nat) {
    a.failure.Some? && a.failure.value.query == query
  }

  /** A pass ends when no query it reaches raises; an empty session reaches only the load. */
  predicate Succeeds(a: Attempt) {
    a.failure.None? || a.failure.value.query > if a.facts.ticks == 0 then LOAD else CLOSE_BLOCK
  }

  /** The exception a pass ends with, if it does. */
  function ErrorOf(a: Attempt): Option<string> {
    if Succeeds(a) then None else Some(a.failure.value.message)
  }

  /** The reason kept for a day whose last pass raised: the labelled text, cut to its first characters. */
  function ErrorText(message: string): string {
    var text := "duckdb_error: " + message;
    if |text| <= ERROR_CHARS then text else text[..ERROR_CHARS]
  }

  /** r is a with the entries of b outside todo counted in. */
  ghost predicate CounterMerged<K(!new)>(a: map<K, nat>, b: map<K, nat>, todo: set<K>, r: map<K, nat>) {
    forall k: K :: (k in r <==> k in a || (k in b && k !in todo))
                   && CountIn(r, k) == if k in b && k !in todo then CountIn(a, k) + b[k] else CountIn(a, k)
  }

  lemma {:induction false} CounterStep<K(!new)>(a: map<K, nat>, b: map<K, nat>, todo: set<K>, r: map<K, nat>, k: K)
    requires k in todo && k in b && CounterMerged(a, b, todo, r)
    ensures CounterMerged(a, b, todo - {k}, r[k := CountIn(r, k) + b[k]])
  {}

  lemma {:induction false} CounterDone<K(!new)>(a: map<K, nat>, b: map<K, nat>, r: map<K, nat>)
    requires CounterMerged(a, b, {}, r)
    ensures r == PlusCounter(a, b)
  {}

  method UpdateCounter<K(==,!new)>(a: map<K, nat>, b: map<K, nat>) returns (r: map<K, nat>)
    ensures r == PlusCounter(a, b)
  {
    r := a;
    var todo := b.Keys;
    while todo != {}
      invariant todo <= b.Keys && CounterMerged(a, b, todo, r)
      decreases |todo|
    {
      var k :| k in todo;
      CounterStep(a, b, todo, r, k);
      r := r[k := CountIn(r, k) + b[k]];
      todo := todo - {k};
    }
    CounterDone(a, b, r);
  }

  /** r is a with the entries of b outside todo added to its tables. */
  ghost predicate TablesMerged<K(!new)>(a: map<K, Counter>, b: map<K, Counter>, todo: set<K>, r: map<K, Counter>) {
    forall k: K :: (k in r <==> k in a || (k in b && k !in todo))
                   && TableOf(r, k) == if k in b && k !in todo then PlusCounter(TableOf(a, k), b[k]) else TableOf(a, k)
  }

  lemma {:induction false} TablesStep<K(!new)>(
      a: map<K, Counter>, b: map<K, Counter>, todo: set<K>, r: map<K, Counter>, k: K)
    requires k in todo && k in b && TablesMerged(a, b, todo, r)
    ensures TablesMerged(a, b, todo - {k}, r[k := PlusCounter(TableOf(r, k), b[k])])
  {}

  lemma {:induction false} TablesDone<K(!new)>(a: map<K, Counter>, b: map<K, Counter>, r: map<K, Counter>)
    requires TablesMerged(a, b, {}, r)
    ensures r == PlusTables(a, b)
  {}

  method MergeTables<K(==,!new)>(a: map<K, Counter>, b: map<K, Counter>) returns (r: map<K, Counter>)
    ensures r == PlusTables(a, b)
  {
    r := a;
    var todo := b.Keys;
    while todo != {}
      invariant todo <= b.Keys && TablesMerged(a, b, todo, r)
      decreases |todo|
    {
      var k :| k in todo;
      TablesStep(a, b, todo, r, k);
      var table := UpdateCounter(TableOf(r, k), b[k]);
      r := r[k := table];
      todo := todo - {k};
    }
    TablesDone(a, b, r);
  }

  /** r is a with the entries of b outside todo appended to its blocks. */
  ghost predicate BlocksMerged<K(!new)>(
      a: map<K, seq<seq<real>>>, b: map<K, seq<seq<real>>>, todo: set<K>, r: map<K, seq<seq<real>>>) {
    forall k: K :: (k in r <==> k in a || (k in b && k !in todo))
                   && BlocksOf(r, k) == if k in b && k !in todo then BlocksOf(a, k) + b[k] else BlocksOf(a, k)
  }

  lemma {:induction false} BlocksStep<K(!new)>(
      a: map<K, seq<seq<real>>>, b: map<K, seq<seq<real>>>, todo: set<K>, r: map<K, seq<seq<real>>>, k: K)
    requires k in todo && k in b && BlocksMerged(a, b, todo, r)
    ensures BlocksMerged(a, b, todo - {k}, r[k := BlocksOf(r, k) + b[k]])
  {}

  lemma {:induction false} BlocksDone<K(!new)>(
      a: map<K, seq<seq<real>>>, b: map<K, seq<seq<real>>>, r: map<K, seq<seq<real>>>)
    requires BlocksMerged(a, b, {}, r)
    ensures r == PlusBlocks(a, b)
  {}

  method MergeBlocks<K(==,!new)>(a: map<K, seq<seq<real>>>, b: map<K, seq<seq<real>>>)
    returns (r: map<K, seq<seq<real>>>)
    ensures r == PlusBlocks(a, b)
  {
    r := a;
    var todo := b.Keys;
    while todo != {}
      invariant todo <= b.Keys && BlocksMerged(a, b, todo, r)
      decreases |todo|
    {
      var k :| k in todo;
      BlocksStep(a, b, todo, r, k);
      r := r[k := BlocksOf(r, k) + b[k]];
      todo := todo - {k};
    }
    BlocksDone(a, b, r);
  }

  method CountRows(rows: seq<Row>) returns (t: Tables)
    ensures t == Tabulate(rows)
  {
    t := map[];
    for i := 0 to |rows|
      invariant t == Tabulate(rows[..i])
    {
      assert rows[..i + 1][..i] == rows[..i];
      t := AddRow(t, rows[i]);
    }
    assert rows[..|rows|] == rows;
  }

  method CountHours(rows: seq<(int, nat)>) returns (t: Hours)
    ensures t == TabulateHours(rows)
  {
    t := map[];
    for i := 0 to |rows|
      invariant t == TabulateHours(rows[..i])
    {
      assert rows[..i + 1][..i] == rows[..i];
      t := AddCount(t, rows[i].0, rows[i].1);
    }
    assert rows[..|rows|] == rows;
  }

  class Accumulator {
    var spread: Tables
    var price: Tables
    var bucketZ: BucketZ
    var hours: Hours
    var symbols: set<Symbol>
    var days: seq<Day>
    var skipped: seq<Skip>
    var coverage: seq<Coverage>
    var counts: Counts

    function State(): Totals
      reads this
    {
      Totals(spread, price, bucketZ, hours, symbols, days, skipped, coverage, counts)
    }

    constructor ()
      ensures State() == Empty()
    {
      spread, price, bucketZ := map[], map[], map[];
      hours, symbols := map[], {};
      days, skipped, coverage := [], [], [];
      counts := NO_COUNTS;
    }

    /** Folds a completed session's accumulator into the run's. */
    method Merge(other: Accumulator)
      requires other != this
      modifies this
      ensures State() == Plus(old(State()), old(other.State()))
    {
      var s := MergeTables(spread, other.spread);
      var p := MergeTables(price, other.price);
      var z := MergeBlocks(bucketZ, other.bucketZ);
      var h := UpdateCounter(hours, other.hours);
      spread, price, bucketZ, hours := s, p, z, h;
      symbols := symbols + other.symbols;
      days := days + other.days;
      skipped := skipped + other.skipped;
      coverage := coverage + other.coverage;
      counts := counts.Plus(other.counts);
    }

    method Skip(day: Day, reason: Reason)
      modifies this
      ensures State() == Plus(old(State()), SkipTotals(day, reason))
    {
      SkipAdds(State(), day, reason);
      skipped := skipped + [CalibrationTotals.Skip(day, reason)];
    }

    /**
     One pass over a session, writing as it goes; a query that raises leaves the fields as they were at
     that point, so a failed pass promises nothing about them.
     */
    method ProcessDay(day: Day, scope: Scope, a: Attempt) returns (error: Option<string>)
      requires State() == Empty()
      modifies this
      ensures error == ErrorOf(a)
      ensures error == None ==> State() == DayTotals(day, scope, a.facts)
    {
      if Raises(a, LOAD) {
        return Some(a.failure.value.message);
      }
      if a.facts.ticks == 0 {
        skipped := skipped + [CalibrationTotals.Skip(day, NoSessionTicks)];
        return None;
      }
      var ok := ReadTables(day, scope, a);
      if ok {
        ok := ReadSamples(a);
      }
      return if ok then None else Some(a.failure.value.message);
    }

    /** The tick counts, the coverage row, the hours and the grouped tables. */
    method ReadTables(day: Day, scope: Scope, a: Attempt) returns (ok: bool)
      requires State() == Empty()
      modifies this
      ensures ok <==> a.failure.None? || !(L1 <= a.failure.value.query <= PRICE)
      ensures ok ==> State() == TablesRead(day, scope, a.facts)
    {
      var f := a.facts;
      if Raises(a, L1) {
        return false;
      }
      counts := counts.(sessionTicks := counts.sessionTicks + f.ticks, l1Ticks := counts.l1Ticks + f.l1Ticks);
      days := days + [day];
      coverage := coverage + [CoverageOf(day, scope, f)];
      if Raises(a, SYMBOLS) {
        return false;
      }
      symbols := symbols + f.symbols;
      if Raises(a, HOURS) {
        return false;
      }
      hours := CountHours(f.hours);
      ok := ReadRows(a);
    }

    /** The half-spread and price tables. */
    method ReadRows(a: Attempt) returns (ok: bool)
      modifies this`spread, this`price
      ensures ok <==> a.failure.None? || !(SPREAD <= a.failure.value.query <= PRICE)
      ensures ok ==> spread == Tabulate(a.facts.spread) && price == Tabulate(a.facts.price)
    {
      if Raises(a, SPREAD) {
        return false;
      }
      spread := CountRows(a.facts.spread);
      if Raises(a, PRICE) {
        return false;
      }
      price := CountRows(a.facts.price);
      return true;
    }

    /** The sampled ticks, their two drop counts and the buckets' blocks of z. */
    method ReadSamples(a: Attempt) returns (ok: bool)
      modifies this`counts, this`bucketZ
      ensures ok <==> a.failure.None? || !(SAMPLES <= a.failure.value.query <= CLOSE_BLOCK)
      ensures ok ==> bucketZ == AddBlocks(old(bucketZ), a.facts.samples)
      ensures ok ==> counts == old(counts).Plus(SampleCounts(a.facts.samples))
    {
      var samples := a.facts.samples;
      if Raises(a, SAMPLES) || Raises(a, DROPS) {
        return false;
      }
      counts := counts.Plus(SampleCounts(samples));
      if Raises(a, OPEN_BLOCK) {
        return false;
      }
      bucketZ := AddBlock(bucketZ, Open, Block(samples, Open));
      if Raises(a, MID_BLOCK) {
        return false;
      }
      bucketZ := AddBlock(bucketZ, Mid, Block(samples, Mid));
      if Raises(a, CLOSE_BLOCK) {
        return false;
      }
      bucketZ := AddBlock(bucketZ, Close, Block(samples, Close));
      return true;
    }
  }

  // ---------------------------------------------------------------- the run over all candidate days

  /** The archive as the run meets it; one pass over a day may end differently from the pass before. */
  datatype Archive = Archive(scope: Day -> Scope, attempt: (Day, nat) -> Attempt)

  /** `compacted_only` passes over a session still held as loose fragments. */
  predicate PassedOver(ar: Archive, compactedOnly: bool, day: Day) {
    compactedOnly && !ar.scope(day).compacted
  }

  /** The first of the remaining attempts that succeeds. */
  function FirstSuccess(ar: Archive, day: Day, attempt: nat): (k: Option<nat>)
    requires 1 <= attempt <= DAY_RETRIES + 1
    ensures k.Some? ==> attempt <= k.value <= DAY_RETRIES && Succeeds(ar.attempt(day, k.value))
    ensures forall i | attempt <= i <= DAY_RETRIES && (k.Some? ==> i < k.value) :: !Succeeds(ar.attempt(day, i))
    decreases DAY_RETRIES - attempt
  {
    if attempt > DAY_RETRIES then None
    else if Succeeds(ar.attempt(day, attempt)) then Some(attempt)
    else FirstSuccess(ar, day, attempt + 1)
  }

  /** How one candidate day ends. */
  datatype Ending = Read(facts: Facts) | Skipped(reason: Reason)

  /** The text kept of the last pass's exception. */
  function LastError(ar: Archive, day: Day): string
    requires !Succeeds(ar.attempt(day, DAY_RETRIES))
  {
    ErrorText(ErrorOf(ar.attempt(day, DAY_RETRIES)).value)
  }

  function EndingOf(ar: Archive, compactedOnly: bool, day: Day): Ending {
    if PassedOver(ar, compactedOnly, day) then Skipped(NotCompacted)
    else
      match FirstSuccess(ar, day, 1)
      case None => Skipped(DuckdbError(LastError(ar, day)))
      case Some(k) =>
        var f := ar.attempt(day, k).facts;
        if f.ticks == 0 then Skipped(NoSessionTicks) else Read(f)
  }

  function Contribution(ar: Archive, compactedOnly: bool, day: Day): Totals {
    match EndingOf(ar, compactedOnly, day)
    case Skipped(reason) => SkipTotals(day, reason)
    case Read(f) => DayTotals(day, ar.scope(day), f)
  }

  function RunTotals(ar: Archive, compactedOnly: bool, days: seq<Day>): Totals {
    if days == [] then Empty()
    else
      Plus(RunTotals(ar, compactedOnly, days[..|days| - 1]), Contribution(ar, compactedOnly, days[|days| - 1]))
  }

  /** The retry loop for one day: scratch accumulators, merged only when the pass went through. */
  method RetryDay(ar: Archive, compactedOnly: bool, day: Day, acc: Accumulator)
    requires !PassedOver(ar, compactedOnly, day)
    modifies acc
    ensures acc.State() == Plus(old(acc.State()), Contribution(ar, compactedOnly, day))
  {
    var attempt := 1;
    while attempt <= DAY_RETRIES
      invariant 1 <= attempt <= DAY_RETRIES + 1
      invariant FirstSuccess(ar, day, 1) == FirstSuccess(ar, day, attempt)
      invariant attempt <= DAY_RETRIES ==> acc.State() == old(acc.State())
      invariant attempt > DAY_RETRIES ==> acc.State() == Plus(old(acc.State()), Contribution(ar, compactedOnly, day))
    {
      var scratch := new Accumulator();
      var error := scratch.ProcessDay(day, ar.scope(day), ar.attempt(day, attempt));
      if error == None {
        acc.Merge(scratch);
        return;
      }
      if attempt == DAY_RETRIES {
        acc.Skip(day, DuckdbError(ErrorText(error.value)));
      }
      attempt := attempt + 1;
    }
  }

  method Calibrate(ar: Archive, compactedOnly: bool, days: seq<Day>) returns (acc: Accumulator)
    ensures fresh(acc) && acc.State() == RunTotals(ar, compactedOnly, days)
  {
    acc := new Accumulator();
    for i := 0 to |days|
      invariant acc.State() == RunTotals(ar, compactedOnly, days[..i])
    {
      assert days[..i + 1][..i] == days[..i];
      if PassedOver(ar, compactedOnly, days[i]) {
        acc.Skip(days[i], NotCompacted);
      } else {
        RetryDay(ar, compactedOnly, days[i], acc);
      }
    }
    assert days[..|days|] == days;
  }
}
