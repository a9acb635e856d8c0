/** What the calibration of scripts/calibrate_fill_model.py accumulates, as values that add up. */
module CalibrationTotals {
  import opened Common
  import opened WeightedMedian

  type Day = int
  type Symbol = string

  datatype Reason = NotCompacted | NoSessionTicks | DuckdbError(text: string)

  datatype Skip = Skip(day: Day, reason: Reason)

  datatype Coverage = Coverage(day: Day, available: nat, used: nat, compacted: bool, ticks: nat, l1Ticks: nat)

  datatype Bucket = Open | Mid | Close

  type Tables = map<Symbol, Counter>

  type Hours = map<int, nat>

  type BucketZ = map<Bucket, seq<seq<real>>>

  /** The fields of `_Accumulator`. */
  datatype Totals = Totals(
    spread: Tables,
    price: Tables,
    bucketZ: BucketZ,
    hours: Hours,
    symbols: set<Symbol>,
    days: seq<Day>,
    skipped: seq<Skip>,
    coverage: seq<Coverage>,
    counts: Counts)

  datatype Counts = Counts(sessionTicks: nat, l1Ticks: nat, sampled: nat, noFill: nat, noSigma: nat) {
    function Plus(c: Counts): Counts {
      Counts(sessionTicks + c.sessionTicks, l1Ticks + c.l1Ticks, sampled + c.sampled,
             noFill + c.noFill, noSigma + c.noSigma)
    }
  }

  const NO_COUNTS := Counts(0, 0, 0, 0, 0)

  function Empty(): Totals {
    Totals(map[], map[], map[], map[], {}, [], [], [], NO_COUNTS)
  }

  function TableOf<K>(t: map<K, Counter>, k: K): Counter {
    if k in t then t[k] else map[]
  }

  function BlocksOf<K>(t: map<K, seq<seq<real>>>, k: K): seq<seq<real>> {
    if k in t then t[k] else []
  }

  /** How often a symbol's table counts a value. */
  function SymbolCount(t: Tables, symbol: Symbol, value: real): nat {
    CountIn(TableOf(t, symbol), value)
  }

  function PlusCounter<K(==)>(a: map<K, nat>, b: map<K, nat>): map<K, nat> {
    map k | k in a.Keys + b.Keys :: CountIn(a, k) + CountIn(b, k)
  }

  function PlusTables<K(==)>(a: map<K, Counter>, b: map<K, Counter>): map<K, Counter> {
    map k | k in a.Keys + b.Keys :: if k in b then PlusCounter(TableOf(a, k), b[k]) else a[k]
  }

  function PlusBlocks<K(==)>(a: map<K, seq<seq<real>>>, b: map<K, seq<seq<real>>>): map<K, seq<seq<real>>> {
    map k | k in a.Keys + b.Keys :: if k in b then BlocksOf(a, k) + b[k] else a[k]
  }

  function Plus(a: Totals, b: Totals): Totals {
    Totals(PlusTables(a.spread, b.spread), PlusTables(a.price, b.price), PlusBlocks(a.bucketZ, b.bucketZ),
           PlusCounter(a.hours, b.hours), a.symbols + b.symbols, a.days + b.days, a.skipped + b.skipped,
           a.coverage + b.coverage, a.counts.Plus(b.counts))
  }

  lemma {:induction false} PlusTablesCounts(a: Tables, b: Tables, symbol: Symbol, value: real)
    ensures SymbolCount(PlusTables(a, b), symbol, value) ==
            SymbolCount(a, symbol, value) + SymbolCount(b, symbol, value)
  {}

  lemma {:induction false} PlusCounterCounts<K>(a: map<K, nat>, b: map<K, nat>, k: K)
    ensures CountIn(PlusCounter(a, b), k) == CountIn(a, k) + CountIn(b, k)
  {}

  lemma {:induction false} PlusBlocksAt(a: BucketZ, b: BucketZ, bucket: Bucket)
    ensures BlocksOf(PlusBlocks(a, b), bucket) == BlocksOf(a, bucket) + BlocksOf(b, bucket)
  {}

  // ---------------------------------------------------------------- one session's query results

  /** One `(symbol, value, count)` row of a grouped query. */
  datatype Row = Row(symbol: Symbol, value: real, count: nat)

  /** One sampled decision tick: whether a fill was found, the minute sigma, and z where both allow it. */
  datatype Sample = Sample(bucket: Bucket, filled: bool, sigma: Option<real>, z: real)

  /** What a session's queries return, one field per query. */
  datatype Facts = Facts(
    ticks: nat,
    l1Ticks: nat,
    symbols: set<Symbol>,
    hours: seq<(int, nat)>,
    spread: seq<Row>,
    price: seq<Row>,
    samples: seq<Sample>)

  predicate HasSigma(s: Sample) {
    s.sigma.Some? && s.sigma.value > 0.0
  }

  /** The day's z column is null exactly where no fill was found or the sigma is not positive. */
  predicate HasZ(s: Sample) {
    s.filled && HasSigma(s)
  }

  function CountNoFill(samples: seq<Sample>): nat {
    if samples == [] then 0
    else CountNoFill(samples[1..]) + if samples[0].filled then 0 else 1
  }

  function CountNoSigma(samples: seq<Sample>): nat {
    if samples == [] then 0
    else CountNoSigma(samples[1..]) + if samples[0].filled && !HasSigma(samples[0]) then 1 else 0
  }

  /** The non-null z of one bucket, in row order. */
  function Block(samples: seq<Sample>, bucket: Bucket): seq<real> {
    if samples == [] then []
    else (if HasZ(samples[0]) && samples[0].bucket == bucket then [samples[0].z] else []) + Block(samples[1..], bucket)
  }

  /** Every sampled tick is counted once: without a fill, without a sigma, or in one bucket's block. */
  lemma {:induction false} SamplesSplit(samples: seq<Sample>)
    ensures |samples| == CountNoFill(samples) + CountNoSigma(samples)
                         + |Block(samples, Open)| + |Block(samples, Mid)| + |Block(samples, Close)|
  {
    if samples != [] {
      SamplesSplit(samples[1..]);
    }
  }

  function AddCount<K(==)>(c: map<K, nat>, k: K, n: nat): map<K, nat> {
    c[k := CountIn(c, k) + n]
  }

  function AddRow(t: Tables, r: Row): Tables {
    t[r.symbol := AddCount(TableOf(t, r.symbol), r.value, r.count)]
  }

  function Tabulate(rows: seq<Row>): Tables {
    if rows == [] then map[] else AddRow(Tabulate(rows[..|rows| - 1]), rows[|rows| - 1])
  }

  function RowCount(rows: seq<Row>, symbol: Symbol, value: real): nat {
    if rows == [] then 0
    else
      var r := rows[|rows| - 1];
      RowCount(rows[..|rows| - 1], symbol, value) + if r.symbol == symbol && r.value == value then r.count else 0
  }

  /** A session's table counts what its rows count. */
  lemma {:induction false} TabulateCounts(rows: seq<Row>, symbol: Symbol, value: real)
    ensures SymbolCount(Tabulate(rows), symbol, value) == RowCount(rows, symbol, value)
  {
    if rows != [] {
      TabulateCounts(rows[..|rows| - 1], symbol, value);
    }
  }

  function TabulateHours(rows: seq<(int, nat)>): Hours {
    if rows == [] then map[]
    else AddCount(TabulateHours(rows[..|rows| - 1]), rows[|rows| - 1].0, rows[|rows| - 1].1)
  }

  function HourCount(rows: seq<(int, nat)>, hour: int): nat {
    if rows == [] then 0
    else HourCount(rows[..|rows| - 1], hour) + if rows[|rows| - 1].0 == hour then rows[|rows| - 1].1 else 0
  }

  /** A session's hour table counts what its rows count. */
  lemma {:induction false} TabulateHoursCounts(rows: seq<(int, nat)>, hour: int)
    ensures CountIn(TabulateHours(rows), hour) == HourCount(rows, hour)
  {
    if rows != [] {
      TabulateHoursCounts(rows[..|rows| - 1], hour);
    }
  }

  function CoverageOf(day: Day, scope: Scope, f: Facts): Coverage {
    Coverage(day, scope.available, scope.used, scope.compacted, f.ticks, f.l1Ticks)
  }

  function AddBlock(t: BucketZ, bucket: Bucket, block: seq<real>): BucketZ {
    if block == [] then t else t[bucket := BlocksOf(t, bucket) + [block]]
  }

  function AddBlocks(t: BucketZ, samples: seq<Sample>): BucketZ {
    var t1 := AddBlock(t, Open, Block(samples, Open));
    AddBlock(AddBlock(t1, Mid, Block(samples, Mid)), Close, Block(samples, Close))
  }

  function Flatten(blocks: seq<seq<real>>): seq<real> {
    if blocks == [] then [] else Flatten(blocks[..|blocks| - 1]) + blocks[|blocks| - 1]
  }

  lemma {:induction false} FlattenPlus(a: seq<seq<real>>, b: seq<seq<real>>)
    ensures Flatten(a + b) == Flatten(a) + Flatten(b)
  {
    if b == [] {
      assert a + b == a;
    } else {
      var front := b[..|b| - 1];
      assert (a + b)[..|a + b| - 1] == a + front;
      FlattenPlus(a, front);
    }
  }

  /** The blocks a session adds for a bucket hold exactly that bucket's z. */
  lemma {:induction false} BlocksFlatten(samples: seq<Sample>, bucket: Bucket)
    ensures Flatten(BlocksOf(AddBlocks(map[], samples), bucket)) == Block(samples, bucket)
  {
    var z := Block(samples, bucket);
    assert BlocksOf(AddBlocks(map[], samples), bucket) == if z == [] then [] else [z];
    assert [z][..0] == [];
  }

  // ---------------------------------------------------------------- one session's totals

  /** What the coverage row needs beside the query results. */
  datatype Scope = Scope(available: nat, used: nat, compacted: bool)

  function SkipTotals(day: Day, reason: Reason): Totals {
    Empty().(skipped := [Skip(day, reason)])
  }

  /** What a session contributes before its samples are read. */
  function TablesRead(day: Day, scope: Scope, f: Facts): Totals {
    Totals(Tabulate(f.spread), Tabulate(f.price), map[], TabulateHours(f.hours), f.symbols, [day], [],
           [CoverageOf(day, scope, f)],
           Counts(f.ticks, f.l1Ticks, 0, 0, 0))
  }

  function CountsOf(f: Facts): Counts {
    Counts(f.ticks, f.l1Ticks, |f.samples|, CountNoFill(f.samples), CountNoSigma(f.samples))
  }

  function SampleCounts(samples: seq<Sample>): Counts {
    Counts(0, 0, |samples|, CountNoFill(samples), CountNoSigma(samples))
  }

  /** What a session that was read to the end contributes. */
  function DayTotals(day: Day, scope: Scope, f: Facts): Totals {
    if f.ticks == 0 then SkipTotals(day, NoSessionTicks)
    else
      var t := TablesRead(day, scope, f);
      t.(bucketZ := AddBlocks(map[], f.samples), counts := CountsOf(f))
  }

  lemma {:induction false} NothingAdded<K>(c: map<K, nat>, t: map<K, Counter>, z: map<K, seq<seq<real>>>)
    ensures PlusCounter(c, map[]) == c && PlusTables(t, map[]) == t && PlusBlocks(z, map[]) == z
  {}

  /** A skipped day adds its skip row and nothing else. */
  lemma {:induction false} SkipAdds(t: Totals, day: Day, reason: Reason)
    ensures Plus(t, SkipTotals(day, reason)) == t.(skipped := t.skipped + [Skip(day, reason)])
  {
    NothingAdded(t.hours, map[], map[]);
    NothingAdded(map[], t.spread, map[]);
    NothingAdded(map[], t.price, map[]);
    NothingAdded(map[], map[], t.bucketZ);
  }
}
