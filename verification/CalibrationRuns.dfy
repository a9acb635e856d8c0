/** What a whole calibration run of scripts/calibrate_fill_model.py keeps, whichever passes failed on the way. */
module CalibrationRuns {
  import opened Arithmetic
  import opened Calibration
  import opened CalibrationTotals
  import opened Common
  import opened Sorting
  import opened StrideSampling
  import opened WeightedMedian

  // ---------------------------------------------------------------- every day ends once

  /** How often a day occurs among some days. */
  function Times(days: seq<Day>, day: Day): nat {
    if days == [] then 0 else Times(days[..|days| - 1], day) + if days[|days| - 1] == day then 1 else 0
  }

  function TimesSkipped(skips: seq<Skip>, day: Day): nat {
    if skips == [] then 0 else TimesSkipped(skips[..|skips| - 1], day) + if skips[|skips| - 1].day == day then 1 else 0
  }

  /** The days whose first successful pass saw ticks. */
  function DaysRead(ar: Archive, only: bool, days: seq<Day>): seq<Day> {
    if days == [] then []
    else
      var day := days[|days| - 1];
      DaysRead(ar, only, days[..|days| - 1]) + if EndingOf(ar, only, day).Read? then [day] else []
  }

  function Skips(ar: Archive, only: bool, days: seq<Day>): seq<Skip> {
    if days == [] then []
    else
      var day := days[|days| - 1];
      Skips(ar, only, days[..|days| - 1])
      + match EndingOf(ar, only, day) case Skipped(reason) => [Skip(day, reason)] case Read(_) => []
  }

  function CountsOn(ar: Archive, only: bool, day: Day): Counts {
    match EndingOf(ar, only, day) case Skipped(_) => NO_COUNTS case Read(f) => CountsOf(f)
  }

  function CountsRead(ar: Archive, only: bool, days: seq<Day>): Counts {
    if days == [] then NO_COUNTS
    else CountsRead(ar, only, days[..|days| - 1]).Plus(CountsOn(ar, only, days[|days| - 1]))
  }

  lemma {:induction false} ContributionOf(ar: Archive, only: bool, day: Day)
    ensures var c := Contribution(ar, only, day);
            && c.days == (if EndingOf(ar, only, day).Read? then [day] else [])
            && c.skipped == (match EndingOf(ar, only, day)
                             case Skipped(reason) => [Skip(day, reason)]
                             case Read(_) => [])
            && c.counts == CountsOn(ar, only, day)
  {}

  lemma {:induction false} TotalsRead(ar: Archive, only: bool, days: seq<Day>)
    ensures RunTotals(ar, only, days).days == DaysRead(ar, only, days)
    ensures RunTotals(ar, only, days).skipped == Skips(ar, only, days)
    ensures RunTotals(ar, only, days).counts == CountsRead(ar, only, days)
  {
    if days != [] {
      TotalsRead(ar, only, days[..|days| - 1]);
      ContributionOf(ar, only, days[|days| - 1]);
    }
  }

  lemma {:induction false} DaysAreAccounted(ar: Archive, only: bool, days: seq<Day>, day: Day)
    ensures Times(DaysRead(ar, only, days), day) + TimesSkipped(Skips(ar, only, days), day) == Times(days, day)
  {
    if days != [] {
      var front, last := days[..|days| - 1], days[|days| - 1];
      var read, skips := DaysRead(ar, only, front), Skips(ar, only, front);
      DaysAreAccounted(ar, only, front, day);
      match EndingOf(ar, only, last)
      case Skipped(reason) =>
        assert read + [] == read && (skips + [Skip(last, reason)])[..|skips|] == skips;
      case Read(_) =>
        assert skips + [] == skips && (read + [last])[..|read|] == read;
    }
  }

  /** Every candidate day ends exactly as often as it is a candidate: once, either read or skipped. */
  lemma {:induction false} EachDayEndsOnce(ar: Archive, only: bool, days: seq<Day>, day: Day)
    ensures var t := RunTotals(ar, only, days);
            Times(t.days, day) + TimesSkipped(t.skipped, day) == Times(days, day)
  {
    TotalsRead(ar, only, days);
    DaysAreAccounted(ar, only, days, day);
  }

  lemma {:induction false} ReadOrSkipped(ar: Archive, only: bool, days: seq<Day>, day: Day, reason: Reason)
    ensures day in DaysRead(ar, only, days) <==> day in days && EndingOf(ar, only, day).Read?
    ensures Skip(day, reason) in Skips(ar, only, days) <==> day in days && EndingOf(ar, only, day) == Skipped(reason)
  {
    if days != [] {
      ReadOrSkipped(ar, only, days[..|days| - 1], day, reason);
      assert days == days[..|days| - 1] + [days[|days| - 1]];
    }
  }

  /** A day is read exactly when its first successful pass saw ticks; each skip names its reason. */
  lemma {:induction false} HowADayEnds(ar: Archive, only: bool, days: seq<Day>, day: Day, reason: Reason)
    ensures day in RunTotals(ar, only, days).days <==> day in days && EndingOf(ar, only, day).Read?
    ensures Skip(day, reason) in RunTotals(ar, only, days).skipped <==>
            day in days && EndingOf(ar, only, day) == Skipped(reason)
  {
    TotalsRead(ar, only, days);
    ReadOrSkipped(ar, only, days, day, reason);
  }

  // ---------------------------------------------------------------- failed passes leave no trace

  /** The k-th pass over a day is the first that goes through. */
  predicate FirstThrough(ar: Archive, day: Day, k: nat) {
    1 <= k <= DAY_RETRIES && Succeeds(ar.attempt(day, k)) && forall i | 1 <= i < k :: !Succeeds(ar.attempt(day, i))
  }

  /** The first passes to go through, the i-th of a and the j-th of b, see the same tape. */
  predicate SameTape(a: Archive, b: Archive, day: Day, i: nat, j: nat) {
    FirstThrough(a, day, i) && FirstThrough(b, day, j) && a.attempt(day, i).facts == b.attempt(day, j).facts
  }

  predicate NoneThrough(ar: Archive, day: Day) {
    forall i | 1 <= i <= DAY_RETRIES :: !Succeeds(ar.attempt(day, i))
  }

  /**
   Two archives on which each candidate day's first pass to go through sees the same tape or, where none
   goes through, the last one's error reads the same. Nothing is said of the other passes: how many fail,
   what they had read, at which query they stop, or with what error.
   */
  ghost predicate SamePasses(a: Archive, b: Archive, days: seq<Day>) {
    forall day | day in days ::
      && a.scope(day) == b.scope(day)
      && ((NoneThrough(a, day) && NoneThrough(b, day) && LastError(a, day) == LastError(b, day))
          || exists i, j :: SameTape(a, b, day, i, j))
  }

  lemma {:induction false} FirstSuccessIs(ar: Archive, day: Day, attempt: nat, k: nat)
    requires 1 <= attempt <= k <= DAY_RETRIES && FirstThrough(ar, day, k)
    ensures FirstSuccess(ar, day, attempt) == Some(k)
    decreases k - attempt
  {
    if attempt < k {
      FirstSuccessIs(ar, day, attempt + 1, k);
    }
  }

  lemma {:induction false} SameEnding(a: Archive, b: Archive, only: bool, days: seq<Day>, day: Day)
    requires SamePasses(a, b, days) && day in days
    ensures EndingOf(a, only, day) == EndingOf(b, only, day)
  {
    if i, j :| SameTape(a, b, day, i, j) {
      FirstSuccessIs(a, day, 1, i);
      FirstSuccessIs(b, day, 1, j);
    } else {
      assert FirstSuccess(a, day, 1) == None && FirstSuccess(b, day, 1) == None;
    }
  }

  lemma {:induction false} SameContribution(a: Archive, b: Archive, only: bool, days: seq<Day>, day: Day)
    requires SamePasses(a, b, days) && day in days
    ensures Contribution(a, only, day) == Contribution(b, only, day)
  {
    hide EndingOf;
    SameEnding(a, b, only, days, day);
  }

  lemma {:induction false} SameSoFar(a: Archive, b: Archive, only: bool, days: seq<Day>, n: nat)
    requires SamePasses(a, b, days) && n <= |days|
    ensures RunTotals(a, only, days[..n]) == RunTotals(b, only, days[..n])
  {
    hide SamePasses, Contribution, Plus;
    if n > 0 {
      assert days[..n][..n - 1] == days[..n - 1];
      SameSoFar(a, b, only, days, n - 1);
      SameContribution(a, b, only, days, days[n - 1]);
    }
  }

  /**
   Whatever the failed passes had read, and wherever they stopped, the run's totals are the same: all a
   failed pass can leave is the text of its error, and only the last of a day that is never read does.
   */
  lemma {:induction false} FailuresLeaveNoTrace(a: Archive, b: Archive, only: bool, days: seq<Day>)
    requires SamePasses(a, b, days)
    ensures RunTotals(a, only, days) == RunTotals(b, only, days)
  {
    SameSoFar(a, b, only, days, |days|);
    assert days[..|days|] == days;
  }

  // ---------------------------------------------------------------- totals are sums over the days

  function SumBy(days: seq<Day>, f: Day -> nat): nat {
    if days == [] then 0 else SumBy(days[..|days| - 1], f) + f(days[|days| - 1])
  }

  function SpreadOn(ar: Archive, only: bool, symbol: Symbol, value: real): Day -> nat {
    day => match EndingOf(ar, only, day) case Skipped(_) => 0 case Read(f) => RowCount(f.spread, symbol, value)
  }

  function PricesOn(ar: Archive, only: bool, symbol: Symbol, value: real): Day -> nat {
    day => match EndingOf(ar, only, day) case Skipped(_) => 0 case Read(f) => RowCount(f.price, symbol, value)
  }

  function HoursOn(ar: Archive, only: bool, hour: int): Day -> nat {
    day => match EndingOf(ar, only, day) case Skipped(_) => 0 case Read(f) => HourCount(f.hours, hour)
  }

  function TicksOn(ar: Archive, only: bool): Day -> nat {
    day => match EndingOf(ar, only, day) case Skipped(_) => 0 case Read(f) => f.ticks
  }

  function L1TicksOn(ar: Archive, only: bool): Day -> nat {
    day => match EndingOf(ar, only, day) case Skipped(_) => 0 case Read(f) => f.l1Ticks
  }

  function SamplesOn(ar: Archive, only: bool): Day -> nat {
    day => match EndingOf(ar, only, day) case Skipped(_) => 0 case Read(f) => |f.samples|
  }

  function NoFillOn(ar: Archive, only: bool): Day -> nat {
    day => match EndingOf(ar, only, day) case Skipped(_) => 0 case Read(f) => CountNoFill(f.samples)
  }

  function NoSigmaOn(ar: Archive, only: bool): Day -> nat {
    day => match EndingOf(ar, only, day) case Skipped(_) => 0 case Read(f) => CountNoSigma(f.samples)
  }

  lemma {:induction false} CountedOn(ar: Archive, only: bool, day: Day)
    ensures CountsOn(ar, only, day) ==
            Counts(TicksOn(ar, only)(day), L1TicksOn(ar, only)(day), SamplesOn(ar, only)(day),
                   NoFillOn(ar, only)(day), NoSigmaOn(ar, only)(day))
  {
    hide EndingOf;
  }

  lemma {:induction false} CountsAreSums(ar: Archive, only: bool, days: seq<Day>)
    ensures CountsRead(ar, only, days) ==
            Counts(SumBy(days, TicksOn(ar, only)), SumBy(days, L1TicksOn(ar, only)), SumBy(days, SamplesOn(ar, only)),
                   SumBy(days, NoFillOn(ar, only)), SumBy(days, NoSigmaOn(ar, only)))
  {
    hide CountsOn, TicksOn, L1TicksOn, SamplesOn, NoFillOn, NoSigmaOn;
    if days != [] {
      CountsAreSums(ar, only, days[..|days| - 1]);
      CountedOn(ar, only, days[|days| - 1]);
    }
  }

  /** All five tick and sample totals are the sums over days of what one successful pass counted. */
  lemma {:induction false} TicksAreSums(ar: Archive, only: bool, days: seq<Day>)
    ensures RunTotals(ar, only, days).counts ==
            Counts(SumBy(days, TicksOn(ar, only)), SumBy(days, L1TicksOn(ar, only)), SumBy(days, SamplesOn(ar, only)),
                   SumBy(days, NoFillOn(ar, only)), SumBy(days, NoSigmaOn(ar, only)))
  {
    TotalsRead(ar, only, days);
    CountsAreSums(ar, only, days);
  }

  lemma {:induction false} SpreadContributed(ar: Archive, only: bool, day: Day, symbol: Symbol, value: real)
    ensures SymbolCount(Contribution(ar, only, day).spread, symbol, value) == SpreadOn(ar, only, symbol, value)(day)
  {
    if EndingOf(ar, only, day).Read? {
      TabulateCounts(EndingOf(ar, only, day).facts.spread, symbol, value);
    }
  }

  /** A symbol's spread table counts a value as often as the days' successful passes did together. */
  lemma {:induction false} SpreadsAreSums(ar: Archive, only: bool, days: seq<Day>, symbol: Symbol, value: real)
    ensures SymbolCount(RunTotals(ar, only, days).spread, symbol, value) ==
            SumBy(days, SpreadOn(ar, only, symbol, value))
  {
    if days != [] {
      var front, day := days[..|days| - 1], days[|days| - 1];
      SpreadsAreSums(ar, only, front, symbol, value);
      PlusTablesCounts(RunTotals(ar, only, front).spread, Contribution(ar, only, day).spread, symbol, value);
      SpreadContributed(ar, only, day, symbol, value);
    }
  }

  lemma {:induction false} PricesContributed(ar: Archive, only: bool, day: Day, symbol: Symbol, value: real)
    ensures SymbolCount(Contribution(ar, only, day).price, symbol, value) == PricesOn(ar, only, symbol, value)(day)
  {
    if EndingOf(ar, only, day).Read? {
      TabulateCounts(EndingOf(ar, only, day).facts.price, symbol, value);
    }
  }

  /** A symbol's price table counts a value as often as the days' successful passes did together. */
  lemma {:induction false} PricesAreSums(ar: Archive, only: bool, days: seq<Day>, symbol: Symbol, value: real)
    ensures SymbolCount(RunTotals(ar, only, days).price, symbol, value) ==
            SumBy(days, PricesOn(ar, only, symbol, value))
  {
    if days != [] {
      var front, day := days[..|days| - 1], days[|days| - 1];
      PricesAreSums(ar, only, front, symbol, value);
      PlusTablesCounts(RunTotals(ar, only, front).price, Contribution(ar, only, day).price, symbol, value);
      PricesContributed(ar, only, day, symbol, value);
    }
  }

  lemma {:induction false} HoursContributed(ar: Archive, only: bool, day: Day, hour: int)
    ensures CountIn(Contribution(ar, only, day).hours, hour) == HoursOn(ar, only, hour)(day)
  {
    if EndingOf(ar, only, day).Read? {
      TabulateHoursCounts(EndingOf(ar, only, day).facts.hours, hour);
    }
  }

  /** The hour histogram counts an hour as often as the days' successful passes did together. */
  lemma {:induction false} HoursAreSums(ar: Archive, only: bool, days: seq<Day>, hour: int)
    ensures CountIn(RunTotals(ar, only, days).hours, hour) == SumBy(days, HoursOn(ar, only, hour))
  {
    if days != [] {
      var front, day := days[..|days| - 1], days[|days| - 1];
      HoursAreSums(ar, only, front, hour);
      PlusCounterCounts(RunTotals(ar, only, front).hours, Contribution(ar, only, day).hours, hour);
      HoursContributed(ar, only, day, hour);
    }
  }

  /** The day's first successful pass saw ticks of the symbol. */
  predicate Sees(ar: Archive, only: bool, symbol: Symbol, day: Day) {
    match EndingOf(ar, only, day) case Skipped(_) => false case Read(f) => symbol in f.symbols
  }

  lemma {:induction false} SymbolContributed(ar: Archive, only: bool, symbol: Symbol, day: Day)
    ensures symbol in Contribution(ar, only, day).symbols <==> Sees(ar, only, symbol, day)
  {}

  /** The run's symbols are those some day's successful pass saw. */
  lemma {:induction false} SymbolsAreSeen(ar: Archive, only: bool, days: seq<Day>, symbol: Symbol)
    ensures symbol in RunTotals(ar, only, days).symbols <==> (exists day | day in days :: Sees(ar, only, symbol, day))
  {
    hide Contribution, Sees, EndingOf, PlusTables, PlusBlocks, PlusCounter;
    if days != [] {
      var front, day := days[..|days| - 1], days[|days| - 1];
      SymbolsAreSeen(ar, only, front, symbol);
      SymbolContributed(ar, only, symbol, day);
      assert days == front + [day];
    }
  }

  function CoverageOn(ar: Archive, only: bool, day: Day): seq<Coverage> {
    match EndingOf(ar, only, day)
    case Skipped(_) => []
    case Read(f) =>
      var scope := ar.scope(day);
      [Coverage(day := day, available := scope.available, used := scope.used, compacted := scope.compacted,
                ticks := f.ticks, l1Ticks := f.l1Ticks)]
  }

  function CoverageRead(ar: Archive, only: bool, days: seq<Day>): seq<Coverage> {
    if days == [] then []
    else CoverageRead(ar, only, days[..|days| - 1]) + CoverageOn(ar, only, days[|days| - 1])
  }

  lemma {:induction false} CoverageContributed(ar: Archive, only: bool, day: Day)
    ensures Contribution(ar, only, day).coverage == CoverageOn(ar, only, day)
  {}

  /** One coverage row for each day read, in the candidates' order, with its successful pass's own counts. */
  lemma {:induction false} CoverageIsRead(ar: Archive, only: bool, days: seq<Day>)
    ensures RunTotals(ar, only, days).coverage == CoverageRead(ar, only, days)
  {
    hide Contribution, CoverageOn;
    if days != [] {
      CoverageIsRead(ar, only, days[..|days| - 1]);
      CoverageContributed(ar, only, days[|days| - 1]);
    }
  }

  lemma {:induction false} SumPlus(a: seq<Day>, b: seq<Day>, f: Day -> nat)
    ensures SumBy(a + b, f) == SumBy(a, f) + SumBy(b, f)
  {
    if b == [] {
      assert a + b == a;
    } else {
      assert (a + b)[..|a + b| - 1] == a + b[..|b| - 1];
      SumPlus(a, b[..|b| - 1], f);
    }
  }

  lemma {:induction false} TakenFrom(pre: seq<Day>, x: Day, post: seq<Day>)
    ensures multiset(pre + post) == multiset(pre + [x] + post) - multiset{x}
  {}

  lemma {:induction false} WithoutOne(a: seq<Day>, b: seq<Day>, i: nat)
    requires a != [] && i < |b| && b[i] == a[|a| - 1] && multiset(a) == multiset(b)
    ensures multiset(a[..|a| - 1]) == multiset(b[..i] + b[i + 1..])
  {
    var front := a[..|a| - 1];
    assert a == front + [b[i]] + [] && front + [] == front;
    assert b == b[..i] + [b[i]] + b[i + 1..];
    TakenFrom(front, b[i], []);
    TakenFrom(b[..i], b[i], b[i + 1..]);
  }

  lemma {:induction false} TakeOut(b: seq<Day>, i: nat, f: Day -> nat)
    requires i < |b|
    ensures SumBy(b, f) == SumBy(b[..i] + b[i + 1..], f) + f(b[i])
  {
    var pre, one, post := b[..i], [b[i]], b[i + 1..];
    assert b == pre + one + post;
    SumPlus(pre + one, post, f);
    SumPlus(pre, one, f);
    SumPlus(pre, post, f);
    assert one[..0] == [];
  }

  /** A sum over days does not depend on their order. */
  lemma {:induction false} SumPermutes(a: seq<Day>, b: seq<Day>, f: Day -> nat)
    requires multiset(a) == multiset(b)
    ensures SumBy(a, f) == SumBy(b, f)
  {
    assert |multiset(a)| == |multiset(b)|;
    if a != [] {
      assert a[|a| - 1] in multiset(b);
      var i :| 0 <= i < |b| && b[i] == a[|a| - 1];
      WithoutOne(a, b, i);
      TakeOut(b, i, f);
      SumPermutes(a[..|a| - 1], b[..i] + b[i + 1..], f);
    }
  }

  /** The published half-spread of a symbol is the same in whatever order the days are merged. */
  lemma {:induction false} SpreadOrderFree(
      ar: Archive, only: bool, a: seq<Day>, b: seq<Day>, symbol: Symbol, items: seq<Item>)
    requires multiset(a) == multiset(b)
    ensures SortedItemsOf(items, TableOf(RunTotals(ar, only, a).spread, symbol))
         == SortedItemsOf(items, TableOf(RunTotals(ar, only, b).spread, symbol))
  {
    var x, y := TableOf(RunTotals(ar, only, a).spread, symbol), TableOf(RunTotals(ar, only, b).spread, symbol);
    forall v ensures CountIn(x, v) == CountIn(y, v) {
      SpreadsAreSums(ar, only, a, symbol, v);
      SpreadsAreSums(ar, only, b, symbol, v);
      SumPermutes(a, b, SpreadOn(ar, only, symbol, v));
    }
  }

  /** s lists, in ascending order, a symbol's half-spreads over all days that were read. */
  ghost predicate ListsSpreads(ar: Archive, only: bool, days: seq<Day>, symbol: Symbol, s: seq<real>) {
    Sorted(s) && forall v :: multiset(s)[v] == SumBy(days, SpreadOn(ar, only, symbol, v))
  }

  /** The median taken over the merged table is the lower median of every read day's half-spreads together. */
  method PublishedSpread(ghost ar: Archive, ghost only: bool, ghost days: seq<Day>, ghost symbol: Symbol,
                         items: seq<Item>, ghost s: seq<real>)
    returns (m: Option<real>)
    requires SortedItemsOf(items, TableOf(RunTotals(ar, only, days).spread, symbol))
    requires ListsSpreads(ar, only, days, symbol, s)
    ensures s != [] ==> m == Some(s[(|s| - 1) / 2])
  {
    ghost var h := TableOf(RunTotals(ar, only, days).spread, symbol);
    forall v ensures multiset(s)[v] == CountIn(h, v) {
      SpreadsAreSums(ar, only, days, symbol, v);
    }
    m := ComputeMedian(items, h, s);
  }

  // ---------------------------------------------------------------- sampled ticks are conserved and bounded

  function ZOf(t: Totals, bucket: Bucket): seq<real> {
    Flatten(BlocksOf(t.bucketZ, bucket))
  }

  function ZOn(ar: Archive, only: bool, day: Day, bucket: Bucket): seq<real> {
    match EndingOf(ar, only, day) case Skipped(_) => [] case Read(f) => Block(f.samples, bucket)
  }

  lemma {:induction false} ZContributed(ar: Archive, only: bool, day: Day, bucket: Bucket)
    ensures ZOf(Contribution(ar, only, day), bucket) == ZOn(ar, only, day, bucket)
  {
    if EndingOf(ar, only, day).Read? {
      BlocksFlatten(EndingOf(ar, only, day).facts.samples, bucket);
    }
  }

  lemma {:induction false} ZPlus(t: Totals, c: Totals, bucket: Bucket)
    ensures ZOf(Plus(t, c), bucket) == ZOf(t, bucket) + ZOf(c, bucket)
  {
    PlusBlocksAt(t.bucketZ, c.bucketZ, bucket);
    FlattenPlus(BlocksOf(t.bucketZ, bucket), BlocksOf(c.bucketZ, bucket));
  }

  function ZRead(ar: Archive, only: bool, days: seq<Day>, bucket: Bucket): seq<real> {
    if days == [] then [] else ZRead(ar, only, days[..|days| - 1], bucket) + ZOn(ar, only, days[|days| - 1], bucket)
  }

  /** A bucket's z is the days' z of that bucket, one successful pass after another. */
  lemma {:induction false} ZIsRead(ar: Archive, only: bool, days: seq<Day>, bucket: Bucket)
    ensures ZOf(RunTotals(ar, only, days), bucket) == ZRead(ar, only, days, bucket)
  {
    if days != [] {
      var front, day := days[..|days| - 1], days[|days| - 1];
      ZIsRead(ar, only, front, bucket);
      ZPlus(RunTotals(ar, only, front), Contribution(ar, only, day), bucket);
      ZContributed(ar, only, day, bucket);
    }
  }

  lemma {:induction false} ReadSamplesSplit(ar: Archive, only: bool, days: seq<Day>)
    ensures var c := CountsRead(ar, only, days);
            c.sampled == c.noFill + c.noSigma + |ZRead(ar, only, days, Open)| + |ZRead(ar, only, days, Mid)|
                         + |ZRead(ar, only, days, Close)|
  {
    if days != [] {
      var day := days[|days| - 1];
      ReadSamplesSplit(ar, only, days[..|days| - 1]);
      if EndingOf(ar, only, day).Read? {
        SamplesSplit(EndingOf(ar, only, day).facts.samples);
      }
    }
  }

  /** Every sampled tick of the run is dropped for want of a fill or of a sigma, or is in one bucket's z. */
  lemma {:induction false} SamplesAreConserved(ar: Archive, only: bool, days: seq<Day>)
    ensures var t := RunTotals(ar, only, days);
            t.counts.sampled == t.counts.noFill + t.counts.noSigma + |ZOf(t, Open)| + |ZOf(t, Mid)| + |ZOf(t, Close)|
  {
    TotalsRead(ar, only, days);
    ZIsRead(ar, only, days, Open);
    ZIsRead(ar, only, days, Mid);
    ZIsRead(ar, only, days, Close);
    ReadSamplesSplit(ar, only, days);
  }

  /**
   A run whose day is read exactly when some symbol trades on it, each symbol with at least one tick,
   and whose samples of a day read are what the stride keeps of that day's ticks per symbol.
   */
  ghost predicate SplitInto(
      ar: Archive, only: bool, days: seq<Day>, budget: nat, symbols: Day -> nat, ticks: Day -> seq<nat>) {
    forall day | day in days ::
      && Present(ticks(day), symbols(day))
      && match EndingOf(ar, only, day)
         case Skipped(_) => symbols(day) == 0
         case Read(f) =>
           && symbols(day) > 0 && f.ticks == Sum(ticks(day))
           && |f.samples| == DaySamples(ticks(day), Stride(f.ticks, budget))
  }

  function MostOn(symbols: Day -> nat, budget: nat): Day -> nat
    requires budget >= 1
  {
    day => DayMost(symbols(day), budget)
  }

  lemma {:induction false} SampledByDay(
    ar: Archive, only: bool, days: seq<Day>, budget: nat, symbols: Day -> nat, ticks: Day -> seq<nat>)
    requires budget >= 1 && SplitInto(ar, only, days, budget, symbols, ticks)
    ensures CountsRead(ar, only, days).sampled <= SumBy(days, MostOn(symbols, budget))
  {
    if days != [] {
      var day := days[|days| - 1];
      SampledByDay(ar, only, days[..|days| - 1], budget, symbols, ticks);
      assert day in days;
      if EndingOf(ar, only, day).Read? {
        DayBudget(ticks(day), budget);
      }
    }
  }

  /** A run samples at most, for each day read, the per-day budget and one for every symbol but one. */
  lemma {:induction false} SampledIsBounded(
    ar: Archive, only: bool, days: seq<Day>, budget: nat, symbols: Day -> nat, ticks: Day -> seq<nat>)
    requires budget >= 1 && SplitInto(ar, only, days, budget, symbols, ticks)
    ensures RunTotals(ar, only, days).counts.sampled <= SumBy(days, MostOn(symbols, budget))
  {
    TotalsRead(ar, only, days);
    SampledByDay(ar, only, days, budget, symbols, ticks);
  }

  // ---------------------------------------------------------------- when --max-samples holds

  function NoFills(n: nat): (r: seq<Sample>)
    ensures |r| == n
  {
    if n == 0 then [] else NoFills(n - 1) + [Sample(Open, false, None, 0.0)]
  }

  function StridedFacts(ticks: seq<nat>, budget: nat): Facts {
    Facts(Sum(ticks), 0, {}, [], [], [], NoFills(DaySamples(ticks, Stride(Sum(ticks), budget))))
  }

  function WorstTicks(symbols: Day -> nat, budget: nat): Day -> seq<nat>
    requires budget >= 1
  {
    day => Worst(symbols(day), budget)
  }

  /** An archive whose first pass over each day goes through and sees the worst split. */
  function WorstArchive(symbols: Day -> nat, budget: nat): Archive
    requires budget >= 1
  {
    Archive(_ => Scope(0, 0, true), (day, _) => Attempt(StridedFacts(Worst(symbols(day), budget), budget), None))
  }

  lemma {:induction false} WorstEnding(only: bool, symbols: Day -> nat, budget: nat, day: Day)
    requires budget >= 1
    ensures EndingOf(WorstArchive(symbols, budget), only, day)
         == if symbols(day) == 0 then Skipped(NoSessionTicks)
            else Read(StridedFacts(Worst(symbols(day), budget), budget))
  {
    if symbols(day) > 0 {
      WorstSums(symbols(day), budget);
    }
  }

  lemma {:induction false} WorstSplits(only: bool, days: seq<Day>, symbols: Day -> nat, budget: nat)
    requires budget >= 1
    ensures SplitInto(WorstArchive(symbols, budget), only, days, budget, symbols, WorstTicks(symbols, budget))
  {
    forall day | day in days
      ensures Present(WorstTicks(symbols, budget)(day), symbols(day))
      ensures match EndingOf(WorstArchive(symbols, budget), only, day)
              case Skipped(_) => symbols(day) == 0
              case Read(f) =>
                && symbols(day) > 0 && f.ticks == Sum(WorstTicks(symbols, budget)(day))
                && |f.samples| == DaySamples(WorstTicks(symbols, budget)(day), Stride(f.ticks, budget))
    {
      WorstEnding(only, symbols, budget, day);
    }
  }

  lemma {:induction false} WorstCounts(only: bool, days: seq<Day>, symbols: Day -> nat, budget: nat)
    requires budget >= 1
    ensures CountsRead(WorstArchive(symbols, budget), only, days).sampled == SumBy(days, MostOn(symbols, budget))
  {
    if days != [] {
      var day := days[|days| - 1];
      WorstCounts(only, days[..|days| - 1], symbols, budget);
      WorstEnding(only, symbols, budget, day);
      WorstAttains(symbols(day), budget);
    }
  }

  /** `per_day_budget` of a run over n candidate days. */
  function PerDayBudget(maxSamples: nat, n: nat): (b: nat)
    requires n > 0
    ensures b >= 1
  {
    Max(1, maxSamples / n)
  }

  /** It is the most samples a day can have within the maximum over n days, and one where that is none. */
  lemma {:induction false} PerDayBudgetIsMost(maxSamples: nat, n: nat, c: nat)
    requires n > 0 && c >= 1
    ensures c <= PerDayBudget(maxSamples, n) <==> c == 1 || c * n <= maxSamples
  {
    var q := maxSamples / n;
    DivMod(maxSamples, n);
    if c <= q {
      MulOrder(c, q, n);
    } else {
      MulStep(q, c, n);
    }
  }

  ghost predicate KeepsUnder(only: bool, days: seq<Day>, maxSamples: nat, symbols: Day -> nat)
    requires days != []
  {
    forall ar: Archive, ticks: Day -> seq<nat> |
      SplitInto(ar, only, days, PerDayBudget(maxSamples, |days|), symbols, ticks) ::
      RunTotals(ar, only, days).counts.sampled <= maxSamples
  }

  /**
   --max-samples bounds a run, for every split of its ticks among the symbols of each day, exactly
   when the per-day budget and the further symbols of the days read add up to no more.
   */
  lemma {:induction false} MaxSamplesIff(only: bool, days: seq<Day>, maxSamples: nat, symbols: Day -> nat)
    requires days != []
    ensures KeepsUnder(only, days, maxSamples, symbols)
        <==> SumBy(days, MostOn(symbols, PerDayBudget(maxSamples, |days|))) <= maxSamples
  {
    var b := PerDayBudget(maxSamples, |days|);
    var worst := WorstArchive(symbols, b);
    WorstSplits(only, days, symbols, b);
    TotalsRead(worst, only, days);
    WorstCounts(only, days, symbols, b);
    forall ar: Archive, ticks: Day -> seq<nat> | SplitInto(ar, only, days, b, symbols, ticks)
      ensures RunTotals(ar, only, days).counts.sampled <= SumBy(days, MostOn(symbols, b))
    {
      SampledIsBounded(ar, only, days, b, symbols, ticks);
    }
  }

  lemma {:induction false} MostOnAt(symbols: Day -> nat, budget: nat, day: Day)
    requires budget >= 1
    ensures MostOn(symbols, budget)(day) == DayMost(symbols(day), budget)
  {
  }

  lemma {:induction false} SumOfTwo(a: Day, b: Day, f: Day -> nat)
    ensures SumBy([a, b], f) == f(a) + f(b)
  {
    assert [a, b][..1] == [a] && [a][..0] == [];
    assert SumBy([a], f) == f(a);
  }

  function OneEach(): Day -> nat {
    _ => 1
  }

  function TwoThenOne(): Day -> nat {
    day => if day == 1 then 2 else 1
  }

  /** One symbol a day is neither enough for --max-samples to hold nor needed. */
  lemma {:induction false} OneSymbolDecidesNothing(only: bool)
    ensures !KeepsUnder(only, [1, 2], 1, OneEach())
    ensures KeepsUnder(only, [1, 2], 3, TwoThenOne())
  {
    hide KeepsUnder, MostOn;
    MaxSamplesIff(only, [1, 2], 1, OneEach());
    MaxSamplesIff(only, [1, 2], 3, TwoThenOne());
    SumOfTwo(1, 2, MostOn(OneEach(), 1));
    SumOfTwo(1, 2, MostOn(TwoThenOne(), 1));
    MostOnAt(OneEach(), 1, 1);
    MostOnAt(OneEach(), 1, 2);
    MostOnAt(TwoThenOne(), 1, 1);
    MostOnAt(TwoThenOne(), 1, 2);
  }
}
