/** The per-symbol strided sampling of `_process_day` in scripts/calibrate_fill_model.py. */
module StrideSampling {
  import opened Arithmetic
  import opened Common

  function CeilDiv(a: nat, b: nat): nat
    requires b > 0
  {
    (a + b - 1) / b
  }

  /** `max(1, ceil(n_ticks / max(1, budget)))`. */
  function Stride(ticks: nat, budget: int): (s: nat)
    ensures s >= 1
  {
    Max(1, CeilDiv(ticks, Max(1, budget)))
  }

  /** The row numbers 1..m kept by `(rn - 1) % stride = 0`. */
  function SampledRows(m: nat, stride: nat): seq<nat>
    requires stride > 0
  {
    if m == 0 then []
    else SampledRows(m - 1, stride) + if (m - 1) % stride == 0 then [m] else []
  }

  lemma {:induction false} SampledIff(m: nat, stride: nat, rn: nat)
    requires stride > 0
    ensures rn in SampledRows(m, stride) <==> 1 <= rn <= m && (rn - 1) % stride == 0
  {
    if m > 0 {
      SampledIff(m - 1, stride, rn);
    }
  }

  lemma {:induction false} QuotientStep(m: nat, stride: nat)
    requires m > 0 && stride > 0
    ensures CeilDiv(m, stride) == CeilDiv(m - 1, stride) + if (m - 1) % stride == 0 then 1 else 0
  {
    var q, r := (m - 1) / stride, (m - 1) % stride;
    DivMod(m - 1, stride);
    Distribute(q, 1, stride);
    Quotient(m + stride - 1, stride, q + 1);
    Quotient(m + stride - 2, stride, if r == 0 then q else q + 1);
  }

  lemma {:induction false} CeilBounds(a: nat, b: nat)
    requires b > 0
    ensures a <= CeilDiv(a, b) * b <= a + b - 1
  {
    DivMod(a + b - 1, b);
  }

  /** The stride is the least one under which the ticks of one symbol would stay within the budget. */
  lemma {:induction false} StrideIsLeast(ticks: nat, budget: int, s: nat)
    requires s >= 1
    ensures Stride(ticks, budget) <= s <==> ticks <= s * (if budget < 1 then 1 else budget)
  {
    var b := if budget < 1 then 1 else budget;
    var q := CeilDiv(ticks, b);
    CeilBounds(ticks, b);
    if q <= s {
      MulOrder(q, s, b);
    } else {
      MulStep(s, q, b);
    }
  }

  /** A symbol of m ticks contributes ceil(m / stride) samples, row 1 among them. */
  lemma {:induction false} SamplesOfSymbol(m: nat, stride: nat)
    requires stride > 0
    ensures |SampledRows(m, stride)| == CeilDiv(m, stride)
    ensures m > 0 ==> 1 in SampledRows(m, stride)
  {
    if m == 0 {
      Quotient(stride - 1, stride, 0);
    } else {
      SamplesOfSymbol(m - 1, stride);
      QuotientStep(m, stride);
      if m == 1 {
        Quotient(0, stride, 0);
      }
    }
  }

  function Sum(ticks: seq<nat>): nat {
    if ticks == [] then 0 else Sum(ticks[..|ticks| - 1]) + ticks[|ticks| - 1]
  }

  /** A day's samples over its symbols' tick counts. */
  function DaySamples(ticks: seq<nat>, stride: nat): nat
    requires stride > 0
  {
    if ticks == [] then 0 else DaySamples(ticks[..|ticks| - 1], stride) + |SampledRows(ticks[|ticks| - 1], stride)|
  }

  /** samples x stride <= ticks + symbols x (stride - 1), for any split of the ticks among symbols. */
  lemma {:induction false} SamplesByStride(ticks: seq<nat>, stride: nat)
    requires stride > 0
    ensures DaySamples(ticks, stride) * stride <= Sum(ticks) + |ticks| * (stride - 1)
    ensures (forall i | 0 <= i < |ticks| :: ticks[i] > 0) ==> DaySamples(ticks, stride) >= |ticks|
  {
    if ticks != [] {
      var front, m := ticks[..|ticks| - 1], ticks[|ticks| - 1];
      SamplesByStride(front, stride);
      SamplesOfSymbol(m, stride);
      CeilBounds(m, stride);
      Distribute(DaySamples(front, stride), CeilDiv(m, stride), stride);
      Distribute(|front|, 1, stride - 1);
    }
  }

  /** samples x stride <= ticks + symbols x (stride - 1) and ticks <= b x stride leave at most b + symbols - 1. */
  lemma {:induction false} BudgetArithmetic(d: nat, s: nat, n: nat, k: nat, b: nat)
    requires s >= 1 && k >= 1 && d * s <= n + k * (s - 1) && n <= b * s
    ensures d <= b + k - 1
  {
    Distribute(b, k, s);
    Distribute(s - 1, 1, k);
    if d >= b + k {
      MulOrder(b + k, d, s);
    }
  }

  /** The most samples a day of `symbols` symbols can give under a per-day budget. */
  function DayMost(symbols: nat, budget: nat): nat
    requires budget >= 1
  {
    if symbols == 0 then 0 else budget + symbols - 1
  }

  /** No split of a day's ticks gives more than the budget plus one sample per further symbol. */
  lemma {:induction false} DayBudget(ticks: seq<nat>, budget: nat)
    requires budget >= 1
    ensures DaySamples(ticks, Stride(Sum(ticks), budget)) <= DayMost(|ticks|, budget)
  {
    if ticks != [] {
      var n := Sum(ticks);
      var s := Stride(n, budget);
      SamplesByStride(ticks, s);
      CeilBounds(n, budget);
      MulOrder(CeilDiv(n, budget), s, budget);
      assert s * budget == budget * s;
      BudgetArithmetic(DaySamples(ticks, s), s, n, |ticks|, budget);
    }
  }

  // ---------------------------------------------------------------- the bound is attained

  function Ones(k: nat): (r: seq<nat>)
    ensures |r| == k && forall i | 0 <= i < k :: r[i] == 1
  {
    if k == 0 then [] else Ones(k - 1) + [1]
  }

  lemma {:induction false} OnesAppended(x: nat, k: nat, stride: nat)
    requires stride > 0
    ensures Sum([x] + Ones(k)) == x + k
    ensures DaySamples([x] + Ones(k), stride) == CeilDiv(x, stride) + k
  {
    if k == 0 {
      assert [x] + Ones(0) == [x];
      assert [x][..0] == [];
      SamplesOfSymbol(x, stride);
    } else {
      OnesAppended(x, k - 1, stride);
      var t := [x] + Ones(k);
      assert t[..|t| - 1] == [x] + Ones(k - 1);
      SamplesOfSymbol(1, stride);
      Quotient(stride, stride, 1);
    }
  }

  predicate Present(ticks: seq<nat>, symbols: nat) {
    |ticks| == symbols && forall i | 0 <= i < |ticks| :: ticks[i] > 0
  }

  /** One busy symbol beside single ticks, with as many ticks in all as budget times symbols. */
  function Worst(symbols: nat, budget: nat): (r: seq<nat>)
    requires budget >= 1
    ensures Present(r, symbols)
  {
    if symbols == 0 then [] else [symbols * (budget - 1) + 1] + Ones(symbols - 1)
  }

  lemma {:induction false} CeilIs(a: nat, b: nat, q: nat)
    requires b > 0 && q * b - b < a <= q * b
    ensures CeilDiv(a, b) == q
  {
    Quotient(a + b - 1, b, q);
  }

  lemma {:induction false} WorstStride(symbols: nat, budget: nat)
    requires symbols >= 1 && budget >= 1
    ensures Stride(symbols * budget, budget) == symbols
  {
    CeilIs(symbols * budget, budget, symbols);
  }

  lemma {:induction false} WorstSums(symbols: nat, budget: nat)
    requires symbols >= 1 && budget >= 1
    ensures Sum(Worst(symbols, budget)) == symbols * budget >= 1
  {
    hide DaySamples, Sum;
    OnesAppended(symbols * (budget - 1) + 1, symbols - 1, symbols);
    Distribute(budget - 1, 1, symbols);
    MulOrder(1, symbols, budget);
  }

  lemma {:induction false} WorstAttains(symbols: nat, budget: nat)
    requires budget >= 1
    ensures var t := Worst(symbols, budget);
            DaySamples(t, Stride(Sum(t), budget)) == DayMost(symbols, budget)
  {
    if symbols >= 1 {
      var x := symbols * (budget - 1) + 1;
      WorstSums(symbols, budget);
      WorstStride(symbols, budget);
      OnesAppended(x, symbols - 1, symbols);
      Distribute(budget - 1, 1, symbols);
      CeilIs(x, symbols, budget);
    }
  }

  predicate WithinCap(ticks: seq<nat>, budget: int, cap: int) {
    DaySamples(ticks, Stride(Sum(ticks), budget)) <= cap
  }

  /** Every split of a day's ticks stays within a cap exactly when budget + symbols - 1 does. */
  lemma {:induction false} DayCapIff(symbols: nat, budget: nat, cap: int)
    requires symbols >= 1 && budget >= 1
    ensures (forall ticks: seq<nat> | Present(ticks, symbols) :: WithinCap(ticks, budget, cap))
        <==> budget + symbols - 1 <= cap
  {
    WorstAttains(symbols, budget);
    var worst := Worst(symbols, budget);
    assert Present(worst, symbols) && (WithinCap(worst, budget, cap) <==> budget + symbols - 1 <= cap);
    forall ticks: seq<nat> | Present(ticks, symbols)
      ensures budget + symbols - 1 <= cap ==> WithinCap(ticks, budget, cap)
    {
      DayBudget(ticks, budget);
    }
  }

  /** So the bare budget bounds a day's samples for every split of ticks exactly when one symbol trades. */
  lemma {:induction false} BareBudgetIff(symbols: nat, budget: nat)
    requires symbols >= 1 && budget >= 1
    ensures (forall ticks: seq<nat> | Present(ticks, symbols) :: WithinCap(ticks, budget, budget)) <==> symbols == 1
  {
    DayCapIff(symbols, budget, budget);
  }
}
