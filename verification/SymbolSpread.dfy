/** `select_symbols` of scripts/calibrate_fill_model.py: an exact-count spread under round-half-to-even. */
module SymbolSpread {
  import opened Arithmetic
  import opened Common

  /** Python's `round(a / b)`: to the nearest integer, ties to the even one. */
  function RoundHalfEven(a: int, b: int): int
    requires b > 0
  {
    var q, r := a / b, a % b;
    if 2 * r < b then q else if 2 * r > b then q + 1 else if q % 2 == 0 then q else q + 1
  }

  lemma {:induction false} RoundIsNearest(a: int, b: int)
    requires b > 0
    ensures 2 * a - b <= 2 * (RoundHalfEven(a, b) * b) <= 2 * a + b
    ensures a % b == 0 ==> RoundHalfEven(a, b) * b == a
  {
    DivMod(a, b);
    Distribute(a / b, 1, b);
  }

  /** n is the integer nearest to a / b, and of two equally near the even one. */
  predicate Nearest(a: int, b: int, n: int) {
    && 2 * a - b <= 2 * (n * b) <= 2 * a + b
    && (2 * (n * b) == 2 * a - b || 2 * (n * b) == 2 * a + b ==> n % 2 == 0)
  }

  lemma {:induction false} RoundIff(a: int, b: int, n: int)
    requires b > 0
    ensures RoundHalfEven(a, b) == n <==> Nearest(a, b, n)
  {
    var q := RoundHalfEven(a, b);
    RoundIsNearest(a, b);
    DivMod(a, b);
    Distribute(a / b, 1, b);
    if n < q {
      Apart(n, q, b);
    } else if q < n {
      Apart(q, n, b);
    }
  }

  /** Neighbouring multiples are b apart, and other ones further. */
  lemma {:induction false} Apart(m: int, n: int, b: int)
    requires b > 0 && m < n
    ensures m * b + b <= n * b
    ensures n > m + 1 ==> m * b + 2 * b <= n * b
  {
    MulStep(m, n, b);
    if n > m + 1 {
      MulStep(m + 1, n, b);
      Distribute(m, 1, b);
    }
  }

  /** Quotients more than one apart never round to the same integer. */
  lemma {:induction false} RoundSeparates(a: int, a': int, b: int)
    requires b > 0 && a' - a > b
    ensures RoundHalfEven(a, b) < RoundHalfEven(a', b)
  {
    RoundIsNearest(a, b);
    RoundIsNearest(a', b);
    var x, y := RoundHalfEven(a, b), RoundHalfEven(a', b);
    if y <= x {
      MulOrder(y, x, b);
    }
  }

  /** The index picked for slot i of `limit` out of m symbols. */
  function PickIndex(i: int, m: int, limit: int): int
    requires limit >= 2
  {
    RoundHalfEven(i * (m - 1), limit - 1)
  }

  lemma {:induction false} PicksAscend(i: int, j: int, m: int, limit: int)
    requires 2 <= limit < m && 0 <= i < j < limit
    ensures PickIndex(i, m, limit) < PickIndex(j, m, limit)
    decreases j - i
  {
    assert j * (m - 1) == (j - 1) * (m - 1) + (m - 1);
    RoundSeparates((j - 1) * (m - 1), j * (m - 1), limit - 1);
    if i < j - 1 {
      PicksAscend(i, j - 1, m, limit);
    }
  }

  lemma {:induction false} PickBounds(i: int, m: int, limit: int)
    requires 2 <= limit < m && 0 <= i < limit
    ensures 0 <= PickIndex(i, m, limit) < m
    ensures PickIndex(0, m, limit) == 0 && PickIndex(limit - 1, m, limit) == m - 1
  {
    assert 0 * (m - 1) == 0;
    RoundIsNearest(0, limit - 1);
    LastPick(m, limit);
    if i > 0 {
      PicksAscend(0, i, m, limit);
    }
    if i < limit - 1 {
      PicksAscend(i, limit - 1, m, limit);
    }
  }

  lemma {:induction false} LastPick(m: int, limit: int)
    requires 2 <= limit < m
    ensures PickIndex(0, m, limit) == 0 && PickIndex(limit - 1, m, limit) == m - 1
  {
    var b := limit - 1;
    assert b * (m - 1) == (m - 1) * b;
    assert 0 * (m - 1) == 0;
    Exact(m - 1, b);
    Exact(0, b);
  }

  lemma {:induction false} Exact(q: int, b: int)
    requires b > 0
    ensures RoundHalfEven(b * q, b) == q
  {
    assert b * q == q * b;
    Quotient(b * q, b, q);
    DivMod(b * q, b);
  }

  /** `dict.fromkeys`: the first occurrence of each element, in order. */
  function FirstOccurrences<T(==)>(s: seq<T>): seq<T> {
    if s == [] then []
    else
      var front, last := s[..|s| - 1], s[|s| - 1];
      FirstOccurrences(front) + if last in front then [] else [last]
  }

  lemma {:induction false} DistinctUnchanged<T>(s: seq<T>)
    requires Distinct(s)
    ensures FirstOccurrences(s) == s
  {
    if s != [] {
      var front := s[..|s| - 1];
      DistinctUnchanged(front);
      assert s[|s| - 1] !in front;
      assert s == front + [s[|s| - 1]];
    }
  }

  function Picked<T>(symbols: seq<T>, limit: int): (r: seq<T>)
    requires 2 <= limit < |symbols|
    ensures |r| == limit
    ensures forall i | 0 <= i < limit ::
              var x := PickIndex(i, |symbols|, limit); 0 <= x < |symbols| && r[i] == symbols[x]
  {
    assert forall i | 0 <= i < limit :: 0 <= PickIndex(i, |symbols|, limit) < |symbols| by {
      forall i | 0 <= i < limit ensures 0 <= PickIndex(i, |symbols|, limit) < |symbols| {
        PickBounds(i, |symbols|, limit);
      }
    }
    seq(limit, i requires 0 <= i < limit => symbols[PickIndex(i, |symbols|, limit)])
  }

  function SelectSymbols<T(==)>(symbols: seq<T>, limit: Option<int>): seq<T> {
    if limit.None? || limit.value <= 0 || |symbols| <= limit.value then symbols
    else if limit.value == 1 then [symbols[0]]
    else FirstOccurrences(Picked(symbols, limit.value))
  }

  lemma {:induction false} PickedDistinct<T>(symbols: seq<T>, limit: int)
    requires Distinct(symbols) && 2 <= limit < |symbols|
    ensures Distinct(Picked(symbols, limit))
  {
    var p, m := Picked(symbols, limit), |symbols|;
    forall i, j | 0 <= i < j < |p| ensures p[i] != p[j] {
      PicksAscend(i, j, m, limit);
      assert p[i] == symbols[PickIndex(i, m, limit)] && p[j] == symbols[PickIndex(j, m, limit)];
    }
  }

  /**
   Bounding a longer list of distinct symbols yields exactly `limit` of them, distinct, in list order
   (the picked positions ascend, by PicksAscend), with both ends of the list when limit >= 2; the
   closing deduplication never removes anything. Without a positive limit, or with one the list does not
   exceed, the list is returned as it is.
   */
  lemma {:induction false} SelectionIsExact<T>(symbols: seq<T>, limit: int)
    requires Distinct(symbols)
    ensures SelectSymbols(symbols, None) == symbols
    ensures limit <= 0 || |symbols| <= limit ==> SelectSymbols(symbols, Some(limit)) == symbols
    ensures 1 <= limit < |symbols| ==>
              var r := SelectSymbols(symbols, Some(limit));
              && |r| == limit && Distinct(r) && r[0] == symbols[0]
              && (limit >= 2 ==> r == Picked(symbols, limit) && r[limit - 1] == symbols[|symbols| - 1])
  {
    if 2 <= limit < |symbols| {
      var p := Picked(symbols, limit);
      PickedDistinct(symbols, limit);
      DistinctUnchanged(p);
      assert SelectSymbols(symbols, Some(limit)) == p;
      PickedEnds(symbols, limit);
    }
  }

  lemma {:induction false} PickedEnds<T>(symbols: seq<T>, limit: int)
    requires 2 <= limit < |symbols|
    ensures Picked(symbols, limit)[0] == symbols[0]
    ensures Picked(symbols, limit)[limit - 1] == symbols[|symbols| - 1]
  {
    LastPick(|symbols|, limit);
  }

  /** The i-th symbol kept is the one at the position nearest to i (m - 1) / (limit - 1), the even one of two. */
  lemma {:induction false} SelectedAt<T>(symbols: seq<T>, limit: int, i: int, x: int)
    requires Distinct(symbols) && 2 <= limit < |symbols| && 0 <= i < limit && 0 <= x < |symbols|
    ensures |SelectSymbols(symbols, Some(limit))| == limit
    ensures SelectSymbols(symbols, Some(limit))[i] == symbols[x] <==> Nearest(i * (|symbols| - 1), limit - 1, x)
  {
    hide Nearest, Picked, SelectSymbols;
    SelectionIsExact(symbols, limit);
    var y := PickIndex(i, |symbols|, limit);
    assert Picked(symbols, limit)[i] == symbols[y];
    RoundIff(i * (|symbols| - 1), limit - 1, x);
    assert symbols[y] == symbols[x] <==> y == x;
  }
}
