/** Optional values and bounded search, shared by every model. */
module Common {

  datatype Option<+T> = None | Some(value: T)

  function Min(a: int, b: int): int {
    if a < b then a else b
  }

  function Max(a: int, b: int): int {
    if a < b then b else a
  }

  function MinReal(a: real, b: real): real {
    if b < a then b else a
  }

  function MaxReal(a: real, b: real): real {
    if b > a then b else a
  }

  /** The least index in [lo, hi) at which p holds, or hi when there is none. */
  function FirstFrom(p: int -> bool, lo: int, hi: int): (k: int)
    requires lo <= hi
    ensures lo <= k <= hi
    ensures forall j | lo <= j < k :: !p(j)
    ensures k < hi ==> p(k)
    decreases hi - lo
  {
    if lo == hi || p(lo) then lo else FirstFrom(p, lo + 1, hi)
  }

  /** The dates lo, lo + 1, .., hi - 1. */
  function Dates(lo: int, hi: int): (ds: seq<int>)
    ensures |ds| == Max(hi - lo, 0)
    ensures forall i | 0 <= i < |ds| :: ds[i] == lo + i
    decreases hi - lo
  {
    if hi <= lo then [] else Dates(lo, hi - 1) + [hi - 1]
  }

  predicate Distinct<T(==)>(s: seq<T>) {
    forall i, j | 0 <= i < j < |s| :: s[i] != s[j]
  }

  /** A sequence without repetitions has as many elements as the set it lists. */
  lemma {:induction false} DistinctCardinality<T>(s: seq<T>, all: set<T>)
    requires Distinct(s)
    requires forall x :: x in all <==> x in s
    ensures |all| == |s|
  {
    if s == [] {
      assert all == {};
    } else {
      var front, last := s[..|s| - 1], s[|s| - 1];
      forall x ensures x in all - {last} <==> x in front {
        if x in front {
          var i :| 0 <= i < |front| && front[i] == x;
          assert s[i] == x;
        }
      }
      DistinctCardinality(front, all - {last});
    }
  }
}
