/** Ascending listings of prices: insertion sort, its one result, and the interpolated median over it. */
module Sorting {

  predicate Sorted(s: seq<real>) {
    forall i, j | 0 <= i < j < |s| :: s[i] <= s[j]
  }

  function Insert(x: real, s: seq<real>): seq<real> {
    if s == [] || x <= s[0] then [x] + s else [s[0]] + Insert(x, s[1..])
  }

  function Sort(s: seq<real>): seq<real> {
    if s == [] then [] else Insert(s[0], Sort(s[1..]))
  }

  lemma {:induction false} InsertAdds(x: real, s: seq<real>)
    ensures multiset(Insert(x, s)) == multiset{x} + multiset(s)
  {
    if s == [] || x <= s[0] {
    } else {
      InsertAdds(x, s[1..]);
      assert s == [s[0]] + s[1..];
    }
  }

  lemma {:induction false} InsertSorts(x: real, s: seq<real>)
    requires Sorted(s)
    ensures Sorted(Insert(x, s)) && |Insert(x, s)| == |s| + 1
    ensures Insert(x, s)[0] == if s == [] || x <= s[0] then x else s[0]
  {
    if s == [] || x <= s[0] {
    } else {
      InsertSorts(x, s[1..]);
    }
  }

  lemma {:induction false} SortSorts(s: seq<real>)
    ensures Sorted(Sort(s)) && |Sort(s)| == |s|
  {
    if s != [] {
      SortSorts(s[1..]);
      InsertSorts(s[0], Sort(s[1..]));
    }
  }

  lemma {:induction false} SortPermutes(s: seq<real>)
    ensures multiset(Sort(s)) == multiset(s)
  {
    if s != [] {
      SortPermutes(s[1..]);
      InsertAdds(s[0], Sort(s[1..]));
      assert s == [s[0]] + s[1..];
    }
  }

  /** The middle value, or the mean of the two middle values. */
  function Median(s: seq<real>): real
    requires |s| > 0
  {
    var t := Sort(s);
    SortSorts(s);
    if |t| % 2 == 1 then t[|t| / 2] else (t[|t| / 2 - 1] + t[|t| / 2]) / 2.0
  }

  lemma {:induction false} LeastIsFirst(a: seq<real>, b: seq<real>)
    requires Sorted(a) && a != [] && b != []
    requires multiset(a) == multiset(b)
    ensures a[0] <= b[0]
  {
    assert b[0] in multiset(a);
    var i :| 0 <= i < |a| && a[i] == b[0];
  }

  lemma {:induction false} RestOf(a: seq<real>)
    requires a != []
    ensures multiset(a[1..]) == multiset(a) - multiset{a[0]}
  {
    assert a == [a[0]] + a[1..];
  }

  /** Two sorted listings of the same prices are the same listing. */
  lemma {:induction false} SortedUnique(a: seq<real>, b: seq<real>)
    requires Sorted(a) && Sorted(b)
    requires multiset(a) == multiset(b)
    ensures a == b
  {
    assert |multiset(a)| == |multiset(b)|;
    if a != [] {
      LeastIsFirst(a, b);
      LeastIsFirst(b, a);
      RestOf(a);
      RestOf(b);
      SortedUnique(a[1..], b[1..]);
    }
  }

  /** However the values are put in ascending order, the median is the middle one or the middle two's mean. */
  lemma {:induction false} MedianIsMiddle(s: seq<real>, t: seq<real>)
    requires |s| > 0 && Sorted(t) && multiset(t) == multiset(s)
    ensures |t| == |s|
    ensures Median(s) == if |t| % 2 == 1 then t[|t| / 2] else (t[|t| / 2 - 1] + t[|t| / 2]) / 2.0
  {
    assert |multiset(t)| == |multiset(s)|;
    SortSorts(s);
    SortPermutes(s);
    SortedUnique(t, Sort(s));
  }

  function Shift(s: seq<real>, c: real): (t: seq<real>)
    ensures |t| == |s|
    ensures forall i | 0 <= i < |s| :: t[i] == s[i] + c
  {
    if s == [] then [] else [s[0] + c] + Shift(s[1..], c)
  }

  lemma {:induction false} InsertShift(x: real, s: seq<real>, c: real)
    ensures Insert(x + c, Shift(s, c)) == Shift(Insert(x, s), c)
  {
    if s == [] || x <= s[0] {
    } else {
      InsertShift(x, s[1..], c);
      var t := Insert(x, s);
      assert t[1..] == Insert(x, s[1..]);
      assert Shift(s, c)[1..] == Shift(s[1..], c);
    }
  }

  lemma {:induction false} SortShift(s: seq<real>, c: real)
    ensures Sort(Shift(s, c)) == Shift(Sort(s), c)
  {
    if s != [] {
      SortShift(s[1..], c);
      InsertShift(s[0], Sort(s[1..]), c);
      assert Shift(s, c)[1..] == Shift(s[1..], c);
    }
  }

  /** Taking the same cost off every value takes it off the median. */
  lemma {:induction false} MedianShift(s: seq<real>, c: real)
    requires |s| > 0
    ensures |Shift(s, c)| > 0 && Median(Shift(s, c)) == Median(s) + c
  {
    SortShift(s, c);
    SortSorts(s);
  }
}
