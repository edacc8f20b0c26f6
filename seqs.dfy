/** Counting over table rows: the meaning of `count(*) ... WHERE p` and of
    `count(distinct column)` on a table held as a sequence of rows. */
module Seqs {

  /** The rows of `s` that satisfy `p`, in table order. */
  function Filter<T(==)>(s: seq<T>, p: T -> bool): (r: seq<T>)
    ensures |r| <= |s|
    ensures forall i :: 0 <= i < |r| ==> p(r[i])
  {
    if s == [] then []
    else
      var tail := Filter(s[1..], p);
      if p(s[0]) then [s[0]] + tail else tail
  }

  /** A row is kept exactly when it is in the table and satisfies `p`. */
  lemma {:induction false} FilterMembers<T>(s: seq<T>, p: T -> bool)
    ensures forall x :: x in Filter(s, p) <==> x in s && p(x)
  {
    if s != [] {
      FilterMembers(s[1..], p);
      assert s == [s[0]] + s[1..];
    }
  }

  /** `count(*)` of the rows satisfying `p`. */
  function Count<T(==)>(s: seq<T>, p: T -> bool): nat
  {
    |Filter(s, p)|
  }

  /** The set of values a column takes over the rows of `s`. */
  function Image<T(==), U(==)>(s: seq<T>, column: T -> U): set<U>
  {
    set x | x in s :: column(x)
  }

  /** `count(distinct column)`: never more than the number of rows, and zero
      exactly on an empty table. */
  function CountDistinct<T(==), U(==)>(s: seq<T>, column: T -> U): (n: nat)
    ensures n <= |s|
    ensures n == 0 <==> s == []
  {
    ImageBound(s, column);
    assert s != [] ==> column(s[0]) in Image(s, column);
    |Image(s, column)|
  }

  lemma {:induction false} ImageBound<T, U>(s: seq<T>, column: T -> U)
    ensures |Image(s, column)| <= |s|
  {
    if s != [] {
      ImageBound(s[1..], column);
      assert Image(s, column) == {column(s[0])} + Image(s[1..], column);
    }
  }

  /** Filtering a table one row longer at the front. */
  lemma FilterCons<T>(x: T, s: seq<T>, p: T -> bool)
    ensures Filter([x] + s, p) == (if p(x) then [x] else []) + Filter(s, p)
  {
    assert ([x] + s)[1..] == s;
  }

  /** Filtering distributes over appending rows to a table. */
  lemma {:induction false} FilterAppend<T>(s: seq<T>, t: seq<T>, p: T -> bool)
    ensures Filter(s + t, p) == Filter(s, p) + Filter(t, p)
  {
    if s == [] {
      assert s + t == t;
    } else {
      var head := if p(s[0]) then [s[0]] else [];
      calc {
        Filter(s + t, p);
        { assert s + t == [s[0]] + (s[1..] + t); FilterCons(s[0], s[1..] + t, p); }
        head + Filter(s[1..] + t, p);
        { FilterAppend(s[1..], t, p); }
        head + (Filter(s[1..], p) + Filter(t, p));
        (head + Filter(s[1..], p)) + Filter(t, p);
        { assert s == [s[0]] + s[1..]; FilterCons(s[0], s[1..], p); }
        Filter(s, p) + Filter(t, p);
      }
    }
  }

  /** A weaker condition admits at least as many rows. */
  lemma {:induction false} CountMonotone<T>(s: seq<T>, p: T -> bool, q: T -> bool)
    requires forall x :: p(x) ==> q(x)
    ensures Count(s, p) <= Count(s, q)
  {
    if s != [] {
      CountMonotone(s[1..], p, q);
    }
  }

  /** Two conditions that agree on every row select the same rows. */
  lemma {:induction false} FilterExtensional<T>(s: seq<T>, p: T -> bool, q: T -> bool)
    requires forall x :: p(x) == q(x)
    ensures Filter(s, p) == Filter(s, q)
  {
    if s != [] {
      FilterExtensional(s[1..], p, q);
    }
  }

  /** A condition every row satisfies keeps the whole table. */
  lemma {:induction false} FilterAll<T>(s: seq<T>, p: T -> bool)
    requires forall i :: 0 <= i < |s| ==> p(s[i])
    ensures Filter(s, p) == s
  {
    if s != [] {
      FilterAll(s[1..], p);
    }
  }

  /** Every row satisfies exactly one of a condition and its negation. */
  lemma {:induction false} CountComplement<T>(s: seq<T>, p: T -> bool, notP: T -> bool)
    requires forall x :: notP(x) == !p(x)
    ensures Count(s, p) + Count(s, notP) == |s|
  {
    if s != [] {
      CountComplement(s[1..], p, notP);
    }
  }

  /** Keeping fewer rows can only shrink the set of distinct column values. */
  lemma ImageOfFilterMonotone<T, U>(s: seq<T>, p: T -> bool, q: T -> bool, column: T -> U)
    requires forall x :: p(x) ==> q(x)
    ensures Image(Filter(s, p), column) <= Image(Filter(s, q), column)
    ensures |Image(Filter(s, p), column)| <= |Image(Filter(s, q), column)|
  {
    FilterMembers(s, p);
    FilterMembers(s, q);
    var a, b := Image(Filter(s, p), column), Image(Filter(s, q), column);
    assert a <= b;
    assert b == a + (b - a);
  }
}
