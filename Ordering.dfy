/**
 * What an `ORDER BY` promises: the selected rows, each once, in an order
 * that never puts a larger key before a smaller one. Such a listing always
 * exists, and it is unique when no two rows share a key.
 */
module Ordering {

  ghost predicate TotalOn<T>(s: set<T>, le: (T, T) -> bool) {
    forall a, b :: a in s && b in s ==> le(a, b) || le(b, a)
  }

  ghost predicate TransitiveOn<T>(s: set<T>, le: (T, T) -> bool) {
    forall a, b, c :: a in s && b in s && c in s && le(a, b) && le(b, c) ==> le(a, c)
  }

  ghost predicate AntisymmetricOn<T>(s: set<T>, le: (T, T) -> bool) {
    forall a, b :: a in s && b in s && le(a, b) && le(b, a) ==> a == b
  }

  /** No element is followed by a smaller one. */
  predicate SortedBy<T>(xs: seq<T>, le: (T, T) -> bool) {
    forall i, j :: 0 <= i < j < |xs| ==> le(xs[i], xs[j])
  }

  /** `xs` lists the elements of `s`, each exactly once. */
  ghost predicate Enumerates<T(!new)>(xs: seq<T>, s: set<T>) {
    && (forall i, j :: 0 <= i < j < |xs| ==> xs[i] != xs[j])
    && (forall x :: x in xs <==> x in s)
  }

  /** Some element of a non-empty set. */
  ghost function Pick<T>(s: set<T>): (x: T)
    requires s != {}
    ensures x in s
  {
    var x :| x in s; x
  }

  /** A finite non-empty set has a greatest element under a total preorder. */
  lemma {:induction false} GreatestExists<T>(s: set<T>, le: (T, T) -> bool) returns (m: T)
    requires s != {} && TotalOn(s, le) && TransitiveOn(s, le)
    ensures m in s && forall x :: x in s ==> le(x, m)
    decreases |s|
  {
    var y :| y in s;
    if s == {y} {
      m := y;
    } else {
      var rest := s - {y};
      var r := GreatestExists(rest, le);
      if le(y, r) {
        m := r;
      } else {
        m := y;
      }
    }
  }

  /** Every finite set can be listed in order under a total preorder. */
  lemma {:induction false} SortedEnumerationExists<T(!new)>(s: set<T>, le: (T, T) -> bool) returns (xs: seq<T>)
    requires TotalOn(s, le) && TransitiveOn(s, le)
    ensures Enumerates(xs, s) && SortedBy(xs, le)
    decreases |s|
  {
    if s == {} {
      xs := [];
    } else {
      var m := GreatestExists(s, le);
      var front := SortedEnumerationExists(s - {m}, le);
      xs := front + [m];
      assert forall i :: 0 <= i < |front| ==> xs[i] == front[i];
    }
  }

  /** Dropping the last element of a listing lists the set without it. */
  lemma DropLast<T(!new)>(xs: seq<T>, s: set<T>)
    requires Enumerates(xs, s) && xs != []
    ensures Enumerates(xs[..|xs| - 1], s - {xs[|xs| - 1]})
  {
    var front, last := xs[..|xs| - 1], xs[|xs| - 1];
    forall x
      ensures x in front <==> x in s - {last}
    {
      if x in front {
        var k :| 0 <= k < |front| && front[k] == x;
        assert xs[k] == x;
      }
      if x in s - {last} {
        var k :| 0 <= k < |xs| && xs[k] == x;
        assert front[k] == x;
      }
    }
  }

  /** A listing has one position per element. */
  lemma {:induction false} EnumerationSize<T(!new)>(xs: seq<T>, s: set<T>)
    requires Enumerates(xs, s)
    ensures |xs| == |s|
    decreases |xs|
  {
    if xs == [] {
      assert s == {};
    } else {
      DropLast(xs, s);
      EnumerationSize(xs[..|xs| - 1], s - {xs[|xs| - 1]});
    }
  }

  /** Under an order in which no two elements tie, the ordered listing is unique. */
  lemma {:induction false} SortedEnumerationUnique<T(!new)>(xs: seq<T>, ys: seq<T>, s: set<T>, le: (T, T) -> bool)
    requires Enumerates(xs, s) && Enumerates(ys, s)
    requires SortedBy(xs, le) && SortedBy(ys, le) && AntisymmetricOn(s, le)
    ensures xs == ys
    decreases |xs|
  {
    EnumerationSize(xs, s);
    EnumerationSize(ys, s);
    if xs != [] {
      var xl := xs[|xs| - 1];
      assert xl in s;
      assert xl in ys;
      var yl := ys[|ys| - 1];
      assert yl in s;
      var i :| 0 <= i < |xs| && xs[i] == yl;
      var j :| 0 <= j < |ys| && ys[j] == xl;
      assert xl == yl;
      DropLast(xs, s);
      DropLast(ys, s);
      SortedEnumerationUnique(xs[..|xs| - 1], ys[..|ys| - 1], s - {xl}, le);
      assert xs == xs[..|xs| - 1] + [xl];
      assert ys == ys[..|ys| - 1] + [yl];
    }
  }

  // ---------------------------------------------------------------------
  // The ordinal order on strings

  /** `a` sorts before or equal to `b`, character code by character code. */
  predicate StrLe(a: string, b: string) {
    a == [] || (b != [] && (a[0] < b[0] || (a[0] == b[0] && StrLe(a[1..], b[1..]))))
  }

  lemma {:induction false} StrLeTotal(a: string, b: string)
    ensures StrLe(a, b) || StrLe(b, a)
  {
    if a != [] && b != [] && a[0] == b[0] {
      StrLeTotal(a[1..], b[1..]);
    }
  }

  lemma {:induction false} StrLeTransitive(a: string, b: string, c: string)
    requires StrLe(a, b) && StrLe(b, c)
    ensures StrLe(a, c)
  {
    if a != [] && a[0] == b[0] && b[0] == c[0] {
      StrLeTransitive(a[1..], b[1..], c[1..]);
    }
  }

  lemma {:induction false} StrLeAntisymmetric(a: string, b: string)
    requires StrLe(a, b) && StrLe(b, a)
    ensures a == b
  {
    if a != [] {
      StrLeAntisymmetric(a[1..], b[1..]);
      assert a == [a[0]] + a[1..] && b == [b[0]] + b[1..];
    }
  }

  /** A finite non-empty set of strings has a least element in the ordinal order. */
  lemma {:induction false} LeastStrExists(s: set<string>) returns (m: string)
    requires s != {}
    ensures m in s && forall x :: x in s ==> StrLe(m, x)
    decreases |s|
  {
    var y := Pick(s);
    StrLeTotal(y, y);
    if s == {y} {
      m := y;
    } else {
      var r := LeastStrExists(s - {y});
      StrLeTotal(y, r);
      if StrLe(y, r) {
        m := y;
        forall x | x in s
          ensures StrLe(m, x)
        {
          if x != y {
            StrLeTransitive(y, r, x);
          }
        }
      } else {
        m := r;
      }
    }
  }

  /** The ordinal order is a total order on every set of strings. */
  lemma StrLeOrdersAll(s: set<string>)
    ensures TotalOn(s, StrLe) && TransitiveOn(s, StrLe) && AntisymmetricOn(s, StrLe)
  {
    forall a, b | a in s && b in s
      ensures StrLe(a, b) || StrLe(b, a)
    {
      StrLeTotal(a, b);
    }
    forall a, b, c | a in s && b in s && c in s && StrLe(a, b) && StrLe(b, c)
      ensures StrLe(a, c)
    {
      StrLeTransitive(a, b, c);
    }
    forall a, b | a in s && b in s && StrLe(a, b) && StrLe(b, a)
      ensures a == b
    {
      StrLeAntisymmetric(a, b);
    }
  }
}
