/** ORDER BY: listing a finite set of keys in a strict total order. */
module Ordering {

  ghost predicate StrictTotal<T(!new)>(less: (T, T) -> bool)
  {
    && (forall x :: !less(x, x))
    && (forall x, y, z :: less(x, y) && less(y, z) ==> less(x, z))
    && (forall x, y :: x == y || less(x, y) || less(y, x))
  }

  ghost predicate Ascending<T>(less: (T, T) -> bool, s: seq<T>)
  {
    forall i, j :: 0 <= i < j < |s| ==> less(s[i], s[j])
  }

  ghost predicate IsFirst<T>(less: (T, T) -> bool, s: set<T>, m: T)
  {
    m in s && forall x :: x in s && x != m ==> less(m, x)
  }

  lemma {:induction false} FirstExists<T(!new)>(less: (T, T) -> bool, s: set<T>)
    requires StrictTotal(less) && s != {}
    ensures exists m :: IsFirst(less, s, m)
  {
    var x :| x in s;
    if s == {x} {
      assert IsFirst(less, s, x);
    } else {
      FirstExists(less, s - {x});
      var m :| IsFirst(less, s - {x}, m);
      assert forall y :: y in s && y != x ==> y in s - {x};
      if less(x, m) {
        assert forall y :: y in s && y != x ==> y == m || less(m, y);
        assert IsFirst(less, s, x);
      } else {
        assert IsFirst(less, s, m);
      }
    }
  }

  function First<T(!new,==)>(less: (T, T) -> bool, s: set<T>): (m: T)
    requires StrictTotal(less) && s != {}
    ensures IsFirst(less, s, m)
  {
    FirstExists(less, s);
    var m :| m in s && forall x :: x in s && x != m ==> less(m, x);
    m
  }

  function Listed<T(!new,==)>(less: (T, T) -> bool, s: set<T>): (r: seq<T>)
    requires StrictTotal(less)
    ensures Ascending(less, r)
    ensures forall x :: x in r <==> x in s
    ensures |r| == |s|
  {
    if s == {} then [] else
    var m := First(less, s);
    [m] + Listed(less, s - {m})
  }

  lemma HeadIsIn<T>(s: seq<T>)
    requires s != []
    ensures s[0] in s
  {
  }

  /** There is only one ascending list of a given set. */
  lemma {:induction false} AscendingUnique<T(!new)>(less: (T, T) -> bool, a: seq<T>, b: seq<T>)
    requires StrictTotal(less) && Ascending(less, a) && Ascending(less, b)
    requires forall x :: x in a <==> x in b
    ensures a == b
  {
    if a == [] {
      if b != [] { HeadIsIn(b); }
    } else {
      assert a[0] in a && a[0] in b;
      assert b[0] in b && b[0] in a;
      assert a[0] == b[0];
      var a', b' := a[1..], b[1..];
      forall x ensures x in a' <==> x in b'
      {
        assert a == [a[0]] + a' && b == [b[0]] + b';
        if x in a' { assert x in b; }
        if x in b' { assert x in a; }
      }
      AscendingUnique(less, a', b');
      assert a == [a[0]] + a' && b == [b[0]] + b';
    }
  }

  /** An ascending list continued with an ascending list of later elements. */
  lemma AscendingConcat<T(!new)>(less: (T, T) -> bool, a: seq<T>, b: seq<T>)
    requires StrictTotal(less) && Ascending(less, a) && Ascending(less, b)
    requires a != [] && forall x :: x in b ==> less(a[|a| - 1], x)
    ensures Ascending(less, a + b)
  {
    forall i, j | 0 <= i < |a| && 0 <= j < |b|
      ensures less(a[i], b[j])
    {
      assert b[j] in b;
      assert i == |a| - 1 || less(a[i], a[|a| - 1]);
    }
  }

  /** An element of an ascending list is among the first n or comes after the n-th. */
  lemma InPrefixOrAfter<T(!new)>(less: (T, T) -> bool, a: seq<T>, n: nat, x: T)
    requires Ascending(less, a) && x in a && 1 <= n <= |a|
    ensures x in a[..n] || less(a[n - 1], x)
  {
    var i :| 0 <= i < |a| && a[i] == x;
    if i < n { assert a[..n][i] == x; }
  }

  lemma NotBefore<T(!new)>(less: (T, T) -> bool, a: T, b: T)
    requires StrictTotal(less) && (a == b || less(a, b))
    ensures !less(b, a)
  {
  }

  lemma AfterIsRest<T(!new)>(less: (T, T) -> bool, all: seq<T>, n: nat, after: seq<T>)
    requires Ascending(less, all) && 1 <= n <= |all|
    requires forall i :: 0 <= i < n ==> !less(all[n - 1], all[i])
    requires forall x :: x in after <==> x in all && less(all[n - 1], x)
    ensures forall x :: x in all[n..] <==> x in after
  {
    forall x
      ensures x in all[n..] <==> x in after
    {
      if x in all[n..] {
        var i :| 0 <= i < |all| - n && all[n..][i] == x;
        assert all[n + i] == x;
      }
      if x in after {
        var i :| 0 <= i < |all| && all[i] == x;
        assert all[n..][i - n] == x;
      }
    }
  }

  /** An ascending list of what comes after the n-th element is the rest of the list. */
  lemma AscendingRest<T(!new)>(less: (T, T) -> bool, all: seq<T>, n: nat, after: seq<T>)
    requires StrictTotal(less) && Ascending(less, all) && Ascending(less, after) && 1 <= n <= |all|
    requires forall x :: x in after <==> x in all && less(all[n - 1], x)
    ensures after == all[n..]
  {
    forall i | 0 <= i < n
      ensures !less(all[n - 1], all[i])
    {
      NotBefore(less, all[i], all[n - 1]);
    }
    AfterIsRest(less, all, n, after);
    AscendingUnique(less, all[n..], after);
  }

}
