/** The unique ascending listing of a finite set: what `ORDER BY` on a key and `BTreeMap` iteration give. */
module Sorting {

  ghost predicate TotalOrder<T(!new)>(le: (T, T) -> bool) {
    && (forall x, y :: le(x, y) || le(y, x))
    && (forall x, y :: le(x, y) && le(y, x) ==> x == y)
    && (forall x, y, z :: le(x, y) && le(y, z) ==> le(x, z))
  }

  ghost predicate Lists<T(!new)>(r: seq<T>, s: set<T>) {
    forall x :: x in r <==> x in s
  }

  ghost predicate Ascending<T>(r: seq<T>, le: (T, T) -> bool) {
    forall i, j :: 0 <= i < j < |r| ==> le(r[i], r[j]) && r[i] != r[j]
  }

  lemma {:induction false} HasLeast<T(!new)>(s: set<T>, le: (T, T) -> bool) returns (least: T)
    requires TotalOrder(le) && s != {}
    ensures least in s && forall x :: x in s ==> le(least, x)
  {
    var x :| x in s;
    var rest := s - {x};
    if rest == {} {
      assert s == {x};
      least := x;
    } else {
      var y := HasLeast(rest, le);
      least := if le(x, y) then x else y;
    }
  }

  function Least<T(!new)>(s: set<T>, le: (T, T) -> bool): (least: T)
    requires TotalOrder(le) && s != {}
    ensures least in s && forall x :: x in s ==> le(least, x)
  {
    assert exists m :: m in s && forall x :: x in s ==> le(m, x) by {
      var m := HasLeast(s, le);
    }
    var m :| m in s && forall x :: x in s ==> le(m, x);
    m
  }

  function Sorted<T(!new)>(s: set<T>, le: (T, T) -> bool): (r: seq<T>)
    requires TotalOrder(le)
    ensures Lists(r, s) && Ascending(r, le)
  {
    if s == {} then [] else
      var m := Least(s, le);
      [m] + Sorted(s - {m}, le)
  }

  /** A set has only one ascending listing. */
  lemma {:induction false} ListingUnique<T(!new)>(a: seq<T>, b: seq<T>, s: set<T>, le: (T, T) -> bool)
    requires TotalOrder(le)
    requires Lists(a, s) && Ascending(a, le)
    requires Lists(b, s) && Ascending(b, le)
    ensures a == b
  {
    if b != [] {
      assert b[0] in s && b[0] in a;
    }
    if a != [] {
      assert a[0] in s && a[0] in b;
      assert b != [] && b[0] in s && b[0] in a;
      var i :| 0 <= i < |b| && b[i] == a[0];
      var j :| 0 <= j < |a| && a[j] == b[0];
      assert a[0] == b[0];
      var t := s - {a[0]};
      ListsTail(a, s, le);
      ListsTail(b, s, le);
      ListingUnique(a[1..], b[1..], t, le);
      assert a == [a[0]] + a[1..] && b == [b[0]] + b[1..];
    }
  }

  lemma ListsTail<T(!new)>(a: seq<T>, s: set<T>, le: (T, T) -> bool)
    requires a != [] && Lists(a, s) && Ascending(a, le)
    ensures Lists(a[1..], s - {a[0]}) && Ascending(a[1..], le)
  {
    forall x ensures x in a[1..] <==> x in s - {a[0]} {
      if x in a[1..] {
        var i :| 0 <= i < |a[1..]| && a[1..][i] == x;
        assert a[0] != a[i + 1] && x in a;
      }
      if x in s - {a[0]} {
        assert x in a;
        var i :| 0 <= i < |a| && a[i] == x;
        assert a[1..][i - 1] == x;
      }
    }
  }

  predicate NatLe(a: nat, b: nat) {
    a <= b
  }

  lemma NatOrder()
    ensures TotalOrder(NatLe)
  {
  }
}
