/** Ordering a finite set of integers, as `ORDER BY id`, `sorted(...)` and
    `MAX(id)` do on the services' keys. */
module Ordering {

  /** Strictly increasing, hence also free of duplicates. */
  predicate Ascending(r: seq<int>) {
    forall i, j :: 0 <= i < j < |r| ==> r[i] < r[j]
  }

  lemma Pick(s: set<int>) returns (y: int)
    requires s != {}
    ensures y in s
  {
    if forall x :: x !in s {
      assert false;
    }
    y :| y in s;
  }

  /** A finite nonempty set of integers has a least element ... */
  lemma {:induction false} MinExists(s: set<int>)
    requires s != {}
    ensures exists m :: m in s && forall x :: x in s ==> m <= x
    decreases |s|
  {
    var y := Pick(s);
    var t := s - {y};
    if t == {} {
      forall x | x in s ensures y <= x {
        assert x !in t;
      }
    } else {
      MinExists(t);
      var m :| m in t && forall x :: x in t ==> m <= x;
      var least := if y < m then y else m;
      forall x | x in s ensures least <= x {
        if x != y { assert x in t; }
      }
      assert least in s;
    }
  }

  /** ... and a greatest one. */
  lemma {:induction false} MaxExists(s: set<int>)
    requires s != {}
    ensures exists m :: m in s && forall x :: x in s ==> x <= m
    decreases |s|
  {
    var y := Pick(s);
    var t := s - {y};
    if t == {} {
      forall x | x in s ensures x <= y {
        assert x !in t;
      }
    } else {
      MaxExists(t);
      var m :| m in t && forall x :: x in t ==> x <= m;
      var greatest := if y > m then y else m;
      forall x | x in s ensures x <= greatest {
        if x != y { assert x in t; }
      }
      assert greatest in s;
    }
  }

  function SetMin(s: set<int>): (m: int)
    requires s != {}
    ensures m in s
    ensures forall x :: x in s ==> m <= x
  {
    MinExists(s);
    var m :| m in s && forall x :: x in s ==> m <= x;
    m
  }

  function SetMax(s: set<int>): (m: int)
    requires s != {}
    ensures m in s
    ensures forall x :: x in s ==> x <= m
  {
    MaxExists(s);
    var m :| m in s && forall x :: x in s ==> x <= m;
    m
  }

  /** The elements of `s` in increasing order: exactly the members of `s`,
      each once. */
  function SortedSet(s: set<int>): (r: seq<int>)
    ensures forall x :: x in r <==> x in s
    ensures Ascending(r)
    decreases |s|
  {
    if s == {} then []
    else
      var m := SetMin(s);
      var rest := SortedSet(s - {m});
      SortedCons(m, rest, s);
      [m] + rest
  }

  lemma SortedCons(m: int, rest: seq<int>, s: set<int>)
    requires m in s && forall x :: x in s ==> m <= x
    requires forall x :: x in rest <==> x in s - {m}
    requires Ascending(rest)
    ensures forall x :: x in [m] + rest <==> x in s
    ensures Ascending([m] + rest)
  {
    var r := [m] + rest;
    forall i, j | 0 <= i < j < |r| ensures r[i] < r[j] {
      if i == 0 {
        assert r[j] == rest[j - 1];
        assert rest[j - 1] in rest;
      }
    }
  }

  /** The sorted listing has one entry per member. */
  lemma {:induction false} SortedSetLength(s: set<int>)
    ensures |SortedSet(s)| == |s|
    decreases |s|
  {
    if s != {} {
      SortedSetLength(s - {SetMin(s)});
    }
  }
}
