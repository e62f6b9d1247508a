/**
 Listing a finite set in increasing order of a rank. `std::map` iterates its keys this way, and the
 orders of one price level stand in their queue this way.
 */
module Ordered {

  ghost predicate Increasing<T>(q: seq<T>, rank: T -> int) {
    forall i, j :: 0 <= i < j < |q| ==> rank(q[i]) < rank(q[j])
  }

  ghost predicate InjectiveOn<T>(s: set<T>, rank: T -> int) {
    forall x, y :: x in s && y in s && rank(x) == rank(y) ==> x == y
  }

  /** `q` lists exactly the members of `s`. */
  ghost predicate Lists<T>(q: seq<T>, s: set<T>) {
    (forall x :: x in q ==> x in s) && (forall x :: x in s ==> x in q)
  }

  predicate IsLeast<T(==)>(s: set<T>, rank: T -> int, m: T) {
    m in s && forall y :: y in s ==> rank(m) <= rank(y)
  }

  lemma {:induction false} LeastExists<T>(s: set<T>, rank: T -> int)
    requires s != {}
    ensures exists m :: IsLeast(s, rank, m)
    decreases |s|
  {
    var x :| x in s;
    var rest := s - {x};
    if rest == {} {
      assert s == {x};
      assert IsLeast(s, rank, x);
    } else {
      LeastExists(rest, rank);
      var m :| IsLeast(rest, rank, m);
      var best := if rank(x) <= rank(m) then x else m;
      forall y | y in s ensures rank(best) <= rank(y) {
        assert y == x || y in rest;
      }
      assert IsLeast(s, rank, best);
    }
  }

  function Least<T(==)>(s: set<T>, rank: T -> int): (m: T)
    requires s != {}
    requires InjectiveOn(s, rank)
    ensures IsLeast(s, rank, m)
  {
    LeastExists(s, rank);
    var m :| IsLeast(s, rank, m) && m in s;
    m
  }

  /** The least member in front of a listing of the others makes a listing of all. */
  lemma LeastFirst<T>(s: set<T>, m: T, rest: seq<T>, rank: T -> int)
    requires InjectiveOn(s, rank) && IsLeast(s, rank, m)
    requires Lists(rest, s - {m}) && Increasing(rest, rank)
    ensures Lists([m] + rest, s) && Increasing([m] + rest, rank)
  {
    var q := [m] + rest;
    forall i, j | 0 <= i < j < |q| ensures rank(q[i]) < rank(q[j]) {
      assert q[j] in rest;
    }
    forall x | x in s ensures x in q {
      if x != m {
        assert x in rest;
      }
    }
  }

  /** The members of `s`, from the lowest rank to the highest. */
  function SortBy<T(==)>(s: set<T>, rank: T -> int): (q: seq<T>)
    requires InjectiveOn(s, rank)
    decreases |s|
  {
    if s == {} then []
    else
      var m := Least(s, rank);
      [m] + SortBy(s - {m}, rank)
  }

  lemma {:induction false} SortBySorts<T>(s: set<T>, rank: T -> int)
    requires InjectiveOn(s, rank)
    ensures Lists(SortBy(s, rank), s) && Increasing(SortBy(s, rank), rank)
    ensures |SortBy(s, rank)| == |s|
    decreases |s|
  {
    if s == {} {
    } else {
      var m := Least(s, rank);
      SortBySorts(s - {m}, rank);
      LeastFirst(s, m, SortBy(s - {m}, rank), rank);
    }
  }

  /** Two increasing listings of the same set are the same listing. */
  lemma {:induction false} ListingUnique<T>(p: seq<T>, q: seq<T>, rank: T -> int)
    requires Increasing(p, rank) && Increasing(q, rank)
    requires (forall x :: x in p ==> x in q) && (forall x :: x in q ==> x in p)
    ensures p == q
  {
    assert q != [] ==> q[0] in p;
    if p == [] {
    } else {
      assert p[0] in q && q != [];
      assert q[0] in p;
      assert p[0] == q[0];
      forall x | x in p[1..] ensures x in q[1..] {
        assert x in p && rank(p[0]) < rank(x);
        assert x in q;
      }
      forall x | x in q[1..] ensures x in p[1..] {
        assert x in q && rank(q[0]) < rank(x);
        assert x in p;
      }
      ListingUnique(p[1..], q[1..], rank);
      assert p == [p[0]] + p[1..] && q == [q[0]] + q[1..];
    }
  }

  /** Any increasing listing of `s` is the one that `SortBy` gives. */
  lemma SortByUnique<T>(q: seq<T>, s: set<T>, rank: T -> int)
    requires InjectiveOn(s, rank)
    requires Increasing(q, rank) && Lists(q, s)
    ensures q == SortBy(s, rank)
  {
    SortBySorts(s, rank);
    ListingUnique(q, SortBy(s, rank), rank);
  }

  /** Ranks matter only through the order that they induce. */
  lemma SortBySameOrder<T>(s: set<T>, rank: T -> int, rank': T -> int)
    requires InjectiveOn(s, rank) && InjectiveOn(s, rank')
    requires forall x, y :: x in s && y in s ==> (rank(x) < rank(y) <==> rank'(x) < rank'(y))
    ensures SortBy(s, rank) == SortBy(s, rank')
  {
    SortBySorts(s, rank);
    var q := SortBy(s, rank);
    assert forall i :: 0 <= i < |q| ==> q[i] in q;
    SortByUnique(q, s, rank');
  }

  lemma IncreasingSameRank<T>(q: seq<T>, rank: T -> int, rank': T -> int)
    requires Increasing(q, rank)
    requires forall i :: 0 <= i < |q| ==> rank'(q[i]) == rank(q[i])
    ensures Increasing(q, rank')
  {
  }

  lemma IncreasingAppend<T>(q: seq<T>, x: T, rank: T -> int)
    requires Increasing(q, rank)
    requires forall i :: 0 <= i < |q| ==> rank(q[i]) < rank(x)
    ensures Increasing(q + [x], rank)
  {
  }

  lemma IncreasingPrepend<T>(x: T, q: seq<T>, rank: T -> int)
    requires Increasing(q, rank)
    requires forall i :: 0 <= i < |q| ==> rank(x) < rank(q[i])
    ensures Increasing([x] + q, rank)
  {
  }

  lemma ListsAppend<T>(q: seq<T>, s: set<T>, x: T)
    requires Lists(q, s)
    ensures Lists(q + [x], s + {x})
  {
    assert (q + [x])[|q|] == x;
    assert forall i :: 0 <= i < |q| ==> (q + [x])[i] == q[i];
  }

  // ---------------------------------------------------------------- counting

  /** Listing the keys of a map lists each of them once. */
  lemma SortedKeys<K, V>(m: map<K, V>, rank: K -> int)
    requires InjectiveOn(m.Keys, rank)
    ensures |SortBy(m.Keys, rank)| == |m| && forall k :: k in SortBy(m.Keys, rank) ==> k in m
  {
    SortBySorts(m.Keys, rank);
    assert |m.Keys| == |m|;
  }

  lemma CountPut<K, V>(m: map<K, V>, k: K, v: V)
    ensures |m[k := v]| == |m| + if k in m then 0 else 1
  {
    if k in m {
      assert m[k := v].Keys == m.Keys;
    } else {
      assert m[k := v].Keys == m.Keys + {k};
    }
  }

  lemma CountWithout<K, V>(m: map<K, V>, k: K)
    ensures |m - {k}| == |m| - if k in m then 1 else 0
  {
    if k in m {
      assert m.Keys == (m - {k}).Keys + {k};
    } else {
      assert m - {k} == m;
    }
  }
}
