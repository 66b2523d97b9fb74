/**
  The sizes of a report are visited in the order Python's `sorted` gives a
  set of integers: ascending, each element once. This module defines that
  order on Dafny's finite sets.
 */
module SortedSet {

  /** Each element of `s` is smaller than every later one. */
  ghost predicate StrictlyAscending(s: seq<int>)
  {
    forall i, j :: 0 <= i < j < |s| ==> s[i] < s[j]
  }

  /** `m` is the least element of `s`. */
  ghost predicate IsLeast(m: int, s: set<int>)
  {
    m in s && forall x :: x in s ==> m <= x
  }

  /** A set that is not empty has an element. */
  lemma HasElement(s: set<int>)
    requires s != {}
    ensures exists y :: y in s
  {
    if forall y :: y !in s {
      assert false;
    }
  }

  /** Every non-empty finite set of integers has a least element. */
  lemma {:induction false} LeastExists(s: set<int>)
    requires s != {}
    ensures exists m :: IsLeast(m, s)
    decreases s
  {
    HasElement(s);
    var y :| y in s;
    var rest := s - {y};
    if rest == {} {
      forall x | x in s ensures y <= x {
        assert x !in rest;
      }
      assert IsLeast(y, s);
    } else {
      LeastExists(rest);
      var m :| IsLeast(m, rest);
      var least := if y < m then y else m;
      forall x | x in s ensures least <= x {
        if x != y { assert x in rest; }
      }
      assert IsLeast(least, s);
    }
  }

  /** The least element of a non-empty set. */
  function Least(s: set<int>): (m: int)
    requires s != {}
    ensures m in s
    ensures forall x :: x in s ==> m <= x
  {
    LeastExists(s);
    var m :| m in s && forall x | x in s :: m <= x;
    m
  }

  /** `sorted(s)` for a set of integers: the least element, then the rest
      in the same way. */
  function SortedSizes(s: set<int>): (r: seq<int>)
    ensures |r| == |s|
    decreases s
  {
    if s == {} then []
    else
      var m := Least(s);
      [m] + SortedSizes(s - {m})
  }

  /** Putting an element smaller than all of `t` in front of an ascending
      listing of `t` gives an ascending listing of `t` with that element. */
  lemma PrependLeast(m: int, t: set<int>, rest: seq<int>)
    requires forall x :: x in t <==> x in rest
    requires StrictlyAscending(rest)
    requires forall x :: x in t ==> m < x
    ensures forall x :: x in t + {m} <==> x in [m] + rest
    ensures StrictlyAscending([m] + rest)
  {
    var r := [m] + rest;
    forall i, j | 0 <= i < j < |r| ensures r[i] < r[j] {
      assert r[j] == rest[j - 1];
      if i == 0 {
        assert rest[j - 1] in rest;
      } else {
        assert r[i] == rest[i - 1];
      }
    }
  }

  /** `SortedSizes` lists exactly the elements of the set, each once, in
      strictly ascending order. */
  lemma {:induction false} SortedSizesSorted(s: set<int>)
    ensures forall x :: x in s <==> x in SortedSizes(s)
    ensures StrictlyAscending(SortedSizes(s))
    decreases s
  {
    if s != {} {
      var m := Least(s);
      var t := s - {m};
      SortedSizesSorted(t);
      PrependLeast(m, t, SortedSizes(t));
      assert t + {m} == s;
    }
  }

  /** Only one sequence lists a set in strictly ascending order, so the
      order of a report is fully determined by its key set. */
  lemma {:induction false} SortedSizesUnique(s: set<int>, r: seq<int>)
    requires forall x :: x in s <==> x in r
    requires StrictlyAscending(r)
    ensures r == SortedSizes(s)
    decreases |r|
  {
    SortedSizesSorted(s);
    if r == [] {
      assert forall x :: x !in s;
      assert s == {};
    } else {
      var first := r[0];
      assert first in s;
      if s == {} {
        assert false;
      }
      var m := Least(s);
      assert m in r;
      var k :| 0 <= k < |r| && r[k] == m;
      assert first <= m && m <= first;
      var rest := r[1..];
      assert r == [m] + rest;
      forall x ensures x in s - {m} <==> x in rest {
        if x in rest {
          var j :| 0 <= j < |rest| && rest[j] == x;
          assert r[j + 1] == x;
        }
      }
      assert StrictlyAscending(rest) by {
        forall i, j | 0 <= i < j < |rest| ensures rest[i] < rest[j] {
          assert rest[i] == r[i + 1] && rest[j] == r[j + 1];
        }
      }
      SortedSizesUnique(s - {m}, rest);
    }
  }
}
