/**
 * Priority ordering of interceptors.
 *
 * The priority comparator orders interceptors by the integer priority of
 * their class and nothing else, so two interceptors of equal priority
 * compare as equal. Two consequences follow: a priority-ordered set (a tree
 * set over that comparator) holds at most one interceptor per priority, and
 * sorting a list orders it by priority without saying how ties fall.
 */
module PriorityOrder {
  import opened Reflection

  function Priority(i: Interceptor): int {
    i.interceptorClass.priority
  }

  /** Non-decreasing priorities: what sorting a list achieves. */
  predicate Sorted(s: seq<Interceptor>) {
    forall i, j :: 0 <= i < j < |s| ==> Priority(s[i]) <= Priority(s[j])
  }

  /** Strictly increasing priorities: the iteration order of a priority-ordered set. */
  predicate StrictlySorted(s: seq<Interceptor>) {
    forall i, j :: 0 <= i < j < |s| ==> Priority(s[i]) < Priority(s[j])
  }

  /** Some element of `s` compares equal to `x`. */
  predicate HasPeer(s: seq<Interceptor>, x: Interceptor) {
    exists y :: y in s && Priority(y) == Priority(x)
  }

  /**
   * Adding `x` to a priority-ordered set: nothing happens when an element of
   * the same priority is present, otherwise `x` goes in its place.
   */
  function SortedSetAdd(s: seq<Interceptor>, x: Interceptor): seq<Interceptor> {
    if s == [] then [x]
    else if Priority(x) < Priority(s[0]) then [x] + s
    else if Priority(x) == Priority(s[0]) then s
    else [s[0]] + SortedSetAdd(s[1..], x)
  }

  lemma {:induction false} SortedSetAddMembers(s: seq<Interceptor>, x: Interceptor)
    requires StrictlySorted(s)
    ensures forall y :: y in SortedSetAdd(s, x) <==> y in s || (y == x && !HasPeer(s, x))
    ensures HasPeer(SortedSetAdd(s, x), x)
  {
    if s == [] {
      assert x in SortedSetAdd(s, x);
    } else if Priority(x) < Priority(s[0]) {
      assert x in SortedSetAdd(s, x);
    } else if Priority(x) == Priority(s[0]) {
      assert s[0] in s;
    } else {
      SortedSetAddMembers(s[1..], x);
      assert s == [s[0]] + s[1..];
      if HasPeer(s[1..], x) {
        var y :| y in s[1..] && Priority(y) == Priority(x);
        assert y in s;
      }
      if HasPeer(s, x) {
        var y :| y in s && Priority(y) == Priority(x);
        assert y in s[1..];
      }
      var y :| y in SortedSetAdd(s[1..], x) && Priority(y) == Priority(x);
      assert y in SortedSetAdd(s, x);
    }
  }

  /** The iteration order of a priority-ordered set survives an addition. */
  lemma {:induction false} SortedSetAddKeepsOrder(s: seq<Interceptor>, x: Interceptor)
    requires StrictlySorted(s)
    ensures StrictlySorted(SortedSetAdd(s, x))
  {
    if s != [] && Priority(x) > Priority(s[0]) {
      var rest := SortedSetAdd(s[1..], x);
      SortedSetAddKeepsOrder(s[1..], x);
      SortedSetAddMembers(s[1..], x);
      forall y | y in rest ensures Priority(s[0]) < Priority(y) {
        if y != x {
          var k :| 0 <= k < |s[1..]| && s[1..][k] == y;
          assert s[k + 1] == y;
        }
      }
    }
  }

  /**
   * In a priority-ordered set, adding an element that compares equal to a
   * member changes nothing; otherwise exactly that element is added.
   */
  lemma {:induction false} SortedSetAddContents(s: seq<Interceptor>, x: Interceptor)
    requires StrictlySorted(s)
    ensures HasPeer(s, x) ==> SortedSetAdd(s, x) == s
    ensures !HasPeer(s, x) ==> multiset(SortedSetAdd(s, x)) == multiset(s) + multiset{x}
  {
    if s == [] {
    } else if Priority(x) < Priority(s[0]) {
    } else if Priority(x) == Priority(s[0]) {
      assert s[0] in s;
    } else {
      assert s == [s[0]] + s[1..];
      SortedSetAddContents(s[1..], x);
      if HasPeer(s, x) {
        var y :| y in s && Priority(y) == Priority(x);
        assert y in s[1..];
      } else {
        assert !HasPeer(s[1..], x) by {
          forall y | y in s[1..] ensures Priority(y) != Priority(x) {
            assert y in s;
          }
        }
      }
    }
  }

  /** Inserting `x` after every element whose priority does not exceed it. */
  function InsertByPriority(s: seq<Interceptor>, x: Interceptor): seq<Interceptor> {
    if s == [] then [x]
    else if Priority(x) < Priority(s[0]) then [x] + s
    else [s[0]] + InsertByPriority(s[1..], x)
  }

  lemma {:induction false} InsertByPriorityKeepsElements(s: seq<Interceptor>, x: Interceptor)
    ensures multiset(InsertByPriority(s, x)) == multiset(s) + multiset{x}
  {
    if s != [] && Priority(x) >= Priority(s[0]) {
      InsertByPriorityKeepsElements(s[1..], x);
      assert s == [s[0]] + s[1..];
    }
  }

  lemma {:induction false} InsertByPriorityKeepsOrder(s: seq<Interceptor>, x: Interceptor)
    requires Sorted(s)
    ensures Sorted(InsertByPriority(s, x))
  {
    if s != [] && Priority(x) >= Priority(s[0]) {
      var rest := InsertByPriority(s[1..], x);
      InsertByPriorityKeepsOrder(s[1..], x);
      InsertByPriorityKeepsElements(s[1..], x);
      forall k | 0 <= k < |rest| ensures Priority(s[0]) <= Priority(rest[k]) {
        var y := rest[k];
        assert y in multiset(s[1..]) + multiset{x};
        if y != x {
          assert y in s[1..];
          var m :| 0 <= m < |s[1..]| && s[1..][m] == y;
          assert s[m + 1] == y;
        }
      }
    }
  }

  /**
   * Sorting an interceptor list by priority: the result is ordered by
   * priority and holds the same interceptors, duplicates included.
   */
  method SortInterceptors(interceptors: seq<Interceptor>) returns (sorted: seq<Interceptor>)
    ensures Sorted(sorted)
    ensures multiset(sorted) == multiset(interceptors)
  {
    sorted := [];
    var i := 0;
    while i < |interceptors|
      invariant 0 <= i <= |interceptors|
      invariant Sorted(sorted)
      invariant multiset(sorted) == multiset(interceptors[..i])
    {
      InsertByPriorityKeepsOrder(sorted, interceptors[i]);
      InsertByPriorityKeepsElements(sorted, interceptors[i]);
      sorted := InsertByPriority(sorted, interceptors[i]);
      assert interceptors[..i + 1] == interceptors[..i] + [interceptors[i]];
      i := i + 1;
    }
    assert interceptors[..i] == interceptors;
  }
}
