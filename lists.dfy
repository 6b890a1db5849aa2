/**
 * The list operations the scene uses on its customer lists: `push` is `+ [x]`,
 * and `list.filter(x => x !== g)` is `Without(list, g)`, with object identity
 * read as customer-id equality.
 */
module Lists {

  /** No element occurs twice. */
  ghost predicate NoDup<T>(s: seq<T>)
  {
    forall i, j :: 0 <= i < j < |s| ==> s[i] != s[j]
  }

  /** `s.filter(y => y !== x)`: every element except `x`, in the original order. */
  function Without<T(==,!new)>(s: seq<T>, x: T): (r: seq<T>)
    ensures multiset(r) == multiset(s)[x := 0]
    ensures forall y :: y in r <==> y in s && y != x
    ensures |r| <= |s|
  {
    if |s| == 0 then []
    else
      assert s == [s[0]] + s[1..];
      (if s[0] == x then [] else [s[0]]) + Without(s[1..], x)
  }

  /** Removing an element that occurs once shortens the list by exactly one. */
  lemma WithoutLength<T(!new)>(s: seq<T>, x: T)
    requires NoDup(s)
    ensures x in s ==> |Without(s, x)| == |s| - 1
    ensures x !in s ==> Without(s, x) == s
  {
    var r := Without(s, x);
    assert |r| == |multiset(r)| && |s| == |multiset(s)|;
    if x in s {
      var i :| 0 <= i < |s| && s[i] == x;
      NoDupCount(s, i);
      assert multiset(s) == multiset(s)[x := 0] + multiset{x};
    } else {
      assert multiset(s)[x] == 0;
      assert multiset(s)[x := 0] == multiset(s);
      WithoutAbsent(s, x);
    }
  }

  /** In a duplicate-free list every element occurs exactly once. */
  lemma {:induction false} NoDupCount<T>(s: seq<T>, i: nat)
    requires NoDup(s) && i < |s|
    ensures multiset(s)[s[i]] == 1
  {
    if i == 0 {
      assert s == [s[0]] + s[1..];
      assert s[0] !in s[1..];
    } else {
      assert s == [s[0]] + s[1..];
      assert s[1..][i - 1] == s[i];
      assert NoDup(s[1..]);
      NoDupCount(s[1..], i - 1);
    }
  }

  /** Filtering out an absent element returns the list unchanged. */
  lemma {:induction false} WithoutAbsent<T(!new)>(s: seq<T>, x: T)
    requires x !in s
    ensures Without(s, x) == s
  {
    if |s| > 0 {
      assert x !in s[1..];
      WithoutAbsent(s[1..], x);
    }
  }

  /** Filtering keeps a list free of duplicates. */
  lemma {:induction false} WithoutNoDup<T(!new)>(s: seq<T>, x: T)
    requires NoDup(s)
    ensures NoDup(Without(s, x))
  {
    if |s| > 0 {
      assert NoDup(s[1..]);
      WithoutNoDup(s[1..], x);
      var rest := Without(s[1..], x);
      if s[0] != x {
        forall y | y in rest ensures y != s[0] {
          assert multiset(rest)[y] > 0;
          assert y in s[1..];
        }
        var r := Without(s, x);
        assert r == [s[0]] + rest;
        forall i, j | 0 <= i < j < |r| ensures r[i] != r[j] {
          if i == 0 {
            assert r[j] == rest[j - 1] && r[j] in rest;
          } else {
            assert r[i] == rest[i - 1] && r[j] == rest[j - 1];
          }
        }
      }
    }
  }

  /**
   * Relative order is kept: an element other than `x` at index `i` moves to
   * index `i - 1` when `x` stood before it and stays at `i` otherwise.
   */
  lemma {:induction false} WithoutIndex<T(!new)>(s: seq<T>, x: T, i: nat)
    requires NoDup(s) && i < |s| && s[i] != x
    ensures var k := if x in s[..i] then i - 1 else i;
            0 <= k < |Without(s, x)| && Without(s, x)[k] == s[i]
  {
    assert s == [s[0]] + s[1..];
    assert NoDup(s[1..]);
    if i == 0 {
      assert s[..0] == [];
    } else {
      WithoutIndex(s[1..], x, i - 1);
      assert s[1..][..i - 1] == s[..i][1..];
      assert s[..i] == [s[0]] + s[1..][..i - 1];
    }
  }
}
