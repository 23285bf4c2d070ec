/** Shared value types: optional values, Python-level outcomes, and list helpers
    that mirror the few list operations the toolkit relies on. */
module Common {

  datatype Option<T> = None | Some(value: T)

  /** The Python exceptions that the modelled code raises or catches. `Unmodelled`
      marks a JSON value of a type the toolkit never writes into that slot. */
  datatype Error =
    | FileNotFound
    | DecodeError
    | KeyError
    | TypeError
    | AttributeError
    | ValueError
    | ArgumentTypeError
    | Unmodelled

  /** Either the value a Python function returned or the exception it raised. */
  datatype Result<T> = Ok(value: T) | Err(error: Error)

  /** No element occurs twice. */
  predicate Distinct<T(==)>(s: seq<T>) {
    forall i, j :: 0 <= i < j < |s| ==> s[i] != s[j]
  }

  /** The set of elements of a list. */
  function Elems<T>(s: seq<T>): set<T> {
    set x | x in s
  }

  /** Index of the first occurrence of `x`. */
  function FirstIndex<T(==)>(s: seq<T>, x: T): (i: nat)
    requires x in s
    ensures i < |s| && s[i] == x
    ensures forall j :: 0 <= j < i ==> s[j] != x
  {
    if s[0] == x then 0 else 1 + FirstIndex(s[1..], x)
  }

  /** Python's `list.remove(x)`: drops the first occurrence of `x`. */
  function RemoveFirst<T(==)>(s: seq<T>, x: T): (r: seq<T>)
    requires x in s
    ensures |r| == |s| - 1
    ensures multiset(r) == multiset(s) - multiset{x}
    ensures r == s[..FirstIndex(s, x)] + s[FirstIndex(s, x) + 1..]
  {
    var i := FirstIndex(s, x);
    assert s == s[..i] + [s[i]] + s[i + 1..];
    s[..i] + s[i + 1..]
  }

  /** Number of list elements for which `p` holds. */
  function CountWhere<T>(s: seq<T>, p: T -> bool): (n: nat)
    ensures n <= |s|
  {
    if s == [] then 0
    else (if p(s[|s| - 1]) then 1 else 0) + CountWhere(s[..|s| - 1], p)
  }

  /** The elements of `s` for which `p` holds, in order. */
  function Filter<T(==,!new)>(s: seq<T>, p: T -> bool): (r: seq<T>)
    ensures |r| <= |s|
    ensures forall x :: x in r <==> x in s && p(x)
  {
    if s == [] then []
    else Filter(s[..|s| - 1], p) + (if p(s[|s| - 1]) then [s[|s| - 1]] else [])
  }

  /** Nothing passes the filter exactly when no element satisfies the test. */
  lemma FilterEmpty<T(!new)>(s: seq<T>, p: T -> bool)
    ensures Filter(s, p) == [] <==> forall i :: 0 <= i < |s| ==> !p(s[i])
  {
    if Filter(s, p) != [] {
      assert Filter(s, p)[0] in Filter(s, p);
    } else {
      forall i | 0 <= i < |s| ensures !p(s[i]) {
        assert s[i] in s;
      }
    }
  }

  lemma {:induction false} CountWhereAll<T>(s: seq<T>, p: T -> bool)
    ensures CountWhere(s, p) == |s| <==> forall x :: x in s ==> p(x)
  {
    if s != [] {
      var init := s[..|s| - 1];
      CountWhereAll(init, p);
      assert s == init + [s[|s| - 1]];
      assert forall x :: x in s <==> x in init || x == s[|s| - 1];
    }
  }

  lemma {:induction false} DistinctCard<T>(s: seq<T>)
    requires Distinct(s)
    ensures |Elems(s)| == |s|
  {
    if s != [] {
      var init := s[..|s| - 1];
      var last := s[|s| - 1];
      assert Distinct(init);
      DistinctCard(init);
      assert s == init + [last];
      assert last !in init;
      assert Elems(s) == Elems(init) + {last};
    }
  }

  /** A sub-multiset of a list without repeats has no repeats either. */
  lemma SubMultisetDistinct<T>(r: seq<T>, s: seq<T>)
    requires Distinct(s)
    requires multiset(r) <= multiset(s)
    ensures Distinct(r)
  {
    forall i, j | 0 <= i < j < |r|
      ensures r[i] != r[j]
    {
      if r[i] == r[j] {
        var x := r[i];
        assert multiset(r)[x] >= 2 by {
          assert r == r[..j] + [r[j]] + r[j + 1..];
          assert r[..j] == r[..i] + [r[i]] + r[i + 1..j];
        }
        DistinctOccursOnce(s, x);
        assert false;
      }
    }
  }

  lemma {:induction false} DistinctOccursOnce<T>(s: seq<T>, x: T)
    requires Distinct(s)
    ensures multiset(s)[x] <= 1
  {
    if s != [] {
      var init := s[..|s| - 1];
      assert s == init + [s[|s| - 1]];
      assert Distinct(init);
      DistinctOccursOnce(init, x);
      if s[|s| - 1] == x {
        assert x !in init;
      }
    }
  }

  lemma SubMultisetSize<T>(r: seq<T>, s: seq<T>)
    requires multiset(r) <= multiset(s)
    ensures |r| <= |s|
  {
    var rest := multiset(s) - multiset(r);
    assert multiset(s) == multiset(r) + rest;
    assert |multiset(s)| == |multiset(r)| + |rest|;
  }
}
