/** Sequence facts used for Python lists and string suffix tests. */
module Sequences {

  /** No element occurs twice. */
  predicate NoDuplicates<T(==)>(s: seq<T>) {
    forall i, j :: 0 <= i < j < |s| ==> s[i] != s[j]
  }

  /** Python's `str.endswith(suffix)`. */
  predicate EndsWith<T(==)>(s: seq<T>, suffix: seq<T>) {
    |suffix| <= |s| && s[|s| - |suffix|..] == suffix
  }

  /** Python's `list.remove(x)`: deletes the first occurrence of `x`.
      The Python method raises when `x` is absent; every caller here checks
      membership first, hence the precondition. */
  function RemoveFirst<T(==)>(s: seq<T>, x: T): (r: seq<T>)
    requires x in s
    ensures |r| == |s| - 1
    ensures multiset(r) == multiset(s) - multiset{x}
  {
    assert s == [s[0]] + s[1..];
    if s[0] == x then s[1..] else [s[0]] + RemoveFirst(s[1..], x)
  }

  /** The position of the first occurrence of `x`. */
  function FirstIndex<T(==)>(s: seq<T>, x: T): (i: nat)
    requires x in s
    ensures i < |s| && s[i] == x && x !in s[..i]
  {
    if s[0] == x then 0
    else
      var i := 1 + FirstIndex(s[1..], x);
      assert s[..i] == [s[0]] + s[1..][..i - 1];
      i
  }

  /** `remove` cuts out exactly the first occurrence of `x`, keeping the elements
      before and after it in order. */
  lemma RemoveFirstAtFirstIndex<T>(s: seq<T>, x: T)
    requires x in s
    ensures var i := FirstIndex(s, x); RemoveFirst(s, x) == s[..i] + s[i + 1..]
  {
    var i := FirstIndex(s, x);
    assert s == s[..i] + [x] + s[i + 1..];
    RemoveFirstSplit(s[..i], x, s[i + 1..]);
  }

  /** `remove` takes off a leading `x`. */
  lemma RemoveFirstHead<T>(x: T, t: seq<T>)
    ensures RemoveFirst([x] + t, x) == t
  {
  }

  /** `remove` passes over a leading element other than `x`. */
  lemma RemoveFirstCons<T>(y: T, t: seq<T>, x: T)
    requires y != x && x in t
    ensures RemoveFirst([y] + t, x) == [y] + RemoveFirst(t, x)
  {
  }

  /** One step of `RemoveFirstSplit`: a leading element other than `x` stays in front. */
  lemma RemoveFirstSplitStep<T>(y: T, a: seq<T>, x: T, b: seq<T>)
    requires y != x
    requires RemoveFirst(a + [x] + b, x) == a + b
    ensures RemoveFirst([y] + a + [x] + b, x) == [y] + a + b
  {
    var rest := a + [x] + b;
    assert x in rest by {
      assert rest[|a|] == x;
    }
    assert [y] + a + [x] + b == [y] + rest;
    RemoveFirstCons(y, rest, x);
    assert [y] + (a + b) == [y] + a + b;
  }

  /** Removing the first `x` from `a + [x] + b` gives `a + b` when `a` holds no `x`:
      the elements before and after keep their order. */
  lemma {:induction false} RemoveFirstSplit<T>(a: seq<T>, x: T, b: seq<T>)
    requires x !in a
    ensures RemoveFirst(a + [x] + b, x) == a + b
  {
    if a == [] {
      assert a + [x] + b == [x] + b;
      RemoveFirstHead(x, b);
    } else {
      var y, tail := a[0], a[1..];
      assert a == [y] + tail;
      RemoveFirstSplit(tail, x, b);
      RemoveFirstSplitStep(y, tail, x, b);
    }
  }

  /** Appending an absent element and then removing it restores the list. */
  lemma RemoveFirstOfAppended<T>(s: seq<T>, x: T)
    requires x !in s
    ensures RemoveFirst(s + [x], x) == s
  {
    RemoveFirstSplit(s, x, []);
    assert s + [x] + [] == s + [x];
    assert s + [] == s;
  }

  /** Prepending an element absent from a duplicate-free list keeps it duplicate-free. */
  lemma NoDuplicatesCons<T>(x: T, s: seq<T>)
    requires x !in s && NoDuplicates(s)
    ensures NoDuplicates([x] + s)
  {
  }

  /** The tail of a duplicate-free list is duplicate-free and lacks the head. */
  lemma NoDuplicatesTail<T>(s: seq<T>)
    requires |s| > 0 && NoDuplicates(s)
    ensures NoDuplicates(s[1..]) && s[0] !in s[1..]
  {
  }

  /** On a duplicate-free list, `remove` keeps it duplicate-free and removes every
      occurrence of `x`. */
  lemma {:induction false} RemoveFirstNoDuplicates<T>(s: seq<T>, x: T)
    requires x in s && NoDuplicates(s)
    ensures NoDuplicates(RemoveFirst(s, x))
    ensures x !in RemoveFirst(s, x)
  {
    var tail := s[1..];
    NoDuplicatesTail(s);
    if s[0] != x {
      RemoveFirstNoDuplicates(tail, x);
      var r' := RemoveFirst(tail, x);
      assert multiset(tail)[s[0]] == 0;
      assert multiset(r')[s[0]] == 0;
      NoDuplicatesCons(s[0], r');
    }
  }

  /** A duplicate-free list has as many elements as the set of its elements. */
  lemma {:induction false} NoDuplicatesCardinality<T>(s: seq<T>)
    requires NoDuplicates(s)
    ensures |set x | x in s| == |s|
  {
    if s != [] {
      NoDuplicatesTail(s);
      NoDuplicatesCardinality(s[1..]);
      assert (set x | x in s) == {s[0]} + (set x | x in s[1..]);
    }
  }
}
