/** Sequence operations behind the cache's `java.util.List<String>` bookkeeping:
    `contains` followed by `add`, `remove(Object)`, and filtering a list by a set. */
module Seqs {

  /** No element occurs twice. */
  predicate NoDup<T(==,!new)>(s: seq<T>) {
    forall i, j :: 0 <= i < j < |s| ==> s[i] != s[j]
  }

  /** The elements of `s`, as a set. */
  function Elems<T(==,!new)>(s: seq<T>): set<T> {
    set x | x in s
  }

  /** `s` with every element of `xs` dropped, in the original order. */
  function Without<T(==,!new)>(s: seq<T>, xs: set<T>): seq<T> {
    if s == [] then []
    else if s[0] in xs then Without(s[1..], xs)
    else [s[0]] + Without(s[1..], xs)
  }

  /** `List.remove(Object)`: drops the first occurrence of `x`, if there is one. */
  function RemoveFirst<T(==,!new)>(s: seq<T>, x: T): (r: seq<T>)
  {
    if s == [] then []
    else
      assert s == [s[0]] + s[1..];
      if s[0] == x then s[1..] else [s[0]] + RemoveFirst(s[1..], x)
  }

  /** `remove(x)` where the first `x` sits at index `i`: the list before it
      and everything after it are kept, in order. */
  lemma {:induction false} RemoveFirstAt<T(!new)>(s: seq<T>, x: T, i: nat)
    requires i < |s| && s[i] == x && x !in s[..i]
    ensures RemoveFirst(s, x) == s[..i] + s[i + 1..]
  {
    assert s == [s[0]] + s[1..];
    if i > 0 {
      assert s[0] in s[..i];
      assert s[1..][..i - 1] == s[1..i];
      RemoveFirstAt(s[1..], x, i - 1);
      assert s[..i] == [s[0]] + s[1..i];
    }
  }

  /** `remove(x)` on a list without `x` changes nothing. */
  lemma {:induction false} RemoveFirstAbsent<T(!new)>(s: seq<T>, x: T)
    requires x !in s
    ensures RemoveFirst(s, x) == s
  {
    if s != [] {
      assert s == [s[0]] + s[1..];
      RemoveFirstAbsent(s[1..], x);
    }
  }

  /** `remove(x)` takes out exactly one copy of `x`, when there is one. */
  lemma {:induction false} RemoveFirstMultiset<T(!new)>(s: seq<T>, x: T)
    ensures multiset(RemoveFirst(s, x)) == multiset(s) - multiset{x}
  {
    if s != [] {
      assert s == [s[0]] + s[1..];
      if s[0] != x {
        RemoveFirstMultiset(s[1..], x);
      }
    }
  }

  /** Appends each element of `xs` in turn, unless the list already contains it
      (`if (!list.contains(x)) list.add(x)`). */
  function Appended<T(==,!new)>(s: seq<T>, xs: seq<T>): seq<T> {
    if xs == [] then s
    else
      var p := Appended(s, xs[..|xs| - 1]);
      var last := xs[|xs| - 1];
      if last in p then p else p + [last]
  }

  /** Filtering keeps exactly the elements outside `xs`. */
  lemma {:induction false} WithoutElems<T(!new)>(s: seq<T>, xs: set<T>)
    ensures forall x :: x in Without(s, xs) <==> x in s && x !in xs
  {
    if s != [] {
      WithoutElems(s[1..], xs);
      assert forall x :: x in s <==> x == s[0] || x in s[1..];
    }
  }

  /** Appending keeps the original list as a prefix and adds exactly the elements of `xs`. */
  lemma {:induction false} AppendedElems<T(!new)>(s: seq<T>, xs: seq<T>)
    ensures forall x :: x in Appended(s, xs) <==> x in s || x in xs
    ensures |s| <= |Appended(s, xs)| && Appended(s, xs)[..|s|] == s
  {
    if xs != [] {
      var init := xs[..|xs| - 1];
      AppendedElems(s, init);
      assert xs == init + [xs[|xs| - 1]];
    }
  }

  lemma AppendAssoc<T>(a: seq<T>, b: seq<T>, c: seq<T>)
    ensures (a + b) + c == a + (b + c)
  {
  }

  lemma {:induction false} NoDupTail<T(!new)>(s: seq<T>)
    requires NoDup(s) && s != []
    ensures NoDup(s[1..]) && s[0] !in s[1..]
  {
    forall i, j | 0 <= i < j < |s[1..]| ensures s[1..][i] != s[1..][j] {
      assert s[1..][i] == s[i + 1] && s[1..][j] == s[j + 1];
    }
    forall k | 0 <= k < |s[1..]| ensures s[1..][k] != s[0] {
      assert s[1..][k] == s[k + 1];
    }
  }

  /** Filtering keeps a list free of duplicates. */
  lemma {:induction false} WithoutNoDup<T(!new)>(s: seq<T>, xs: set<T>)
    requires NoDup(s)
    ensures NoDup(Without(s, xs))
  {
    if s != [] {
      NoDupTail(s);
      WithoutNoDup(s[1..], xs);
      if s[0] !in xs {
        var t := Without(s[1..], xs);
        WithoutElems(s[1..], xs);
        assert s[0] !in t;
        forall i, j | 0 <= i < j < |[s[0]] + t| ensures ([s[0]] + t)[i] != ([s[0]] + t)[j] {
          if i == 0 {
            assert ([s[0]] + t)[j] == t[j - 1];
          } else {
            assert ([s[0]] + t)[i] == t[i - 1] && ([s[0]] + t)[j] == t[j - 1];
          }
        }
      }
    }
  }

  /** Appending only absent elements keeps a list free of duplicates. */
  lemma {:induction false} AppendedNoDup<T(!new)>(s: seq<T>, xs: seq<T>)
    requires NoDup(s)
    ensures NoDup(Appended(s, xs))
  {
    if xs != [] {
      var init := xs[..|xs| - 1];
      AppendedNoDup(s, init);
      var p := Appended(s, init);
      var last := xs[|xs| - 1];
      if last !in p {
        forall i, j | 0 <= i < j < |p + [last]| ensures (p + [last])[i] != (p + [last])[j] {
          if j == |p| {
            assert (p + [last])[i] == p[i];
          } else {
            assert (p + [last])[i] == p[i] && (p + [last])[j] == p[j];
          }
        }
      }
    }
  }

  /** On a list without duplicates, removing the first occurrence removes every occurrence. */
  lemma {:induction false} RemoveFirstIsWithout<T(!new)>(s: seq<T>, x: T)
    requires NoDup(s)
    ensures RemoveFirst(s, x) == Without(s, {x})
  {
    if s != [] {
      NoDupTail(s);
      if s[0] == x {
        WithoutAbsent(s[1..], {x});
      } else {
        RemoveFirstIsWithout(s[1..], x);
      }
    }
  }

  /** Filtering out elements that do not occur changes nothing. */
  lemma {:induction false} WithoutAbsent<T(!new)>(s: seq<T>, xs: set<T>)
    requires forall x :: x in s ==> x !in xs
    ensures Without(s, xs) == s
  {
    if s != [] {
      assert s == [s[0]] + s[1..];
      WithoutAbsent(s[1..], xs);
    }
  }

  /** Filtering twice is filtering once by the union. */
  lemma {:induction false} WithoutWithout<T(!new)>(s: seq<T>, xs: set<T>, ys: set<T>)
    ensures Without(Without(s, xs), ys) == Without(s, xs + ys)
  {
    if s != [] {
      WithoutWithout(s[1..], xs, ys);
    }
  }

  /** Appending elements that are all present already changes nothing. */
  lemma {:induction false} AppendedPresent<T(!new)>(s: seq<T>, xs: seq<T>)
    requires forall x :: x in xs ==> x in s
    ensures Appended(s, xs) == s
  {
    if xs != [] {
      var init := xs[..|xs| - 1];
      assert forall x :: x in init ==> x in xs;
      AppendedPresent(s, init);
    }
  }

  /** Filtering out every element leaves nothing. */
  lemma WithoutAll<T(!new)>(s: seq<T>, xs: set<T>)
    requires forall x :: x in s ==> x in xs
    ensures Without(s, xs) == []
  {
  }
}
