/** Sequence vocabulary shared by the other modules. */
module Seqs {
  ghost predicate Distinct<T>(s: seq<T>) {
    forall i, j :: 0 <= i < j < |s| ==> s[i] != s[j]
  }

  /** The elements of a sequence, as a set. */
  ghost function Elems<T>(s: seq<T>): set<T> {
    set x | x in s
  }

  lemma ElemsSnoc<T>(s: seq<T>, x: T)
    ensures Elems(s + [x]) == Elems(s) + {x}
  {
  }

  lemma ElemsNone<T>(s: seq<T>)
    ensures Elems(s) == {} <==> s == []
  {
    if s == [] {
    } else {
      assert s[0] in Elems(s);
    }
  }

  /** The first element of a duplicate-free sequence, and the rest. */
  lemma SplitFirst<T>(s: seq<T>)
    requires s != [] && Distinct(s)
    ensures s[0] !in Elems(s[1..]) && Distinct(s[1..]) && Elems(s) == Elems(s[1..]) + {s[0]}
  {
    assert s == [s[0]] + s[1..];
  }

  /** One more element of a prefix. */
  lemma TakeSnoc<T>(s: seq<T>, i: nat)
    requires i < |s|
    ensures Elems(s[..i + 1]) == Elems(s[..i]) + {s[i]}
    ensures Distinct(s) ==> s[i] !in s[..i]
  {
    assert s[..i + 1] == s[..i] + [s[i]];
  }

  lemma ConcatDistinct<T>(a: seq<T>, b: seq<T>)
    requires Distinct(a) && Distinct(b) && forall x :: x in a ==> x !in b
    ensures Distinct(a + b)
  {
    forall i, j | 0 <= i < j < |a + b| ensures (a + b)[i] != (a + b)[j] {
      assert i < |a| ==> (a + b)[i] in a;
      assert j >= |a| ==> (a + b)[j] in b;
    }
  }

  /** The elements among the first `n` of `s` that lie in `keep`, in their order. */
  ghost function KeepTo<T>(s: seq<T>, n: nat, keep: set<T>): seq<T>
    requires n <= |s|
  {
    if n == 0 then [] else KeepTo(s, n - 1, keep) + if s[n - 1] in keep then [s[n - 1]] else []
  }

  /** The sub-sequence of `s` whose elements lie in `keep`. */
  ghost function Keep<T>(s: seq<T>, keep: set<T>): seq<T> {
    KeepTo(s, |s|, keep)
  }

  lemma KeepNone<T>(s: seq<T>, keep: set<T>)
    ensures KeepTo(s, 0, keep) == []
  {
  }

  lemma {:induction false} KeepToMembers<T>(s: seq<T>, n: nat, keep: set<T>)
    requires n <= |s|
    ensures forall x :: x in KeepTo(s, n, keep) ==> x in s && x in keep
    ensures forall i :: 0 <= i < n && s[i] in keep ==> s[i] in KeepTo(s, n, keep)
  {
    if n == 0 {
    } else {
      KeepToMembers(s, n - 1, keep);
    }
  }

  lemma KeepMembers<T>(s: seq<T>, keep: set<T>)
    ensures forall x :: x in Keep(s, keep) <==> x in s && x in keep
  {
    KeepToMembers(s, |s|, keep);
  }

  lemma {:induction false} KeepDistinct<T>(s: seq<T>, n: nat, keep: set<T>)
    requires n <= |s| && Distinct(s)
    ensures Distinct(KeepTo(s, n, keep))
    ensures forall i :: n <= i < |s| ==> s[i] !in KeepTo(s, n, keep)
  {
    if n == 0 {
    } else {
      KeepToMembers(s, n - 1, keep);
      KeepDistinct(s, n - 1, keep);
    }
  }

  /** Only the part of `keep` that occurs in `s` matters. */
  lemma {:induction false} KeepSame<T>(s: seq<T>, n: nat, a: set<T>, b: set<T>)
    requires n <= |s|
    requires forall x :: x in s ==> (x in a <==> x in b)
    ensures KeepTo(s, n, a) == KeepTo(s, n, b)
  {
    if n == 0 {
    } else {
      KeepSame(s, n - 1, a, b);
    }
  }

  /** A duplicate-free sequence is as long as its set of elements. */
  lemma {:induction false} DistinctSize<T>(s: seq<T>)
    requires Distinct(s)
    ensures |Elems(s)| == |s|
  {
    if s == [] {
      assert Elems(s) == {};
    } else {
      var front, last := s[..|s| - 1], s[|s| - 1];
      DistinctSize(front);
      assert Elems(s) == Elems(front) + {last};
      assert last !in Elems(front);
    }
  }

  lemma UpdateTwice<K, V>(m: map<K, V>, k: K, a: V, b: V)
    ensures m[k := a][k := b] == m[k := b]
  {
  }

  lemma SubsetSize<T>(a: set<T>, b: set<T>)
    requires a <= b
    ensures |a| <= |b|
  {
    assert b == a + (b - a);
  }

  lemma {:induction false} ElemsSize<T>(s: seq<T>)
    ensures |Elems(s)| <= |s|
  {
    if s == [] {
      assert Elems(s) == {};
    } else {
      var front, last := s[..|s| - 1], s[|s| - 1];
      ElemsSize(front);
      assert Elems(s) == Elems(front) + {last};
    }
  }

  /** A sub-multiset of the same size is everything, and it inherits distinctness. */
  lemma SubMembers<T>(s: seq<T>, all: seq<T>)
    requires multiset(s) <= multiset(all)
    ensures forall x :: x in s ==> x in all
    ensures |s| == |all| ==> forall x :: x in all ==> x in s
    ensures Distinct(all) ==> Distinct(s)
  {
    forall x | x in s ensures x in all {
      assert x in multiset(s) && multiset(s)[x] <= multiset(all)[x];
    }
    if |s| == |all| {
      assert |multiset(all) - multiset(s)| == 0;
      assert multiset(s) == multiset(all);
      forall x | x in all ensures x in s {
        assert x in multiset(all);
      }
    }
    if Distinct(all) {
      DistinctCounts(all);
      assert forall x :: multiset(s)[x] <= multiset(all)[x];
      CountsDistinct(s);
    }
  }

  lemma {:induction false} DistinctCounts<T>(s: seq<T>)
    requires Distinct(s)
    ensures forall x :: multiset(s)[x] <= 1
  {
    if s == [] {
    } else {
      var front, last := s[..|s| - 1], s[|s| - 1];
      DistinctCounts(front);
      assert s == front + [last];
      assert last !in front;
    }
  }

  lemma {:induction false} CountsDistinct<T>(s: seq<T>)
    requires forall x :: multiset(s)[x] <= 1
    ensures Distinct(s)
  {
    forall i, j | 0 <= i < j < |s| ensures s[i] != s[j] {
      assert s == s[..j] + [s[j]] + s[j + 1..];
      assert s[i] == s[..j][i];
      assert multiset(s)[s[j]] == multiset(s[..j])[s[j]] + 1 + multiset(s[j + 1..])[s[j]];
    }
  }

  lemma SnocDistinct<T>(s: seq<T>, x: T)
    ensures Distinct(s + [x]) <==> Distinct(s) && x !in s
  {
    if Distinct(s + [x]) {
      forall i, j | 0 <= i < j < |s| ensures s[i] != s[j] {
        assert (s + [x])[i] != (s + [x])[j];
      }
      forall i | 0 <= i < |s| ensures s[i] != x {
        assert (s + [x])[i] != (s + [x])[|s|];
      }
    }
  }

  /** Against a duplicate-free sequence of the same elements, the counts agree exactly if the other
      is duplicate-free as well. */
  lemma SameCounts<T>(a: seq<T>, b: seq<T>)
    requires Distinct(a) && Elems(a) == Elems(b)
    ensures multiset(a) == multiset(b) <==> Distinct(b)
  {
    DistinctCounts(a);
    if Distinct(b) {
      DistinctCounts(b);
      forall x ensures multiset(a)[x] == multiset(b)[x] {
        assert x in multiset(a) <==> x in Elems(a);
        assert x in multiset(b) <==> x in Elems(b);
      }
    }
    if multiset(a) == multiset(b) {
      CountsDistinct(b);
    }
  }
}
