/** The diff and splice primitives of the reconciler (worker/service.go):
    `sub`, the set difference over whole-struct equality; `findServiceIndex`,
    the first-occurrence search; and the sequential splice the apply loops
    perform with `append(s[:j], s[j+1:]...)`. */
module ServiceDiff {
  import opened Models

  /** The elements of `a` that equal no element of `b`, in `a`'s order and
      with `a`'s duplicates: what `sub(A, B)` returns. */
  function Difference<T(==)>(a: seq<T>, b: seq<T>): (r: seq<T>)
    ensures |r| <= |a|
  {
    if |a| == 0 then []
    else Difference(a[..|a| - 1], b) + (if a[|a| - 1] in b then [] else [a[|a| - 1]])
  }

  /** Each element keeps all its copies in `a` unless it occurs in `b`, in
      which case none survive. */
  lemma {:induction false} DifferenceCount<T>(a: seq<T>, b: seq<T>, x: T)
    ensures multiset(Difference(a, b))[x] == if x in b then 0 else multiset(a)[x]
  {
    if |a| > 0 {
      var front, last := a[..|a| - 1], a[|a| - 1];
      assert a == front + [last];
      DifferenceCount(front, b, x);
    }
  }

  /** `sub(A, B)` holds exactly the elements of A that are not in B. */
  lemma DifferenceMembership<T>(a: seq<T>, b: seq<T>, x: T)
    ensures x in Difference(a, b) <==> x in a && x !in b
  {
    DifferenceCount(a, b, x);
    assert x in Difference(a, b) <==> multiset(Difference(a, b))[x] > 0;
    assert x in a <==> multiset(a)[x] > 0;
  }

  /** The difference works element by element, so it keeps `a`'s order:
      the difference of a concatenation is the concatenation of differences. */
  lemma {:induction false} DifferenceAppend<T>(a: seq<T>, c: seq<T>, b: seq<T>)
    ensures Difference(a + c, b) == Difference(a, b) + Difference(c, b)
    decreases |c|
  {
    if |c| == 0 {
      assert a + c == a;
    } else {
      var front := c[..|c| - 1];
      assert (a + c)[..|a + c| - 1] == a + front;
      DifferenceAppend(a, front, b);
    }
  }

  /** Subtracting nothing keeps everything; subtracting a sequence from itself
      or from nothing leaves nothing. */
  lemma {:induction false} DifferenceIdentities<T>(a: seq<T>)
    ensures Difference(a, []) == a
    ensures Difference(a, a) == []
    ensures Difference([], a) == []
  {
    DifferenceKeepsAll(a, []);
    var r := Difference(a, a);
    if |r| > 0 {
      DifferenceMembership(a, a, r[0]);
      assert false;
    }
  }

  /** When no element of `a` occurs in `b`, the difference is all of `a`. */
  lemma {:induction false} DifferenceKeepsAll<T>(a: seq<T>, b: seq<T>)
    requires forall i :: 0 <= i < |a| ==> a[i] !in b
    ensures Difference(a, b) == a
  {
    if |a| > 0 {
      DifferenceKeepsAll(a[..|a| - 1], b);
      assert a == a[..|a| - 1] + [a[|a| - 1]];
    }
  }

  /** sub: collect B's elements into a hash set, then keep A's elements that
      are not in it, appending in A's order. */
  method Sub<T(==)>(a: seq<T>, b: seq<T>) returns (r: seq<T>)
    ensures r == Difference(a, b)
  {
    var hash: set<T> := {};
    var i := 0;
    while i < |b|
      invariant 0 <= i <= |b|
      invariant forall x :: x in hash <==> x in b[..i]
    {
      assert b[..i + 1] == b[..i] + [b[i]];
      hash := hash + {b[i]};
      i := i + 1;
    }
    assert b[..|b|] == b;
    r := [];
    i := 0;
    while i < |a|
      invariant 0 <= i <= |a|
      invariant r == Difference(a[..i], b)
    {
      assert a[..i + 1][..i] == a[..i];
      if a[i] !in hash {
        r := r + [a[i]];
      }
      i := i + 1;
    }
    assert a[..|a|] == a;
  }

  /** sub(A, B) never yields more copies of an element than A holds. */
  lemma DifferenceSubMultiset<T>(a: seq<T>, b: seq<T>)
    ensures multiset(Difference(a, b)) <= multiset(a)
  {
    forall x ensures multiset(Difference(a, b))[x] <= multiset(a)[x] {
      DifferenceCount(a, b, x);
    }
  }

  /** The first index of `x` in `s`, or -1 when `x` does not occur. */
  function IndexOf<T(==)>(s: seq<T>, x: T): (i: int)
    ensures -1 <= i < |s|
    ensures i == -1 <==> x !in s
    ensures 0 <= i ==> s[i] == x && x !in s[..i]
  {
    if |s| == 0 then -1
    else if s[0] == x then 0
    else
      var j := IndexOf(s[1..], x);
      assert j >= 0 ==> s[..j + 1] == [s[0]] + s[1..][..j];
      if j < 0 then -1 else j + 1
  }

  /** findServiceIndex: scan from the front and stop at the first element
      equal to `s` (whole-struct equality), or answer -1. */
  method FindServiceIndex(s: Service, services: seq<Service>) returns (i: int)
    ensures i == IndexOf(services, s)
  {
    var k := 0;
    while k < |services|
      invariant 0 <= k <= |services|
      invariant s !in services[..k]
    {
      if services[k] == s {
        return k;
      }
      assert services[..k + 1] == services[..k] + [services[k]];
      k := k + 1;
    }
    assert services[..k] == services;
    return -1;
  }

  /** Removing, one after the other, the first occurrence of each element of
      `d` from `s`, as the apply loops do with findServiceIndex and a splice;
      None when some element is no longer there (the index is -1 and the
      slice expression `s[:-1]` panics). */
  function RemoveEach<T(==)>(s: seq<T>, d: seq<T>): Option<seq<T>>
  {
    if |d| == 0 then Some(s)
    else
      match RemoveEach(s, d[..|d| - 1])
      case None => None
      case Some(t) =>
        var j := IndexOf(t, d[|d| - 1]);
        if j < 0 then None else Some(t[..j] + t[j + 1..])
  }

  /** Splicing out index j removes one copy of t[j] and nothing else. */
  lemma SpliceMultiset<T>(t: seq<T>, j: nat)
    requires j < |t|
    ensures multiset(t[..j] + t[j + 1..]) == multiset(t) - multiset{t[j]}
  {
    assert t == t[..j] + [t[j]] + t[j + 1..];
  }

  /** Multiset facts behind one more removal. */
  lemma MultisetOneMore<T>(f: multiset<T>, s: multiset<T>, x: T)
    ensures (s - f) - multiset{x} == s - (f + multiset{x})
    ensures f + multiset{x} <= s <==> f <= s && f[x] < s[x]
  {
    forall y
      ensures ((s - f) - multiset{x})[y] == (s - (f + multiset{x}))[y]
    {
    }
    if f <= s && f[x] < s[x] {
      forall y
        ensures (f + multiset{x})[y] <= s[y]
      {
      }
    }
    if f + multiset{x} <= s {
      assert (f + multiset{x})[x] <= s[x];
      forall y
        ensures f[y] <= s[y]
      {
        assert (f + multiset{x})[y] <= s[y];
      }
    }
  }

  /** One more removal from `t`, which holds `ms` minus `mf`: it finds its
      element exactly when `mf` plus that element still fits in `ms`, and then
      leaves `ms` minus both. */
  lemma SpliceStep<T>(ms: multiset<T>, mf: multiset<T>, t: seq<T>, x: T)
    requires mf <= ms && multiset(t) == ms - mf
    ensures IndexOf(t, x) >= 0 <==> mf + multiset{x} <= ms
    ensures IndexOf(t, x) >= 0 ==>
              multiset(t[..IndexOf(t, x)] + t[IndexOf(t, x) + 1..]) == ms - (mf + multiset{x})
  {
    MultisetOneMore(mf, ms, x);
    SubtractedCount(ms, mf, x);
    assert x in t <==> x in multiset(t);
    if x in t {
      SpliceFirst(t, x);
    }
  }

  /** Splicing out the first occurrence of `x` removes one copy of `x`. */
  lemma SpliceFirst<T>(t: seq<T>, x: T)
    requires x in t
    ensures multiset(t[..IndexOf(t, x)] + t[IndexOf(t, x) + 1..]) == multiset(t) - multiset{x}
  {
    SpliceMultiset(t, IndexOf(t, x));
  }

  /** Taking away a sub-multiset takes away its count of every element. */
  lemma SubtractedCount<T>(ms: multiset<T>, mf: multiset<T>, x: T)
    requires mf <= ms
    ensures (ms - mf)[x] == ms[x] - mf[x]
  {
  }

  /** The splices all succeed exactly when `d` asks for no more copies of any
      element than `s` holds, and then they remove exactly `d`'s copies. */
  lemma {:induction false} RemoveEachMultiset<T>(s: seq<T>, d: seq<T>)
    ensures RemoveEach(s, d).Some? <==> multiset(d) <= multiset(s)
    ensures RemoveEach(s, d).Some? ==> multiset(RemoveEach(s, d).value) == multiset(s) - multiset(d)
  {
    if |d| > 0 {
      var front, x := d[..|d| - 1], d[|d| - 1];
      assert d == front + [x];
      assert multiset(d) == multiset(front) + multiset{x};
      RemoveEachMultiset(s, front);
      RemoveEachSnoc(s, front, x);
      MultisetOneMore(multiset(front), multiset(s), x);
      if RemoveEach(s, front).Some? {
        SpliceStep(multiset(s), multiset(front), RemoveEach(s, front).value, x);
      }
    }
  }

  /** Splicing out copies of elements that the sequence holds never fails. */
  lemma RemoveEachSucceeds<T>(s: seq<T>, d: seq<T>)
    requires multiset(d) <= multiset(s)
    ensures RemoveEach(s, d).Some?
  {
    RemoveEachMultiset(s, d);
  }

  /** Once a splice fails, every longer run of splices fails too. */
  lemma {:induction false} RemoveEachFailureSticks<T>(s: seq<T>, d: seq<T>, i: nat)
    requires i <= |d|
    requires RemoveEach(s, d[..i]).None?
    ensures RemoveEach(s, d).None?
    decreases |d| - i
  {
    if i < |d| {
      assert d[..i + 1][..i] == d[..i];
      RemoveEachFailureSticks(s, d, i + 1);
    } else {
      assert d[..i] == d;
    }
  }

  /** One step of the apply loop: when the first i removals succeeded with
      result `t` and the next element is at index j of `t`, the first i+1
      removals succeed with `t` spliced at j. */
  lemma RemoveEachStep<T>(s: seq<T>, d: seq<T>, i: nat, t: seq<T>)
    requires i < |d|
    requires RemoveEach(s, d[..i]) == Some(t)
    ensures RemoveEach(s, d[..i + 1]) ==
              (var j := IndexOf(t, d[i]); if j < 0 then None else Some(t[..j] + t[j + 1..]))
  {
    assert d[..i + 1] == d[..i] + [d[i]];
    RemoveEachSnoc(s, d[..i], d[i]);
  }

  /** Removing one more element acts on the result of the earlier removals. */
  lemma RemoveEachSnoc<T>(s: seq<T>, p: seq<T>, x: T)
    ensures RemoveEach(s, p + [x]) ==
              match RemoveEach(s, p)
              case None => None
              case Some(t) => (var j := IndexOf(t, x); if j < 0 then None else Some(t[..j] + t[j + 1..]))
  {
    assert (p + [x])[..|p|] == p;
  }

  /** A single removal splices out the first occurrence, or fails. */
  lemma RemoveEachOne<T>(s: seq<T>, x: T)
    ensures RemoveEach(s, [x]) ==
              (var j := IndexOf(s, x); if j < 0 then None else Some(s[..j] + s[j + 1..]))
  {
    assert [x][..0] == [];
  }

  /** Every element occurs at most once. */
  predicate NoDuplicates<T(==)>(s: seq<T>) {
    forall i, j :: 0 <= i < j < |s| ==> s[i] != s[j]
  }

  /** Without duplicates every element is counted at most once. */
  lemma {:induction false} NoDuplicatesCount<T>(s: seq<T>, x: T)
    requires NoDuplicates(s)
    ensures multiset(s)[x] <= 1
  {
    if |s| > 0 {
      var front, last := s[..|s| - 1], s[|s| - 1];
      assert s == front + [last];
      NoDuplicatesCount(front, x);
      if last == x {
        assert x !in front by {
          forall k | 0 <= k < |front| ensures front[k] != x {
            assert s[k] != s[|s| - 1];
          }
        }
      }
    }
  }

  /** Conversely, a sequence that counts every element at most once has no
      duplicates. */
  lemma CountsBoundNoDuplicates<T>(s: seq<T>)
    requires forall x :: multiset(s)[x] <= 1
    ensures NoDuplicates(s)
  {
    forall i, j | 0 <= i < j < |s| ensures s[i] != s[j] {
      assert s == s[..j] + s[j..];
      assert s[j] == s[j..][0];
      // s[j] already uses its one count in s[j..], so s[..j] has none
      assert multiset(s)[s[j]] == multiset(s[..j])[s[j]] + multiset(s[j..])[s[j]];
      assert multiset(s[j..])[s[j]] >= 1;
      assert multiset(s[..j])[s[j]] == 0;
      assert s[i] in s[..j];
    }
  }

  /** When every element of `a` occurs in `b`, nothing is left of `a`. */
  lemma DifferenceEmpty<T>(a: seq<T>, b: seq<T>)
    requires forall i :: 0 <= i < |a| ==> a[i] in b
    ensures Difference(a, b) == []
  {
    var r := Difference(a, b);
    if |r| > 0 {
      DifferenceMembership(a, b, r[0]);
    }
  }
}
