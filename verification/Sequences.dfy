/** Small facts about sequences, each proved once so that larger proofs need not rediscover it. */
module Sequences {
  lemma Assoc<T>(a: seq<T>, b: seq<T>, c: seq<T>)
    ensures (a + b) + c == a + (b + c)
  {
  }

  lemma DropTwice<T>(a: seq<T>, m: nat, n: nat)
    requires m + n <= |a|
    ensures a[m..][n..] == a[m + n..]
  {
  }

  lemma DropOfAppend<T>(a: seq<T>, b: seq<T>, k: nat)
    requires k <= |a|
    ensures (a + b)[k..] == a[k..] + b
  {
  }

  lemma TailOfPrefix<T>(a: seq<T>, k: nat)
    requires 0 < k <= |a|
    ensures a[..k][1..] == a[1..][..k - 1]
  {
  }

  /** Cutting a concatenation inside its first or its second part. */
  lemma TakeOfAppend<T>(a: seq<T>, b: seq<T>, k: nat)
    requires k <= |a|
    ensures (a + b)[..k] == a[..k]
  {
  }

  lemma CutBeyond<T>(a: seq<T>, b: seq<T>, k: nat)
    requires k <= |b|
    ensures (a + b)[..|a| + k] == a + b[..k]
    ensures (a + b)[|a| + k..] == b[k..]
  {
  }

  predicate Grown<T(!new)>(p: seq<T> -> bool, s: seq<T>, x: T) {
    p(s) ==> p(s + [x])
  }

  lemma {:induction false} ByAppending<T(!new)>(p: seq<T> -> bool, s: seq<T>)
    requires p([]) && forall t, x :: Grown(p, t, x)
    ensures p(s)
  {
    if s != [] {
      var init, last := s[..|s| - 1], s[|s| - 1];
      ByAppending(p, init);
      assert Grown(p, init, last) && s == init + [last];
    }
  }

  // ---- Filtering ----

  /** The elements other than x, in their order. */
  function Without<T(==,!new)>(s: seq<T>, x: T): (r: seq<T>)
    ensures forall y :: y in r <==> y in s && y != x
    ensures x !in s ==> r == s
  {
    if s == [] then []
    else (if s[0] == x then [] else [s[0]]) + Without(s[1..], x)
  }

  /** The elements of a occur in b in the same order. */
  ghost predicate Subsequence<T>(a: seq<T>, b: seq<T>) {
    a == [] || (b != [] && Subsequence(if a[0] == b[0] then a[1..] else a, b[1..]))
  }

  /** Removing an element keeps the others in order, */
  lemma {:induction false} WithoutKeepsOrder<T(!new)>(s: seq<T>, x: T)
    ensures Subsequence(Without(s, x), s)
  {
    if s != [] {
      WithoutKeepsOrder(s[1..], x);
      var rest := Without(s[1..], x);
      if s[0] != x {
        assert Without(s, x) == [s[0]] + rest;
        assert Without(s, x)[1..] == rest;
      } else if rest != [] {
        assert Without(s, x) == rest && rest[0] in rest;
      }
    }
  }

  /** and as often as they were there. */
  lemma {:induction false} WithoutKeepsCounts<T(!new)>(s: seq<T>, x: T)
    ensures multiset(Without(s, x)) == multiset(s)[x := 0]
  {
    if s != [] {
      WithoutKeepsCounts(s[1..], x);
      assert s == [s[0]] + s[1..];
      assert multiset(s) == multiset{s[0]} + multiset(s[1..]);
    }
  }

  predicate NoDuplicates<T(==)>(s: seq<T>) {
    forall i, j :: 0 <= i < j < |s| ==> s[i] != s[j]
  }

  /** Where x occurs first, or the length when it does not. */
  function FirstIndex<T(==)>(s: seq<T>, x: T): (n: nat)
    ensures n <= |s|
    ensures forall i :: 0 <= i < n ==> s[i] != x
    ensures n < |s| ==> s[n] == x
  {
    if s == [] || s[0] == x then 0 else 1 + FirstIndex(s[1..], x)
  }

  lemma FirstIndexGrows<T>(s: seq<T>, last: T, x: T)
    ensures FirstIndex(s + [last], x) == if x in s then FirstIndex(s, x) else if x == last then |s| else |s| + 1
  {
    var n, m := FirstIndex(s + [last], x), FirstIndex(s, x);
    assert m < |s| ==> (s + [last])[m] == x;
    assert (s + [last])[|s|] == last;
    assert forall i :: 0 <= i < |s| ==> (s + [last])[i] == s[i];
  }

  // ---- Concatenation ----

  function Flat<T>(parts: seq<seq<T>>): seq<T> {
    if parts == [] then [] else parts[0] + Flat(parts[1..])
  }

  lemma {:induction false} FlatSplit<T>(parts: seq<seq<T>>, k: nat)
    requires k <= |parts|
    ensures Flat(parts) == Flat(parts[..k]) + Flat(parts[k..])
  {
    if k > 0 {
      FlatSplit(parts[1..], k - 1);
      TailOfPrefix(parts, k);
      DropTwice(parts, 1, k - 1);
      Assoc(parts[0], Flat(parts[1..][..k - 1]), Flat(parts[k..]));
    } else {
      assert parts[0..] == parts;
    }
  }

  lemma FlatAppend<T>(parts: seq<seq<T>>, part: seq<T>)
    ensures Flat(parts + [part]) == Flat(parts) + part
  {
    var all := parts + [part];
    FlatSplit(all, |parts|);
    assert all[..|parts|] == parts && all[|parts|..] == [part];
    assert Flat([part]) == part + Flat([]);
  }

  // ---- Mapping ----

  function Mapped<A, B>(f: A -> B, s: seq<A>, n: nat): (r: seq<B>)
    requires n <= |s|
    ensures |r| == n
  {
    if n == 0 then [] else Mapped(f, s, n - 1) + [f(s[n - 1])]
  }

  lemma {:induction false} MappedAt<A, B>(f: A -> B, s: seq<A>, n: nat, i: nat)
    requires i < n <= |s|
    ensures Mapped(f, s, n)[i] == f(s[i])
  {
    if i < n - 1 {
      MappedAt(f, s, n - 1, i);
    }
  }
}
