/** Go's string order, sorting by it, and de-duplication in place. */
module Ordering {
  import opened ByteStrings

  // ---------- the order of strings ----------

  /** The < of Go strings: lexicographic, byte by byte. */
  predicate Less(a: Bytes, b: Bytes) {
    b != [] && (a == [] || a[0] < b[0] || (a[0] == b[0] && Less(a[1..], b[1..])))
  }

  lemma {:induction false} LessIsStrict(a: Bytes, b: Bytes)
    requires Less(a, b)
    ensures !Less(b, a) && a != b
  {
    if a != [] && a[0] == b[0] {
      LessIsStrict(a[1..], b[1..]);
    }
  }

  lemma {:induction false} LessIsTotal(a: Bytes, b: Bytes)
    ensures Less(a, b) || Less(b, a) || a == b
  {
    if a != [] && b != [] && a[0] == b[0] {
      LessIsTotal(a[1..], b[1..]);
      assert a == [a[0]] + a[1..] && b == [b[0]] + b[1..];
    }
  }

  lemma {:induction false} LessIsTransitive(a: Bytes, b: Bytes, c: Bytes)
    requires Less(a, b) && Less(b, c)
    ensures Less(a, c)
  {
    if a != [] && a[0] == b[0] == c[0] {
      LessIsTransitive(a[1..], b[1..], c[1..]);
    }
  }

  lemma NotLessIsTransitive(a: Bytes, b: Bytes, c: Bytes)
    requires !Less(a, b) && !Less(b, c)
    ensures !Less(a, c)
  {
    LessIsTotal(a, b);
    LessIsTotal(b, c);
    if b != a && c != b {
      LessIsTransitive(c, b, a);
      LessIsStrict(c, a);
    }
  }

  /** At this position the texts differ for the first time: there a ends, or has the smaller byte. */
  predicate SmallerAt(a: Bytes, b: Bytes, k: nat) {
    k <= |a| && k < |b| && a[..k] == b[..k] && (k == |a| || a[k] < b[k])
  }

  /** The order is that of the first difference. */
  lemma {:induction false} LessAtFirstDifference(a: Bytes, b: Bytes)
    ensures Less(a, b) <==> exists k: nat :: SmallerAt(a, b, k)
  {
    if b != [] && (a == [] || a[0] < b[0]) {
      assert SmallerAt(a, b, 0);
    } else if b != [] && a[0] == b[0] {
      LessAtFirstDifference(a[1..], b[1..]);
      DifferenceOneLater(a, b);
    } else {
      NoDifference(a, b);
    }
  }

  lemma HeadsInOrder(a: Bytes, b: Bytes, k: nat)
    ensures SmallerAt(a, b, k) && a != [] ==> b != [] && a[0] <= b[0]
  {
    if SmallerAt(a, b, k) && k > 0 {
      assert a[0] == a[..k][0] && b[0] == b[..k][0];
    }
  }

  lemma NoDifference(a: Bytes, b: Bytes)
    requires b == [] || (a != [] && a[0] > b[0])
    ensures forall k: nat :: !SmallerAt(a, b, k)
  {
    forall k: nat
      ensures !SmallerAt(a, b, k)
    {
      HeadsInOrder(a, b, k);
    }
  }

  lemma DifferenceOneLater(a: Bytes, b: Bytes)
    requires a != [] && b != [] && a[0] == b[0]
    ensures (exists k: nat :: SmallerAt(a, b, k)) <==> exists k: nat :: SmallerAt(a[1..], b[1..], k)
  {
    if k: nat :| SmallerAt(a, b, k) {
      assert k > 0;
      assert a[1..][..k - 1] == a[..k][1..] && b[1..][..k - 1] == b[..k][1..];
      assert SmallerAt(a[1..], b[1..], k - 1);
    }
    if k: nat :| SmallerAt(a[1..], b[1..], k) {
      assert a[..k + 1] == [a[0]] + a[1..][..k] && b[..k + 1] == [b[0]] + b[1..][..k];
      assert SmallerAt(a, b, k + 1);
    }
  }

  // ---------- sorting ----------

  ghost predicate Descending<T>(s: seq<T>, key: T -> Bytes) {
    forall i, j :: 0 <= i < j < |s| ==> !Less(key(s[i]), key(s[j]))
  }

  function Insert<T>(x: T, s: seq<T>, key: T -> Bytes): seq<T> {
    if s == [] || !Less(key(x), key(s[0])) then [x] + s else [s[0]] + Insert(x, s[1..], key)
  }

  function Sorted<T>(s: seq<T>, key: T -> Bytes): seq<T> {
    if s == [] then [] else Insert(s[0], Sorted(s[1..], key), key)
  }

  lemma {:induction false} InsertKeeps<T>(x: T, s: seq<T>, key: T -> Bytes)
    ensures multiset(Insert(x, s, key)) == multiset{x} + multiset(s)
  {
    if s != [] && Less(key(x), key(s[0])) {
      InsertKeeps(x, s[1..], key);
      assert s == [s[0]] + s[1..];
    }
  }

  lemma {:induction false} InsertSorts<T>(x: T, s: seq<T>, key: T -> Bytes)
    requires Descending(s, key)
    ensures Descending(Insert(x, s, key), key)
  {
    var r := Insert(x, s, key);
    if s == [] {
    } else if !Less(key(x), key(s[0])) {
      forall j | 0 < j < |r|
        ensures !Less(key(x), key(r[j]))
      {
        if j > 1 {
          NotLessIsTransitive(key(x), key(s[0]), key(s[j - 1]));
        }
      }
    } else {
      var rest := Insert(x, s[1..], key);
      InsertSorts(x, s[1..], key);
      InsertKeeps(x, s[1..], key);
      LessIsStrict(key(x), key(s[0]));
      forall j | 0 < j < |r|
        ensures !Less(key(s[0]), key(r[j]))
      {
        assert r[j] == rest[j - 1];
        assert r[j] in multiset(rest);
        assert r[j] == x || r[j] in s[1..];
      }
    }
  }

  lemma {:induction false} SortedIsSorted<T>(s: seq<T>, key: T -> Bytes)
    ensures multiset(Sorted(s, key)) == multiset(s) && Descending(Sorted(s, key), key)
  {
    if s != [] {
      SortedIsSorted(s[1..], key);
      InsertKeeps(s[0], Sorted(s[1..], key), key);
      InsertSorts(s[0], Sorted(s[1..], key), key);
      assert s == [s[0]] + s[1..];
    }
  }

  /** sort.Slice with the comparison "key of i > key of j". Which of the sorted orders comes
      out is left open where keys are equal. */
  method SortDescending<T>(a: array<T>, key: T -> Bytes)
    modifies a
    ensures multiset(a[..]) == multiset(old(a[..])) && Descending(a[..], key)
  {
    var s := Sorted(a[..], key);
    SortedIsSorted(a[..], key);
    SameSize(s, a[..]);
    forall i | 0 <= i < a.Length {
      a[i] := s[i];
    }
    assert a[..] == s;
  }

  /** The key tells the elements of a list apart. */
  ghost predicate KeysDiffer<T>(s: seq<T>, key: T -> Bytes) {
    forall x, y :: x in s && y in s && key(x) == key(y) ==> x == y
  }

  /** Elements with different keys have only one descending order. */
  lemma {:induction false} DescendingIsUnique<T>(a: seq<T>, b: seq<T>, key: T -> Bytes)
    requires multiset(a) == multiset(b) && Descending(a, key) && Descending(b, key) && KeysDiffer(a, key)
    ensures a == b
    decreases |a|
  {
    SameSize(a, b);
    if a != [] {
      HeadsAgree(a, b, key);
      WithoutHead(a);
      WithoutHead(b);
      DescendingIsUnique(a[1..], b[1..], key);
      assert a == [a[0]] + a[1..] && b == [b[0]] + b[1..];
    }
  }

  lemma WithoutHead<T>(s: seq<T>)
    requires s != []
    ensures multiset(s[1..]) == multiset(s) - multiset{s[0]}
  {
    assert s == [s[0]] + s[1..];
  }

  lemma SameSize<T>(a: seq<T>, b: seq<T>)
    requires multiset(a) == multiset(b)
    ensures |a| == |b|
  {
    assert |a| == |multiset(a)| && |b| == |multiset(b)|;
  }

  lemma HeadsAgree<T>(a: seq<T>, b: seq<T>, key: T -> Bytes)
    requires a != [] && |a| == |b| && multiset(a) == multiset(b) && Descending(a, key) && Descending(b, key)
    requires KeysDiffer(a, key)
    ensures a[0] == b[0]
  {
    assert a[0] in multiset(b) && b[0] in multiset(a);
    var i :| 0 <= i < |a| && a[i] == b[0];
    var j :| 0 <= j < |b| && b[j] == a[0];
    LessIsTotal(key(a[0]), key(b[0]));
  }

  /** Taking one element out of a list. */
  lemma Without<T>(s: seq<T>, j: nat)
    requires j < |s|
    ensures multiset(s[..j] + s[j + 1..]) == multiset(s) - multiset{s[j]}
    ensures multiset(s) == multiset{s[j]} + multiset(s[..j] + s[j + 1..])
  {
    assert s == s[..j] + [s[j]] + s[j + 1..];
  }

  ghost predicate NoRepeats<T>(s: seq<T>) {
    forall i, j :: 0 <= i < j < |s| ==> s[i] != s[j]
  }

  /** Two lists without repetitions and with the same elements are permutations. */
  lemma {:induction false} SameElements<T>(a: seq<T>, b: seq<T>)
    requires NoRepeats(a) && NoRepeats(b) && forall x :: x in a <==> x in b
    ensures multiset(a) == multiset(b)
  {
    forall x
      ensures multiset(a)[x] == multiset(b)[x]
    {
      CountOnce(a, x);
      CountOnce(b, x);
    }
  }

  lemma {:induction false} CountOnce<T>(a: seq<T>, x: T)
    requires NoRepeats(a)
    ensures multiset(a)[x] == if x in a then 1 else 0
  {
    if a != [] {
      CountOnce(a[1..], x);
      assert a == [a[0]] + a[1..];
      assert multiset(a) == multiset{a[0]} + multiset(a[1..]);
    }
  }

  lemma PermutationNoRepeats<T>(a: seq<T>, b: seq<T>)
    requires NoRepeats(a) && multiset(a) == multiset(b)
    ensures NoRepeats(b)
  {
    forall i, j | 0 <= i < j < |b|
      ensures b[i] != b[j]
    {
      if b[i] == b[j] {
        CountOnce(a, b[i]);
        CountTwice(b, i, j);
      }
    }
  }

  lemma CountTwice<T>(b: seq<T>, i: nat, j: nat)
    requires i < j < |b| && b[i] == b[j]
    ensures multiset(b)[b[i]] >= 2
  {
    assert b == b[..i] + [b[i]] + b[i + 1..j] + [b[j]] + b[j + 1..];
  }

  function Map<S, T>(s: seq<S>, f: S -> T): (r: seq<T>)
    ensures |r| == |s|
  {
    seq(|s|, i requires 0 <= i < |s| => f(s[i]))
  }

  /** Mapping a permutation gives a permutation. */
  lemma {:induction false} MapPermutes<S, T>(a: seq<S>, b: seq<S>, f: S -> T)
    requires multiset(a) == multiset(b)
    ensures multiset(Map(a, f)) == multiset(Map(b, f))
    decreases |a|
  {
    SameSize(a, b);
    if a != [] {
      assert a[0] in multiset(b);
      var j :| 0 <= j < |b| && b[j] == a[0];
      var b' := b[..j] + b[j + 1..];
      WithoutHead(a);
      Without(b, j);
      MapPermutes(a[1..], b', f);
      MapHead(a, f);
      MapWithout(b, j, f);
    }
  }

  lemma MapHead<S, T>(s: seq<S>, f: S -> T)
    requires s != []
    ensures multiset(Map(s, f)) == multiset{f(s[0])} + multiset(Map(s[1..], f))
  {
    assert Map(s, f) == [f(s[0])] + Map(s[1..], f);
  }

  lemma MapWithout<S, T>(s: seq<S>, j: nat, f: S -> T)
    requires j < |s|
    ensures multiset(Map(s, f)) == multiset{f(s[j])} + multiset(Map(s[..j] + s[j + 1..], f))
  {
    Without(Map(s, f), j);
    assert Map(s[..j] + s[j + 1..], f) == Map(s, f)[..j] + Map(s, f)[j + 1..];
  }

  // ---------- de-duplication ----------

  /** The elements of a list at their first occurrences, in order. */
  function FirstOccurrences<T(==)>(s: seq<T>): seq<T> {
    if s == [] then []
    else
      var n := |s| - 1;
      FirstOccurrences(s[..n]) + if s[n] in s[..n] then [] else [s[n]]
  }

  /** UniquifyStrings and UniquifyAddresses: the slice that is read is also written; the result
      is its first j elements. */
  method Uniquify<T(==)>(s: array<T>) returns (j: nat)
    modifies s
    ensures j <= s.Length && s[..j] == FirstOccurrences(old(s[..]))
    ensures s[j..] == old(s[j..])
  {
    var seen: set<T> := {};
    ghost var start := s[..];
    j := 0;
    for i := 0 to s.Length
      invariant j <= i && s[..j] == FirstOccurrences(start[..i])
      invariant s[j..] == start[j..]
      invariant forall x :: x in seen <==> x in start[..i]
    {
      var v := s[i];
      assert v == start[i];
      FirstOccurrencesOneMore(start, i);
      if v !in seen {
        seen := seen + {v};
        s[j] := v;
        j := j + 1;
      }
    }
    assert start[..s.Length] == start;
  }

  lemma FirstOccurrencesOneMore<T>(s: seq<T>, i: nat)
    requires i < |s|
    ensures FirstOccurrences(s[..i + 1]) == FirstOccurrences(s[..i]) + if s[i] in s[..i] then [] else [s[i]]
    ensures forall x :: x in s[..i + 1] <==> x in s[..i] || x == s[i]
  {
    assert s[..i + 1][..i] == s[..i];
    assert s[..i + 1] == s[..i] + [s[i]];
  }

  /** De-duplication keeps the elements and repeats none. */
  lemma {:induction false} FirstOccurrencesElements<T>(s: seq<T>)
    ensures NoRepeats(FirstOccurrences(s))
    ensures forall x :: x in FirstOccurrences(s) <==> x in s
  {
    if s != [] {
      var n := |s| - 1;
      FirstOccurrencesElements(s[..n]);
      assert s == s[..n] + [s[n]];
    }
  }

  /** Position i holds the first occurrence of its element. */
  ghost predicate IsFirst<T>(s: seq<T>, i: nat) {
    i < |s| && s[i] !in s[..i]
  }

  /** `at` lists, in order, the positions of exactly the first occurrences in s, and `kept` the
      elements there. */
  ghost predicate FirstPositions<T>(s: seq<T>, at: seq<nat>, kept: seq<T>) {
    && |at| == |kept|
    && (forall k :: 0 <= k < |at| ==> IsFirst(s, at[k]) && kept[k] == s[at[k]])
    && (forall k, l :: 0 <= k < l < |at| ==> at[k] < at[l])
    && (forall i :: IsFirst(s, i) ==> i in at)
  }

  /** De-duplication keeps exactly the first occurrences, in their order. */
  lemma {:induction false} FirstOccurrencesPositions<T>(s: seq<T>) returns (at: seq<nat>)
    ensures FirstPositions(s, at, FirstOccurrences(s))
  {
    at := [];
    if s != [] {
      var n := |s| - 1;
      at := FirstOccurrencesPositions(s[..n]);
      PositionsStay(s, n, at, FirstOccurrences(s[..n]));
      if s[n] !in s[..n] {
        at := at + [n];
      }
    }
  }

  lemma IsFirstStays<T>(s: seq<T>, n: nat, i: nat)
    requires n <= |s| && i < n
    ensures IsFirst(s[..n], i) <==> IsFirst(s, i)
  {
    assert s[..n][..i] == s[..i];
  }

  lemma PositionsStay<T>(s: seq<T>, n: nat, at: seq<nat>, kept: seq<T>)
    requires |s| == n + 1 && FirstPositions(s[..n], at, kept)
    ensures s[n] in s[..n] ==> FirstPositions(s, at, kept)
    ensures s[n] !in s[..n] ==> FirstPositions(s, at + [n], kept + [s[n]])
  {
    forall i | 0 <= i < n
      ensures IsFirst(s[..n], i) <==> IsFirst(s, i)
    {
      IsFirstStays(s, n, i);
    }
    if s[n] !in s[..n] {
      assert IsFirst(s, n) && (at + [n])[|at|] == n;
    }
  }
}
