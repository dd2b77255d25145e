/**
  A root commits to the leaves and to their proofs: two different lists of the same length
  (or two different accepted proofs with the same directions) expose a collision of the hash
  function, and the functions below name that collision.
 */
module Binding {
  import opened ByteStrings
  import opened Merkle

  predicate IsCollision(h: Hasher, c: (Bytes, Bytes)) {
    c.0 != c.1 && h(c.0) == h(c.1)
  }

  predicate HashSized(values: seq<Bytes>) {
    forall i :: 0 <= i < |values| ==> |values[i]| == 32
  }

  /** From two inputs with the same digest: the inputs of the hash application that collides. */
  function Expose(h: Hasher, twice: bool, x: Bytes, y: Bytes): (c: (Bytes, Bytes))
    requires x != y && Digest(h, twice, x) == Digest(h, twice, y)
    ensures IsCollision(h, c)
  {
    if twice && h(x) != h(y) then (h(x), h(y)) else (x, y)
  }

  function FirstDifference(a: seq<Bytes>, b: seq<Bytes>): (i: nat)
    requires |a| == |b| && a != b
    ensures i < |a| && a[i] != b[i]
    decreases |a|
  {
    if a[0] != b[0] then 0
    else
      assert a == [a[0]] + a[1..] && b == [b[0]] + b[1..];
      1 + FirstDifference(a[1..], b[1..])
  }

  /** What is hashed into the parent of nodes 2j and 2j+1, when that parent is a digest. */
  function Preimage(level: seq<Bytes>, j: nat): Bytes
    requires 2 * j < |level|
  {
    level[2 * j] + if 2 * j + 1 < |level| then level[2 * j + 1] else level[2 * j]
  }

  lemma ParentIsDigest(h: Hasher, m: Mode, level: seq<Bytes>, j: nat)
    requires 2 * j < |level|
    ensures 2 * j + 1 < |level| || m.dup ==> ParentAt(h, m, level, j) == Digest(h, m.twice, Preimage(level, j))
    ensures HashSized(level) ==> |ParentAt(h, m, level, j)| == 32
  {
  }

  lemma ParentsHashSized(h: Hasher, m: Mode, level: seq<Bytes>)
    requires HashSized(level)
    ensures HashSized(Parents(h, m, level))
  {
  }

  /** Concatenations whose first parts have the same size are equal only part by part. */
  lemma ConcatIsInjective(a: Bytes, b: Bytes, c: Bytes, d: Bytes)
    requires |a| == |c|
    ensures a + b == c + d <==> a == c && b == d
  {
    assert a == (a + b)[..|a|] && b == (a + b)[|a|..];
    assert c == (c + d)[..|c|] && d == (c + d)[|c|..];
  }

  /** A level is determined by its parents, unless there is a collision right here. */
  lemma DifferenceBelowEqualParents(h: Hasher, m: Mode, a: seq<Bytes>, b: seq<Bytes>)
    requires |a| == |b| && a != b && HashSized(a) && HashSized(b)
    requires Parents(h, m, a) == Parents(h, m, b)
    ensures var j := FirstDifference(a, b) / 2;
            Preimage(a, j) != Preimage(b, j)
            && Digest(h, m.twice, Preimage(a, j)) == Digest(h, m.twice, Preimage(b, j))
  {
    var i := FirstDifference(a, b);
    var j := i / 2;
    assert i == 2 * j || i == 2 * j + 1;
    assert ParentAt(h, m, a, j) == Parents(h, m, a)[j];
    assert ParentAt(h, m, b, j) == Parents(h, m, b)[j];
    assert 2 * j + 1 < |a| || m.dup;
    ParentIsDigest(h, m, a, j);
    ParentIsDigest(h, m, b, j);
    ConcatIsInjective(a[2 * j], if 2 * j + 1 < |a| then a[2 * j + 1] else a[2 * j],
                  b[2 * j], if 2 * j + 1 < |b| then b[2 * j + 1] else b[2 * j]);
  }

  /** The collision behind two different lists with one root. */
  function LeafCollision(h: Hasher, m: Mode, a: seq<Bytes>, b: seq<Bytes>): (c: (Bytes, Bytes))
    requires |a| == |b| > 0 && a != b && HashSized(a) && HashSized(b)
    requires Root(h, m, a) == Root(h, m, b)
    ensures IsCollision(h, c)
    decreases |a|
  {
    assert a == [a[0]] + a[1..] && b == [b[0]] + b[1..];
    var up, up' := Parents(h, m, a), Parents(h, m, b);
    if up == up' then
      DifferenceBelowEqualParents(h, m, a, b);
      var j := FirstDifference(a, b) / 2;
      Expose(h, m.twice, Preimage(a, j), Preimage(b, j))
    else
      ParentsHashSized(h, m, a);
      ParentsHashSized(h, m, b);
      LeafCollision(h, m, up, up')
  }

  // ---------- proofs ----------

  predicate SameDirections(s: seq<ProofStep>, t: seq<ProofStep>) {
    |s| == |t| && forall i :: 0 <= i < |s| ==> s[i].left == t[i].left
  }

  predicate StepsHashSized(s: seq<ProofStep>) {
    forall i :: 0 <= i < |s| ==> |s[i].value| == 32
  }

  function Input(step: ProofStep, value: Bytes): Bytes {
    if step.left then step.value + value else value + step.value
  }

  /** The collision behind two different proofs that lead to the same root. */
  function ProofCollision(h: Hasher, twice: bool, s: seq<ProofStep>, v: Bytes, t: seq<ProofStep>, w: Bytes)
    : (c: (Bytes, Bytes))
    requires SameDirections(s, t) && StepsHashSized(s) && StepsHashSized(t) && |v| == |w| == 32
    requires Fold(h, twice, s, v) == Fold(h, twice, t, w)
    requires s != t || v != w
    ensures IsCollision(h, c)
    decreases |s|
  {
    assert s != [];
    assert s == [s[0]] + s[1..] && t == [t[0]] + t[1..];
    var v', w' := Absorb(h, twice, s[0], v), Absorb(h, twice, t[0], w);
    if v' == w' && (s[0] != t[0] || v != w) then
      ConcatIsInjective(s[0].value, v, t[0].value, w);
      ConcatIsInjective(v, s[0].value, w, t[0].value);
      Expose(h, twice, Input(s[0], v), Input(t[0], w))
    else
      ProofCollision(h, twice, s[1..], v', t[1..], w')
  }

  lemma {:induction false} PathHashSized(h: Hasher, m: Mode, level: seq<Bytes>, i: nat)
    requires i < |level| && HashSized(level)
    ensures StepsHashSized(Path(h, m, level, i))
    decreases |level|
  {
    if |level| > 1 {
      ParentsHashSized(h, m, level);
      PathHashSized(h, m, Parents(h, m, level), i / 2);
    }
  }

  /** The collision behind an accepted proof that has the directions of leaf i's proof but is
      not that proof, or is for another value than leaf i. */
  function ForgeryCollision(h: Hasher, m: Mode, leaves: seq<Bytes>, i: nat, steps: seq<ProofStep>, value: Bytes)
    : (c: (Bytes, Bytes))
    requires i < |leaves| && HashSized(leaves)
    requires SameDirections(steps, Path(h, m, leaves, i)) && StepsHashSized(steps) && |value| == 32
    requires Fold(h, m.twice, steps, value) == Root(h, m, leaves)
    requires steps != Path(h, m, leaves, i) || value != leaves[i]
    ensures IsCollision(h, c)
  {
    PathHashSized(h, m, leaves, i);
    PathFoldsToRoot(h, m, leaves, i);
    ProofCollision(h, m.twice, steps, value, Path(h, m, leaves, i), leaves[i])
  }
}
