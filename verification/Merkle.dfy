/**
  What a Merkle tree of go-abci-service/merkletools computes, level by level, as functions on
  the sequence of leaf hashes: the root, the proof of a leaf, and the list of all nodes.
 */
module Merkle {
  import opened ByteStrings
  import opened Divisibility

  /** `dup`: a lone last node is paired with a copy of itself (as in Bitcoin) instead of being
      promoted. `twice`: SHA-256 is applied twice. */
  datatype Mode = Mode(dup: bool, twice: bool)

  const PLAIN := Mode(false, false)
  const BITCOIN := Mode(true, true)

  /** A sibling's side and value. */
  datatype ProofStep = ProofStep(left: bool, value: Bytes)

  function Digest(h: Hasher, twice: bool, b: Bytes): (d: Bytes)
    ensures |d| == 32
  {
    if twice then h(h(b)) else h(b)
  }

  function Combine(h: Hasher, m: Mode, l: Bytes, r: Bytes): (d: Bytes)
    ensures |d| == 32
  {
    Digest(h, m.twice, l + r)
  }

  /** The hash of the parent of nodes 2j and 2j+1 of a level. */
  function ParentAt(h: Hasher, m: Mode, level: seq<Bytes>, j: nat): Bytes
    requires 2 * j < |level|
  {
    if 2 * j + 1 < |level| then Combine(h, m, level[2 * j], level[2 * j + 1])
    else if m.dup then Combine(h, m, level[2 * j], level[2 * j])
    else level[2 * j]
  }

  function Parents(h: Hasher, m: Mode, level: seq<Bytes>): (up: seq<Bytes>)
    ensures |up| == (|level| + 1) / 2
  {
    seq((|level| + 1) / 2, j requires 0 <= j < (|level| + 1) / 2 => ParentAt(h, m, level, j))
  }

  function Root(h: Hasher, m: Mode, level: seq<Bytes>): Bytes
    requires level != []
    decreases |level|
  {
    if |level| == 1 then level[0] else Root(h, m, Parents(h, m, level))
  }

  /** The step a proof takes at node i of a level; a promoted node takes none. */
  function StepAt(m: Mode, level: seq<Bytes>, i: nat): seq<ProofStep>
    requires i < |level|
  {
    if i % 2 == 1 then [ProofStep(true, level[i - 1])]
    else if i + 1 < |level| then [ProofStep(false, level[i + 1])]
    else if m.dup then [ProofStep(false, level[i])]
    else []
  }

  function Path(h: Hasher, m: Mode, level: seq<Bytes>, i: nat): seq<ProofStep>
    requires i < |level|
    decreases |level|
  {
    if |level| == 1 then []
    else StepAt(m, level, i) + Path(h, m, Parents(h, m, level), i / 2)
  }

  /** What a verifier computes from one step of a proof ... */
  function Absorb(h: Hasher, twice: bool, step: ProofStep, value: Bytes): Bytes {
    Digest(h, twice, if step.left then step.value + value else value + step.value)
  }

  /** ... and from all of them. */
  function Fold(h: Hasher, twice: bool, steps: seq<ProofStep>, value: Bytes): Bytes
    decreases |steps|
  {
    if steps == [] then value
    else Fold(h, twice, steps[1..], Absorb(h, twice, steps[0], value))
  }

  lemma {:induction false} FoldConcat(h: Hasher, twice: bool, a: seq<ProofStep>, b: seq<ProofStep>, value: Bytes)
    ensures Fold(h, twice, a + b, value) == Fold(h, twice, b, Fold(h, twice, a, value))
    decreases |a|
  {
    if a == [] {
      assert a + b == b;
    } else {
      assert (a + b)[1..] == a[1..] + b;
      FoldConcat(h, twice, a[1..], b, Absorb(h, twice, a[0], value));
    }
  }

  lemma FoldOne(h: Hasher, twice: bool, step: ProofStep, value: Bytes)
    ensures Fold(h, twice, [step], value) == Absorb(h, twice, step, value)
  {
    assert [step][1..] == [];
  }

  /** One step of a proof leads from a node to its parent. */
  lemma FoldStep(h: Hasher, m: Mode, level: seq<Bytes>, i: nat)
    requires i < |level| && |level| > 1
    ensures Fold(h, m.twice, StepAt(m, level, i), level[i]) == Parents(h, m, level)[i / 2]
  {
    var j := i / 2;
    assert Parents(h, m, level)[j] == ParentAt(h, m, level, j);
    if i % 2 == 1 {
      assert i == 2 * j + 1;
      FoldOne(h, m.twice, ProofStep(true, level[2 * j]), level[i]);
    } else {
      assert i == 2 * j;
      if i + 1 < |level| {
        FoldOne(h, m.twice, ProofStep(false, level[i + 1]), level[i]);
      } else if m.dup {
        FoldOne(h, m.twice, ProofStep(false, level[i]), level[i]);
      }
    }
  }

  /** Every leaf's proof folds to the root, in every mode. */
  lemma {:induction false} PathFoldsToRoot(h: Hasher, m: Mode, level: seq<Bytes>, i: nat)
    requires i < |level|
    ensures Fold(h, m.twice, Path(h, m, level, i), level[i]) == Root(h, m, level)
    decreases |level|
  {
    if |level| > 1 {
      var up := Parents(h, m, level);
      FoldStep(h, m, level, i);
      FoldConcat(h, m.twice, StepAt(m, level, i), Path(h, m, up, i / 2), level[i]);
      PathFoldsToRoot(h, m, up, i / 2);
    }
  }

  /** Only the single leaf of a tree has an empty proof. */
  lemma {:induction false} PathIsNotEmpty(h: Hasher, m: Mode, level: seq<Bytes>, i: nat)
    requires i < |level| && |level| > 1
    ensures Path(h, m, level, i) != []
    decreases |level|
  {
    if StepAt(m, level, i) == [] {
      PathIsNotEmpty(h, m, Parents(h, m, level), i / 2);
    }
  }

  // ---------- how long proofs are, how many nodes there are ----------

  function Pow2(k: nat): (p: nat)
    ensures p >= 1
  {
    if k == 0 then 1 else 2 * Pow2(k - 1)
  }

  /** How many levels are built above n nodes. */
  function Rounds(n: nat): nat {
    if n <= 1 then 0 else 1 + Rounds((n + 1) / 2)
  }

  lemma {:induction false} RoundsIsLog(n: nat)
    requires n > 0
    ensures Pow2(Rounds(n)) >= n
    ensures n > 1 ==> Rounds(n) > 0 && Pow2(Rounds(n) - 1) < n
  {
    if n > 1 {
      var half := (n + 1) / 2;
      RoundsIsLog(half);
      assert Pow2(Rounds(n)) == 2 * Pow2(Rounds(half));
      if half > 1 {
        assert Pow2(Rounds(half)) == 2 * Pow2(Rounds(half) - 1);
      }
    }
  }

  lemma {:induction false} StepsAreRounds(h: Hasher, m: Mode, level: seq<Bytes>, i: nat)
    requires i < |level| && m.dup
    ensures |Path(h, m, level, i)| == Rounds(|level|)
    decreases |level|
  {
    if |level| > 1 {
      StepsAreRounds(h, m, Parents(h, m, level), i / 2);
      assert |StepAt(m, level, i)| == 1;
    }
  }

  /** In Bitcoin's mode a proof has exactly ceil(log2 n) steps: 2^k >= n > 2^(k-1). */
  lemma DuplicatingPathLength(h: Hasher, m: Mode, level: seq<Bytes>, i: nat)
    requires i < |level| && m.dup
    ensures Pow2(|Path(h, m, level, i)|) >= |level|
    ensures |level| > 1 ==> |Path(h, m, level, i)| > 0 && Pow2(|Path(h, m, level, i)| - 1) < |level|
  {
    StepsAreRounds(h, m, level, i);
    RoundsIsLog(|level|);
  }

  /** In every mode a proof has at most ceil(log2 n) steps. */
  lemma {:induction false} PathLength(h: Hasher, m: Mode, level: seq<Bytes>, i: nat, k: nat)
    requires i < |level| && |level| <= Pow2(k)
    ensures |Path(h, m, level, i)| <= k
    decreases |level|
  {
    if |level| > 1 {
      assert k > 0;
      PathLength(h, m, Parents(h, m, level), i / 2, k - 1);
    }
  }

  /** The hashes of the tree's node list: the leaves, then level by level the copy that pads
      the level below (if there is one) and the level itself. */
  function UpperNodes(h: Hasher, m: Mode, level: seq<Bytes>): seq<Bytes>
    requires level != []
    decreases |level|
  {
    if |level| == 1 then []
    else
      var up := Parents(h, m, level);
      (if m.dup && |level| % 2 == 1 then [level[|level| - 1]] else []) + up + UpperNodes(h, m, up)
  }

  /** What stands where in the node list, above the leaves: the copy that pads them, their parents in
      order, and then what stands above those; the last one is the root. */
  lemma {:induction false} UpperNodesHold(h: Hasher, m: Mode, level: seq<Bytes>)
    requires |level| > 1
    ensures var nodes, n := UpperNodes(h, m, level), |level|;
            var pad := if m.dup && n % 2 == 1 then 1 else 0;
            && |nodes| >= pad + (n + 1) / 2 && nodes[|nodes| - 1] == Root(h, m, level)
            && (pad == 1 ==> nodes[0] == level[n - 1])
            && (forall j :: 0 <= j < (n + 1) / 2 ==> nodes[pad + j] == ParentAt(h, m, level, j))
            && nodes[pad + (n + 1) / 2..] == UpperNodes(h, m, Parents(h, m, level))
    decreases |level|
  {
    var up := Parents(h, m, level);
    if |up| > 1 {
      UpperNodesHold(h, m, up);
    }
  }

  /** The sum of ceil(n / 2^k) over k = 0, ..., levels - 1. */
  function LevelSizes(n: nat, levels: nat): nat {
    if levels == 0 then 0 else LevelSizes(n, levels - 1) + (n + Pow2(levels - 1) - 1) / Pow2(levels - 1)
  }

  lemma {:induction false} HalveTwice(n: nat, k: nat)
    ensures ((n + 1) / 2 + Pow2(k) - 1) / Pow2(k) == (n + Pow2(k + 1) - 1) / Pow2(k + 1)
  {
    var p := Pow2(k);
    var q := ((n + 1) / 2 + p - 1) / p;
    var half := (n + 1) / 2;
    CeilIs(half, p, q);
    DoubleFactor(q, p);
    DoubleFactor(q - 1, p);
    assert 2 * ((q - 1) * p) + 2 <= 2 * half <= 2 * (q * p);
    CeilUnique(n, 2 * p, q);
  }

  lemma DoubleFactor(q: int, p: int)
    ensures q * (2 * p) == 2 * (q * p)
  {
  }

  lemma CeilIs(n: nat, p: nat, q: int)
    requires p > 0 && q == (n + p - 1) / p
    ensures (q - 1) * p < n <= q * p
  {
    assert n + p - 1 == q * p + (n + p - 1) % p;
    assert (q - 1) * p == q * p - p;
  }

  lemma CeilUnique(n: nat, p: nat, q: int)
    requires p > 0 && (q - 1) * p < n <= q * p
    ensures q == (n + p - 1) / p
  {
    var r := (n + p - 1) / p;
    CeilIs(n, p, r);
    if q < r {
      MulMonotone(q, r - 1, p);
    } else if r < q {
      MulMonotone(r, q - 1, p);
    }
  }

  lemma {:induction false} LevelSizesShift(n: nat, levels: nat)
    ensures LevelSizes(n, levels + 1) == n + LevelSizes((n + 1) / 2, levels)
  {
    if levels == 0 {
      assert LevelSizes(n, 1) == LevelSizes(n, 0) + (n + Pow2(0) - 1) / Pow2(0);
    } else {
      LevelSizesShift(n, levels - 1);
      HalveTwice(n, levels - 1);
    }
  }

  /** With promotion, n leaves give the sum of ceil(n / 2^k) nodes, k up to the first power
      that reaches n. */
  lemma {:induction false} NodeCount(h: Hasher, m: Mode, level: seq<Bytes>, k: nat)
    requires level != [] && !m.dup
    requires |level| <= Pow2(k) && (k > 0 ==> Pow2(k - 1) < |level|)
    ensures |level| + |UpperNodes(h, m, level)| == LevelSizes(|level|, k + 1)
    decreases |level|
  {
    LevelSizesShift(|level|, k);
    if |level| > 1 {
      NodeCount(h, m, Parents(h, m, level), k - 1);
    }
  }
}
