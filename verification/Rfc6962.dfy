/**
  The tree shape of sections 2.1 and 2.1.1 of RFC 6962, without its domain-separating
  prefixes: a top-down recursion that splits at the largest power of two below the number of
  leaves. The level-by-level build with promotion computes exactly this tree.
 */
module Rfc6962 {
  import opened ByteStrings
  import opened Merkle
  import opened Sequences

  /** The largest power of two smaller than n. */
  function Split(n: nat): (k: nat)
    requires n >= 2
    ensures 1 <= k < n <= 2 * k
  {
    if n == 2 then 1 else 2 * Split((n + 1) / 2)
  }

  /** It is a power of two, so by its bounds the largest one below n. */
  lemma {:induction false} SplitIsPower(n: nat) returns (e: nat)
    requires n >= 2
    ensures Split(n) == Pow2(e) < n <= Pow2(e + 1)
  {
    if n == 2 {
      e := 0;
    } else {
      var f := SplitIsPower((n + 1) / 2);
      e := f + 1;
    }
    assert Pow2(e + 1) == 2 * Pow2(e);
  }

  /** The Merkle tree hash of section 2.1. */
  function TreeHash(h: Hasher, m: Mode, d: seq<Bytes>): Bytes
    requires d != []
    decreases |d|
  {
    if |d| == 1 then d[0]
    else
      var k := Split(|d|);
      Combine(h, m, TreeHash(h, m, d[..k]), TreeHash(h, m, d[k..]))
  }

  /** The Merkle audit path of section 2.1.1, with the side of each value. */
  function AuditPath(h: Hasher, m: Mode, d: seq<Bytes>, i: nat): seq<ProofStep>
    requires i < |d|
    decreases |d|
  {
    if |d| == 1 then []
    else
      var k := Split(|d|);
      if i < k then AuditPath(h, m, d[..k], i) + [ProofStep(false, TreeHash(h, m, d[k..]))]
      else AuditPath(h, m, d[k..], i - k) + [ProofStep(true, TreeHash(h, m, d[..k]))]
  }

  /** A level that splits at an even place has parents that split at half that place. */
  lemma ParentsSplit(h: Hasher, m: Mode, d: seq<Bytes>, k: nat)
    requires 0 < 2 * k < |d|
    ensures Parents(h, m, d)[..k] == Parents(h, m, d[..2 * k])
    ensures Parents(h, m, d)[k..] == Parents(h, m, d[2 * k..])
  {
    var up, low, high := Parents(h, m, d), Parents(h, m, d[..2 * k]), Parents(h, m, d[2 * k..]);
    forall j | 0 <= j < k
      ensures up[..k][j] == low[j]
    {
      assert up[j] == ParentAt(h, m, d, j);
      assert low[j] == ParentAt(h, m, d[..2 * k], j);
    }
    forall j | 0 <= j < |high|
      ensures up[k..][j] == high[j]
    {
      assert up[k + j] == ParentAt(h, m, d, k + j);
      assert high[j] == ParentAt(h, m, d[2 * k..], j);
    }
  }

  lemma RootOfParents(h: Hasher, m: Mode, d: seq<Bytes>)
    requires d != [] && !m.dup
    ensures Root(h, m, Parents(h, m, d)) == Root(h, m, d)
  {
    if |d| == 1 {
      assert Parents(h, m, d) == [ParentAt(h, m, d, 0)];
    }
  }

  /** The level-by-level root is the top-down tree hash. */
  lemma {:induction false} RootIsTreeHash(h: Hasher, m: Mode, d: seq<Bytes>)
    requires d != [] && !m.dup
    ensures Root(h, m, d) == TreeHash(h, m, d)
    decreases |d|
  {
    if |d| == 2 {
      var up := Parents(h, m, d);
      assert up[0] == ParentAt(h, m, d, 0);
      assert |up| == 1 && Root(h, m, d) == up[0];
      assert Split(2) == 1;
      assert d[..1] == [d[0]] && d[1..] == [d[1]];
    } else if |d| > 2 {
      var up := Parents(h, m, d);
      var k := Split(|up|);
      ParentsSplit(h, m, d, k);
      RootIsTreeHash(h, m, up);
      RootIsTreeHash(h, m, up[..k]);
      RootIsTreeHash(h, m, up[k..]);
      RootIsTreeHash(h, m, d[..2 * k]);
      RootIsTreeHash(h, m, d[2 * k..]);
      RootOfParents(h, m, d[..2 * k]);
      RootOfParents(h, m, d[2 * k..]);
    }
  }

  lemma PathOfParents(h: Hasher, m: Mode, d: seq<Bytes>, i: nat)
    requires i < |d| && !m.dup
    ensures Path(h, m, d, i) == StepAt(m, d, i) + Path(h, m, Parents(h, m, d), i / 2)
  {
  }

  /** The step at a node is the same inside the half of the level the node belongs to. */
  lemma StepInLowerHalf(m: Mode, d: seq<Bytes>, i: nat, k: nat)
    requires i < 2 * k < |d| && !m.dup
    ensures StepAt(m, d, i) == StepAt(m, d[..2 * k], i)
  {
  }

  lemma StepInUpperHalf(m: Mode, d: seq<Bytes>, i: nat, k: nat)
    requires 2 * k + i < |d| && !m.dup
    ensures StepAt(m, d, 2 * k + i) == StepAt(m, d[2 * k..], i)
  {
    assert (2 * k + i) % 2 == i % 2;
  }

  /** The proof collected level by level is the audit path. */
  lemma {:induction false} PathIsAuditPath(h: Hasher, m: Mode, d: seq<Bytes>, i: nat)
    requires i < |d| && !m.dup
    ensures Path(h, m, d, i) == AuditPath(h, m, d, i)
    decreases |d|, 2
  {
    if |d| == 2 {
      PathOfTwo(h, m, d, i);
    } else if |d| > 2 {
      PathOfParents(h, m, d, i);
      PathIsAuditPath(h, m, Parents(h, m, d), i / 2);
      AuditPathOneUp(h, m, d, i);
    }
  }

  lemma {:induction false} AuditPathOneUp(h: Hasher, m: Mode, d: seq<Bytes>, i: nat)
    requires i < |d| && |d| > 2 && !m.dup
    ensures AuditPath(h, m, d, i) == StepAt(m, d, i) + AuditPath(h, m, Parents(h, m, d), i / 2)
    decreases |d|, 1
  {
    var k := Split((|d| + 1) / 2);
    if i < 2 * k {
      LowerHalf(h, m, d, i, k);
      AuditPathLeft(h, m, d, i, k);
    } else {
      UpperHalf(h, m, d, i, k, i - 2 * k);
      AuditPathRight(h, m, d, i, k, i - 2 * k);
    }
  }

  lemma {:induction false} OneUpInHalf(h: Hasher, m: Mode, half: seq<Bytes>, i: nat)
    requires i < |half| && !m.dup
    ensures AuditPath(h, m, half, i) == StepAt(m, half, i) + AuditPath(h, m, Parents(h, m, half), i / 2)
    decreases |half|, 3
  {
    PathIsAuditPath(h, m, half, i);
    PathIsAuditPath(h, m, Parents(h, m, half), i / 2);
    PathOfParents(h, m, half, i);
  }

  /** The audit path inside the half a leaf belongs to: one step, then that of the parents. */
  lemma {:induction false} LowerHalf(h: Hasher, m: Mode, d: seq<Bytes>, i: nat, k: nat)
    requires i < 2 * k < |d| && |d| > 2 && !m.dup
    ensures AuditPath(h, m, d[..2 * k], i) == StepAt(m, d, i) + AuditPath(h, m, Parents(h, m, d)[..k], i / 2)
    decreases |d|, 0
  {
    var half := d[..2 * k];
    OneUpInHalf(h, m, half, i);
    ParentsSplit(h, m, d, k);
    StepInLowerHalf(m, d, i, k);
  }

  lemma {:induction false} UpperHalf(h: Hasher, m: Mode, d: seq<Bytes>, i: nat, k: nat, j: nat)
    requires 0 < 2 * k <= i < |d| && |d| > 2 && !m.dup && i == 2 * k + j
    ensures AuditPath(h, m, d[2 * k..], j) == StepAt(m, d, i) + AuditPath(h, m, Parents(h, m, d)[k..], j / 2)
    decreases |d|, 0
  {
    var half := d[2 * k..];
    assert Parents(h, m, d)[k..] == Parents(h, m, half) by {
      ParentsSplit(h, m, d, k);
    }
    assert StepAt(m, d, i) == StepAt(m, half, j) by {
      StepInUpperHalf(m, d, j, k);
    }
    OneUpInHalf(h, m, half, j);
  }

  lemma HalfOfSum(i: nat, k: nat, j: nat)
    requires i == 2 * k + j
    ensures i / 2 == k + j / 2
  {
  }

  lemma PathOfTwo(h: Hasher, m: Mode, d: seq<Bytes>, i: nat)
    requires i < |d| == 2 && !m.dup
    ensures Path(h, m, d, i) == AuditPath(h, m, d, i)
  {
    assert Split(2) == 1;
    assert d[..1] == [d[0]] && d[1..] == [d[1]];
    assert Path(h, m, Parents(h, m, d), i / 2) == [];
  }

  /** k and 2k split the parents and the level, in halves with the same tree hashes. */
  ghost predicate Halved(h: Hasher, m: Mode, d: seq<Bytes>, k: nat) {
    var up := Parents(h, m, d);
    && |d| > 2 && k == Split(|up|) && 2 * k == Split(|d|)
    && TreeHash(h, m, up[..k]) == TreeHash(h, m, d[..2 * k])
    && TreeHash(h, m, up[k..]) == TreeHash(h, m, d[2 * k..])
  }

  lemma HalvesOfParents(h: Hasher, m: Mode, d: seq<Bytes>, k: nat)
    requires |d| > 2 && !m.dup && k == Split((|d| + 1) / 2)
    ensures Halved(h, m, d, k)
  {
    ParentsSplit(h, m, d, k);
    TreeHashOfParents(h, m, d[..2 * k]);
    TreeHashOfParents(h, m, d[2 * k..]);
  }

  lemma AuditPathLeft(h: Hasher, m: Mode, d: seq<Bytes>, i: nat, k: nat)
    requires |d| > 2 && !m.dup && i < 2 * k && k == Split((|d| + 1) / 2)
    requires AuditPath(h, m, d[..2 * k], i) == StepAt(m, d, i) + AuditPath(h, m, Parents(h, m, d)[..k], i / 2)
    ensures AuditPath(h, m, d, i) == StepAt(m, d, i) + AuditPath(h, m, Parents(h, m, d), i / 2)
  {
    var up, last := Parents(h, m, d), [ProofStep(false, TreeHash(h, m, d[2 * k..]))];
    assert AuditPath(h, m, up, i / 2) == AuditPath(h, m, up[..k], i / 2) + last by {
      HalvesOfParents(h, m, d, k);
      AuditPathEnds(h, m, up, i / 2);
    }
    assert AuditPath(h, m, d, i) == AuditPath(h, m, d[..2 * k], i) + last by {
      AuditPathEnds(h, m, d, i);
    }
    Regroup(StepAt(m, d, i), AuditPath(h, m, up[..k], i / 2), last);
  }

  lemma RightEnd(h: Hasher, m: Mode, d: seq<Bytes>, i: nat, k: nat, j: nat)
    requires |d| > 1 && k == Split(|d|) && i == k + j < |d|
    ensures AuditPath(h, m, d, i) == AuditPath(h, m, d[k..], j) + [ProofStep(true, TreeHash(h, m, d[..k]))]
  {
  }

  lemma RightEndOfParents(h: Hasher, m: Mode, d: seq<Bytes>, i: nat, k: nat, j: nat)
    requires |d| > 2 && !m.dup && k == Split((|d| + 1) / 2) && i == k + j < |Parents(h, m, d)|
    ensures var up := Parents(h, m, d);
            AuditPath(h, m, up, i) == AuditPath(h, m, up[k..], j) + [ProofStep(true, TreeHash(h, m, d[..2 * k]))]
  {
    HalvesOfParents(h, m, d, k);
    RightEnd(h, m, Parents(h, m, d), i, k, j);
  }

  lemma AuditPathRight(h: Hasher, m: Mode, d: seq<Bytes>, i: nat, k: nat, j: nat)
    requires |d| > 2 && !m.dup && 2 * k <= i < |d| && k == Split((|d| + 1) / 2) && i == 2 * k + j
    requires AuditPath(h, m, d[2 * k..], j) == StepAt(m, d, i) + AuditPath(h, m, Parents(h, m, d)[k..], j / 2)
    ensures AuditPath(h, m, d, i) == StepAt(m, d, i) + AuditPath(h, m, Parents(h, m, d), i / 2)
  {
    var up, last := Parents(h, m, d), [ProofStep(true, TreeHash(h, m, d[..2 * k]))];
    assert AuditPath(h, m, up, i / 2) == AuditPath(h, m, up[k..], j / 2) + last by {
      HalfOfSum(i, k, j);
      RightEndOfParents(h, m, d, i / 2, k, j / 2);
    }
    assert AuditPath(h, m, d, i) == AuditPath(h, m, d[2 * k..], j) + last by {
      RightEnd(h, m, d, i, 2 * k, j);
    }
    Regroup(StepAt(m, d, i), AuditPath(h, m, up[k..], j / 2), last);
  }

  /** The last step of an audit path is the other half of the whole list. */
  lemma AuditPathEnds(h: Hasher, m: Mode, d: seq<Bytes>, i: nat)
    requires i < |d| && |d| > 1
    ensures var k := Split(|d|);
            AuditPath(h, m, d, i) ==
            if i < k then AuditPath(h, m, d[..k], i) + [ProofStep(false, TreeHash(h, m, d[k..]))]
            else AuditPath(h, m, d[k..], i - k) + [ProofStep(true, TreeHash(h, m, d[..k]))]
  {
  }

  /** Different leaves of a tree have different audit paths: their sides differ where the halves
      that the leaves belong to part. */
  lemma {:induction false} AuditPathsDiffer(h: Hasher, m: Mode, d: seq<Bytes>, i: nat, j: nat)
    requires i < j < |d|
    ensures AuditPath(h, m, d, i) != AuditPath(h, m, d, j)
    decreases |d|
  {
    var k := Split(|d|);
    if j < k {
      AuditPathsDiffer(h, m, d[..k], i, j);
      DifferInLowerHalf(h, m, d, i, j);
    } else if k <= i {
      AuditPathsDiffer(h, m, d[k..], i - k, j - k);
      DifferInUpperHalf(h, m, d, i, j);
    } else {
      DifferAcross(h, m, d, i, j);
    }
  }

  lemma DifferInLowerHalf(h: Hasher, m: Mode, d: seq<Bytes>, i: nat, j: nat)
    requires |d| > 1 && i < Split(|d|) && j < Split(|d|)
    requires AuditPath(h, m, d[..Split(|d|)], i) != AuditPath(h, m, d[..Split(|d|)], j)
    ensures AuditPath(h, m, d, i) != AuditPath(h, m, d, j)
  {
    var k := Split(|d|);
    AuditPathEnds(h, m, d, i);
    AuditPathEnds(h, m, d, j);
    CancelRight(AuditPath(h, m, d[..k], i), AuditPath(h, m, d[..k], j), [ProofStep(false, TreeHash(h, m, d[k..]))]);
  }

  lemma DifferInUpperHalf(h: Hasher, m: Mode, d: seq<Bytes>, i: nat, j: nat)
    requires |d| > 1 && Split(|d|) <= i < |d| && Split(|d|) <= j < |d|
    requires AuditPath(h, m, d[Split(|d|)..], i - Split(|d|)) != AuditPath(h, m, d[Split(|d|)..], j - Split(|d|))
    ensures AuditPath(h, m, d, i) != AuditPath(h, m, d, j)
  {
    var k := Split(|d|);
    AuditPathEnds(h, m, d, i);
    AuditPathEnds(h, m, d, j);
    CancelRight(AuditPath(h, m, d[k..], i - k), AuditPath(h, m, d[k..], j - k), [ProofStep(true, TreeHash(h, m, d[..k]))]);
  }

  lemma DifferAcross(h: Hasher, m: Mode, d: seq<Bytes>, i: nat, j: nat)
    requires |d| > 1 && i < Split(|d|) <= j < |d|
    ensures AuditPath(h, m, d, i) != AuditPath(h, m, d, j)
  {
    var k := Split(|d|);
    AuditPathEnds(h, m, d, i);
    AuditPathEnds(h, m, d, j);
    var p, q := AuditPath(h, m, d, i), AuditPath(h, m, d, j);
    assert !p[|p| - 1].left && q[|q| - 1].left;
  }

  lemma TreeHashOfParents(h: Hasher, m: Mode, d: seq<Bytes>)
    requires d != [] && !m.dup
    ensures TreeHash(h, m, Parents(h, m, d)) == TreeHash(h, m, d)
  {
    RootIsTreeHash(h, m, d);
    RootIsTreeHash(h, m, Parents(h, m, d));
    RootOfParents(h, m, d);
  }
}
