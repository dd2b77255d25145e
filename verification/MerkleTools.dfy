/**
  The linked, mutable Merkle tree of go-abci-service/merkletools. The goroutine per node pair
  is sequential in effect, because each one is awaited before the next is started.
 */
module MerkleTools {
  import opened ByteStrings
  import opened Merkle
  import opened Sequences

  class Node {
    var Parent: Node?
    var Sibling: Node?
    var IsLeftNode: bool
    var IsRoot: bool
    const Hash: Bytes

    constructor (hash: Bytes)
      ensures Parent == null && Sibling == null && !IsLeftNode && !IsRoot && Hash == hash
    {
      Parent, Sibling, IsLeftNode, IsRoot, Hash := null, null, false, false, hash;
    }

    constructor Copy(node: Node)
      ensures Parent == node.Parent && Sibling == node.Sibling
      ensures IsLeftNode == node.IsLeftNode && IsRoot == node.IsRoot && Hash == node.Hash
    {
      Parent, Sibling, IsLeftNode, IsRoot, Hash :=
        node.Parent, node.Sibling, node.IsLeftNode, node.IsRoot, node.Hash;
    }
  }

  function Hashes(nodes: seq<Node>): (hs: seq<Bytes>)
    ensures |hs| == |nodes|
  {
    seq(|nodes|, i requires 0 <= i < |nodes| => nodes[i].Hash)
  }

  lemma HashesConcat(a: seq<Node>, b: seq<Node>)
    ensures Hashes(a + b) == Hashes(a) + Hashes(b)
  {
  }

  ghost predicate Distinct(nodes: seq<Node>) {
    forall i, j :: 0 <= i < j < |nodes| ==> nodes[i] != nodes[j]
  }

  /** The fields that building leaves as they are hold what a build needs. */
  ghost predicate Clean(node: Node, odd: bool, lone: bool)
    reads node
  {
    !node.IsRoot && (odd ==> !node.IsLeftNode) && (lone ==> node.Sibling == null)
  }

  ghost predicate CleanAt(level: seq<Node>, dup: bool, j: nat)
    requires j < |level|
    reads level[j]
  {
    Clean(level[j], j % 2 == 1, j % 2 == 0 && j + 1 == |level| && !dup)
  }

  ghost predicate AllClean(level: seq<Node>, dup: bool)
    reads level
  {
    forall j :: 0 <= j < |level| ==> CleanAt(level, dup, j)
  }

  /** What a build needs for right proofs. New nodes are ready; so are two or more leaves that were
      built before in the same mode, and new leaves added to them. */
  ghost predicate Ready(level: seq<Node>, dup: bool)
    reads level
  {
    Distinct(level) && AllClean(level, dup)
  }

  /** The links that building a level sets, whatever its nodes held before. */
  ghost predicate WiredAt(level: seq<Node>, up: seq<Node>, dup: bool, j: nat)
    requires j < |level| && |up| == (|level| + 1) / 2
    reads level[j]
  {
    var node := level[j];
    && node.Parent == up[j / 2]
    && if j % 2 == 1 then node.Sibling == level[j - 1]
       else if j + 1 < |level| then node.Sibling == level[j + 1] && node.IsLeftNode
       else dup ==> node.Sibling != null && node.Sibling.Hash == node.Hash && node.IsLeftNode
  }

  /** Every node of the level points to its sibling and to its parent. */
  ghost predicate Wired(level: seq<Node>, up: seq<Node>, dup: bool)
    reads level
  {
    |up| == (|level| + 1) / 2 && forall j :: 0 <= j < |level| ==> WiredAt(level, up, dup, j)
  }

  /** Makes the parent of nodes index and index + 1, or the parent of a lone last node. */
  method HashNodePair(h: Hasher, nodes: seq<Node>, index: nat, twice: bool) returns (parent: Node)
    requires index < |nodes| && (index + 1 < |nodes| ==> nodes[index] != nodes[index + 1])
    modifies nodes[index], if index + 1 < |nodes| then {nodes[index + 1]} else {}
    ensures fresh(parent)
    ensures parent.Parent == null && parent.Sibling == null && !parent.IsLeftNode && !parent.IsRoot
    ensures nodes[index].Parent == parent && nodes[index].IsRoot == old(nodes[index].IsRoot)
    ensures if index + 1 < |nodes| then
              && parent.Hash == Digest(h, twice, nodes[index].Hash + nodes[index + 1].Hash)
              && nodes[index].IsLeftNode && nodes[index].Sibling == nodes[index + 1]
              && nodes[index + 1].Sibling == nodes[index] && nodes[index + 1].Parent == parent
              && nodes[index + 1].IsLeftNode == old(nodes[index + 1].IsLeftNode)
              && nodes[index + 1].IsRoot == old(nodes[index + 1].IsRoot)
            else
              && parent.Hash == nodes[index].Hash
              && nodes[index].IsLeftNode == old(nodes[index].IsLeftNode)
              && nodes[index].Sibling == old(nodes[index].Sibling)
  {
    var left := nodes[index];
    if index + 1 < |nodes| {
      var right := nodes[index + 1];
      left.IsLeftNode := true;
      left.Sibling := right;
      right.Sibling := left;
      var hash := h(left.Hash + right.Hash);
      if twice {
        hash := h(hash);
      }
      parent := new Node(hash);
      left.Parent := parent;
      right.Parent := parent;
    } else {
      parent := new Node(left.Hash);
      left.Parent := parent;
    }
  }

  /** `pad` is the copy of the lone last node of a level that a duplicating build adds. */
  ghost predicate Pads(pad: seq<Node>, level: seq<Node>, dup: bool) {
    && |pad| == (if dup && |level| % 2 == 1 then 1 else 0)
    && (pad != [] ==> pad[0] !in level && pad[0].Hash == level[|level| - 1].Hash)
  }

  /** The links of a processed node, while its level is still being built. */
  ghost predicate BuiltAt(level: seq<Node>, pad: seq<Node>, parent: Node, j: nat)
    requires j < |level|
    reads level[j]
  {
    var node := level[j];
    && node.Parent == parent
    && if j % 2 == 1 then node.Sibling == level[j - 1]
       else if j + 1 < |level| then node.Sibling == level[j + 1] && node.IsLeftNode
       else pad != [] ==> node.Sibling == pad[0] && node.IsLeftNode
  }

  ghost predicate PairBuilt(level: seq<Node>, pad: seq<Node>, parent: Node, p: nat)
    requires 2 * p < |level|
    reads level[2 * p], if 2 * p + 1 < |level| then {level[2 * p + 1]} else {}
  {
    BuiltAt(level, pad, parent, 2 * p) && (2 * p + 1 < |level| ==> BuiltAt(level, pad, parent, 2 * p + 1))
  }

  /** `clean` tells which nodes of a level were clean before it was built; they still are, and no
      others. */
  ghost predicate AsBefore(level: seq<Node>, dup: bool, clean: seq<bool>)
    requires |clean| == |level|
    reads level
  {
    forall j :: 0 <= j < |level| ==> CleanAt(level, dup, j) == clean[j]
  }

  /** The parent of nodes i and i + 1 of a padded level. */
  method LinkPair(h: Hasher, m: Mode, nodes: seq<Node>, i: nat, ghost level: seq<Node>, ghost pad: seq<Node>, ghost p: nat)
    returns (parent: Node)
    requires i == 2 * p < |level| && Distinct(level)
    requires nodes == level + pad && Pads(pad, level, m.dup)
    modifies nodes[i], if i + 1 < |nodes| then {nodes[i + 1]} else {}
    ensures fresh(parent) && Clean(parent, true, true)
    ensures parent.Hash == ParentAt(h, m, Hashes(level), p)
    ensures PairBuilt(level, pad, parent, p)
    ensures CleanAt(level, m.dup, i) == old(CleanAt(level, m.dup, i))
    ensures i + 1 < |level| ==> CleanAt(level, m.dup, i + 1) == old(CleanAt(level, m.dup, i + 1))
  {
    assert nodes[i] == level[i];
    if i + 1 < |level| {
      assert nodes[i + 1] == level[i + 1] && level[i] != level[i + 1];
    } else {
      assert pad != [] ==> nodes[i + 1] == pad[0];
    }
    parent := HashNodePair(h, nodes, i, m.twice);
  }

  /** The parent of pair p has its hash, and the pair its links. */
  ghost predicate ParentDone(h: Hasher, m: Mode, level: seq<Node>, pad: seq<Node>, parent: Node, p: nat)
    requires 2 * p < |level|
    reads level[2 * p], if 2 * p + 1 < |level| then {level[2 * p + 1]} else {}
  {
    parent.Hash == ParentAt(h, m, Hashes(level), p) && PairBuilt(level, pad, parent, p)
  }

  /** The same, with what it leaves alone: the pairs linked before. */
  method LinkNext(h: Hasher, m: Mode, nodes: seq<Node>, i: nat, ghost level: seq<Node>, ghost pad: seq<Node>,
                  ghost up: seq<Node>, ghost clean: seq<bool>)
    returns (parent: Node)
    requires i == 2 * |up| < |level| && Distinct(level)
    requires nodes == level + pad && Pads(pad, level, m.dup)
    requires |clean| == |level| && AsBefore(level, m.dup, clean)
    requires forall p :: 0 <= p < |up| ==> ParentDone(h, m, level, pad, up[p], p)
    modifies nodes[i], if i + 1 < |nodes| then {nodes[i + 1]} else {}
    ensures fresh(parent) && Clean(parent, true, true)
    ensures forall p :: 0 <= p <= |up| ==> ParentDone(h, m, level, pad, (up + [parent])[p], p)
    ensures AsBefore(level, m.dup, clean)
  {
    parent := LinkPair(h, m, nodes, i, level, pad, |up|);
  }

  method PadLevel(m: Mode, level: seq<Node>) returns (pad: seq<Node>)
    requires level != []
    ensures Pads(pad, level, m.dup) && fresh(pad)
    ensures |level| + |pad| <= 2 * ((|level| + 1) / 2) <= |level| + 1
  {
    pad := [];
    if m.dup {
      if |level| % 2 == 1 {
        var duplicate := new Node.Copy(level[|level| - 1]);
        pad := [duplicate];
      }
    }
  }

  /** Links the pairs of a padded level and makes their parents. */
  method LinkLevel(h: Hasher, m: Mode, nodes: seq<Node>, ghost level: seq<Node>, ghost pad: seq<Node>, ghost clean: seq<bool>)
    returns (up: seq<Node>)
    requires nodes == level + pad && Pads(pad, level, m.dup) && Distinct(level)
    requires |nodes| <= 2 * ((|level| + 1) / 2) <= |level| + 1
    requires |clean| == |level| && AsBefore(level, m.dup, clean)
    modifies nodes
    ensures fresh(up) && FreshLevel(up) && |up| == (|level| + 1) / 2
    ensures forall p :: 0 <= p < |up| ==> ParentDone(h, m, level, pad, up[p], p)
    ensures AsBefore(level, m.dup, clean)
  {
    up := [];
    var i := 0;
    ghost var pairs := (|level| + 1) / 2;
    while i < |nodes|
      invariant i == 2 * |up| && |up| <= pairs
      invariant fresh(up) && FreshLevel(up)
      invariant forall n :: n in up ==> n !in nodes
      invariant forall p :: 0 <= p < |up| ==> ParentDone(h, m, level, pad, up[p], p)
      invariant AsBefore(level, m.dup, clean)
    {
      var parent := LinkNext(h, m, nodes, i, level, pad, up, clean);
      up := up + [parent];
      i := i + 2;
    }
  }

  /** One round of makeTree: links a level and makes its parents. The source pads inside its
      loop, where the level can have an odd size only in the first iteration. */
  method BuildLevel(h: Hasher, m: Mode, level: seq<Node>) returns (up: seq<Node>, pad: seq<Node>)
    requires |level| > 1 && Distinct(level)
    modifies level
    ensures Wired(level, up, m.dup)
    ensures forall j :: 0 <= j < |level| ==> CleanAt(level, m.dup, j) == old(CleanAt(level, m.dup, j))
    ensures fresh(up) && fresh(pad) && Ready(up, m.dup)
    ensures Hashes(up) == Parents(h, m, Hashes(level))
    ensures Hashes(pad) == if m.dup && |level| % 2 == 1 then [level[|level| - 1].Hash] else []
  {
    pad := PadLevel(m, level);
    ghost var clean := seq(|level|, j requires 0 <= j < |level| reads level => CleanAt(level, m.dup, j));
    up := LinkLevel(h, m, level + pad, level, pad, clean);
    AllWired(h, m, level, pad, up);
  }

  /** Nodes that nothing refers to yet. */
  ghost predicate FreshLevel(up: seq<Node>)
    reads up
  {
    Distinct(up) && forall n :: n in up ==> Clean(n, true, true)
  }

  lemma AllWired(h: Hasher, m: Mode, level: seq<Node>, pad: seq<Node>, up: seq<Node>)
    requires |up| == (|level| + 1) / 2 && Pads(pad, level, m.dup) && FreshLevel(up)
    requires forall p :: 0 <= p < |up| ==> ParentDone(h, m, level, pad, up[p], p)
    ensures Wired(level, up, m.dup) && Ready(up, m.dup) && Hashes(up) == Parents(h, m, Hashes(level))
  {
    forall j | 0 <= j < |level|
      ensures WiredAt(level, up, m.dup, j)
    {
      assert ParentDone(h, m, level, pad, up[j / 2], j / 2);
      assert j == 2 * (j / 2) || j == 2 * (j / 2) + 1;
    }
    forall j | 0 <= j < |up|
      ensures CleanAt(up, m.dup, j) && Hashes(up)[j] == Parents(h, m, Hashes(level))[j]
    {
      assert Clean(up[j], true, true);
      assert ParentDone(h, m, level, pad, up[j], j);
    }
  }

  class MerkleTree {
    var Leaves: seq<Node>
    var Nodes: seq<Node>
    var Root: Bytes
    /** The levels of the last build, leaves first, and the nodes that got a parent in it. */
    ghost var Levels: seq<seq<Node>>
    ghost var Inner: set<Node>

    constructor ()
      ensures Leaves == [] && Nodes == [] && Root == []
    {
      Leaves, Nodes, Root, Levels, Inner := [], [], [], [], {};
    }

    method AddLeaf(hash: Bytes)
      modifies this`Leaves
      ensures |Leaves| == |old(Leaves)| + 1 && Leaves[..|old(Leaves)|] == old(Leaves)
      ensures fresh(Leaves[|old(Leaves)|]) && Hashes(Leaves) == Hashes(old(Leaves)) + [hash]
      ensures old(Distinct(Leaves)) ==> Distinct(Leaves)
      ensures forall dup :: old(Ready(Leaves, dup)) ==> Ready(Leaves, dup)
    {
      var node := new Node(hash);
      HashesConcat(Leaves, [node]);
      forall dup | Ready(Leaves, dup)
        ensures Ready(Leaves + [node], dup)
      {
        ReadyWithNewLeaf(Leaves, node, dup);
      }
      Leaves := Leaves + [node];
    }

    method AddLeaves(hashes: seq<Bytes>)
      modifies this`Leaves
      ensures |Leaves| == |old(Leaves)| + |hashes| && Leaves[..|old(Leaves)|] == old(Leaves)
      ensures fresh(Leaves[|old(Leaves)|..]) && Hashes(Leaves) == Hashes(old(Leaves)) + hashes
      ensures forall dup :: old(Ready(Leaves, dup)) ==> Ready(Leaves, dup)
    {
      for k := 0 to |hashes|
        invariant |Leaves| == |old(Leaves)| + k && Leaves[..|old(Leaves)|] == old(Leaves)
        invariant fresh(Leaves[|old(Leaves)|..]) && Hashes(Leaves) == Hashes(old(Leaves)) + hashes[..k]
        invariant forall dup :: old(Ready(Leaves, dup)) ==> Ready(Leaves, dup)
      {
        ghost var before := Leaves;
        AddLeaf(hashes[k]);
        assert hashes[..k + 1] == hashes[..k] + [hashes[k]];
        assert Leaves[|old(Leaves)|..] == before[|old(Leaves)|..] + [Leaves[|before|]];
      }
    }

    /** The tree is the result of making it of its leaves, whatever their links held before. */
    ghost predicate Made(h: Hasher, m: Mode)
      reads this, Inner, if Levels == [] then [] else Levels[|Levels| - 1]
    {
      && Leaves != [] && Finished(h, m, Levels, Inner, Leaves)
      && Root == Merkle.Root(h, m, Hashes(Leaves))
      && Hashes(Nodes) == Hashes(Leaves) + UpperNodes(h, m, Hashes(Leaves))
    }

    /** And the links of all leaves are right. */
    ghost predicate Built(h: Hasher, m: Mode)
      reads this, Inner, Leaves, if Levels == [] then [] else Levels[|Levels| - 1]
    {
      Made(h, m) && (|Leaves| == 1 || Ready(Leaves, m.dup))
    }

    /** The root and the node list are those of the leaves whatever their links held. What is not
        clean stays so: IsRoot, for one, is never cleared. */
    method MakeTree(h: Hasher, m: Mode)
      requires Distinct(Leaves)
      modifies this`Nodes, this`Root, this`Levels, this`Inner, Leaves
      ensures Leaves == [] ==> Nodes == old(Nodes) && Root == old(Root)
      ensures Leaves != [] ==> Made(h, m)
      ensures Leaves != [] && old(Ready(Leaves, m.dup)) ==> Built(h, m)
      ensures |Leaves| > 1 ==> forall j :: 0 <= j < |Leaves| ==> CleanAt(Leaves, m.dup, j) == old(CleanAt(Leaves, m.dup, j))
    {
      if |Leaves| > 0 {
        var top, nodes, levels, inner := BuildLevels(h, m, Leaves);
        Nodes, Root, Levels, Inner := nodes, top.Hash, levels, inner;
      }
    }

    /** The proof of a leaf, or None (the source's nil) when there is no such leaf. It is right if
        and only if the leaf is the only one or was clean when the tree was made. */
    method GetProof(index: int, ghost h: Hasher, ghost m: Mode) returns (proof: Option<seq<ProofStep>>)
      requires 0 <= index < |Leaves| ==> Made(h, m)
      ensures proof.Some? <==> 0 <= index < |Leaves|
      ensures proof.Some? ==>
                (proof.value == Path(h, m, Hashes(Leaves), index) <==> |Leaves| == 1 || CleanAt(Leaves, m.dup, index))
      ensures proof.Some? && Built(h, m) ==> proof.value == Path(h, m, Hashes(Leaves), index)
      ensures proof.Some? && Leaves[index].IsRoot ==> proof.value == []
    {
      if index < 0 || index > |Leaves| - 1 {
        return None;
      }
      var results := WalkUp(Leaves[index], index, h, m, Levels, Inner);
      return Some(results);
    }
  }

  /** The steps on the way from a leaf to the root. */
  method WalkUp(leaf: Node, ghost index: nat, ghost h: Hasher, ghost m: Mode, ghost levels: seq<seq<Node>>, ghost inner: set<Node>)
    returns (results: seq<ProofStep>)
    requires levels != [] && index < |levels[0]| && leaf == levels[0][index] && Finished(h, m, levels, inner, levels[0])
    ensures results == Path(h, m, Hashes(levels[0]), index) <==> |levels[0]| == 1 || CleanAt(levels[0], m.dup, index)
    ensures leaf.IsRoot ==> results == []
  {
    results := [];
    var currentNode: Node := leaf;
    ghost var k: nat, j: nat := 0, index;
    while !currentNode.IsRoot
      invariant OnTheWay(h, m, levels, index, k, j, currentNode, results)
      invariant k > 0 ==> !leaf.IsRoot
      decreases |levels| - k
    {
      OneUp(h, m, levels, inner, index, k, j, currentNode, results);
      if currentNode.Sibling != null {
        var proofStep := ProofStep(!currentNode.IsLeftNode, currentNode.Sibling.Hash);
        results := results + [proofStep];
      }
      currentNode := currentNode.Parent;
      k, j := k + 1, j / 2;
    }
    if k == 0 {
      StoppedAtLeaf(h, m, levels, inner, index);
    } else {
      AtTheTop(h, m, levels, inner, index, k, j, currentNode, results);
    }
  }

  /** The step that the walk reads at a node. */
  ghost function StepRead(node: Node): seq<ProofStep>
    reads node
  {
    if node.Sibling == null then [] else [ProofStep(!node.IsLeftNode, node.Sibling.Hash)]
  }

  /** The walk is at node j of level k; beyond the leaf, it has read the leaf's step and is on the
      way of the leaf's parent. */
  ghost predicate OnTheWay(h: Hasher, m: Mode, levels: seq<seq<Node>>, index: nat, k: nat, j: nat, node: Node, results: seq<ProofStep>)
    requires levels != [] && index < |levels[0]|
    reads levels[0][index]
  {
    && k < |levels| && j < |levels[k]| && node == levels[k][j]
    && if k == 0 then j == index && results == []
       else index / 2 < |levels[1]| && results + Path(h, m, Hashes(levels[k]), j)
                                       == StepRead(levels[0][index]) + Path(h, m, Hashes(levels[1]), index / 2)
  }

  lemma OneUp(h: Hasher, m: Mode, levels: seq<seq<Node>>, inner: set<Node>, index: nat, k: nat, j: nat, node: Node, results: seq<ProofStep>)
    requires levels != [] && index < |levels[0]| && Finished(h, m, levels, inner, levels[0])
    requires OnTheWay(h, m, levels, index, k, j, node, results) && !node.IsRoot
    ensures k + 1 < |levels| && node.Parent != null
    ensures OnTheWay(h, m, levels, index, k + 1, j / 2, node.Parent, results + StepRead(node))
    ensures results + [] == results
  {
    InnerNode(h, m, levels, inner, k, j);
    if k == 0 {
      assert results + StepRead(node) == StepRead(node);
    } else {
      UpperNode(h, m, levels, inner, k, j);
      PathOneUp(h, m, Hashes(levels[k]), j, results);
    }
  }

  /** A leaf that counts as the root has the empty proof, which is right for a single leaf only. */
  lemma StoppedAtLeaf(h: Hasher, m: Mode, levels: seq<seq<Node>>, inner: set<Node>, index: nat)
    requires levels != [] && index < |levels[0]| && Finished(h, m, levels, inner, levels[0]) && levels[0][index].IsRoot
    ensures Path(h, m, Hashes(levels[0]), index) == [] <==> |levels[0]| == 1 || CleanAt(levels[0], m.dup, index)
  {
    if |levels[0]| > 1 {
      PathIsNotEmpty(h, m, Hashes(levels[0]), index);
    }
  }

  /** The walk ends at the top, with a right proof if and only if the leaf's own step was right. */
  lemma AtTheTop(h: Hasher, m: Mode, levels: seq<seq<Node>>, inner: set<Node>, index: nat, k: nat, j: nat, node: Node, results: seq<ProofStep>)
    requires levels != [] && index < |levels[0]| && Finished(h, m, levels, inner, levels[0])
    requires OnTheWay(h, m, levels, index, k, j, node, results) && k > 0 && node.IsRoot && !levels[0][index].IsRoot
    ensures |levels[0]| > 1
    ensures results == Path(h, m, Hashes(levels[0]), index) <==> CleanAt(levels[0], m.dup, index)
  {
    if k + 1 < |levels| {
      UpperNode(h, m, levels, inner, k, j);
      assert false;
    }
    assert results + [] == results;
    var read, step := StepRead(levels[0][index]), StepAt(m, Hashes(levels[0]), index);
    InnerNode(h, m, levels, inner, 0, index);
    CancelRight(read, step, Path(h, m, Hashes(levels[1]), index / 2));
  }

  lemma PathOneUp(h: Hasher, m: Mode, level: seq<Bytes>, j: nat, results: seq<ProofStep>)
    requires j < |level| && |level| > 1
    ensures results + Path(h, m, level, j) == (results + StepAt(m, level, j)) + Path(h, m, Parents(h, m, level), j / 2)
  {
    var step, rest := StepAt(m, level, j), Path(h, m, Parents(h, m, level), j / 2);
    assert Path(h, m, level, j) == step + rest;
    assert results + (step + rest) == (results + step) + rest;
  }

  /** The rounds of makeTree, up to the level of a single node. */
  method BuildRounds(h: Hasher, m: Mode, leaves: seq<Node>)
    returns (newNodeSet: seq<Node>, nodes: seq<Node>, ghost levels: seq<seq<Node>>, ghost inner: set<Node>)
    requires leaves != [] && Distinct(leaves)
    modifies leaves
    ensures |newNodeSet| == 1 && levels != [] && levels[|levels| - 1] == newNodeSet && levels[0] == leaves
    ensures if |leaves| == 1 then newNodeSet == leaves else fresh(newNodeSet)
    ensures forall j :: 0 <= j < |leaves| ==> CleanAt(leaves, m.dup, j) == old(CleanAt(leaves, m.dup, j))
    ensures Chain(h, m, levels, inner) && newNodeSet[0] !in inner
    ensures SameTree(h, m, nodes, newNodeSet, leaves)
  {
    nodes := leaves;
    newNodeSet := leaves;
    levels, inner := [leaves], {};
    while |newNodeSet| > 1
      invariant newNodeSet != [] && levels != [] && levels[|levels| - 1] == newNodeSet && levels[0] == leaves
      invariant Distinct(newNodeSet)
      invariant if |levels| == 1 then newNodeSet == leaves else fresh(newNodeSet) && AllClean(newNodeSet, m.dup) && |leaves| > 1
      invariant forall j :: 0 <= j < |leaves| ==> CleanAt(leaves, m.dup, j) == old(CleanAt(leaves, m.dup, j))
      invariant Chain(h, m, levels, inner)
      invariant forall n :: n in newNodeSet ==> n !in inner
      invariant forall n :: n in inner ==> n in leaves || fresh(n)
      invariant SameTree(h, m, nodes, newNodeSet, leaves)
    {
      var up, pad := BuildLevel(h, m, newNodeSet);
      SameTreeOneUp(h, m, nodes, newNodeSet, leaves, pad, up);
      nodes := nodes + pad;
      nodes := nodes + up;
      ChainOneUp(h, m, levels, inner, newNodeSet, up);
      inner := inner + (set n | n in newNodeSet);
      levels := levels + [up];
      newNodeSet := up;
    }
  }

  /** The rounds, and the mark of the node that remains: the root of the tree. */
  method BuildLevels(h: Hasher, m: Mode, leaves: seq<Node>)
    returns (top: Node, nodes: seq<Node>, ghost levels: seq<seq<Node>>, ghost inner: set<Node>)
    requires leaves != [] && Distinct(leaves)
    modifies leaves
    ensures Finished(h, m, levels, inner, leaves) && levels[|levels| - 1] == [top]
    ensures top.Hash == Merkle.Root(h, m, Hashes(leaves))
    ensures |leaves| > 1 ==> forall j :: 0 <= j < |leaves| ==> CleanAt(leaves, m.dup, j) == old(CleanAt(leaves, m.dup, j))
    ensures Hashes(nodes) == Hashes(leaves) + UpperNodes(h, m, Hashes(leaves))
  {
    var newNodeSet;
    newNodeSet, nodes, levels, inner := BuildRounds(h, m, leaves);
    top := newNodeSet[0];
    SameTreeDone(h, m, nodes, newNodeSet, leaves);
    top.IsRoot := true;
  }

  /** The node at place j of a level below the last, and its way up; its step is read right if and
      only if it is clean. */
  lemma InnerNode(h: Hasher, m: Mode, levels: seq<seq<Node>>, inner: set<Node>, k: nat, j: nat)
    requires Chain(h, m, levels, inner) && k + 1 < |levels| && j < |levels[k]|
    ensures var node := levels[k][j];
            && node in inner && |levels[k]| > 1
            && j / 2 < |levels[k + 1]| && node.Parent == levels[k + 1][j / 2]
            && Hashes(levels[k + 1]) == Parents(h, m, Hashes(levels[k]))
            && (!node.IsRoot ==> (StepRead(node) == StepAt(m, Hashes(levels[k]), j) <==> CleanAt(levels[k], m.dup, j)))
  {
    assert ChainedAt(h, m, levels, inner, k);
    assert WiredAt(levels[k], levels[k + 1], m.dup, j);
  }

  /** Above the leaves all nodes are clean. */
  lemma UpperNode(h: Hasher, m: Mode, levels: seq<seq<Node>>, inner: set<Node>, k: nat, j: nat)
    requires Chain(h, m, levels, inner) && 0 < k && k + 1 < |levels| && j < |levels[k]|
    ensures CleanAt(levels[k], m.dup, j) && !levels[k][j].IsRoot
    ensures StepRead(levels[k][j]) == StepAt(m, Hashes(levels[k]), j)
  {
    InnerNode(h, m, levels, inner, k, j);
    assert ChainedAt(h, m, levels, inner, k);
    assert CleanAt(levels[k], m.dup, j);
  }

  /** Every level but the last points to its parents in the next; `inner` holds their nodes. Above
      the leaves, they are all clean. */
  ghost predicate Chain(h: Hasher, m: Mode, levels: seq<seq<Node>>, inner: set<Node>)
    reads inner
  {
    forall k :: 0 <= k < |levels| - 1 ==> ChainedAt(h, m, levels, inner, k)
  }

  ghost predicate ChainedAt(h: Hasher, m: Mode, levels: seq<seq<Node>>, inner: set<Node>, k: nat)
    requires k + 1 < |levels|
    reads inner
  {
    && (forall n :: n in levels[k] ==> n in inner)
    && LinkedTo(h, m, levels[k], levels[k + 1])
    && (k > 0 ==> AllClean(levels[k], m.dup))
  }

  /** Chained levels from the leaves to a single node that is marked as the root. */
  ghost predicate Finished(h: Hasher, m: Mode, levels: seq<seq<Node>>, inner: set<Node>, leaves: seq<Node>)
    reads inner, if levels == [] then [] else levels[|levels| - 1]
  {
    && levels != [] && levels[0] == leaves && Chain(h, m, levels, inner)
    && |levels[|levels| - 1]| == 1 && levels[|levels| - 1][0].IsRoot
  }

  lemma ChainOneUp(h: Hasher, m: Mode, levels: seq<seq<Node>>, inner: set<Node>, level: seq<Node>, up: seq<Node>)
    requires levels != [] && levels[|levels| - 1] == level
    requires Chain(h, m, levels, inner) && LinkedTo(h, m, level, up)
    requires |levels| > 1 ==> AllClean(level, m.dup)
    ensures Chain(h, m, levels + [up], inner + set n | n in level)
  {
    var longer, more := levels + [up], inner + set n | n in level;
    forall k | 0 <= k < |longer| - 1
      ensures ChainedAt(h, m, longer, more, k)
    {
      if k + 1 < |levels| {
        assert ChainedAt(h, m, levels, inner, k);
      }
    }
  }

  /** A level whose nodes point to their parents in the next one. */
  ghost predicate LinkedTo(h: Hasher, m: Mode, level: seq<Node>, up: seq<Node>)
    reads level
  {
    |level| > 1 && Wired(level, up, m.dup) && Hashes(up) == Parents(h, m, Hashes(level))
  }

  lemma ReadyWithNewLeaf(leaves: seq<Node>, node: Node, dup: bool)
    requires Ready(leaves, dup) && node !in leaves && Clean(node, true, true)
    ensures Ready(leaves + [node], dup)
  {
    var all := leaves + [node];
    forall j | 0 <= j < |all|
      ensures CleanAt(all, dup, j)
    {
      if j < |leaves| {
        assert CleanAt(leaves, dup, j);
      }
    }
  }

  /** Finishing the tree from `level` finishes the tree of `leaves`. */
  ghost predicate SameTree(h: Hasher, m: Mode, nodes: seq<Node>, level: seq<Node>, leaves: seq<Node>) {
    && level != [] && leaves != []
    && Merkle.Root(h, m, Hashes(level)) == Merkle.Root(h, m, Hashes(leaves))
    && Hashes(nodes) + UpperNodes(h, m, Hashes(level)) == Hashes(leaves) + UpperNodes(h, m, Hashes(leaves))
  }

  lemma SameTreeOneUp(h: Hasher, m: Mode, nodes: seq<Node>, level: seq<Node>, leaves: seq<Node>, pad: seq<Node>, up: seq<Node>)
    requires SameTree(h, m, nodes, level, leaves) && |level| > 1
    requires Hashes(up) == Parents(h, m, Hashes(level))
    requires Hashes(pad) == if m.dup && |level| % 2 == 1 then [level[|level| - 1].Hash] else []
    ensures SameTree(h, m, nodes + pad + up, up, leaves)
  {
    HashesConcat(nodes, pad);
    HashesConcat(nodes + pad, up);
    Regroup(Hashes(nodes), Hashes(pad), Hashes(up));
    Regroup(Hashes(nodes), Hashes(pad) + Hashes(up), UpperNodes(h, m, Hashes(up)));
    assert UpperNodes(h, m, Hashes(level)) == Hashes(pad) + Hashes(up) + UpperNodes(h, m, Hashes(up));
  }

  lemma SameTreeDone(h: Hasher, m: Mode, nodes: seq<Node>, level: seq<Node>, leaves: seq<Node>)
    requires SameTree(h, m, nodes, level, leaves) && |level| == 1
    ensures level[0].Hash == Merkle.Root(h, m, Hashes(leaves))
    ensures Hashes(nodes) == Hashes(leaves) + UpperNodes(h, m, Hashes(leaves))
  {
  }

  /** A new tree over the given hashes: AddLeaves and MakeTree. */
  method NewTree(h: Hasher, m: Mode, hashes: seq<Bytes>) returns (tree: MerkleTree)
    ensures fresh(tree) && Hashes(tree.Leaves) == hashes
    ensures if hashes == [] then tree.Leaves == [] && tree.Root == [] else tree.Leaves != [] && tree.Built(h, m)
  {
    tree := new MerkleTree();
    tree.AddLeaves(hashes);
    assert tree.Leaves == tree.Leaves[0..];
    assert [] + hashes == hashes;
    assert Ready(tree.Leaves, m.dup);
    tree.MakeTree(h, m);
  }

  /** A tree made of a single leaf, which counts as its root. */
  method OneLeafTree(h: Hasher, m: Mode, a: Bytes) returns (tree: MerkleTree)
    ensures fresh(tree) && fresh(tree.Leaves) && |tree.Leaves| == 1
    ensures tree.Leaves[0].IsRoot && Hashes(tree.Leaves) == [a]
  {
    tree := new MerkleTree();
    tree.AddLeaf(a);
    tree.MakeTree(h, m);
    SeveralLevels(h, m, tree.Levels, tree.Inner);
  }

  /** When such a tree grows and is made again it has the root of both leaves, but its first leaf
      still counts as the root, so the proof it gives for it is empty. */
  method RegrownTree(h: Hasher, m: Mode, a: Bytes, b: Bytes) returns (tree: MerkleTree, proof: Option<seq<ProofStep>>)
    ensures Hashes(tree.Leaves) == [a, b] && tree.Root == Combine(h, m, a, b)
    ensures proof == Some([]) && !tree.Built(h, m)
  {
    tree := OneLeafTree(h, m, a);
    var leaf := tree.Leaves[0];
    tree.AddLeaf(b);
    assert tree.Leaves[0] == leaf && leaf.IsRoot;
    assert !CleanAt(tree.Leaves, m.dup, 0);
    tree.MakeTree(h, m);
    assert !CleanAt(tree.Leaves, m.dup, 0);
    RootOfTwo(h, m, a, b);
    proof := tree.GetProof(0, h, m);
  }

  lemma SeveralLevels(h: Hasher, m: Mode, levels: seq<seq<Node>>, inner: set<Node>)
    requires Chain(h, m, levels, inner)
    ensures |levels| > 1 ==> |levels[0]| > 1
  {
    assert |levels| > 1 ==> ChainedAt(h, m, levels, inner, 0);
  }

  lemma RootOfTwo(h: Hasher, m: Mode, a: Bytes, b: Bytes)
    ensures Merkle.Root(h, m, [a, b]) == Combine(h, m, a, b)
  {
    assert Parents(h, m, [a, b])[0] == ParentAt(h, m, [a, b], 0);
  }

  /** bytes.Equal after folding the steps. */
  method VerifyProof(h: Hasher, steps: seq<ProofStep>, target: Bytes, root: Bytes, twice: bool) returns (ok: bool)
    ensures ok == (Fold(h, twice, steps, target) == root)
  {
    if |steps| == 0 {
      return target == root;
    }
    var value := target;
    for i := 0 to |steps|
      invariant Fold(h, twice, steps[i..], value) == Fold(h, twice, steps, target)
    {
      var left, right;
      if steps[i].left {
        left, right := steps[i].value, value;
      } else {
        left, right := value, steps[i].value;
      }
      var hash := h(left + right);
      if twice {
        hash := h(hash);
      }
      value := hash;
    }
    return value == root;
  }
  /** Build, proof and verification fit together: whatever the leaves, the mode and the index,
      the proof of a leaf is accepted for it under the tree's root. */
  method ProveAndVerify(h: Hasher, m: Mode, hashes: seq<Bytes>, index: nat) returns (ok: bool)
    requires index < |hashes|
    ensures ok
  {
    var tree := NewTree(h, m, hashes);
    var proof := tree.GetProof(index, h, m);
    PathFoldsToRoot(h, m, hashes, index);
    ok := VerifyProof(h, proof.value, hashes[index], tree.Root, m.twice);
  }
}
