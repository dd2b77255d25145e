/**
  A proof that mixes two anchorings, as one made of a cached row of another range: it leads to the
  block of its transaction only if the hash function collides, and then it names the collision.
 */
module MixedProofs {
  import opened ByteStrings
  import opened Merkle
  import opened Binding
  import opened ProofOps
  import opened BtcAnchor
  import Calendar
  import opened ProofRows
  import opened ProofGen
  import opened EndToEnd

  function PathOps(h: Hasher, txids: seq<Bytes>, t: nat): seq<LineItem>
    requires t < |txids|
  {
    Published(HeadOps(JsPath(Path(h, BITCOIN, txids, t))))
  }

  /** From two transactions that a block path leads to the same root: the collision. */
  lemma BlockCollision(h: Hasher, txids: seq<Bytes>, t: nat, x: Bytes, z: Bytes) returns (c: (Bytes, Bytes))
    requires t < |txids| && HashSized(txids) && x != z
    requires Eval(h, h(h(x)), PathOps(h, txids, t)) == Eval(h, h(h(z)), PathOps(h, txids, t))
    ensures IsCollision(h, c)
  {
    var path := Path(h, BITCOIN, txids, t);
    if h(h(x)) == h(h(z)) {
      c := Expose(h, true, x, z);
    } else {
      HeadOpsFold(h, path, h(h(x)));
      HeadOpsFold(h, path, h(h(z)));
      PathHashSized(h, BITCOIN, txids, t);
      c := ProofCollision(h, true, path, h(h(x)), path, h(h(z)));
    }
  }

  /** Two values of one size that a transaction's ops and the path of its block lead to the same root. */
  lemma ValueCollision(h: Hasher, body: Bytes, root: Bytes, txids: seq<Bytes>, t: nat, v: Bytes, w: Bytes)
    returns (c: (Bytes, Bytes))
    requires Index(body, root) >= 0 && t < |txids| && HashSized(txids) && v != w && |v| == |w|
    requires Eval(h, v, Published(TxOps(body, root).value) + PathOps(h, txids, t))
          == Eval(h, w, Published(TxOps(body, root).value) + PathOps(h, txids, t))
    ensures IsCollision(h, c)
  {
    EvalConcat(h, v, Published(TxOps(body, root).value), PathOps(h, txids, t));
    EvalConcat(h, w, Published(TxOps(body, root).value), PathOps(h, txids, t));
    TxOpsDoubleHash(h, body, root, v);
    TxOpsDoubleHash(h, body, root, w);
    TxsDiffer(body, root, v, w);
    c := BlockCollision(h, txids, t, TxWith(body, root, v), TxWith(body, root, w));
  }

  lemma RightOpsLeadToBlock(h: Hasher, y: Journey)
    requires Connected(h, y)
    ensures Eval(h, AnchorRoot(h, y), TransactionOps(h, y) + BlockOps(h, y)) == Root(h, BITCOIN, y.txids)
  {
    EvalConcat(h, AnchorRoot(h, y), TransactionOps(h, y), BlockOps(h, y));
    ReachesTransaction(h, y);
    ReachesBlock(h, y);
  }

  /** Ops that lead from the calendar root to another root than the one in the transaction, in front
      of the transaction's and the block's ops. */
  lemma OpsCollision(h: Hasher, y: Journey, otherRoot: Bytes, otherOps: seq<LineItem>) returns (c: (Bytes, Bytes))
    requires Connected(h, y) && HashSized(y.txids) && Calendar.Decodings(Calendar.AggRoots(y.aggs)) != []
    requires Eval(h, CalRoot(h, y), otherOps) == otherRoot
    requires otherRoot != AnchorRoot(h, y) && |otherRoot| == |AnchorRoot(h, y)|
    requires Eval(h, CalRoot(h, y), otherOps + (TransactionOps(h, y) + BlockOps(h, y))) == Root(h, BITCOIN, y.txids)
    ensures IsCollision(h, c)
  {
    EvalConcat(h, CalRoot(h, y), otherOps, TransactionOps(h, y) + BlockOps(h, y));
    RightOpsLeadToBlock(h, y);
    c := ValueCollision(h, y.body, HexEncode(AnchorRoot(h, y)), y.txids, y.t, otherRoot, AnchorRoot(h, y));
  }

  /** A row's proof whose anchor row belongs to another root: if it leads to the block all the same,
      it exposes a collision of the hash function. */
  lemma MixedProofCollides(h: Hasher, y: Journey, otherRoot: Bytes, row: AggRow, from: Lookups, mainnet: bool)
    returns (c: (Bytes, Bytes))
    requires Connected(h, y) && HashSized(y.txids) && Calendar.Decodings(Calendar.AggRoots(y.aggs)) != []
    requires from.BtcLookups? && row.aggID in from.cals && from.cals[row.aggID].calID in from.anchors
    requires from.tx.ops == TransactionOps(h, y) && from.head.ops == BlockOps(h, y)
    requires Eval(h, CalRoot(h, y), from.anchors[from.cals[row.aggID].calID].ops) == otherRoot
    requires otherRoot != AnchorRoot(h, y) && |otherRoot| == |AnchorRoot(h, y)|
    requires LeadsToBlock(h, y, row.hash, BranchesOf(row, from, mainnet).value)
    ensures IsCollision(h, c)
  {
    var otherOps := from.anchors[from.cals[row.aggID].calID].ops;
    var branch := BranchesOf(row, from, mainnet).value[0].branches[0];
    ReadBranch(h, CalRoot(h, y), otherOps + (TransactionOps(h, y) + BlockOps(h, y)), branch.ops[|branch.ops| - 1]);
    c := OpsCollision(h, y, otherRoot, otherOps);
  }
}
