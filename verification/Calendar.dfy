/**
  The calendar: the tree over the aggregation roots of one calendar transaction, and the tree
  over the calendar transactions of one anchor period.
 */
module Calendar {
  import opened ByteStrings
  import opened Merkle
  import opened Rfc6962
  import opened MerkleTools
  import opened ProofOps
  import opened Aggregator

  datatype CalProofData = CalProofData(aggID: Bytes, proof: seq<LineItem>)

  datatype CalAgg = CalAgg(calRoot: Bytes, proofData: seq<CalProofData>)

  /** The decoded values of those texts that are hexadecimal. */
  function Decodings(texts: seq<Bytes>): seq<Bytes> {
    if texts == [] then []
    else
      var n := |texts| - 1;
      Decodings(texts[..n]) + if IsHex(texts[n]) then [HexDecode(texts[n]).bytes] else []
  }

  /** What GetProof returns for index i, written as line items; nothing beyond the last leaf. */
  function ProofItems(h: Hasher, leaves: seq<Bytes>, i: nat): seq<LineItem> {
    if i < |leaves| then Items(Path(h, PLAIN, leaves, i), false) else []
  }

  function RootText(h: Hasher, leaves: seq<Bytes>): Bytes {
    HexEncode(if leaves == [] then [] else Merkle.Root(h, PLAIN, leaves))
  }

  function AggRoots(aggs: seq<Aggregation>): (roots: seq<Bytes>)
    ensures |roots| == |aggs|
  {
    seq(|aggs|, i requires 0 <= i < |aggs| => aggs[i].aggRoot)
  }

  /** The proof of leaf i of a tree, or nothing, as line items. */
  method ReadProof(h: Hasher, tree: MerkleTree, i: nat) returns (lines: seq<LineItem>)
    requires tree.Leaves != [] ==> tree.Built(h, PLAIN)
    ensures lines == ProofItems(h, Hashes(tree.Leaves), i)
  {
    var proof := tree.GetProof(i, h, PLAIN);
    if proof == None {
      return [];
    }
    lines := WriteSteps(proof.value, false);
  }

  /** GenerateCalendarTree. An aggregation whose root is not hexadecimal gets no leaf, but the
      proofs are still handed out by position in the list of aggregations. */
  method GenerateCalendarTree(h: Hasher, aggs: seq<Aggregation>) returns (cal: CalAgg)
    ensures cal.calRoot == RootText(h, Decodings(AggRoots(aggs)))
    ensures |cal.proofData| == |aggs|
    ensures forall i :: 0 <= i < |aggs| ==>
              cal.proofData[i] == CalProofData(aggs[i].aggID, ProofItems(h, Decodings(AggRoots(aggs)), i))
  {
    var leaves := [];
    for i := 0 to |aggs|
      invariant leaves == Decodings(AggRoots(aggs)[..i])
    {
      assert AggRoots(aggs)[..i + 1][..i] == AggRoots(aggs)[..i];
      var decoded := HexDecode(aggs[i].aggRoot);
      if !decoded.ok {
        continue;
      }
      leaves := leaves + [decoded.bytes];
    }
    assert AggRoots(aggs)[..|aggs|] == AggRoots(aggs);
    var tree := NewTree(h, PLAIN, leaves);
    var proofData := WriteCalProofs(h, aggs, tree);
    cal := CalAgg(HexEncode(tree.Root), proofData);
  }

  method WriteCalProofs(h: Hasher, aggs: seq<Aggregation>, tree: MerkleTree) returns (proofData: seq<CalProofData>)
    requires tree.Leaves != [] ==> tree.Built(h, PLAIN)
    ensures |proofData| == |aggs|
    ensures forall i :: 0 <= i < |aggs| ==>
              proofData[i] == CalProofData(aggs[i].aggID, ProofItems(h, Hashes(tree.Leaves), i))
  {
    proofData := [];
    for i := 0 to |aggs|
      invariant |proofData| == i
      invariant forall k :: 0 <= k < i ==>
                  proofData[k] == CalProofData(aggs[k].aggID, ProofItems(h, Hashes(tree.Leaves), k))
    {
      var lines := ReadProof(h, tree, i);
      proofData := proofData + [CalProofData(aggs[i].aggID, lines)];
    }
  }

  // ---------- the anchor period ----------

  datatype DecodedTx = DecodedTx(txType: Bytes, data: Bytes)

  /** A transaction the search returned, with what it decodes to. */
  datatype ResultTx = ResultTx(hash: Bytes, tx: Option<DecodedTx>)

  datatype BtcProofData = BtcProofData(calID: Bytes, proof: seq<LineItem>)

  datatype BtcAgg = BtcAgg(anchorBtcAggID: Bytes, anchorBtcAggRoot: Bytes, proofData: seq<BtcProofData>)

  const NO_ANCHOR := BtcAgg([], [], [])

  predicate IsCalTx(t: ResultTx) {
    t.tx.Some? && t.tx.value.txType == Ascii("CAL") && IsHex(t.tx.value.data)
  }

  function CalTxs(txs: seq<ResultTx>): (cals: seq<ResultTx>)
    ensures forall i :: 0 <= i < |cals| ==> IsCalTx(cals[i])
  {
    if txs == [] then []
    else
      var n := |txs| - 1;
      CalTxs(txs[..n]) + if IsCalTx(txs[n]) then [txs[n]] else []
  }

  function CalRoots(cals: seq<ResultTx>): (roots: seq<Bytes>)
    requires forall i :: 0 <= i < |cals| ==> IsCalTx(cals[i])
    ensures |roots| == |cals|
  {
    seq(|cals|, i requires 0 <= i < |cals| && IsCalTx(cals[i]) => HexDecode(cals[i].tx.value.data).bytes)
  }

  /** AggregateAnchorTx; `uuid` makes an ID of 16 bytes. None is the panic of slicing a root that
      has fewer than 16 bytes. */
  method AggregateAnchorTx(h: Hasher, txLeaves: seq<ResultTx>, uuid: Bytes -> Bytes) returns (r: Option<BtcAgg>)
    ensures var cals := CalTxs(txLeaves);
            if txLeaves == [] then r == Some(NO_ANCHOR)
            else if cals == [] || |Merkle.Root(h, PLAIN, CalRoots(cals))| < 16 then r == None
            else
              && r.Some?
              && r.value.anchorBtcAggID == uuid(Merkle.Root(h, PLAIN, CalRoots(cals))[..16])
              && r.value.anchorBtcAggRoot == RootText(h, CalRoots(cals))
              && |r.value.proofData| == |cals|
              && forall i :: 0 <= i < |cals| ==>
                   r.value.proofData[i] == BtcProofData(HexEncode(cals[i].hash), ProofItems(h, CalRoots(cals), i))
  {
    if |txLeaves| == 0 {
      return Some(NO_ANCHOR);
    }
    var calBytes, calLeaves := CollectCals(txLeaves);
    var tree := NewTree(h, PLAIN, calBytes);
    if |tree.Root| < 16 {
      return None;
    }
    var proofData := WriteBtcProofs(h, calLeaves, tree);
    r := Some(BtcAgg(uuid(tree.Root[..16]), HexEncode(tree.Root), proofData));
  }

  method WriteBtcProofs(h: Hasher, calLeaves: seq<ResultTx>, tree: MerkleTree) returns (proofData: seq<BtcProofData>)
    requires tree.Leaves != [] ==> tree.Built(h, PLAIN)
    ensures |proofData| == |calLeaves|
    ensures forall i :: 0 <= i < |calLeaves| ==>
              proofData[i] == BtcProofData(HexEncode(calLeaves[i].hash), ProofItems(h, Hashes(tree.Leaves), i))
  {
    proofData := [];
    for i := 0 to |calLeaves|
      invariant |proofData| == i
      invariant forall k :: 0 <= k < i ==>
                  proofData[k] == BtcProofData(HexEncode(calLeaves[k].hash), ProofItems(h, Hashes(tree.Leaves), k))
    {
      var lines := ReadProof(h, tree, i);
      proofData := proofData + [BtcProofData(HexEncode(calLeaves[i].hash), lines)];
    }
  }

  /** The loop that picks the decodable CAL transactions. */
  method CollectCals(txLeaves: seq<ResultTx>) returns (calBytes: seq<Bytes>, calLeaves: seq<ResultTx>)
    ensures calLeaves == CalTxs(txLeaves) && calBytes == CalRoots(CalTxs(txLeaves))
  {
    calBytes, calLeaves := [], [];
    for i := 0 to |txLeaves|
      invariant calLeaves == CalTxs(txLeaves[..i]) && calBytes == CalRoots(calLeaves)
    {
      var t := txLeaves[i];
      assert txLeaves[..i + 1][..i] == txLeaves[..i];
      if t.tx == None {
        continue;
      }
      if t.tx.value.txType == Ascii("CAL") {
        var decoded := HexDecode(t.tx.value.data);
        if !decoded.ok {
          continue;
        }
        calBytes := calBytes + [decoded.bytes];
        calLeaves := calLeaves + [t];
      }
    }
    assert txLeaves[..|txLeaves|] == txLeaves;
  }

  // ---------- which transactions count ----------

  /** Decoded as a transaction of type CAL, with data that is an even number of hexadecimal digits. */
  predicate CarriesCal(t: ResultTx) {
    && t.tx.Some? && t.tx.value.txType == [0x43, 0x41, 0x4C] && |t.tx.value.data| % 2 == 0
    && forall i :: 0 <= i < |t.tx.value.data| ==> IsLowerDigit(LowerCase(t.tx.value.data[i]))
  }

  lemma OneCalTx(t: ResultTx)
    ensures CalTxs([t]) == if CarriesCal(t) then [t] else []
  {
    assert Ascii("CAL") == [0x43, 0x41, 0x4C];
    assert [t][..0] == [];
    if t.tx.Some? {
      HexTexts(t.tx.value.data);
    }
  }

  /** The CALs of two lists are those of the one and then those of the other. */
  lemma {:induction false} CalTxsInOrder(a: seq<ResultTx>, b: seq<ResultTx>)
    ensures CalTxs(a + b) == CalTxs(a) + CalTxs(b)
  {
    if b == [] {
      assert a + b == a;
    } else {
      var n := |b| - 1;
      assert (a + b)[..|a + b| - 1] == a + b[..n];
      CalTxsInOrder(a, b[..n]);
    }
  }

  /** A transaction counts if and only if it carries a CAL, and then in its place: other transactions of
      the range, with hexadecimal data or not, change nothing about what is anchored. */
  lemma OnlyCalsCount(a: seq<ResultTx>, t: ResultTx, b: seq<ResultTx>)
    ensures CalTxs(a + [t] + b) == CalTxs(a) + (if CarriesCal(t) then [t] else []) + CalTxs(b)
    ensures !CarriesCal(t) ==> CalTxs(a + [t] + b) == CalTxs(a + b)
  {
    CalTxsInOrder(a + [t], b);
    CalTxsInOrder(a, [t]);
    CalTxsInOrder(a, b);
    OneCalTx(t);
  }

  // ---------- the branches lead to the roots ----------

  /** From leaf i, the published ops lead to the root. */
  lemma ItemsLeadToRoot(h: Hasher, leaves: seq<Bytes>, i: nat)
    requires i < |leaves|
    ensures Eval(h, leaves[i], Published(ProofItems(h, leaves, i))) == Merkle.Root(h, PLAIN, leaves)
  {
    EvalItems(h, Path(h, PLAIN, leaves, i), false, leaves[i]);
    PathFoldsToRoot(h, PLAIN, leaves, i);
  }

  /** The leaf of an aggregation root that is hexadecimal: as many leaves are before it as roots
      before it are. It stands at the root's own position if and only if no root before it was
      skipped. */
  lemma {:induction false} LeafPosition(texts: seq<Bytes>, i: nat)
    requires i < |texts| && IsHex(texts[i])
    ensures var at := |Decodings(texts[..i])|;
            && at < |Decodings(texts)| && Decodings(texts)[at] == HexDecode(texts[i]).bytes
            && at <= i && (at == i <==> AllHex(texts[..i]))
    decreases |texts|
  {
    var n := |texts| - 1;
    if i < n {
      assert texts[..n][..i] == texts[..i];
      LeafPosition(texts[..n], i);
    } else {
      LeafCount(texts[..i]);
    }
  }

  ghost predicate AllHex(texts: seq<Bytes>) {
    forall k :: 0 <= k < |texts| ==> IsHex(texts[k])
  }

  lemma {:induction false} LeafCount(texts: seq<Bytes>)
    ensures |Decodings(texts)| <= |texts|
    ensures |Decodings(texts)| == |texts| <==> AllHex(texts)
  {
    if texts != [] {
      var n := |texts| - 1;
      LeafCount(texts[..n]);
      assert AllHex(texts) <==> AllHex(texts[..n]) && IsHex(texts[n]);
    }
  }

  // ---------- whose proof is handed out ----------

  ghost predicate NoneEmpty(values: seq<Bytes>) {
    forall k :: 0 <= k < |values| ==> values[k] != []
  }

  ghost predicate NoEmptyStep(steps: seq<ProofStep>) {
    forall k :: 0 <= k < |steps| ==> steps[k].value != []
  }

  lemma {:induction false} PathHasNoEmptyStep(h: Hasher, m: Mode, level: seq<Bytes>, i: nat)
    requires i < |level| && NoneEmpty(level)
    ensures NoEmptyStep(Path(h, m, level, i))
    decreases |level|
  {
    if |level| > 1 {
      var up := Parents(h, m, level);
      forall k | 0 <= k < |up|
        ensures up[k] != []
      {
        assert up[k] == ParentAt(h, m, level, k);
      }
      PathHasNoEmptyStep(h, m, up, i / 2);
    }
  }

  /** Proofs without empty values that are written alike are the same. */
  lemma {:induction false} ItemsInjective(s: seq<ProofStep>, t: seq<ProofStep>)
    requires NoEmptyStep(s) && NoEmptyStep(t) && Items(s, false) == Items(t, false)
    ensures s == t
    decreases |s|
  {
    ItemsSize(s);
    ItemsSize(t);
    if s != [] {
      ItemsSplit(s);
      ItemsSplit(t);
      StepTextsInjective(s[0], t[0]);
      ItemsInjective(s[1..], t[1..]);
      assert s == [s[0]] + s[1..] && t == [t[0]] + t[1..];
    }
  }

  lemma {:induction false} ItemsSize(steps: seq<ProofStep>)
    ensures |Items(steps, false)| == 2 * |steps|
    decreases |steps|
  {
    if steps != [] {
      ItemsSize(steps[1..]);
    }
  }

  lemma ItemsSplit(steps: seq<ProofStep>)
    requires steps != []
    ensures |Items(steps, false)| >= 2
    ensures Items(steps, false)[0] == StepItems(steps[0], false)[0]
    ensures Items(steps, false)[2..] == Items(steps[1..], false)
  {
  }

  lemma StepTextsInjective(s: ProofStep, t: ProofStep)
    requires s.value != [] && t.value != [] && StepItems(s, false)[0] == StepItems(t, false)[0]
    ensures s == t
  {
    HexRoundTrip(s.value);
    HexRoundTrip(t.value);
    if s.left == t.left {
      HexEncodeInjective(s.value, t.value);
    }
  }

  lemma ProofsDiffer(h: Hasher, leaves: seq<Bytes>, at: nat, i: nat)
    requires at < |leaves| && at != i && |leaves| > 1 && NoneEmpty(leaves)
    ensures ProofItems(h, leaves, at) != ProofItems(h, leaves, i)
  {
    PathHasNoEmptyStep(h, PLAIN, leaves, at);
    ItemsSize(Path(h, PLAIN, leaves, at));
    if i < |leaves| {
      PathHasNoEmptyStep(h, PLAIN, leaves, i);
      PathIsAuditPath(h, PLAIN, leaves, at);
      PathIsAuditPath(h, PLAIN, leaves, i);
      AuditPathsDiffer(h, PLAIN, leaves, if at < i then at else i, if at < i then i else at);
      if ProofItems(h, leaves, at) == ProofItems(h, leaves, i) {
        ItemsInjective(Path(h, PLAIN, leaves, at), Path(h, PLAIN, leaves, i));
      }
    } else {
      PathIsNotEmpty(h, PLAIN, leaves, at);
    }
  }

  /** An aggregation whose root is hexadecimal is handed the proof of its own leaf if and only if
      no root before it was skipped, or there is one leaf only, whose proof is empty. */
  lemma HandedOutProof(h: Hasher, texts: seq<Bytes>, i: nat)
    requires i < |texts| && IsHex(texts[i])
    ensures var leaves, at := Decodings(texts), |Decodings(texts[..i])|;
            && at < |leaves| && leaves[at] == HexDecode(texts[i]).bytes
            && (AllHex(texts[..i]) || |leaves| == 1 ==> ProofItems(h, leaves, i) == ProofItems(h, leaves, at))
            && (NoneEmpty(leaves) && ProofItems(h, leaves, i) == ProofItems(h, leaves, at) ==>
                  AllHex(texts[..i]) || |leaves| == 1)
  {
    LeafPosition(texts, i);
    var leaves, at := Decodings(texts), |Decodings(texts[..i])|;
    if at != i && |leaves| > 1 && NoneEmpty(leaves) {
      ProofsDiffer(h, leaves, at, i);
    }
  }

  /** A root that can be cut: some CAL transaction, and all CAL data 32 bytes long. */
  lemma RootIsLongEnough(h: Hasher, cals: seq<ResultTx>)
    requires cals != [] && forall i :: 0 <= i < |cals| ==> IsCalTx(cals[i]) && |HexDecode(cals[i].tx.value.data).bytes| == 32
    ensures |Merkle.Root(h, PLAIN, CalRoots(cals))| == 32
  {
    RootSize(h, PLAIN, CalRoots(cals));
  }

  lemma {:induction false} RootSize(h: Hasher, m: Mode, level: seq<Bytes>)
    requires level != [] && forall i :: 0 <= i < |level| ==> |level[i]| == 32
    ensures |Merkle.Root(h, m, level)| == 32
    decreases |level|
  {
    if |level| > 1 {
      RootSize(h, m, Parents(h, m, level));
    }
  }
}
