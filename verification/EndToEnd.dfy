/** From a submitted hash to the Merkle root of a Bitcoin block, through every service. */
module EndToEnd {
  import opened ByteStrings
  import opened Merkle
  import opened ProofOps
  import opened Aggregator
  import opened Calendar
  import opened BtcAnchor
  import opened ProofRows
  import opened ProofGen

  /** A submitted hash (number i of `items`) on its way: its aggregation (number j of `aggs`),
      that calendar transaction (number c of `cals`), the Bitcoin transaction's text and its
      place t in the list of the block's transactions. */
  datatype Journey = Journey(items: seq<HashItem>, nist: Bytes, i: nat,
                             aggs: seq<Aggregation>, j: nat,
                             cals: seq<ResultTx>, c: nat,
                             body: Bytes, txids: seq<Bytes>, t: nat)

  /** The services fit together: the aggregation is the one the aggregator made of the items (and
      no root before it was skipped), the transaction carries the calendar root made of the aggregations, the anchored value
      stands at a byte of the Bitcoin transaction, and the block contains that transaction. */
  ghost predicate Connected(h: Hasher, y: Journey) {
    && y.i < |y.items| && LegibleEntry(h, y.items, y.nist, y.i)
    && y.j < |y.aggs| && AllHex(AggRoots(y.aggs)[..y.j])
    && y.aggs[y.j].aggRoot == HexEncode(AggRoot(h, y))
    && y.c < |y.cals| && (forall k :: 0 <= k < |y.cals| ==> IsCalTx(y.cals[k]))
    && y.cals[y.c].tx.value.data == RootText(h, Decodings(AggRoots(y.aggs)))
    && IsHex(y.body) && Index(y.body, HexEncode(AnchorRoot(h, y))) >= 0
    && Index(y.body, HexEncode(AnchorRoot(h, y))) % 2 == 0
    && y.t < |y.txids| && y.txids[y.t] == TxId(h, y)
  }

  function AggRoot(h: Hasher, y: Journey): Bytes
    requires y.items != []
  {
    Merkle.Root(h, PLAIN, Leaves(h, y.items, y.nist))
  }

  function CalRoot(h: Hasher, y: Journey): Bytes
    requires Decodings(AggRoots(y.aggs)) != []
  {
    Merkle.Root(h, PLAIN, Decodings(AggRoots(y.aggs)))
  }

  function AnchorRoot(h: Hasher, y: Journey): Bytes
    requires y.cals != [] && forall k :: 0 <= k < |y.cals| ==> IsCalTx(y.cals[k])
  {
    Merkle.Root(h, PLAIN, CalRoots(y.cals))
  }

  function TxId(h: Hasher, y: Journey): Bytes {
    h(h(HexDecode(y.body).bytes))
  }

  /** What an aggregation is made of. */
  datatype Source = Source(items: seq<HashItem>, nist: Bytes)

  ghost predicate NoneIsEmpty(sources: seq<Source>) {
    forall j :: 0 <= j < |sources| ==> sources[j].items != []
  }

  function SourceRoot(h: Hasher, source: Source): Bytes
    requires source.items != []
  {
    Merkle.Root(h, PLAIN, Leaves(h, source.items, source.nist))
  }

  function AggsOf(h: Hasher, sources: seq<Source>): seq<Aggregation>
    requires NoneIsEmpty(sources)
  {
    seq(|sources|, j requires 0 <= j < |sources| && sources[j].items != [] =>
      Aggregation([], HexEncode(SourceRoot(h, sources[j])), []))
  }

  function CalOf(text: Bytes): seq<ResultTx> {
    [ResultTx([], Some(DecodedTx(Ascii("CAL"), text)))]
  }

  /** Hash number i of source number j on its way, when the aggregations of the sources make one
      calendar transaction, which is alone in its anchor, as is the Bitcoin transaction in its block. */
  function JourneyOf(h: Hasher, sources: seq<Source>, j: nat, i: nat): Journey
    requires NoneIsEmpty(sources) && j < |sources| && i < |sources[j].items|
  {
    var aggs := AggsOf(h, sources);
    var text := RootText(h, Decodings(AggRoots(aggs)));
    Journey(sources[j].items, sources[j].nist, i, aggs, j, CalOf(text), 0, text, [h(h(HexDecode(text).bytes))], 0)
  }

  lemma RootsAreHex(h: Hasher, sources: seq<Source>, j: nat)
    requires NoneIsEmpty(sources) && j < |sources|
    ensures AllHex(AggRoots(AggsOf(h, sources))[..j])
    ensures Decodings(AggRoots(AggsOf(h, sources))) != []
  {
    var texts := AggRoots(AggsOf(h, sources));
    forall k | 0 <= k < |texts|
      ensures IsHex(texts[k])
    {
      HexRoundTrip(SourceRoot(h, sources[k]));
    }
    LeafPosition(texts, j);
  }

  lemma OneCal(h: Hasher, root: Bytes)
    ensures IsHex(HexEncode(root)) && HexDecode(HexEncode(root)).bytes == root
    ensures CalRoots(CalOf(HexEncode(root))) == [root]
    ensures Index(HexEncode(root), HexEncode(root)) == 0
  {
    HexRoundTrip(root);
    var text := HexEncode(root);
    assert text[0..|text|] == text;
    assert IsCalTx(CalOf(text)[0]);
  }

  /** The hypotheses can be met by every legible hash of any aggregation among any others. */
  lemma JourneyExists(h: Hasher, sources: seq<Source>, j: nat, i: nat)
    requires NoneIsEmpty(sources) && j < |sources| && i < |sources[j].items|
    requires LegibleEntry(h, sources[j].items, sources[j].nist, i)
    ensures Connected(h, JourneyOf(h, sources, j, i))
  {
    RootsAreHex(h, sources, j);
    OneCal(h, Merkle.Root(h, PLAIN, Decodings(AggRoots(AggsOf(h, sources)))));
  }

  // ---------- the ops each service writes ----------

  function AggOps(h: Hasher, y: Journey): seq<LineItem>
    requires y.i < |y.items|
  {
    Published(Entry(h, y.items, y.nist, y.i).proof)
  }

  function CalOps(h: Hasher, y: Journey): seq<LineItem> {
    Published(ProofItems(h, Decodings(AggRoots(y.aggs)), y.j))
  }

  function AnchorOps(h: Hasher, y: Journey): seq<LineItem>
    requires forall k :: 0 <= k < |y.cals| ==> IsCalTx(y.cals[k])
  {
    Published(ProofItems(h, CalRoots(y.cals), y.c))
  }

  function TransactionOps(h: Hasher, y: Journey): seq<LineItem>
    requires y.cals != [] && forall k :: 0 <= k < |y.cals| ==> IsCalTx(y.cals[k])
    requires Index(y.body, HexEncode(AnchorRoot(h, y))) >= 0
  {
    Published(TxOps(y.body, HexEncode(AnchorRoot(h, y))).value)
  }

  function BlockOps(h: Hasher, y: Journey): seq<LineItem>
    requires y.t < |y.txids|
  {
    Published(HeadOps(JsPath(Path(h, BITCOIN, y.txids, y.t))))
  }

  // ---------- the stations ----------

  lemma ReachesAggRoot(h: Hasher, y: Journey)
    requires Connected(h, y)
    ensures Eval(h, HexDecode(y.items[y.i].hash).bytes, AggOps(h, y)) == AggRoot(h, y)
  {
    EntryLeadsToRoot(h, y.items, y.nist, y.i);
  }

  lemma ReachesCalRoot(h: Hasher, y: Journey)
    requires Connected(h, y)
    ensures Decodings(AggRoots(y.aggs)) != []
    ensures Eval(h, AggRoot(h, y), CalOps(h, y)) == CalRoot(h, y)
  {
    var roots := AggRoots(y.aggs);
    HexRoundTrip(AggRoot(h, y));
    assert roots[y.j] == HexEncode(AggRoot(h, y));
    LeafPosition(roots, y.j);
    ItemsLeadToRoot(h, Decodings(roots), y.j);
  }

  lemma ReachesAnchorRoot(h: Hasher, y: Journey)
    requires Connected(h, y)
    ensures Decodings(AggRoots(y.aggs)) != []
    ensures Eval(h, CalRoot(h, y), AnchorOps(h, y)) == AnchorRoot(h, y)
  {
    HexRoundTrip(AggRoot(h, y));
    LeafPosition(AggRoots(y.aggs), y.j);
    HexRoundTrip(CalRoot(h, y));
    assert CalRoots(y.cals)[y.c] == HexDecode(y.cals[y.c].tx.value.data).bytes;
    ItemsLeadToRoot(h, CalRoots(y.cals), y.c);
  }

  lemma ReachesTransaction(h: Hasher, y: Journey)
    requires Connected(h, y)
    ensures Eval(h, AnchorRoot(h, y), TransactionOps(h, y)) == TxId(h, y)
  {
    TxOpsLeadToDoubleHash(h, y.body, AnchorRoot(h, y));
  }

  lemma ReachesBlock(h: Hasher, y: Journey)
    requires Connected(h, y)
    ensures Eval(h, TxId(h, y), BlockOps(h, y)) == Merkle.Root(h, BITCOIN, y.txids)
  {
    HeadOpsLeadToBlockRoot(h, y.txids, y.t);
  }

  // ---------- the finished proof ----------

  /** The rows in which the proof-state service keeps the ops on the hash's way. */
  ghost predicate RowsOf(h: Hasher, y: Journey, row: AggRow, cal: CalRow, anchor: AnchorRow, tx: TxRow, head: HeadRow)
    requires Connected(h, y)
  {
    && row.hash == y.items[y.i].hash && row.ops == AggOps(h, y)
    && cal.ops == CalOps(h, y)
    && anchor.ops == AnchorOps(h, y)
    && tx.ops == TransactionOps(h, y)
    && head.ops == BlockOps(h, y)
  }

  /** The branches of a Bitcoin proof, read from the submitted hash: the calendar branch leads to
      the calendar root, and from there the Bitcoin branch leads to the block's Merkle root. */
  ghost predicate LeadsToBlock(h: Hasher, y: Journey, hash: Bytes, branches: seq<Branch>)
    requires Connected(h, y)
  {
    && Decodings(AggRoots(y.aggs)) != [] && |branches| == 1 && |branches[0].branches| == 1
    && Read(h, HexDecode(hash).bytes, branches[0].ops) == CalRoot(h, y)
    && Read(h, CalRoot(h, y), branches[0].branches[0].ops) == Merkle.Root(h, BITCOIN, y.txids)
  }

  lemma ProofLeadsToBlock(h: Hasher, y: Journey, row: AggRow, from: Lookups, mainnet: bool)
    requires Connected(h, y)
    requires from.BtcLookups? && row.aggID in from.cals && from.cals[row.aggID].calID in from.anchors
    requires RowsOf(h, y, row, from.cals[row.aggID], from.anchors[from.cals[row.aggID].calID], from.tx, from.head)
    ensures BranchesOf(row, from, mainnet).Some?
    ensures LeadsToBlock(h, y, row.hash, BranchesOf(row, from, mainnet).value)
  {
    var branch := BranchesOf(row, from, mainnet).value[0];
    CalendarBranchLeads(h, y, branch.ops[|branch.ops| - 1]);
    BitcoinBranchLeads(h, y, branch.branches[0].ops[|branch.branches[0].ops| - 1]);
  }

  /** The proof of a calendar batch, which has no Bitcoin branch yet, leads to the calendar root. */
  lemma ProofLeadsToCalendar(h: Hasher, y: Journey, row: AggRow, cals: map<Id, CalRow>, mainnet: bool)
    requires Connected(h, y)
    requires row.hash == y.items[y.i].hash && row.ops == AggOps(h, y)
    requires row.aggID in cals && cals[row.aggID].ops == CalOps(h, y)
    ensures Decodings(AggRoots(y.aggs)) != []
    ensures BranchesOf(row, CalLookups(cals), mainnet).Some?
    ensures var branches := BranchesOf(row, CalLookups(cals), mainnet).value;
            && |branches| == 1 && branches[0].branches == []
            && Read(h, HexDecode(row.hash).bytes, branches[0].ops) == CalRoot(h, y)
  {
    var branch := BranchesOf(row, CalLookups(cals), mainnet).value[0];
    CalendarBranchLeads(h, y, branch.ops[|branch.ops| - 1]);
  }

  lemma CalendarBranchLeads(h: Hasher, y: Journey, anchors: BranchOp)
    requires Connected(h, y) && anchors.Anchors?
    ensures Decodings(AggRoots(y.aggs)) != []
    ensures Read(h, HexDecode(y.items[y.i].hash).bytes, Wrap(AggOps(h, y) + CalOps(h, y)) + [anchors]) == CalRoot(h, y)
  {
    var start := HexDecode(y.items[y.i].hash).bytes;
    ReadBranch(h, start, AggOps(h, y) + CalOps(h, y), anchors);
    EvalConcat(h, start, AggOps(h, y), CalOps(h, y));
    ReachesAggRoot(h, y);
    ReachesCalRoot(h, y);
  }

  lemma BitcoinBranchLeads(h: Hasher, y: Journey, anchors: BranchOp)
    requires Connected(h, y) && anchors.Anchors?
    ensures Decodings(AggRoots(y.aggs)) != []
    ensures Read(h, CalRoot(h, y), Wrap(AnchorOps(h, y) + (TransactionOps(h, y) + BlockOps(h, y))) + [anchors])
         == Merkle.Root(h, BITCOIN, y.txids)
  {
    ReachesAnchorRoot(h, y);
    ReachesTransaction(h, y);
    ReachesBlock(h, y);
    var ops := AnchorOps(h, y) + (TransactionOps(h, y) + BlockOps(h, y));
    ReadBranch(h, CalRoot(h, y), ops, anchors);
    EvalConcat(h, CalRoot(h, y), AnchorOps(h, y), TransactionOps(h, y) + BlockOps(h, y));
    EvalConcat(h, AnchorRoot(h, y), TransactionOps(h, y), BlockOps(h, y));
  }
}
