/**
  A whole Bitcoin batch, from the tables and what was cached to the stored proofs: exactly when the
  proofs are made of the tables' rows, and that they then lead to the block's Merkle root.
 */
module BtcBatch {
  import opened ByteStrings
  import opened Aggregator
  import opened ProofRows
  import opened CachedTable
  import opened BtcJoin
  import opened ProofGen
  import opened EndToEnd

  /** What the services left in the tables for a Bitcoin transaction: every hash that is joined to
      it has been on a journey through the transaction's block, and the rows hold the ops on its way. */
  ghost predicate Archived(h: Hasher, db: Tables, head: HeadRow, btcTxID: Id, txids: seq<Bytes>, journeys: map<Id, Journey>) {
    forall hashID, anchorID ::
      hashID in db.aggs && anchorID in db.txs && LeadsTo(db, hashID, anchorID) && db.txs[anchorID].btcTxID == btcTxID ==>
        hashID in journeys && OnRecord(h, db, head, hashID, anchorID, txids, journeys[hashID])
  }

  ghost predicate OnRecord(h: Hasher, db: Tables, head: HeadRow, hashID: Id, anchorID: Id, txids: seq<Bytes>, y: Journey)
    requires LeadsTo(db, hashID, anchorID) && anchorID in db.txs
  {
    var row := db.aggs[hashID];
    var cal := db.cals[row.aggID];
    && Connected(h, y) && y.txids == txids
    && RowsOf(h, y, row, cal, db.anchors[cal.calID], db.txs[anchorID], head)
  }

  /** A batch for a transaction whose rows are all there. */
  ghost predicate BatchReady(h: Hasher, db: Tables, btcTxID: Id, b: Reading, heads: map<Id, HeadRow>, txids: seq<Bytes>,
                             journeys: map<Id, Journey>)
  {
    BatchRead(db, btcTxID, b) && btcTxID in heads && Archived(h, db, heads[btcTxID], btcTxID, txids, journeys)
  }

  /** These branches for this hash lead to the block. */
  ghost predicate Proves(h: Hasher, journeys: map<Id, Journey>, txids: seq<Bytes>, hashID: Id, hash: Bytes, branches: seq<Branch>) {
    && hashID in journeys && Connected(h, journeys[hashID]) && journeys[hashID].txids == txids
    && LeadsToBlock(h, journeys[hashID], hash, branches)
  }

  /** The branches attest the anchor of the hash's calendar row and that of the head row. */
  ghost predicate Attests(db: Tables, head: HeadRow, hashID: Id, branches: seq<Branch>, mainnet: bool) {
    && hashID in db.aggs && db.aggs[hashID].aggID in db.cals
    && AttestsCal(branches, mainnet, db.cals[db.aggs[hashID].aggID].anchor) && AttestsBtc(branches, mainnet, head.anchor)
  }

  /** One row of the batch. The lookups lead from it to the rows of the tables if and only if the
      caches do not contradict the tables on its way; when they do so for every row, its branches
      exist, lead to the block and attest the anchors of the tables' rows. */
  lemma RowLeadsToBlock(h: Hasher, db: Tables, btcTxID: Id, b: Reading, heads: map<Id, HeadRow>, txids: seq<Bytes>,
                        journeys: map<Id, Journey>, row: AggRow, mainnet: bool)
    requires BatchReady(h, db, btcTxID, b, heads, txids, journeys) && row in b.aggRows
    ensures ReadsTables(db, b, row) <==> IsFresh(db, b, row)
    ensures BatchIsFresh(db, b) ==>
              && SingleRows(b.anchorRows, db.txs, heads).Rows?
              && var from := BtcLookupsOf(b.calRows, b.anchorRows, SingleRows(b.anchorRows, db.txs, heads));
                 && BranchesOf(row, from, mainnet).Some?
                 && Proves(h, journeys, txids, row.hashID, row.hash, BranchesOf(row, from, mainnet).value)
                 && Attests(db, heads[btcTxID], row.hashID, BranchesOf(row, from, mainnet).value, mainnet)
  {
    ReadsTablesIfFresh(db, btcTxID, b, row);
    if BatchIsFresh(db, b) {
      FreshFirstAnchor(db, btcTxID, b, row);
      var anchorID := b.anchorRows[0].anchorBtcAggID;
      assert OnRecord(h, db, heads[btcTxID], row.hashID, anchorID, txids, journeys[row.hashID]);
      var from := BtcLookupsOf(b.calRows, b.anchorRows, SingleRows(b.anchorRows, db.txs, heads));
      ProofLeadsToBlock(h, journeys[row.hashID], row, from, mainnet);
      BranchesAttest(row, from, mainnet);
    }
  }

  /** These branches lead from the row's hash to the block, and attest the rows' anchors. */
  ghost predicate IsRight(h: Hasher, db: Tables, head: HeadRow, journeys: map<Id, Journey>, txids: seq<Bytes>,
                          hashID: Id, hash: Bytes, branches: seq<Branch>, mainnet: bool)
  {
    Proves(h, journeys, txids, hashID, hash, branches) && Attests(db, head, hashID, branches, mainnet)
  }

  /** All rows have such branches. */
  ghost predicate AllProve(h: Hasher, db: Tables, head: HeadRow, journeys: map<Id, Journey>, txids: seq<Bytes>,
                           rows: seq<AggRow>, from: Lookups, mainnet: bool)
  {
    forall row :: row in rows ==>
      && BranchesOf(row, from, mainnet).Some?
      && IsRight(h, db, head, journeys, txids, row.hashID, row.hash, BranchesOf(row, from, mainnet).value, mainnet)
  }

  lemma BatchProves(h: Hasher, db: Tables, btcTxID: Id, b: Reading, heads: map<Id, HeadRow>, txids: seq<Bytes>,
                    journeys: map<Id, Journey>, mainnet: bool)
    requires BatchReady(h, db, btcTxID, b, heads, txids, journeys) && b.aggRows != [] && BatchIsFresh(db, b)
    ensures SingleRows(b.anchorRows, db.txs, heads).Rows?
    ensures AllProve(h, db, heads[btcTxID], journeys, txids, b.aggRows,
                     BtcLookupsOf(b.calRows, b.anchorRows, SingleRows(b.anchorRows, db.txs, heads)), mainnet)
  {
    RowLeadsToBlock(h, db, btcTxID, b, heads, txids, journeys, b.aggRows[0], mainnet);
    var from := BtcLookupsOf(b.calRows, b.anchorRows, SingleRows(b.anchorRows, db.txs, heads));
    forall row | row in b.aggRows
      ensures BranchesOf(row, from, mainnet).Some?
              && IsRight(h, db, heads[btcTxID], journeys, txids, row.hashID, row.hash, BranchesOf(row, from, mainnet).value, mainnet)
    {
      RowLeadsToBlock(h, db, btcTxID, b, heads, txids, journeys, row, mainnet);
    }
  }

  /** What a reader of the kept proofs finds: headers of rows of the batch, and right branches. */
  ghost predicate DocsProve(h: Hasher, db: Tables, head: HeadRow, journeys: map<Id, Journey>, txids: seq<Bytes>,
                            rows: seq<AggRow>, docs: seq<Document>, gen: Generator)
  {
    forall doc :: doc in docs ==>
      && (exists row :: row in rows && IsHeaderOf(doc.header, row, gen))
      && IsRight(h, db, head, journeys, txids, doc.header.hashIDCore, doc.header.hash, doc.branches, gen.mainnet)
  }

  lemma KeptProve(h: Hasher, db: Tables, head: HeadRow, journeys: map<Id, Journey>, txids: seq<Bytes>,
                  rows: seq<AggRow>, from: Lookups, gen: Generator)
    requires AllProve(h, db, head, journeys, txids, rows, from, gen.mainnet)
    ensures DocsProve(h, db, head, journeys, txids, rows, Kept(rows, from, gen), gen)
  {
    forall doc | doc in Kept(rows, from, gen)
      ensures exists row :: row in rows && IsHeaderOf(doc.header, row, gen)
      ensures IsRight(h, db, head, journeys, txids, doc.header.hashIDCore, doc.header.hash, doc.branches, gen.mainnet)
    {
      var row := KeptSay(rows, from, gen, doc);
    }
  }

  ghost predicate AllTimed(rows: seq<AggRow>, gen: Generator) {
    forall row :: row in rows ==> gen.timeOf(row.hashID).Some?
  }

  lemma MissingIfNotTimed(h: Hasher, db: Tables, head: HeadRow, journeys: map<Id, Journey>, txids: seq<Bytes>,
                          rows: seq<AggRow>, from: Lookups, gen: Generator)
    requires AllProve(h, db, head, journeys, txids, rows, from, gen.mainnet)
    ensures SomeMissing(rows, from, gen) <==> !AllTimed(rows, gen)
  {
  }

  lemma FreshBatchProves(h: Hasher, db: Tables, btcTxID: Id, b: Reading, heads: map<Id, HeadRow>, txids: seq<Bytes>,
                         journeys: map<Id, Journey>, gen: Generator)
    requires BatchReady(h, db, btcTxID, b, heads, txids, journeys) && b.aggRows != [] && BatchIsFresh(db, b)
    ensures SingleRows(b.anchorRows, db.txs, heads).Rows?
    ensures var from := BtcLookupsOf(b.calRows, b.anchorRows, SingleRows(b.anchorRows, db.txs, heads));
            && (SomeMissing(b.aggRows, from, gen) <==> !AllTimed(b.aggRows, gen))
            && DocsProve(h, db, heads[btcTxID], journeys, txids, b.aggRows, Kept(b.aggRows, from, gen), gen)
  {
    BatchProves(h, db, btcTxID, b, heads, txids, journeys, gen.mainnet);
    var from := BtcLookupsOf(b.calRows, b.anchorRows, SingleRows(b.anchorRows, db.txs, heads));
    KeptProve(h, db, heads[btcTxID], journeys, txids, b.aggRows, from, gen);
    MissingIfNotTimed(h, db, heads[btcTxID], journeys, txids, b.aggRows, from, gen);
  }

  /** The handler on such a batch. It works with the first anchor row's ID and the lookups, which
      are right if and only if the caches do not contradict the tables on the way of any row. Then,
      when all hash IDs have a time, it generates a proof for every row whose proof satisfies the
      schema, in order; each of them leads from its hash to the block's Merkle root and attests the
      anchors of its calendar row and of the head row, and so does what is stored of them. */
  method GenerateBtcProofs(proofTable: ProofTable, ghost h: Hasher, ghost db: Tables, ghost btcTxID: Id, b: Reading,
                           txs: map<Id, TxRow>, heads: map<Id, HeadRow>, ghost txids: seq<Bytes>,
                           ghost journeys: map<Id, Journey>, gen: Generator, answered: bool)
    returns (o: Outcome)
    requires BatchReady(h, db, btcTxID, b, heads, txids, journeys) && txs == db.txs && b.aggRows != []
    modifies proofTable
    ensures BatchIsRight(db, btcTxID, b) <==> BatchIsFresh(db, b)
    ensures o.Dropped? <==> SingleRows(b.anchorRows, txs, heads).NoTx?
    ensures BatchIsFresh(db, b) ==>
              && SingleRows(b.anchorRows, txs, heads).Rows?
              && (o.Generated? <==> AllTimed(b.aggRows, gen))
              && (o.Generated? ==>
                    var docs := Kept(b.aggRows, BtcLookupsOf(b.calRows, b.anchorRows, SingleRows(b.anchorRows, txs, heads)), gen);
                    && ProofsAre(o.proofs, docs)
                    && DocsProve(h, db, heads[btcTxID], journeys, txids, b.aggRows, docs, gen)
                    && proofTable.table == Stored(old(proofTable.table), docs, answered))
  {
    o := ConsumeBtcBatch(proofTable, b.aggRows, b.calRows, b.anchorRows, txs, heads, gen, answered);
    FirstAnchorIsEveryones(db, btcTxID, b);
    if BatchIsFresh(db, b) {
      FreshBatchProves(h, db, btcTxID, b, heads, txids, journeys, gen);
    }
  }

  // ---------- what becomes of a batch that is not fresh ----------

  /** The boundary CAL of two ranges, whose second row is in the cache. When the second range has no
      transaction row yet, the batch of a hash in that CAL is dropped for good. */
  lemma BoundaryBatchIsDropped(db: Tables, btcTxID: Id, b: Reading, row: AggRow, first: AnchorRow, second: AnchorRow,
                               heads: map<Id, HeadRow>)
    requires BatchRead(db, btcTxID, b) && b.aggRows == [row] && first != second && first.calID == second.calID
    requires row.aggID !in b.calCache && row.aggID in db.cals && db.cals[row.aggID].calID == first.calID
    requires var s := StoreRun(Store(map[], map[], true, []), FailedCacheWrite(first, second), (r: AnchorRow) => r.calID);
             s.table == db.anchors && s.cache == b.anchorCache
    requires second.anchorBtcAggID !in db.txs
    ensures SingleRows(b.anchorRows, db.txs, heads).NoTx?
  {
    BoundaryRowIsRead(db, btcTxID, b, row, first, second);
  }
}
