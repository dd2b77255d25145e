/**
  The Bitcoin batch: the hashes that the database joins to a transaction all lead to the same
  anchoring, so the rows read for the first of them are right for all.
 */
module BtcJoin {
  import opened ProofRows
  import opened CachedTable

  /** The tables, each by its primary key. */
  datatype Tables = Tables(aggs: map<Id, AggRow>, cals: map<Id, CalRow>, anchors: map<Id, AnchorRow>, txs: map<Id, TxRow>)

  ghost predicate TablesKeyed(db: Tables) {
    && Keyed(db.aggs, (r: AggRow) => r.hashID) && Keyed(db.cals, (r: CalRow) => r.aggID)
    && Keyed(db.anchors, (r: AnchorRow) => r.calID) && Keyed(db.txs, (r: TxRow) => r.anchorBtcAggID)
  }

  /** A hash leads to an anchoring through the agg, cal and anchor rows. */
  predicate LeadsTo(db: Tables, hashID: Id, anchorBtcAggID: Id) {
    && hashID in db.aggs && db.aggs[hashID].aggID in db.cals
    && db.cals[db.aggs[hashID].aggID].calID in db.anchors
    && db.anchors[db.cals[db.aggs[hashID].aggID].calID].anchorBtcAggID == anchorBtcAggID
  }

  /** The query of getHashIdsByBtcTxId: the hashes joined to a Bitcoin transaction. */
  function Join(db: Tables, btcTxID: Id): set<Id> {
    set hashID, anchorID | hashID in db.aggs && anchorID in db.txs
                           && LeadsTo(db, hashID, anchorID) && db.txs[anchorID].btcTxID == btcTxID :: hashID
  }

  /** A transaction anchors one root only. */
  ghost predicate OneAnchoring(db: Tables, btcTxID: Id) {
    forall a, b :: a in db.txs && b in db.txs && db.txs[a].btcTxID == db.txs[b].btcTxID == btcTxID ==> a == b
  }

  /** All joined hashes lead to the one anchoring of the transaction. */
  lemma JoinedHashesShareAnchoring(db: Tables, btcTxID: Id, x: Id, y: Id) returns (anchorID: Id)
    requires OneAnchoring(db, btcTxID) && x in Join(db, btcTxID) && y in Join(db, btcTxID)
    ensures anchorID in db.txs && db.txs[anchorID].btcTxID == btcTxID
    ensures LeadsTo(db, x, anchorID) && LeadsTo(db, y, anchorID)
  {
    anchorID :| anchorID in db.txs && LeadsTo(db, x, anchorID) && db.txs[anchorID].btcTxID == btcTxID;
    var other :| other in db.txs && LeadsTo(db, y, other) && db.txs[other].btcTxID == btcTxID;
  }

  /** A CAL at the boundary of two anchor ranges keeps the row of the range that was written
      first, so its hashes are joined to that range's transaction and to no other. */
  lemma BoundaryCalStaysWithFirst(db: Tables, rows: seq<AnchorRow>, hashID: Id, first: Id, other: Id)
    requires LeadsTo(db, hashID, first)
    ensures var later := db.(anchors := FirstWins(db.anchors, rows, (r: AnchorRow) => r.calID));
            LeadsTo(later, hashID, other) <==> other == first
  {
    KeptRowsStay(db.anchors, rows, (r: AnchorRow) => r.calID);
  }

  lemma {:induction false} KeptRowsStay<R>(kept: map<Id, R>, rows: seq<R>, key: R -> Id)
    ensures forall id :: id in kept ==> id in FirstWins(kept, rows, key) && FirstWins(kept, rows, key)[id] == kept[id]
  {
    if rows != [] {
      KeptRowsStay(kept, rows[..|rows| - 1], key);
    }
  }

  /** The ids that the batch asks for, one for each row it has. */
  function AggIds(rows: seq<AggRow>): seq<Id> {
    seq(|rows|, i requires 0 <= i < |rows| => rows[i].aggID)
  }

  function CalIds(rows: seq<CalRow>): seq<Id> {
    seq(|rows|, i requires 0 <= i < |rows| => rows[i].calID)
  }

  /** What a batch reads: the aggregation rows of some joined hashes, and bulk reads of the calendar
      and anchor rows they lead to, with what was cached and the orders of the database's answers. */
  datatype Reading = Reading(
    aggRows: seq<AggRow>,
    calCache: map<Id, CalRow>, calOrder: seq<Id>, calRows: seq<CalRow>,
    anchorCache: map<Id, AnchorRow>, anchorOrder: seq<Id>, anchorRows: seq<AnchorRow>)

  ghost predicate BatchRead(db: Tables, btcTxID: Id, b: Reading) {
    && TablesKeyed(db) && OneAnchoring(db, btcTxID)
    && (forall row :: row in b.aggRows ==> row.hashID in Join(db, btcTxID) && db.aggs[row.hashID] == row)
    && Keyed(b.calCache, (r: CalRow) => r.aggID)
    && IsAnswer(b.calOrder, Misses(AggIds(b.aggRows), b.calCache), db.cals)
    && b.calRows == RowsRead(AggIds(b.aggRows), b.calOrder, db.cals, b.calCache)
    && Keyed(b.anchorCache, (r: AnchorRow) => r.calID)
    && IsAnswer(b.anchorOrder, Misses(CalIds(b.calRows), b.anchorCache), db.anchors)
    && b.anchorRows == RowsRead(CalIds(b.calRows), b.anchorOrder, db.anchors, b.anchorCache)
  }

  function CalTable(b: Reading): map<Id, CalRow> {
    Lookup(b.calRows, (c: CalRow) => c.aggID)
  }

  function AnchorTable(b: Reading): map<Id, AnchorRow> {
    Lookup(b.anchorRows, (a: AnchorRow) => a.calID)
  }

  /** The calendar and anchor rows that the tables hold for a joined row are not contradicted by the
      caches. */
  predicate IsFresh(db: Tables, b: Reading, row: AggRow) {
    row.aggID in db.cals && AgreeAt(db.cals, b.calCache, row.aggID) && AgreeAt(db.anchors, b.anchorCache, db.cals[row.aggID].calID)
  }

  /** The lookup tables of the batch lead from a row to the rows of the tables. */
  predicate ReadsTables(db: Tables, b: Reading, row: AggRow) {
    && row.aggID in db.cals && row.aggID in CalTable(b) && CalTable(b)[row.aggID] == db.cals[row.aggID]
    && var calID := db.cals[row.aggID].calID;
       calID in db.anchors && calID in AnchorTable(b) && AnchorTable(b)[calID] == db.anchors[calID]
  }

  lemma JoinedLeadsOn(db: Tables, btcTxID: Id, b: Reading, row: AggRow)
    requires BatchRead(db, btcTxID, b) && row in b.aggRows
    ensures row.aggID in db.cals && db.cals[row.aggID].calID in db.anchors && row.aggID in AggIds(b.aggRows)
  {
    var anchorID := JoinedHashesShareAnchoring(db, btcTxID, row.hashID, row.hashID);
    var i :| 0 <= i < |b.aggRows| && b.aggRows[i] == row;
    assert AggIds(b.aggRows)[i] == row.aggID;
  }

  /** A calendar row that was read for a row of the batch is asked on for. */
  lemma CalRowAsksOn(b: Reading, cal: CalRow)
    requires cal in b.calRows
    ensures cal.calID in CalIds(b.calRows)
  {
    var k :| 0 <= k < |b.calRows| && b.calRows[k] == cal;
    assert CalIds(b.calRows)[k] == cal.calID;
  }

  /** The lookups lead from a row to the rows of the tables if and only if the caches do not
      contradict the tables on its way. */
  lemma ReadsTablesIfFresh(db: Tables, btcTxID: Id, b: Reading, row: AggRow)
    requires BatchRead(db, btcTxID, b) && row in b.aggRows
    ensures ReadsTables(db, b, row) <==> IsFresh(db, b, row)
  {
    JoinedLeadsOn(db, btcTxID, b, row);
    var cal := db.cals[row.aggID];
    LookupIsTheTables(AggIds(b.aggRows), b.calOrder, db.cals, b.calCache, (c: CalRow) => c.aggID, row.aggID);
    if CalTable(b)[row.aggID] == cal {
      LookupHolds(b.calRows, (c: CalRow) => c.aggID);
      CalRowAsksOn(b, cal);
      LookupIsTheTables(CalIds(b.calRows), b.anchorOrder, db.anchors, b.anchorCache, (a: AnchorRow) => a.calID, cal.calID);
    }
  }

  // ---------- the whole batch ----------

  ghost predicate BatchIsFresh(db: Tables, b: Reading) {
    forall row :: row in b.aggRows ==> IsFresh(db, b, row)
  }

  /** The first anchor row's ID is that of the transaction's anchoring, every row of the batch leads
      to it, and the lookups lead from every row to the rows of the tables. */
  ghost predicate BatchIsRight(db: Tables, btcTxID: Id, b: Reading) {
    && b.anchorRows != []
    && var anchorID := b.anchorRows[0].anchorBtcAggID;
       && anchorID in db.txs && db.txs[anchorID].btcTxID == btcTxID
       && forall row :: row in b.aggRows ==> LeadsTo(db, row.hashID, anchorID) && ReadsTables(db, b, row)
  }

  /** In a fresh batch, what was read is what the tables hold. */
  lemma FreshCalRow(db: Tables, btcTxID: Id, b: Reading, cal: CalRow) returns (row: AggRow)
    requires BatchRead(db, btcTxID, b) && BatchIsFresh(db, b) && cal in b.calRows
    ensures row in b.aggRows && row.aggID in db.cals && db.cals[row.aggID] == cal
  {
    RowsReadFor(AggIds(b.aggRows), b.calOrder, db.cals, b.calCache, (r: CalRow) => r.aggID, cal);
    var i :| 0 <= i < |b.aggRows| && AggIds(b.aggRows)[i] == cal.aggID;
    row := b.aggRows[i];
    assert IsFresh(db, b, row);
  }

  lemma FreshAnchorRow(db: Tables, btcTxID: Id, b: Reading, anchor: AnchorRow) returns (row: AggRow)
    requires BatchRead(db, btcTxID, b) && BatchIsFresh(db, b) && anchor in b.anchorRows
    ensures row in b.aggRows && LeadsTo(db, row.hashID, anchor.anchorBtcAggID)
  {
    RowsReadFor(CalIds(b.calRows), b.anchorOrder, db.anchors, b.anchorCache, (r: AnchorRow) => r.calID, anchor);
    var k :| 0 <= k < |b.calRows| && CalIds(b.calRows)[k] == anchor.calID;
    row := FreshCalRow(db, btcTxID, b, b.calRows[k]);
    JoinedLeadsOn(db, btcTxID, b, row);
    assert IsFresh(db, b, row);
  }

  lemma FreshFirstAnchor(db: Tables, btcTxID: Id, b: Reading, row: AggRow)
    requires BatchRead(db, btcTxID, b) && BatchIsFresh(db, b) && row in b.aggRows
    ensures b.anchorRows != []
    ensures var anchorID := b.anchorRows[0].anchorBtcAggID;
            anchorID in db.txs && db.txs[anchorID].btcTxID == btcTxID && LeadsTo(db, row.hashID, anchorID)
  {
    ReadsTablesIfFresh(db, btcTxID, b, row);
    LookupHolds(b.anchorRows, (a: AnchorRow) => a.calID);
    var first := FreshAnchorRow(db, btcTxID, b, b.anchorRows[0]);
    var anchorID := JoinedHashesShareAnchoring(db, btcTxID, first.hashID, row.hashID);
  }

  /** Taking the first anchor row's ID for the whole batch is right, and so are the rows the proofs
      are made of, if and only if the caches do not contradict the tables on the way of any row. */
  lemma FirstAnchorIsEveryones(db: Tables, btcTxID: Id, b: Reading)
    requires BatchRead(db, btcTxID, b) && b.aggRows != []
    ensures BatchIsRight(db, btcTxID, b) <==> BatchIsFresh(db, b)
  {
    forall row | row in b.aggRows
      ensures ReadsTables(db, b, row) <==> IsFresh(db, b, row)
      ensures BatchIsFresh(db, b) ==> b.anchorRows != [] && LeadsTo(db, row.hashID, b.anchorRows[0].anchorBtcAggID)
    {
      ReadsTablesIfFresh(db, btcTxID, b, row);
      if BatchIsFresh(db, b) {
        FreshFirstAnchor(db, btcTxID, b, row);
      }
    }
    if BatchIsFresh(db, b) {
      FreshFirstAnchor(db, btcTxID, b, b.aggRows[0]);
    }
  }

  // ---------- after runs of the two tables ----------

  /** The tables and caches of a batch are where runs of writes, cache writes, expiries, prunes and
      outages have left them. */
  ghost predicate AfterRuns(db: Tables, b: Reading, cals: Store<CalRow>, calEvents: seq<StoreEvent<CalRow>>,
                            anchors: Store<AnchorRow>, anchorEvents: seq<StoreEvent<AnchorRow>>)
  {
    var c := StoreRun(cals, calEvents, (r: CalRow) => r.aggID);
    var a := StoreRun(anchors, anchorEvents, (r: AnchorRow) => r.calID);
    db.cals == c.table && b.calCache == c.cache && db.anchors == a.table && b.anchorCache == a.cache
  }

  /** Whatever was written, in whatever order and with whatever failures: the batch is right if and
      only if the last change to the rows on the way of each of its hashes was harmless. */
  lemma RightAfterRuns(db: Tables, btcTxID: Id, b: Reading, cals: Store<CalRow>, calEvents: seq<StoreEvent<CalRow>>,
                       anchors: Store<AnchorRow>, anchorEvents: seq<StoreEvent<AnchorRow>>)
    requires BatchRead(db, btcTxID, b) && b.aggRows != [] && AfterRuns(db, b, cals, calEvents, anchors, anchorEvents)
    ensures BatchIsRight(db, btcTxID, b) <==>
              forall row :: row in b.aggRows ==>
                && row.aggID in db.cals
                && LastChangeHarmless(cals, calEvents, (r: CalRow) => r.aggID, row.aggID)
                && LastChangeHarmless(anchors, anchorEvents, (r: AnchorRow) => r.calID, db.cals[row.aggID].calID)
  {
    FirstAnchorIsEveryones(db, btcTxID, b);
    forall row | row in b.aggRows && row.aggID in db.cals
      ensures IsFresh(db, b, row) <==>
                && LastChangeHarmless(cals, calEvents, (r: CalRow) => r.aggID, row.aggID)
                && LastChangeHarmless(anchors, anchorEvents, (r: AnchorRow) => r.calID, db.cals[row.aggID].calID)
    {
      RunAgreesAt(cals, calEvents, (r: CalRow) => r.aggID, row.aggID);
      RunAgreesAt(anchors, anchorEvents, (r: AnchorRow) => r.calID, db.cals[row.aggID].calID);
    }
  }

  // ---------- a boundary CAL in the cache ----------

  /** A CAL at the boundary of two ranges has a row of each. When the table kept the first and the
      cache took the second, as after a failed cache write or after the first expired there, the
      batch of a hash in that CAL reads the second. */
  lemma BoundaryRowIsRead(db: Tables, btcTxID: Id, b: Reading, row: AggRow, first: AnchorRow, second: AnchorRow)
    requires BatchRead(db, btcTxID, b) && b.aggRows == [row] && first != second && first.calID == second.calID
    requires row.aggID !in b.calCache && row.aggID in db.cals && db.cals[row.aggID].calID == first.calID
    requires var s := StoreRun(Store(map[], map[], true, []), FailedCacheWrite(first, second), (r: AnchorRow) => r.calID);
             s.table == db.anchors && s.cache == b.anchorCache
    ensures b.anchorRows == [second] && !IsFresh(db, b, row) && !ReadsTables(db, b, row)
  {
    SecondRowAfterFailure(first, second, (r: AnchorRow) => r.calID);
    var aggID, calID := row.aggID, first.calID;
    assert AggIds(b.aggRows) == [aggID];
    SingleRead(aggID, b.calOrder, db.cals, b.calCache);
    assert CalIds(b.calRows) == [calID];
    SingleRead(calID, b.anchorOrder, db.anchors, b.anchorCache);
    ReadsTablesIfFresh(db, btcTxID, b, row);
  }

  lemma SingleId<R>(id: Id, kept: map<Id, R>)
    ensures Hits([id], kept) == if id in kept then [kept[id]] else []
    ensures Misses([id], kept) == if id in kept then [] else [id]
  {
    var ids := [id];
    assert ids[..0] == [] && ids[0] == id;
  }

  lemma OnlyAnswer<R>(order: seq<Id>, id: Id, table: map<Id, R>)
    requires IsAnswer(order, [id], table) && id in table
    ensures order == [id]
  {
    assert id in order;
    if |order| >= 2 {
      TwoMembers(order);
    } else {
      assert order[0] in order;
    }
  }

  lemma TwoMembers(order: seq<Id>)
    requires |order| >= 2 && forall i, j :: 0 <= i < j < |order| ==> order[i] != order[j]
    ensures exists x, y :: x in order && y in order && x != y
  {
    assert order[0] in order && order[1] in order && order[0] != order[1];
  }

  /** A read of one id. */
  lemma SingleRead<R>(id: Id, order: seq<Id>, table: map<Id, R>, cached: map<Id, R>)
    requires IsAnswer(order, Misses([id], cached), table) && id in table
    ensures RowsRead([id], order, table, cached) == [if id in cached then cached[id] else table[id]]
  {
    SingleId(id, cached);
    SingleId(id, table);
    if id in cached {
      NothingMissed(order, Misses([id], cached), table);
    } else {
      OnlyAnswer(order, id, table);
    }
  }
}
