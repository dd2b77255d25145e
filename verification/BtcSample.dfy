/**
  Batches that the results about batches speak of: any hashes of any aggregations under one calendar
  transaction, whatever the caches hold.
 */
module BtcSample {
  import opened ByteStrings
  import opened Merkle
  import opened ProofOps
  import opened Aggregator
  import opened Calendar
  import opened ProofRows
  import opened CachedTable
  import opened BtcJoin
  import opened EndToEnd
  import opened BtcBatch

  // ---------- every batch can be read ----------

  lemma {:induction false} AnswerExists<R>(asked: seq<Id>, table: map<Id, R>) returns (order: seq<Id>)
    ensures IsAnswer(order, asked, table)
  {
    order := [];
    if asked != [] {
      var n := |asked| - 1;
      order := AnswerExists(asked[..n], table);
      assert asked == asked[..n] + [asked[n]];
      if asked[n] in table && asked[n] !in order {
        order := order + [asked[n]];
      }
    }
  }

  /** Rows that are joined can be read, whatever the caches hold. */
  lemma ReadingExists(db: Tables, btcTxID: Id, rows: seq<AggRow>, calCache: map<Id, CalRow>, anchorCache: map<Id, AnchorRow>)
    returns (b: Reading)
    requires TablesKeyed(db) && OneAnchoring(db, btcTxID)
    requires forall row :: row in rows ==> row.hashID in Join(db, btcTxID) && db.aggs[row.hashID] == row
    requires Keyed(calCache, (r: CalRow) => r.aggID) && Keyed(anchorCache, (r: AnchorRow) => r.calID)
    ensures BatchRead(db, btcTxID, b) && b.aggRows == rows && b.calCache == calCache && b.anchorCache == anchorCache
  {
    var calOrder := AnswerExists(Misses(AggIds(rows), calCache), db.cals);
    var calRows := RowsRead(AggIds(rows), calOrder, db.cals, calCache);
    var anchorOrder := AnswerExists(Misses(CalIds(calRows), anchorCache), db.anchors);
    b := Reading(rows, calCache, calOrder, calRows, anchorCache, anchorOrder,
                 RowsRead(CalIds(calRows), anchorOrder, db.anchors, anchorCache));
  }

  // ---------- the tables ----------

  /** Hash number `item` of aggregation number `agg`. */
  datatype Place = Place(agg: nat, item: nat)

  /** The sources of the aggregations with their IDs, the places of the batch's hashes, and what the
      other rows are called. */
  datatype Sample = Sample(sources: seq<Source>, aggIDs: seq<Id>, places: seq<Place>,
                           calID: Id, anchorID: Id, btcTxID: Id, height: int, ref: AnchorRef)

  ghost predicate IsSample(h: Hasher, s: Sample) {
    && s.sources != [] && NoneIsEmpty(s.sources)
    && |s.aggIDs| == |s.sources| && (forall j, k :: 0 <= j < k < |s.aggIDs| ==> s.aggIDs[j] != s.aggIDs[k])
    && (forall k :: 0 <= k < |s.places| ==> IsPlace(h, s.sources, s.places[k]))
    && (forall j, k :: 0 <= j < k < |s.places| ==> ItemAt(h, s.sources, s.places[j]).hashID != ItemAt(h, s.sources, s.places[k]).hashID)
  }

  ghost predicate IsPlace(h: Hasher, sources: seq<Source>, p: Place) {
    && p.agg < |sources| && p.item < |sources[p.agg].items|
    && LegibleEntry(h, sources[p.agg].items, sources[p.agg].nist, p.item)
  }

  ghost function ItemAt(h: Hasher, sources: seq<Source>, p: Place): HashItem
    requires IsPlace(h, sources, p)
  {
    sources[p.agg].items[p.item]
  }

  ghost function HashIdAt(h: Hasher, s: Sample, k: nat): Id
    requires IsSample(h, s) && k < |s.places|
  {
    ItemAt(h, s.sources, s.places[k]).hashID
  }

  ghost function JourneyAt(h: Hasher, s: Sample, k: nat): Journey
    requires IsSample(h, s) && k < |s.places|
  {
    JourneyOf(h, s.sources, s.places[k].agg, s.places[k].item)
  }

  ghost function AggRowAt(h: Hasher, s: Sample, k: nat): AggRow
    requires IsSample(h, s) && k < |s.places|
  {
    var item := ItemAt(h, s.sources, s.places[k]);
    AggRow(item.hashID, item.hash, s.aggIDs[s.places[k].agg], AggOps(h, JourneyAt(h, s, k)))
  }

  ghost function AggRows(h: Hasher, s: Sample): (rows: seq<AggRow>)
    requires IsSample(h, s)
    ensures |rows| == |s.places|
  {
    seq(|s.places|, k requires 0 <= k < |s.places| => AggRowAt(h, s, k))
  }

  ghost function CalRowAt(h: Hasher, s: Sample, j: nat): CalRow
    requires IsSample(h, s) && j < |s.sources|
  {
    CalRow(s.aggIDs[j], s.calID, CalOps(h, JourneyOf(h, s.sources, j, 0)), s.ref)
  }

  ghost function AnchorRowOf(h: Hasher, s: Sample): AnchorRow
    requires IsSample(h, s)
  {
    SharedAnchor(h, s);
    AnchorRow(s.calID, s.anchorID, AnchorOps(h, JourneyOf(h, s.sources, 0, 0)))
  }

  ghost function TxRowOf(h: Hasher, s: Sample): TxRow
    requires IsSample(h, s)
  {
    SharedAnchor(h, s);
    TxRow(s.anchorID, s.btcTxID, TransactionOps(h, JourneyOf(h, s.sources, 0, 0)))
  }

  ghost function HeadRowOf(h: Hasher, s: Sample): HeadRow
    requires IsSample(h, s)
  {
    HeadRow(s.btcTxID, s.height, BlockOps(h, JourneyOf(h, s.sources, 0, 0)), s.ref)
  }

  lemma SharedAnchor(h: Hasher, s: Sample)
    requires IsSample(h, s)
    ensures var y := JourneyOf(h, s.sources, 0, 0);
            forall k :: 0 <= k < |y.cals| ==> IsCalTx(y.cals[k])
    ensures var y := JourneyOf(h, s.sources, 0, 0);
            Index(y.body, HexEncode(AnchorRoot(h, y))) >= 0
  {
    RootsAreHex(h, s.sources, 0);
    OneCal(h, Merkle.Root(h, PLAIN, Decodings(AggRoots(AggsOf(h, s.sources)))));
  }

  ghost function CalRows(h: Hasher, s: Sample): (rows: seq<CalRow>)
    requires IsSample(h, s)
    ensures |rows| == |s.sources|
  {
    seq(|s.sources|, j requires 0 <= j < |s.sources| => CalRowAt(h, s, j))
  }

  ghost function AggTableOf(h: Hasher, s: Sample): map<Id, AggRow>
    requires IsSample(h, s)
  {
    Lookup(AggRows(h, s), (r: AggRow) => r.hashID)
  }

  ghost function CalTableOf(h: Hasher, s: Sample): map<Id, CalRow>
    requires IsSample(h, s)
  {
    Lookup(CalRows(h, s), (r: CalRow) => r.aggID)
  }

  ghost function DbOf(h: Hasher, s: Sample): Tables
    requires IsSample(h, s)
  {
    Tables(AggTableOf(h, s), CalTableOf(h, s), map[s.calID := AnchorRowOf(h, s)], map[s.anchorID := TxRowOf(h, s)])
  }

  ghost function NamedJourneys(h: Hasher, s: Sample): (named: seq<(Id, Journey)>)
    requires IsSample(h, s)
    ensures |named| == |s.places|
  {
    seq(|s.places|, k requires 0 <= k < |s.places| => (HashIdAt(h, s, k), JourneyAt(h, s, k)))
  }

  ghost function Journeys(h: Hasher, s: Sample): map<Id, Journey>
    requires IsSample(h, s)
  {
    var named := Lookup(NamedJourneys(h, s), (p: (Id, Journey)) => p.0);
    map id | id in named :: named[id].1
  }

  /** In a lookup of rows with different keys, every row is found under its key. */
  lemma OwnRow<R>(rows: seq<R>, key: R -> Id, i: nat)
    requires i < |rows| && forall j, k :: 0 <= j < k < |rows| ==> key(rows[j]) != key(rows[k])
    ensures key(rows[i]) in Lookup(rows, key) && Lookup(rows, key)[key(rows[i])] == rows[i]
  {
    LookupHolds(rows, key);
    var row := Lookup(rows, key)[key(rows[i])];
    var j :| 0 <= j < |rows| && rows[j] == row;
  }

  lemma AggRowIsFound(h: Hasher, s: Sample, k: nat)
    requires IsSample(h, s) && k < |s.places|
    ensures HashIdAt(h, s, k) in AggTableOf(h, s) && AggTableOf(h, s)[HashIdAt(h, s, k)] == AggRowAt(h, s, k)
  {
    assert AggRows(h, s)[k] == AggRowAt(h, s, k);
    OwnRow(AggRows(h, s), (r: AggRow) => r.hashID, k);
  }

  lemma CalRowIsFound(h: Hasher, s: Sample, j: nat)
    requires IsSample(h, s) && j < |s.sources|
    ensures s.aggIDs[j] in CalTableOf(h, s) && CalTableOf(h, s)[s.aggIDs[j]] == CalRowAt(h, s, j)
  {
    assert CalRows(h, s)[j] == CalRowAt(h, s, j);
    OwnRow(CalRows(h, s), (r: CalRow) => r.aggID, j);
  }

  lemma SampleIsKeyed(h: Hasher, s: Sample)
    requires IsSample(h, s)
    ensures TablesKeyed(DbOf(h, s)) && OneAnchoring(DbOf(h, s), s.btcTxID)
  {
    assert Keyed(AggTableOf(h, s), (r: AggRow) => r.hashID) by {
      LookupHolds(AggRows(h, s), (r: AggRow) => r.hashID);
    }
    assert Keyed(CalTableOf(h, s), (r: CalRow) => r.aggID) by {
      LookupHolds(CalRows(h, s), (r: CalRow) => r.aggID);
    }
  }

  lemma RowInTables(h: Hasher, s: Sample, k: nat)
    requires IsSample(h, s) && k < |s.places|
    ensures var db, row := DbOf(h, s), AggRowAt(h, s, k);
            && row.hashID in db.aggs && db.aggs[row.hashID] == row
            && row.aggID in db.cals && db.cals[row.aggID] == CalRowAt(h, s, s.places[k].agg)
  {
    AggRowIsFound(h, s, k);
    CalRowIsFound(h, s, s.places[k].agg);
  }

  lemma RowIsJoined(h: Hasher, s: Sample, k: nat)
    requires IsSample(h, s) && k < |s.places|
    ensures LeadsTo(DbOf(h, s), HashIdAt(h, s, k), s.anchorID) && HashIdAt(h, s, k) in Join(DbOf(h, s), s.btcTxID)
  {
    RowInTables(h, s, k);
    JoinedByAnchoring(DbOf(h, s), s.btcTxID, HashIdAt(h, s, k), s.anchorID);
  }

  lemma JoinedByAnchoring(db: Tables, btcTxID: Id, hashID: Id, anchorID: Id)
    requires LeadsTo(db, hashID, anchorID) && anchorID in db.txs && db.txs[anchorID].btcTxID == btcTxID
    ensures hashID in Join(db, btcTxID)
  {
  }

  /** Beyond its aggregation, every hash goes the same way. */
  lemma SharedWay(h: Hasher, s: Sample, k: nat)
    requires IsSample(h, s) && k < |s.places| && Connected(h, JourneyAt(h, s, k))
    ensures var y := JourneyAt(h, s, k);
            && y.txids == JourneyOf(h, s.sources, 0, 0).txids
            && RowsOf(h, y, AggRowAt(h, s, k), CalRowAt(h, s, s.places[k].agg), AnchorRowOf(h, s), TxRowOf(h, s), HeadRowOf(h, s))
  {
  }

  lemma RowIsOnRecord(h: Hasher, s: Sample, k: nat)
    requires IsSample(h, s) && k < |s.places| && LeadsTo(DbOf(h, s), HashIdAt(h, s, k), s.anchorID)
    ensures OnRecord(h, DbOf(h, s), HeadRowOf(h, s), HashIdAt(h, s, k), s.anchorID, JourneyOf(h, s.sources, 0, 0).txids,
                     JourneyAt(h, s, k))
  {
    JourneyExists(h, s.sources, s.places[k].agg, s.places[k].item);
    SharedWay(h, s, k);
    RowInTables(h, s, k);
  }

  lemma SampleIsArchived(h: Hasher, s: Sample)
    requires IsSample(h, s)
    ensures Archived(h, DbOf(h, s), HeadRowOf(h, s), s.btcTxID, JourneyOf(h, s.sources, 0, 0).txids, Journeys(h, s))
  {
    var db, journeys := DbOf(h, s), Journeys(h, s);
    forall hashID, anchorID | hashID in db.aggs && anchorID in db.txs && LeadsTo(db, hashID, anchorID)
      ensures hashID in journeys
              && OnRecord(h, db, HeadRowOf(h, s), hashID, anchorID, JourneyOf(h, s.sources, 0, 0).txids, journeys[hashID])
    {
      var k := PlaceOf(h, s, hashID);
      RowIsOnRecord(h, s, k);
    }
  }

  lemma RowAtPlace(h: Hasher, s: Sample, row: AggRow) returns (k: nat)
    requires IsSample(h, s) && row in AggRows(h, s)
    ensures k < |s.places| && row == AggRowAt(h, s, k)
  {
    k :| 0 <= k < |AggRows(h, s)| && AggRows(h, s)[k] == row;
  }

  lemma JourneyIsFound(h: Hasher, s: Sample, k: nat)
    requires IsSample(h, s) && k < |s.places|
    ensures HashIdAt(h, s, k) in Journeys(h, s) && Journeys(h, s)[HashIdAt(h, s, k)] == JourneyAt(h, s, k)
  {
    assert NamedJourneys(h, s)[k] == (HashIdAt(h, s, k), JourneyAt(h, s, k));
    OwnRow(NamedJourneys(h, s), (p: (Id, Journey)) => p.0, k);
  }

  lemma PlaceOf(h: Hasher, s: Sample, hashID: Id) returns (k: nat)
    requires IsSample(h, s) && hashID in AggTableOf(h, s)
    ensures k < |s.places| && HashIdAt(h, s, k) == hashID
    ensures hashID in Journeys(h, s) && Journeys(h, s)[hashID] == JourneyAt(h, s, k)
  {
    LookupHolds(AggRows(h, s), (r: AggRow) => r.hashID);
    k := RowAtPlace(h, s, AggTableOf(h, s)[hashID]);
    JourneyIsFound(h, s, k);
  }

  lemma RowsAreJoined(h: Hasher, s: Sample, row: AggRow)
    requires IsSample(h, s) && row in AggRows(h, s)
    ensures var db := DbOf(h, s);
            row.hashID in Join(db, s.btcTxID) && db.aggs[row.hashID] == row && row.aggID in db.cals
  {
    var k := RowAtPlace(h, s, row);
    RowIsJoined(h, s, k);
    RowInTables(h, s, k);
  }

  /** All hashes of the sample make a batch, whatever the caches hold; it is fresh when they hold
      nothing but rows of the tables. */
  lemma BatchExists(h: Hasher, s: Sample, calCache: map<Id, CalRow>, anchorCache: map<Id, AnchorRow>) returns (b: Reading)
    requires IsSample(h, s) && Keyed(calCache, (r: CalRow) => r.aggID) && Keyed(anchorCache, (r: AnchorRow) => r.calID)
    ensures BatchReady(h, DbOf(h, s), s.btcTxID, b, map[s.btcTxID := HeadRowOf(h, s)], JourneyOf(h, s.sources, 0, 0).txids,
                       Journeys(h, s))
    ensures b.aggRows == AggRows(h, s) && b.calCache == calCache && b.anchorCache == anchorCache
    ensures calCache.Items <= DbOf(h, s).cals.Items && anchorCache.Items <= DbOf(h, s).anchors.Items ==>
              BatchIsFresh(DbOf(h, s), b)
  {
    var db := DbOf(h, s);
    SampleIsKeyed(h, s);
    SampleIsArchived(h, s);
    forall row | row in AggRows(h, s)
      ensures row.hashID in Join(db, s.btcTxID) && db.aggs[row.hashID] == row && row.aggID in db.cals
    {
      RowsAreJoined(h, s, row);
    }
    b := ReadingExists(db, s.btcTxID, AggRows(h, s), calCache, anchorCache);
    if calCache.Items <= db.cals.Items && anchorCache.Items <= db.anchors.Items {
      PartsAreFresh(db, b);
    }
  }

  lemma PartsAreFresh(db: Tables, b: Reading)
    requires b.calCache.Items <= db.cals.Items && b.anchorCache.Items <= db.anchors.Items
    requires forall row :: row in b.aggRows ==> row.aggID in db.cals
    ensures BatchIsFresh(db, b)
  {
    PartsAgree(b.calCache, db.cals);
    PartsAgree(b.anchorCache, db.anchors);
  }

  lemma PartsAgree<R>(part: map<Id, R>, whole: map<Id, R>)
    requires part.Items <= whole.Items
    ensures forall id :: AgreeAt(whole, part, id)
  {
    forall id | id in part
      ensures AgreeAt(whole, part, id)
    {
      assert (id, part[id]) in part.Items;
    }
  }
}
