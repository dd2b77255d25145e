/**
  The table of finished proofs, as batches are stored in it one after another: a calendar batch that
  comes late takes the Bitcoin branch away again.
 */
module StoredProofs {
  import opened ByteStrings
  import opened ProofRows
  import opened ProofGen

  /** One call of writeProofsBulkAsync. */
  datatype Insert = Insert(docs: seq<Document>, answered: bool)

  function AfterInserts(table: map<Id, Document>, inserts: seq<Insert>): map<Id, Document> {
    if inserts == [] then table
    else
      var last := inserts[|inserts| - 1];
      Stored(AfterInserts(table, inserts[..|inserts| - 1]), last.docs, last.answered)
  }

  /** The insert goes through, with this proof among its own. */
  predicate Takes(insert: Insert, doc: Document) {
    insert.answered && !HasTwins(insert.docs) && doc in insert.docs
  }

  predicate TakesNone(insert: Insert, id: Id) {
    forall doc :: doc in insert.docs && doc.header.hashIDCore == id ==> !Takes(insert, doc)
  }

  lemma OneInsert(table: map<Id, Document>, insert: Insert, doc: Document)
    requires Takes(insert, doc)
    ensures var after := Stored(table, insert.docs, insert.answered);
            doc.header.hashIDCore in after && after[doc.header.hashIDCore] == doc
  {
    LookupHolds(insert.docs, (d: Document) => d.header.hashIDCore);
    var id := doc.header.hashIDCore;
    var other := Lookup(insert.docs, (d: Document) => d.header.hashIDCore)[id];
    OnlyOne(insert.docs, doc, other);
  }

  lemma OnlyOne(docs: seq<Document>, doc: Document, other: Document)
    requires !HasTwins(docs) && doc in docs && other in docs && doc.header.hashIDCore == other.header.hashIDCore
    ensures doc == other
  {
    var i :| 0 <= i < |docs| && docs[i] == doc;
    var j :| 0 <= j < |docs| && docs[j] == other;
  }

  lemma OtherInsert(table: map<Id, Document>, insert: Insert, id: Id)
    requires TakesNone(insert, id)
    ensures var after := Stored(table, insert.docs, insert.answered);
            (id in after <==> id in table) && (id in table ==> after[id] == table[id])
  {
    LookupHolds(insert.docs, (d: Document) => d.header.hashIDCore);
  }

  /** From this insert on, it is the last one that goes through with a proof for the ID. */
  predicate IsLast(inserts: seq<Insert>, k: nat, doc: Document) {
    && k < |inserts| && Takes(inserts[k], doc)
    && forall n :: k < n < |inserts| ==> TakesNone(inserts[n], doc.header.hashIDCore)
  }

  /** Over any run of inserts, some of them lost, the table ends with the proof of the last insert that
      went through for the ID. */
  lemma {:induction false} LastInsertCounts(table: map<Id, Document>, inserts: seq<Insert>, k: nat, doc: Document)
    requires IsLast(inserts, k, doc)
    ensures var after := AfterInserts(table, inserts);
            doc.header.hashIDCore in after && after[doc.header.hashIDCore] == doc
    decreases |inserts|
  {
    var n := |inserts| - 1;
    if k == n {
      OneInsert(AfterInserts(table, inserts[..n]), inserts[n], doc);
    } else {
      LastInsertCounts(table, inserts[..n], k, doc);
      OtherInsert(AfterInserts(table, inserts[..n]), inserts[n], doc.header.hashIDCore);
    }
  }

  predicate HasBtcBranch(doc: Document) {
    doc.branches != [] && doc.branches[0].branches != []
  }

  lemma WhichBranches(row: AggRow, from: Lookups, gen: Generator)
    requires DocumentOf(row, from, gen).Some?
    ensures HasBtcBranch(DocumentOf(row, from, gen).value) <==> from.BtcLookups?
    ensures DocumentOf(row, from, gen).value.header.hashIDCore == row.hashID
  {
  }

  /** The batches that the generator stores: the rows of each, and the lookups it worked with. */
  datatype StoredBatch = StoredBatch(rows: seq<AggRow>, from: Lookups, answered: bool)

  function InsertsOf(batches: seq<StoredBatch>, gen: Generator): (inserts: seq<Insert>)
    ensures |inserts| == |batches|
  {
    seq(|batches|, n requires 0 <= n < |batches| => Insert(Kept(batches[n].rows, batches[n].from, gen), batches[n].answered))
  }

  /** A hash keeps its Bitcoin branch if and only if the last batch that was stored with a proof for it
      was a Bitcoin batch. */
  lemma BtcBranchStays(table: map<Id, Document>, batches: seq<StoredBatch>, gen: Generator, k: nat, row: AggRow)
    requires k < |batches| && row in batches[k].rows && DocumentOf(row, batches[k].from, gen).Some?
    requires IsLast(InsertsOf(batches, gen), k, DocumentOf(row, batches[k].from, gen).value)
    ensures var after := AfterInserts(table, InsertsOf(batches, gen));
            && row.hashID in after && after[row.hashID] == DocumentOf(row, batches[k].from, gen).value
            && (HasBtcBranch(after[row.hashID]) <==> batches[k].from.BtcLookups?)
  {
    LastInsertCounts(table, InsertsOf(batches, gen), k, DocumentOf(row, batches[k].from, gen).value);
    WhichBranches(row, batches[k].from, gen);
  }

  /** A calendar batch that is delivered again after the Bitcoin batch of its hash, in whose proofs
      there is nothing wrong, replaces the Bitcoin proof. */
  lemma LateCalBatch(table: map<Id, Document>, row: AggRow, cals: map<Id, CalRow>, from: Lookups, gen: Generator)
    requires DocumentOf(row, CalLookups(cals), gen).Some? && gen.schema(DocumentOf(row, CalLookups(cals), gen).value)
    requires from.BtcLookups? && DocumentOf(row, from, gen).Some? && gen.schema(DocumentOf(row, from, gen).value)
    ensures var calBatch, btcBatch := StoredBatch([row], CalLookups(cals), true), StoredBatch([row], from, true);
            var onTime, late := AfterInserts(table, InsertsOf([calBatch, btcBatch], gen)),
                                AfterInserts(table, InsertsOf([calBatch, btcBatch, calBatch], gen));
            && row.hashID in onTime && HasBtcBranch(onTime[row.hashID])
            && row.hashID in late && !HasBtcBranch(late[row.hashID])
  {
    var calBatch, btcBatch := StoredBatch([row], CalLookups(cals), true), StoredBatch([row], from, true);
    KeptOfOne(row, CalLookups(cals), gen);
    KeptOfOne(row, from, gen);
    BtcBranchStays(table, [calBatch, btcBatch], gen, 1, row);
    BtcBranchStays(table, [calBatch, btcBatch, calBatch], gen, 2, row);
  }

  lemma KeptOfOne(row: AggRow, from: Lookups, gen: Generator)
    requires DocumentOf(row, from, gen).Some? && gen.schema(DocumentOf(row, from, gen).value)
    ensures Kept([row], from, gen) == [DocumentOf(row, from, gen).value]
  {
    KeptOneMore([], row, from, gen);
    assert [] + [row] == [row];
  }
}
