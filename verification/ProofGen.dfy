/**
  The proof generator: puts the ops of the proof-state rows together into proofs with a
  calendar branch and, inside it, a Bitcoin branch.
 */
module ProofGen {
  import opened ByteStrings
  import opened ProofOps
  import opened ProofRows

  datatype Anchor = Anchor(kind: Bytes, ref: AnchorRef)

  datatype BranchOp = Op(item: LineItem) | Anchors(anchors: seq<Anchor>)

  datatype Branch = Branch(title: Bytes, ops: seq<BranchOp>, branches: seq<Branch>)

  function Wrap(ops: seq<LineItem>): seq<BranchOp> {
    seq(|ops|, i requires 0 <= i < |ops| => Op(ops[i]))
  }

  function CalBranch(aggOps: seq<LineItem>, calOps: seq<LineItem>, ref: AnchorRef, mainnet: bool): Branch {
    Branch(Ascii("cal_anchor_branch"),
           Wrap(aggOps + calOps) + [Anchors([Anchor(Ascii(if mainnet then "cal" else "tcal"), ref)])], [])
  }

  function BtcBranch(anchorOps: seq<LineItem>, txOps: seq<LineItem>, headOps: seq<LineItem>, ref: AnchorRef, mainnet: bool): Branch {
    Branch(Ascii("btc_anchor_branch"),
           Wrap(anchorOps + (txOps + headOps)) + [Anchors([Anchor(Ascii(if mainnet then "btc" else "tbtc"), ref)])], [])
  }

  /** The header of addChainpointHeader. */
  datatype Header = Header(context: Bytes, kind: Bytes, hash: Bytes, hashIDNode: Id, submittedNodeAt: Bytes,
                           hashIDCore: Id, submittedCoreAt: Bytes)

  datatype Document = Document(header: Header, branches: seq<Branch>)

  function HeaderOf(hash: Bytes, hashID: Id, time: Bytes): Header {
    Header(Ascii("https://w3id.org/chainpoint/v3"), Ascii("Chainpoint"), hash, hashID, time, hashID, time)
  }

  /** What a generator works with: its network, the time that is part of a hash ID, as text, or the
      exception when there is none, and the schema check. */
  datatype Generator = Generator(mainnet: bool, timeOf: Id -> Option<Bytes>, schema: Document -> bool)

  class Proof {
    const header: Header
    var branches: seq<Branch>

    constructor (hash: Bytes, hashID: Id, time: Bytes)
      ensures header == HeaderOf(hash, hashID, time) && branches == []
    {
      header, branches := HeaderOf(hash, hashID, time), [];
    }

    function Text(): Document
      reads this
    {
      Document(header, branches)
    }

    method AddCalendarBranch(aggOps: seq<LineItem>, calOps: seq<LineItem>, ref: AnchorRef, mainnet: bool)
      modifies this
      ensures branches == [CalBranch(aggOps, calOps, ref, mainnet)]
    {
      var ops := Wrap(aggOps + calOps);
      var anchor := Anchor(Ascii(if mainnet then "cal" else "tcal"), ref);
      ops := ops + [Anchors([anchor])];
      branches := [Branch(Ascii("cal_anchor_branch"), ops, [])];
    }

    /** The source demands that there is a calendar branch to put this one into. */
    method AddBtcBranch(anchorOps: seq<LineItem>, txOps: seq<LineItem>, headOps: seq<LineItem>, ref: AnchorRef, mainnet: bool)
      requires branches != []
      modifies this
      ensures |branches| == |old(branches)| && branches[1..] == old(branches)[1..]
      ensures branches[0] == old(branches)[0].(branches := [BtcBranch(anchorOps, txOps, headOps, ref, mainnet)])
    {
      var ops := Wrap(anchorOps + (txOps + headOps));
      var anchor := Anchor(Ascii(if mainnet then "btc" else "tbtc"), ref);
      ops := ops + [Anchors([anchor])];
      var btcBranch := Branch(Ascii("btc_anchor_branch"), ops, []);
      branches := branches[0 := branches[0].(branches := [btcBranch])];
    }
  }

  // ---------- the batches ----------

  /** The lookup tables and single rows that a batch works with. */
  datatype Lookups =
    | CalLookups(cals: map<Id, CalRow>)
    | BtcLookups(cals: map<Id, CalRow>, anchors: map<Id, AnchorRow>, tx: TxRow, head: HeadRow)

  /** The branches a batch makes for a row; None when a row it leads to is missing. */
  function BranchesOf(row: AggRow, from: Lookups, mainnet: bool): Option<seq<Branch>> {
    if row.aggID !in from.cals then None
    else
      var cal := from.cals[row.aggID];
      var branch := CalBranch(row.ops, cal.ops, cal.anchor, mainnet);
      match from
      case CalLookups(_) => Some([branch])
      case BtcLookups(_, anchors, tx, head) =>
        if cal.calID !in anchors then None
        else
          Some([branch.(branches := [BtcBranch(anchors[cal.calID].ops, tx.ops, head.ops, head.anchor, mainnet)])])
  }

  /** The proof a batch makes for a row; None when an exception prevents it. */
  function DocumentOf(row: AggRow, from: Lookups, gen: Generator): Option<Document> {
    var time, branches := gen.timeOf(row.hashID), BranchesOf(row, from, gen.mainnet);
    if time.None? || branches.None? then None
    else Some(Document(HeaderOf(row.hash, row.hashID, time.value), branches.value))
  }

  /** What prevents a proof: an ID without a time, no calendar row for the aggregation, or, in a Bitcoin
      batch, no anchor row for that calendar row. */
  lemma WhatPrevents(row: AggRow, from: Lookups, gen: Generator)
    ensures DocumentOf(row, from, gen).None? <==>
              || gen.timeOf(row.hashID).None? || row.aggID !in from.cals
              || (from.BtcLookups? && from.cals[row.aggID].calID !in from.anchors)
  {
  }

  /** The proofs that satisfy the schema, in the order of the rows. */
  function Kept(rows: seq<AggRow>, from: Lookups, gen: Generator): seq<Document> {
    if rows == [] then []
    else
      var doc := DocumentOf(rows[|rows| - 1], from, gen);
      Kept(rows[..|rows| - 1], from, gen) + if doc.Some? && gen.schema(doc.value) then [doc.value] else []
  }

  lemma {:induction false} KeptRows(rows: seq<AggRow>, from: Lookups, gen: Generator, doc: Document)
    ensures doc in Kept(rows, from, gen) <==>
              gen.schema(doc) && exists row :: row in rows && DocumentOf(row, from, gen) == Some(doc)
  {
    if rows != [] {
      KeptRows(rows[..|rows| - 1], from, gen, doc);
      assert rows == rows[..|rows| - 1] + [rows[|rows| - 1]];
    }
  }

  method MakeProof(row: AggRow, from: Lookups, gen: Generator) returns (r: Option<Proof>)
    ensures r.None? <==> DocumentOf(row, from, gen).None?
    ensures r.Some? ==> fresh(r.value) && DocumentOf(row, from, gen) == Some(r.value.Text())
  {
    var time := gen.timeOf(row.hashID);
    if time.None? {
      return None;
    }
    var proof := new Proof(row.hash, row.hashID, time.value);
    if row.aggID !in from.cals {
      return None;
    }
    var cal := from.cals[row.aggID];
    proof.AddCalendarBranch(row.ops, cal.ops, cal.anchor, gen.mainnet);
    if from.BtcLookups? {
      if cal.calID !in from.anchors {
        return None;
      }
      proof.AddBtcBranch(from.anchors[cal.calID].ops, from.tx.ops, from.head.ops, from.head.anchor, gen.mainnet);
      assert proof.branches == [proof.branches[0]];
    }
    return Some(proof);
  }

  /** The proof objects are these proofs. */
  ghost predicate ProofsAre(proofs: seq<Proof>, docs: seq<Document>)
    reads proofs
  {
    |proofs| == |docs| && forall k :: 0 <= k < |docs| ==> proofs[k].Text() == docs[k]
  }

  lemma OneMoreProof(proofs: seq<Proof>, docs: seq<Document>, proof: Proof)
    requires ProofsAre(proofs, docs)
    ensures ProofsAre(proofs + [proof], docs + [proof.Text()])
  {
  }

  lemma KeptOneMore(rows: seq<AggRow>, row: AggRow, from: Lookups, gen: Generator)
    requires DocumentOf(row, from, gen).Some?
    ensures Kept(rows + [row], from, gen)
         == Kept(rows, from, gen) + if gen.schema(DocumentOf(row, from, gen).value) then [DocumentOf(row, from, gen).value] else []
  {
    assert (rows + [row])[..|rows|] == rows;
  }

  /** The proof of one more row, if it satisfies the schema. */
  method AddProof(proofs: seq<Proof>, ghost rows: seq<AggRow>, row: AggRow, from: Lookups, gen: Generator)
    returns (r: Option<seq<Proof>>)
    requires ProofsAre(proofs, Kept(rows, from, gen))
    ensures r.None? <==> DocumentOf(row, from, gen).None?
    ensures r.Some? ==> ProofsAre(r.value, Kept(rows + [row], from, gen))
  {
    var proof := MakeProof(row, from, gen);
    if proof.None? {
      return None;
    }
    KeptOneMore(rows, row, from, gen);
    if !gen.schema(proof.value.Text()) {
      return Some(proofs);
    }
    OneMoreProof(proofs, Kept(rows, from, gen), proof.value);
    return Some(proofs + [proof.value]);
  }

  predicate SomeMissing(rows: seq<AggRow>, from: Lookups, gen: Generator) {
    exists row :: row in rows && DocumentOf(row, from, gen).None?
  }

  /** The map and filter of both batch cases: the proofs that satisfy the schema, in the order of
      the rows, or None when an exception makes the message go back to the queue. */
  method MakeProofs(aggRows: seq<AggRow>, from: Lookups, gen: Generator) returns (r: Option<seq<Proof>>)
    ensures r.None? <==> SomeMissing(aggRows, from, gen)
    ensures r.Some? ==> ProofsAre(r.value, Kept(aggRows, from, gen))
  {
    r := Some([]);
    for i := 0 to |aggRows|
      invariant r.Some? && !SomeMissing(aggRows[..i], from, gen)
      invariant ProofsAre(r.value, Kept(aggRows[..i], from, gen))
    {
      assert aggRows[..i + 1] == aggRows[..i] + [aggRows[i]];
      r := AddProof(r.value, aggRows[..i], aggRows[i], from, gen);
      if r.None? {
        assert aggRows[i] in aggRows;
        return None;
      }
    }
    assert aggRows[..|aggRows|] == aggRows;
  }

  /** The rows of two lists make the proofs of the one and then those of the other. */
  lemma {:induction false} KeptInOrder(a: seq<AggRow>, b: seq<AggRow>, from: Lookups, gen: Generator)
    ensures Kept(a + b, from, gen) == Kept(a, from, gen) + Kept(b, from, gen)
  {
    if b == [] {
      assert a + b == a;
    } else {
      var n := |b| - 1;
      assert (a + b)[..|a + b| - 1] == a + b[..n];
      KeptInOrder(a, b[..n], from, gen);
    }
  }

  // ---------- what a proof says besides its ops ----------

  /** A branch with this title, in which one anchor stands, at its end. */
  predicate EndsWithAnchor(branch: Branch, title: string, kind: string, ref: AnchorRef) {
    && branch.title == Ascii(title) && branch.ops != []
    && branch.ops[|branch.ops| - 1] == Anchors([Anchor(Ascii(kind), ref)])
    && forall k :: 0 <= k < |branch.ops| - 1 ==> branch.ops[k].Op?
  }

  /** A calendar branch that attests this calendar anchor. */
  predicate AttestsCal(branches: seq<Branch>, mainnet: bool, cal: AnchorRef) {
    |branches| == 1 && EndsWithAnchor(branches[0], "cal_anchor_branch", if mainnet then "cal" else "tcal", cal)
  }

  /** A Bitcoin branch inside it, and nothing further, that attests this block. */
  predicate AttestsBtc(branches: seq<Branch>, mainnet: bool, btc: AnchorRef) {
    && |branches| == 1 && |branches[0].branches| == 1 && branches[0].branches[0].branches == []
    && EndsWithAnchor(branches[0].branches[0], "btc_anchor_branch", if mainnet then "btc" else "tbtc", btc)
  }

  /** The calendar branch attests the anchor of the aggregation's calendar row, and the Bitcoin branch
      that of the head row. */
  lemma BranchesAttest(row: AggRow, from: Lookups, mainnet: bool)
    requires BranchesOf(row, from, mainnet).Some?
    ensures row.aggID in from.cals
    ensures AttestsCal(BranchesOf(row, from, mainnet).value, mainnet, from.cals[row.aggID].anchor)
    ensures if from.BtcLookups? then AttestsBtc(BranchesOf(row, from, mainnet).value, mainnet, from.head.anchor)
            else BranchesOf(row, from, mainnet).value[0].branches == []
  {
  }

  /** The header is that of the row: its hash, its ID twice and the time in its ID twice. */
  predicate IsHeaderOf(header: Header, row: AggRow, gen: Generator) {
    && header.context == Ascii("https://w3id.org/chainpoint/v3") && header.kind == Ascii("Chainpoint")
    && header.hash == row.hash && header.hashIDNode == header.hashIDCore == row.hashID
    && gen.timeOf(row.hashID) == Some(header.submittedNodeAt) == Some(header.submittedCoreAt)
  }

  /** What every proof that is kept says of its row. */
  lemma KeptSay(rows: seq<AggRow>, from: Lookups, gen: Generator, doc: Document) returns (row: AggRow)
    requires doc in Kept(rows, from, gen)
    ensures row in rows && IsHeaderOf(doc.header, row, gen) && gen.schema(doc) && row.aggID in from.cals
    ensures BranchesOf(row, from, gen.mainnet) == Some(doc.branches)
    ensures AttestsCal(doc.branches, gen.mainnet, from.cals[row.aggID].anchor)
    ensures if from.BtcLookups? then AttestsBtc(doc.branches, gen.mainnet, from.head.anchor) else doc.branches[0].branches == []
  {
    KeptRows(rows, from, gen, doc);
    row :| row in rows && DocumentOf(row, from, gen) == Some(doc);
    BranchesAttest(row, from, gen.mainnet);
  }

  // ---------- storing proofs ----------

  /** Two proofs of one hash ID, which one insert cannot both take. */
  predicate HasTwins(docs: seq<Document>) {
    exists i, j :: 0 <= i < j < |docs| && docs[i].header.hashIDCore == docs[j].header.hashIDCore
  }

  /** The table of proofs after an insert that the database answers or not: "ON CONFLICT DO UPDATE". */
  function Stored(table: map<Id, Document>, docs: seq<Document>, answered: bool): map<Id, Document> {
    if answered && !HasTwins(docs) then table + Lookup(docs, (d: Document) => d.header.hashIDCore) else table
  }

  /** The rows of an insert, in order. */
  method Upsert(table: map<Id, Document>, docs: seq<Document>) returns (after: map<Id, Document>)
    ensures after == table + Lookup(docs, (d: Document) => d.header.hashIDCore)
  {
    after := table;
    for i := 0 to |docs|
      invariant after == table + Lookup(docs[..i], (d: Document) => d.header.hashIDCore)
    {
      assert docs[..i + 1][..i] == docs[..i];
      after := after[docs[i].header.hashIDCore := docs[i]];
    }
    assert docs[..|docs|] == docs;
  }

  class ProofTable {
    var table: map<Id, Document>

    /** storeProofsAsync: a failing insert is logged, and nobody learns of it. */
    method StoreProofs(proofs: seq<Proof>, ghost docs: seq<Document>, answered: bool)
      requires ProofsAre(proofs, docs)
      modifies this
      ensures table == Stored(old(table), docs, answered)
    {
      if |proofs| == 0 {
        return;
      }
      var texts := seq(|proofs|, i requires 0 <= i < |proofs| reads proofs => proofs[i].Text());
      assert texts == docs;
      if answered && !HasTwins(texts) {
        table := Upsert(table, texts);
      }
    }
  }

  // ---------- the messages ----------

  /** What becomes of a batch message: its proofs are stored if the database takes them, or it can
      never be processed and is dropped, or it goes back to the queue. */
  datatype Outcome = Generated(proofs: seq<Proof>) | Dropped | Requeued

  /** The cal_batch case, once its rows are read. */
  method ConsumeCalBatch(db: ProofTable, aggRows: seq<AggRow>, calRows: seq<CalRow>, gen: Generator, answered: bool)
    returns (o: Outcome)
    modifies db
    ensures var from := CalLookups(Lookup(calRows, (c: CalRow) => c.aggID));
            if SomeMissing(aggRows, from, gen) then o == Requeued && db.table == old(db.table)
            else
              && o.Generated? && ProofsAre(o.proofs, Kept(aggRows, from, gen))
              && db.table == Stored(old(db.table), Kept(aggRows, from, gen), answered)
  {
    var from := CalLookups(Lookup(calRows, (c: CalRow) => c.aggID));
    var proofs := MakeProofs(aggRows, from, gen);
    if proofs.None? {
      return Requeued;
    }
    db.StoreProofs(proofs.value, Kept(aggRows, from, gen), answered);
    return Generated(proofs.value);
  }

  /** The single rows that the first anchor row leads to. */
  datatype Single = Rows(tx: TxRow, head: HeadRow) | NoTx | NoHead

  function SingleRows(anchorRows: seq<AnchorRow>, txs: map<Id, TxRow>, heads: map<Id, HeadRow>): Single {
    if anchorRows == [] || anchorRows[0].anchorBtcAggID !in txs then NoTx
    else
      var tx := txs[anchorRows[0].anchorBtcAggID];
      if tx.btcTxID !in heads then NoHead else Rows(tx, heads[tx.btcTxID])
  }

  function BtcLookupsOf(calRows: seq<CalRow>, anchorRows: seq<AnchorRow>, single: Single): Lookups
    requires single.Rows?
  {
    BtcLookups(Lookup(calRows, (c: CalRow) => c.aggID), Lookup(anchorRows, (a: AnchorRow) => a.calID), single.tx, single.head)
  }

  /** The btc_batch case, once its bulk rows are read: the first anchor row's ID is taken for the
      whole batch. Without a transaction row the message is dropped as unrecoverable; a missing
      head row is an exception later on. */
  method ConsumeBtcBatch(db: ProofTable, aggRows: seq<AggRow>, calRows: seq<CalRow>, anchorRows: seq<AnchorRow>,
                         txs: map<Id, TxRow>, heads: map<Id, HeadRow>, gen: Generator, answered: bool)
    returns (o: Outcome)
    modifies db
    ensures o.Dropped? <==> anchorRows == [] || anchorRows[0].anchorBtcAggID !in txs
    ensures !o.Dropped? && txs[anchorRows[0].anchorBtcAggID].btcTxID !in heads ==> o.Requeued? && db.table == old(db.table)
    ensures match SingleRows(anchorRows, txs, heads)
            case NoTx => o == Dropped && db.table == old(db.table)
            case NoHead => o == Requeued && db.table == old(db.table)
            case Rows(tx, head) =>
              var from := BtcLookupsOf(calRows, anchorRows, Rows(tx, head));
              if SomeMissing(aggRows, from, gen) then o == Requeued && db.table == old(db.table)
              else
                && o.Generated? && ProofsAre(o.proofs, Kept(aggRows, from, gen))
                && db.table == Stored(old(db.table), Kept(aggRows, from, gen), answered)
  {
    if |anchorRows| == 0 || anchorRows[0].anchorBtcAggID !in txs {
      return Dropped;
    }
    var tx := txs[anchorRows[0].anchorBtcAggID];
    if tx.btcTxID !in heads {
      return Requeued;
    }
    var from := BtcLookupsOf(calRows, anchorRows, Rows(tx, heads[tx.btcTxID]));
    var proofs := MakeProofs(aggRows, from, gen);
    if proofs.None? {
      return Requeued;
    }
    db.StoreProofs(proofs.value, Kept(aggRows, from, gen), answered);
    return Generated(proofs.value);
  }

  // ---------- reading a proof ----------

  /** What a reader computes along a branch; anchors attest a value and do not change it. */
  function Read(h: Hasher, value: Bytes, ops: seq<BranchOp>): Bytes
    decreases |ops|
  {
    if ops == [] then value
    else Read(h, if ops[0].Op? then Apply(h, value, ops[0].item) else value, ops[1..])
  }

  /** A branch of wrapped ops with anchors at its end leads where the ops lead. */
  lemma {:induction false} ReadBranch(h: Hasher, value: Bytes, ops: seq<LineItem>, anchors: BranchOp)
    requires anchors.Anchors?
    ensures Read(h, value, Wrap(ops) + [anchors]) == Eval(h, value, ops)
    decreases |ops|
  {
    var all := Wrap(ops) + [anchors];
    if ops == [] {
      assert all == [anchors] && all[1..] == [];
    } else {
      assert all[1..] == Wrap(ops[1..]) + [anchors];
      ReadBranch(h, Apply(h, value, ops[0]), ops[1..], anchors);
    }
  }
}
