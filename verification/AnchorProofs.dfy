/**
  Every CAL that an anchoring leaves behind is provably anchored: the ops of a published range lead
  from its data to a root that a delivered BTC-A carries.
 */
module AnchorProofs {
  import opened ByteStrings
  import ProofOps
  import opened Calendar
  import opened AnchorRuns
  import opened AnchorRange
  import opened AnchorCoverage
  import opened AnchorEpochs

  /** The roots of the ranges are those that anchorings make of what the chain holds. */
  ghost predicate AnchorsLedger(h: Hasher, ledger: int -> seq<ResultTx>, cfg: Config) {
    forall r :: cfg.rootOf(r) == RangeRoot(h, ledger, r)
  }

  /** The ops that the anchoring of a range hands to its CAL number i. */
  function RangeOps(h: Hasher, ledger: int -> seq<ResultTx>, r: Range, i: nat): seq<ProofOps.LineItem>
    requires r.first <= r.last
  {
    ProofOps.Published(ProofItems(h, CalRoots(CalTxs(TxsOf(ledger, r.first, r.last))), i))
  }

  /** The transaction is number i of the range's CALs, and its ops lead from its data to the root. */
  predicate LeadsToRoot(h: Hasher, ledger: int -> seq<ResultTx>, t: ResultTx, r: Range, i: nat) {
    && IsCalTx(t) && r.first <= r.last && i < |CalTxs(TxsOf(ledger, r.first, r.last))|
    && CalTxs(TxsOf(ledger, r.first, r.last))[i] == t
    && HexEncode(ProofOps.Eval(h, HexDecode(t.tx.value.data).bytes, RangeOps(h, ledger, r, i))) == RangeRoot(h, ledger, r)
  }

  lemma RangeProvesItsCals(h: Hasher, ledger: int -> seq<ResultTx>, r: Range, c: int, t: ResultTx) returns (i: nat)
    requires RangeRoot(h, ledger, r) != [] && r.first <= c <= r.last && t in ledger(c) && IsCalTx(t)
    ensures LeadsToRoot(h, ledger, t, r, i)
  {
    var txs := TxsOf(ledger, r.first, r.last);
    TxsOfHolds(ledger, r.first, r.last, t);
    CalTxsMembers(txs, t);
    var cals := CalTxs(txs);
    i :| 0 <= i < |cals| && cals[i] == t;
    ItemsLeadToRoot(h, CalRoots(cals), i);
  }

  /** Every CAL under a number up to Begin is anchored by a range that the core published and that
      was answered. */
  ghost predicate CalsAreAnchored(h: Hasher, ledger: int -> seq<ResultTx>, cfg: Config, y: System) {
    forall c, t :: c in y.cals && c <= y.state.beginCalTxInt && t in ledger(c) && IsCalTx(t) ==>
      IsAnchored(h, ledger, cfg, y, t)
  }

  ghost predicate IsAnchored(h: Hasher, ledger: int -> seq<ResultTx>, cfg: Config, y: System, t: ResultTx) {
    exists r, i: nat :: r in y.published && cfg.rootOf(r) in y.delivered && LeadsToRoot(h, ledger, t, r, i)
  }

  lemma CoveredIsAnchored(h: Hasher, ledger: int -> seq<ResultTx>, cfg: Config, y: System)
    requires AnchorsLedger(h, ledger, cfg) && Based(cfg, y) && BeginIsCovered(cfg, y)
    ensures CalsAreAnchored(h, ledger, cfg, y)
  {
    forall c, t | c in y.cals && c <= y.state.beginCalTxInt && t in ledger(c) && IsCalTx(t)
      ensures IsAnchored(h, ledger, cfg, y, t)
    {
      var r :| r in y.published && CoveredBy(c, r, cfg.rootOf, y.delivered);
      var i := RangeProvesItsCals(h, ledger, r, c, t);
    }
  }

  /** Over every disciplined run, whenever no anchoring waits: every CAL up to Begin is provably
      anchored under a delivered root. */
  lemma EveryCalIsAnchored(h: Hasher, ledger: int -> seq<ResultTx>, cfg: Config, y: System, events: seq<Event>)
    requires AnchorsLedger(h, ledger, cfg) && Disciplined(cfg, y) && OneAtATimeRun(cfg, y, events)
    ensures !Waiting(Run(cfg, y, events)) ==> CalsAreAnchored(h, ledger, cfg, Run(cfg, y, events))
  {
    OneAtATimeCoverage(cfg, y, events);
    if !Waiting(Run(cfg, y, events)) {
      CoveredIsAnchored(h, ledger, cfg, Run(cfg, y, events));
    }
  }

  /** With any number of anchorings at a time and BTC-As on time: at every moment. */
  lemma EveryCalIsAlwaysAnchored(h: Hasher, ledger: int -> seq<ResultTx>, cfg: Config, y: System, events: seq<Event>)
    requires AnchorsLedger(h, ledger, cfg) && Safe(cfg, y) && OrderlyRun(cfg, y, events)
    ensures CalsAreAnchored(h, ledger, cfg, Run(cfg, y, events))
  {
    AnyNumberCoverage(cfg, y, events);
    CoveredIsAnchored(h, ledger, cfg, Run(cfg, y, events));
  }
}
