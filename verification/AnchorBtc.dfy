/**
  The anchoring goroutine and the goroutine of a BTC-A, on the application's state: each of their
  pieces does to it what a step of a run does.
 */
module AnchorBtc {
  import opened ByteStrings
  import opened Merkle
  import opened ProofRows
  import opened Calendar
  import opened BtcAnchor
  import opened AnchorApp
  import opened AnchorRuns
  import opened AnchorRange

  // ---------- what starts the goroutines ----------

  /** The anchorings among started goroutines, and the BTC-As that are watched. */
  function Anchorings(started: seq<Goroutine>): seq<Anchoring> {
    if started == [] then []
    else
      var n := |started| - 1;
      Anchorings(started[..n]) +
      if started[n].AnchorBTC? then [Anchoring(Range(started[n].startTxRange, started[n].endTxRange), false)] else []
  }

  function Watched(started: seq<Goroutine>): seq<Anchored> {
    if started == [] then []
    else
      var n := |started| - 1;
      Watched(started[..n]) + if started[n].ConsumeBtcTxMsg? then [started[n].anchored] else []
  }

  lemma {:induction false} AnchoringsConcat(a: seq<Goroutine>, b: seq<Goroutine>)
    ensures Anchorings(a + b) == Anchorings(a) + Anchorings(b)
  {
    if b == [] {
      assert a + b == a;
    } else {
      var n := |b| - 1;
      assert (a + b)[..|a + b| - 1] == a + b[..n];
      AnchoringsConcat(a, b[..n]);
    }
  }

  lemma {:induction false} NoAnchoring(started: seq<Goroutine>)
    requires forall x :: x in started ==> !x.AnchorBTC?
    ensures Anchorings(started) == []
  {
    if started != [] {
      var n := |started| - 1;
      assert started[n] in started && forall x :: x in started[..n] ==> x in started;
      NoAnchoring(started[..n]);
    }
  }

  lemma AnchoringsOfEpoch(s: AnchorState, c: AnchorConfig, nodeMintPending: bool, coreMintPending: bool)
    ensures Anchorings(EpochStart(s, c, nodeMintPending, coreMintPending))
         == [Anchoring(Range(s.beginCalTxInt, s.latestCalTxInt), false)]
  {
    var audits := When(c.doNodeAudit && !nodeMintPending, [AuditNodes, StartNodeMintProcess]);
    var mint := When(c.doNodeAudit && !coreMintPending, [StartCoreMintProcess]);
    var anchoring := [AnchorBTC(s.beginCalTxInt, s.latestCalTxInt)];
    NoAnchoring(audits);
    NoAnchoring(mint);
    AnchoringsConcat(anchoring, audits);
    AnchoringsConcat(anchoring + audits, mint);
    assert anchoring[..0] == [];
  }

  lemma AnchoringsStarted(s: AnchorState, c: AnchorConfig, jwkSent: bool, nodeMintPending: bool, coreMintPending: bool)
    ensures Anchorings(StartedByCommit(s, c, jwkSent, nodeMintPending, coreMintPending))
         == if s.chainSynced && c.doAnchor && AnchorIsDue(s, c.anchorInterval)
            then [Anchoring(Range(s.beginCalTxInt, s.latestCalTxInt), false)] else []
  {
    var monitors, epoch := Monitors(c, jwkSent), EpochStart(s, c, nodeMintPending, coreMintPending);
    var more := When(c.doAnchor && AnchorIsDue(s, c.anchorInterval), epoch);
    NoAnchoring(monitors);
    AnchoringsConcat(monitors, more);
    AnchoringsOfEpoch(s, c, nodeMintPending, coreMintPending);
  }

  /** Commit on an application in a run's state does to it what the run's commit does, and the
      anchorings it starts are those that the run starts: at most one, of the range from Begin to the
      latest CAL. */
  lemma CommitIsStep(c: AnchorConfig, jwkSent: bool, nodeMintPending: bool, coreMintPending: bool, cfg: Config, y: System,
                     a: int, b: int)
    requires c.doAnchor == cfg.doAnchor && c.anchorInterval == cfg.interval
    ensures var started := StartedByCommit(y.state, c, jwkSent, nodeMintPending, coreMintPending);
            var y' := Step(cfg, y, CommitBlock);
            && y'.state == Committed(y.state, c.doAnchor, c.anchorInterval)
            && y'.running == y.running + Anchorings(started)
            && (AnchorBTC(a, b) in started <==>
                  StartsAnchoring(cfg, y) && StartedBy(y) == Anchoring(Range(a, b), false))
  {
    WhatCommitStarts(y.state, c, jwkSent, nodeMintPending, coreMintPending, AnchorBTC(a, b));
    AnchoringsStarted(y.state, c, jwkSent, nodeMintPending, coreMintPending);
  }

  /** A transaction that is delivered does to the application's state what it does in a run, and the
      BTC-As it makes a node watch are those that are watched in the run. */
  lemma DeliveryIsStep(tx: Tx, verifies: bool, cfg: Config, y: System, w: Anchored)
    ensures var read, y' := Effective(tx, verifies, y.state.chainSynced), Step(cfg, y, Deliver(tx, verifies));
            var started := StartedByTx(read, y.state.chainSynced);
            && y'.state == Delivered(y.state, read)
            && y'.watched == y.watched + Watched(started)
            && (Goroutine.ConsumeBtcTxMsg(w) in started <==> y.state.chainSynced && IsBtcA(read) && w == read.anchored.value)
  {
    var read := Effective(tx, verifies, y.state.chainSynced);
    var started := StartedByTx(read, y.state.chainSynced);
    if started != [] {
      assert started == [started[0]] && started[..0] == [];
    }
  }

  // ---------- the goroutines ----------

  /** How the first part of AnchorBTC ends: with an error and nothing done, with the panic of
      slicing a short root, with a failed queue, or waiting for the BTC-A of this tree. */
  datatype Start = GaveUp | Crashed | QueueFailed | Waits(treeData: BtcAgg)

  /** The goroutine that anchors this range, at this stage, is number g of the system, whose state is
      that of the application. */
  ghost predicate Runs(app: AnchorApplication, cfg: Config, y: System, g: nat, a: Anchoring, root: Bytes)
    reads app
  {
    app.state == y.state && g < |y.running| && y.running[g] == a && cfg.rootOf(a.range) == root
  }

  /** resetAnchor. */
  method ResetAnchor(app: AnchorApplication, startTxRange: int)
    modifies app`state
    ensures app.state == WithReset(old(app.state), startTxRange)
  {
    app.state := app.state.(beginCalTxInt := startTxRange);
    app.state := app.state.(latestBtcaHeight := -1);
  }

  /** The range of the next anchoring starts where this one ends, and nobody anchors meanwhile. */
  method MarkPublished(app: AnchorApplication, endTxRange: int)
    modifies app`state
    ensures app.state == AnchorApp.Published(old(app.state), endTxRange)
  {
    app.state := app.state.(endCalTxInt := endTxRange);
    app.state := app.state.(latestBtcaHeight := app.state.height);
  }

  datatype Gathered = Failed | Panicked | Tree(treeData: BtcAgg)

  /** The search for the transactions of the range, and their tree. */
  method GatherTree(h: Hasher, uuid: Bytes -> Bytes, search: int -> Option<seq<ResultTx>>, startTxRange: int, endTxRange: int,
                    ghost ledger: int -> seq<ResultTx>)
    returns (r: Gathered)
    requires Searches(search, ledger)
    ensures r.Failed? <==> endTxRange <= startTxRange || Found(search, startTxRange, endTxRange) == None
    ensures r.Panicked? ==> RangeRoot(h, ledger, Range(startTxRange, endTxRange)) == []
    ensures r.Tree? ==>
              && r.treeData.anchorBtcAggRoot == RangeRoot(h, ledger, Range(startTxRange, endTxRange))
              && (r.treeData.anchorBtcAggRoot == [] <==> TxsOf(ledger, startTxRange, endTxRange) == [])
  {
    var txLeaves := GetCalTxRange(search, startTxRange, endTxRange);
    if txLeaves == None {
      return Failed;
    }
    FoundIsTheLedgers(search, ledger, startTxRange, endTxRange);
    var treeData := AggregateAnchorTx(h, txLeaves.value, uuid);
    if treeData == None {
      return Panicked;
    }
    if txLeaves.value != [] {
      HexRoundTrip(Merkle.Root(h, PLAIN, CalRoots(CalTxs(txLeaves.value))));
    }
    return Tree(treeData.value);
  }

  /** AnchorBTC up to its wait. The verdict of the election and whether the leader's message is
      queued are parameters. In a bounded state it cannot panic. */
  method BeginAnchoring(app: AnchorApplication, h: Hasher, uuid: Bytes -> Bytes, search: int -> Option<seq<ResultTx>>,
                        startTxRange: int, endTxRange: int, iAmLeader: bool, leaderIDs: seq<Bytes>, queued: bool,
                        ghost ledger: int -> seq<ResultTx>, ghost cfg: Config, ghost y: System, ghost g: nat)
    returns (o: Start)
    requires Searches(search, ledger)
    requires var range := Range(startTxRange, endTxRange);
             Runs(app, cfg, y, g, Anchoring(range, false), RangeRoot(h, ledger, range))
    modifies app`state
    ensures match o
            case GaveUp =>
              && app.state == Step(cfg, y, GiveUp(g)).state
              && (leaderIDs == [] || endTxRange <= startTxRange || Found(search, startTxRange, endTxRange) == None
                  || TxsOf(ledger, startTxRange, endTxRange) == [])
            case Crashed => app.state == old(app.state) && !CanPublish(cfg, y, g)
            case QueueFailed => app.state == Step(cfg, y, QueueFails(g)).state && CanPublish(cfg, y, g) && iAmLeader && !queued
            case Waits(treeData) =>
              && app.state == Step(cfg, y, Publish(g)).state && CanPublish(cfg, y, g) && (iAmLeader ==> queued)
              && treeData.anchorBtcAggRoot == cfg.rootOf(Range(startTxRange, endTxRange))
    ensures Bounded(y) && Indexed(y.cals, ledger) ==> !o.Crashed?
  {
    if |leaderIDs| == 0 {
      return GaveUp;
    }
    var tree := GatherTree(h, uuid, search, startTxRange, endTxRange, ledger);
    if tree == Failed {
      return GaveUp;
    }
    if tree == Panicked {
      NoPanic(h, y, y.running[g], ledger);
      return Crashed;
    }
    if tree.treeData.anchorBtcAggRoot == [] {
      return GaveUp;
    }
    if iAmLeader && !queued {
      ResetAnchor(app, startTxRange);
      return QueueFailed;
    }
    MarkPublished(app, endTxRange);
    return Waits(tree.treeData);
  }

  lemma NoPanic(h: Hasher, y: System, a: Anchoring, ledger: int -> seq<ResultTx>)
    requires a in y.running && a.range.first < a.range.last && RangeRoot(h, ledger, a.range) == []
    ensures !(Bounded(y) && Indexed(y.cals, ledger))
  {
    if Bounded(y) && Indexed(y.cals, ledger) {
      AnchoringFindsItsRoot(h, y, a, ledger);
    }
  }

  /** AnchorBTC after its wait, whether that ended with the BTC-A or at the deadline. `queued` tells
      whether the message with the anchor's proofs is queued. */
  method ConcludeAnchoring(app: AnchorApplication, treeData: BtcAgg, startTxRange: int, queued: bool,
                           ghost endTxRange: int, ghost cfg: Config, ghost y: System, ghost g: nat)
    returns (ok: bool)
    requires Runs(app, cfg, y, g, Anchoring(Range(startTxRange, endTxRange), true), treeData.anchorBtcAggRoot)
    modifies app`state
    ensures app.state == Step(cfg, y, Conclude(g, queued)).state
    ensures ok <==> old(app.state).latestBtcAggRoot != treeData.anchorBtcAggRoot || queued
  {
    ok := true;
    if app.state.latestBtcAggRoot != treeData.anchorBtcAggRoot {
      ResetAnchor(app, startTxRange);
    } else if !queued {
      ResetAnchor(app, startTxRange);
      ok := false;
    }
  }

  datatype BtcTxMsg = BtcTxMsg(anchorBtcAggID: Bytes, anchorBtcAggRoot: Bytes, btcTxID: Bytes, btcTxBody: Bytes)

  /** ConsumeBtcTxMsg: the state, and the row for the proof-state service. None is the panic when the
      root does not occur in the transaction, for which the state is changed nevertheless. */
  method ConsumeBtcTxMsg(app: AnchorApplication, btcTxObj: BtcTxMsg, ghost cfg: Config, ghost y: System, ghost k: nat)
    returns (row: Option<TxRow>)
    requires app.state == y.state && k < |y.watched|
    requires y.watched[k] == Anchored(btcTxObj.anchorBtcAggRoot, btcTxObj.btcTxID)
    modifies app`state
    ensures app.state == Step(cfg, y, Record(k)).state
    ensures var ops := TxOps(btcTxObj.btcTxBody, btcTxObj.anchorBtcAggRoot);
            row == if ops == None then None else Some(TxRow(btcTxObj.anchorBtcAggID, btcTxObj.btcTxID, ops.value))
  {
    app.state := app.state.(latestBtcTx := btcTxObj.btcTxID);
    app.state := app.state.(latestBtcAggRoot := btcTxObj.anchorBtcAggRoot);
    var ops := TxOps(btcTxObj.btcTxBody, btcTxObj.anchorBtcAggRoot);
    if ops == None {
      return None;
    }
    return Some(TxRow(btcTxObj.anchorBtcAggID, btcTxObj.btcTxID, ops.value));
  }
}
