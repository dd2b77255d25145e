/**
  One anchoring at a time. BTC-As of other cores, with any roots, may then move Begin wrongly
  while an anchoring waits for its own; comparing roots and resetting repairs that.
 */
module AnchorEpochs {
  import opened ByteStrings
  import opened AnchorApp
  import opened AnchorRuns
  import opened AnchorCoverage

  /** An anchoring has published its range and waits for its BTC-A. */
  predicate Waiting(y: System) {
    |y.running| == 1 && y.running[0].waiting
  }

  /** All published ranges beyond the reach start at b. */
  ghost predicate BeyondStartsAt(cfg: Config, y: System, b: int) {
    forall r :: r in y.published && r.last > Reach(cfg, y) ==> r.first == b
  }

  /** While an anchoring waits: its range is the last published one, and starts within the reach. */
  ghost predicate WaitingWell(cfg: Config, y: System)
    requires |y.running| == 1
  {
    var range := y.running[0].range;
    && range in y.published && range.first <= Reach(cfg, y) && range.last == y.state.endCalTxInt
    && cfg.rootOf(range) != [] && BeyondStartsAt(cfg, y, range.first)
  }

  /** Otherwise Begin is within the reach, and so is End, unless the anchoring of the range from
      Begin to End timed out. */
  ghost predicate RestingWell(cfg: Config, y: System) {
    var begin, end := y.state.beginCalTxInt, y.state.endCalTxInt;
    && begin <= Reach(cfg, y)
    && (y.running != [] ==>
          var range := y.running[0].range;
          range.first <= Reach(cfg, y) && end <= range.last && (end > Reach(cfg, y) ==> range.first == begin))
    && (end > Reach(cfg, y) ==>
          y.timedOut && Range(begin, end) in y.published && BeyondStartsAt(cfg, y, begin))
  }

  ghost predicate Disciplined(cfg: Config, y: System) {
    && Based(cfg, y) && RootsAreDelivered(y) && y.state.chainSynced && |y.running| <= 1
    && y.state.beginCalTxInt <= y.state.endCalTxInt
    && (forall r :: r in y.published ==> r.last <= y.state.endCalTxInt)
    && if Waiting(y) then WaitingWell(cfg, y) else RestingWell(cfg, y)
  }

  /** A BTC-A that does no lasting harm: any one, unless an anchoring has timed out and no range
      has been published since; then only the one of the range that timed out, or when the answered
      ranges reach End anyway. */
  predicate Timely(cfg: Config, y: System, root: Bytes) {
    || !y.timedOut || Waiting(y) || y.state.endCalTxInt <= Reach(cfg, y)
    || root == cfg.rootOf(Range(y.state.beginCalTxInt, y.state.endCalTxInt))
  }

  /** The node stays synced, no anchoring starts while one is in flight, and between a timeout and
      the next publication no BTC-A comes but one that is timely. */
  predicate OneAtATime(cfg: Config, y: System, e: Event) {
    && (e.Sync? ==> e.synced)
    && (e.CommitBlock? && StartsAnchoring(cfg, y) ==> y.running == [])
    && (BtcARoot(y, e).Some? ==> Timely(cfg, y, BtcARoot(y, e).value))
  }

  predicate OneAtATimeRun(cfg: Config, y: System, events: seq<Event>)
    decreases |events|
  {
    events != [] ==>
      var before := events[..|events| - 1];
      OneAtATimeRun(cfg, y, before) && OneAtATime(cfg, Run(cfg, y, before), events[|events| - 1])
  }

  // ---------- a BTC-A ----------

  /** When no anchoring waits, the timely BTC-As are exactly those on time. */
  lemma TimelyIsOnTime(cfg: Config, y: System, root: Bytes)
    requires Disciplined(cfg, y) && !Waiting(y)
    ensures Timely(cfg, y, root) <==> OnTime(cfg, y, root)
  {
    var begin, end, more := y.state.beginCalTxInt, y.state.endCalTxInt, y.delivered + {root};
    FrontierGrows(cfg.rootOf, y.published, y.delivered, more);
    if end > Reach(cfg, y) {
      var range := Range(begin, end);
      if root == cfg.rootOf(range) {
        FrontierReaches(cfg.rootOf, y.published, more, range);
      } else {
        OnlyThatRange(cfg, y, root);
      }
    }
  }

  /** With any other root, End stays out of reach. */
  lemma OnlyThatRange(cfg: Config, y: System, root: Bytes)
    requires Disciplined(cfg, y) && !Waiting(y) && y.state.endCalTxInt > Reach(cfg, y)
    requires root != cfg.rootOf(Range(y.state.beginCalTxInt, y.state.endCalTxInt))
    ensures ReachWith(cfg, y, root) < y.state.endCalTxInt
  {
    var end, more := y.state.endCalTxInt, y.delivered + {root};
    if ReachWith(cfg, y, root) >= end {
      NoGapsWithMore(cfg.rootOf, y.published, y.delivered, more);
      CoveredUpToFrontier(cfg.rootOf, y.published, more, end);
      var r :| r in y.published && CoveredBy(end, r, cfg.rootOf, more);
      assert r == Range(y.state.beginCalTxInt, end);
      FrontierReaches(cfg.rootOf, y.published, y.delivered, r);
    }
  }

  /** The condition is exact: when no anchoring waits, a BTC-A, whatever root it carries, leaves
      every CAL up to Begin covered if and only if it is timely. */
  lemma TimelyBtcAsKeepCoverage(cfg: Config, y: System, tx: Tx)
    requires Disciplined(cfg, y) && !Waiting(y) && IsBtcA(tx)
    ensures BeginIsCovered(cfg, Received(y, tx)) <==> Timely(cfg, y, tx.anchored.value.aggRoot)
  {
    TimelyIsOnTime(cfg, y, tx.anchored.value.aggRoot);
    BtcACoversIfOnTime(cfg, y, tx);
  }

  lemma BeyondStays(cfg: Config, y: System, y': System, b: int)
    requires BeyondStartsAt(cfg, y, b) && y'.published == y.published && Reach(cfg, y) <= Reach(cfg, y')
    ensures BeyondStartsAt(cfg, y', b)
  {
  }

  lemma ReceivedStaysDisciplined(cfg: Config, y: System, tx: Tx)
    requires Disciplined(cfg, y) && (IsBtcA(tx) ==> Timely(cfg, y, tx.anchored.value.aggRoot))
    ensures Disciplined(cfg, Received(y, tx))
  {
    var y' := Received(y, tx);
    ReceivedStaysBased(cfg, y, tx);
    CoverageIsReach(cfg, y');
    if Waiting(y) {
      BeyondStays(cfg, y, y', y.running[0].range.first);
    } else {
      if IsBtcA(tx) {
        TimelyIsOnTime(cfg, y, tx.anchored.value.aggRoot);
      } else if y.state.endCalTxInt > Reach(cfg, y) {
        BeyondStays(cfg, y, y', y.state.beginCalTxInt);
      }
    }
  }

  // ---------- the other steps ----------

  lemma PublishStaysDisciplined(cfg: Config, y: System, g: nat)
    requires Disciplined(cfg, y) && CanPublish(cfg, y, g)
    ensures Disciplined(cfg, Step(cfg, y, Publish(g)))
  {
    var y' := Step(cfg, y, Publish(g));
    var range := y.running[0].range;
    PublishedStaysBased(cfg, y, g);
    FrontierOneMore(cfg.rootOf, y.published, y.delivered, range);
    assert y'.published[|y.published|] == range;
    forall r | r in y'.published && r.last > Reach(cfg, y')
      ensures r.first == range.first
    {
      assert r in y.published || r == range;
    }
  }

  /** An anchoring that found its root has made the reach catch up with End; one that did not
      leaves its range behind, and Begin at its start. */
  lemma ConcludeStaysDisciplined(cfg: Config, y: System, queued: bool)
    requires Disciplined(cfg, y) && Waiting(y)
    ensures Disciplined(cfg, Step(cfg, y, Conclude(0, queued)))
    ensures y.state.latestBtcAggRoot == cfg.rootOf(y.running[0].range) ==> y.state.endCalTxInt <= Reach(cfg, y)
  {
    var e := Conclude(0, queued);
    var y' := Step(cfg, y, e);
    var range := y.running[0].range;
    OtherStepsStayBased(cfg, y, e);
    assert BoundedRange(y.running[0], y);
    if y.state.latestBtcAggRoot == cfg.rootOf(range) {
      FrontierReaches(cfg.rootOf, y.published, y.delivered, range);
    } else {
      BeyondStays(cfg, y, y', range.first);
    }
  }

  lemma QueueFailsStaysDisciplined(cfg: Config, y: System, g: nat)
    requires Disciplined(cfg, y) && CanPublish(cfg, y, g)
    ensures Disciplined(cfg, Step(cfg, y, QueueFails(g)))
  {
    var e := QueueFails(g);
    var y' := Step(cfg, y, e);
    OtherStepsStayBased(cfg, y, e);
    FrontierAtMost(cfg.rootOf, y.published, y.delivered, y.state.endCalTxInt);
    if y.state.endCalTxInt > Reach(cfg, y) {
      BeyondStays(cfg, y, y', y.state.beginCalTxInt);
    }
  }

  lemma CommitStaysDisciplined(cfg: Config, y: System)
    requires Disciplined(cfg, y) && OneAtATime(cfg, y, CommitBlock)
    ensures Disciplined(cfg, Step(cfg, y, CommitBlock))
  {
    var y' := Step(cfg, y, CommitBlock);
    OtherStepsStayBased(cfg, y, CommitBlock);
    if Waiting(y) {
      BeyondStays(cfg, y, y', y.running[0].range.first);
    } else if y.state.endCalTxInt > Reach(cfg, y) {
      BeyondStays(cfg, y, y', y.state.beginCalTxInt);
    }
  }

  /** Steps that leave the ranges alone. */
  lemma QuietStepStaysDisciplined(cfg: Config, y: System, e: Event)
    requires Disciplined(cfg, y) && OneAtATime(cfg, y, e)
    requires e.Check? || e.Sync? || e.Record? || e.GiveUp?
    ensures Disciplined(cfg, Step(cfg, y, e))
  {
    var y' := Step(cfg, y, e);
    OtherStepsStayBased(cfg, y, e);
    StepKeepsRootsDelivered(cfg, y, e);
    if Waiting(y) {
      BeyondStays(cfg, y, y', y.running[0].range.first);
    } else if y.state.endCalTxInt > Reach(cfg, y) {
      BeyondStays(cfg, y, y', y.state.beginCalTxInt);
    }
  }

  lemma StepStaysDisciplined(cfg: Config, y: System, e: Event)
    requires Disciplined(cfg, y) && OneAtATime(cfg, y, e)
    ensures Disciplined(cfg, Step(cfg, y, e))
  {
    match e
    case Deliver(tx, verifies) =>
      ReceivedStaysDisciplined(cfg, y, Effective(tx, verifies, y.state.chainSynced));
    case Gossip(tx, verifies) =>
      ReceivedStaysDisciplined(cfg, y, Effective(tx, verifies, true));
    case CommitBlock =>
      CommitStaysDisciplined(cfg, y);
    case QueueFails(g) =>
      if CanPublish(cfg, y, g) {
        QueueFailsStaysDisciplined(cfg, y, g);
      }
    case Publish(g) =>
      if CanPublish(cfg, y, g) {
        PublishStaysDisciplined(cfg, y, g);
      }
    case Conclude(g, queued) =>
      if g < |y.running| && y.running[g].waiting {
        ConcludeStaysDisciplined(cfg, y, queued);
      }
    case _ =>
      QuietStepStaysDisciplined(cfg, y, e);
  }

  // ---------- runs ----------

  /** On a node that stays synced, with one anchoring in flight at a time and no untimely BTC-A
      between a timeout and the next publication: whenever no anchoring waits, every CAL up to
      Begin lies in a published range whose BTC-A was delivered. Throughout, published ranges leave
      no gap to the answered ones before them, and Begin <= End <= LatestCal. */
  lemma {:induction false} OneAtATimeCoverage(cfg: Config, y: System, events: seq<Event>)
    requires Disciplined(cfg, y) && OneAtATimeRun(cfg, y, events)
    ensures var y' := Run(cfg, y, events);
            && Disciplined(cfg, y')
            && (!Waiting(y') ==> BeginIsCovered(cfg, y'))
            && NoGaps(cfg.rootOf, y'.published, y'.delivered)
            && y'.state.beginCalTxInt <= y'.state.endCalTxInt <= y'.state.latestCalTxInt
    decreases |events|
  {
    if events != [] {
      var before := events[..|events| - 1];
      OneAtATimeCoverage(cfg, y, before);
      StepStaysDisciplined(cfg, Run(cfg, y, before), events[|events| - 1]);
    }
    CoverageIsReach(cfg, Run(cfg, y, events));
  }

  /** A core on an empty chain. */
  function Fresh(s: AnchorState): System {
    System(s, [], [], {}, [], {}, false)
  }

  /** A core that starts on an empty chain is disciplined as soon as it is synced. */
  lemma FreshCoreIsDisciplined(cfg: Config, s: AnchorState)
    requires s.chainSynced && s.latestBtcAggRoot == []
    requires s.txInt == s.beginCalTxInt == s.endCalTxInt == s.latestCalTxInt == 0
    ensures Disciplined(cfg, Fresh(s)) && Safe(cfg, Fresh(s))
    ensures s.latestBtcaHeight >= -1 && s.height >= 0 ==> Paced(cfg, Fresh(s))
  {
  }
}
