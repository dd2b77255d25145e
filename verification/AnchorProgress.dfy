/** What anchorings achieve when nothing fails. */
module AnchorProgress {
  import opened ByteStrings
  import opened AnchorApp
  import opened AnchorRuns

  /** The block a BTC-A or BTC-C is delivered in: its commit gives the height that the state holds. */
  lemma HeightsAreOfTheirBlock(cfg: Config, y: System, tx: Tx)
    ensures var y' := Received(y, tx);
            && (IsBtcA(tx) ==> y'.state.latestBtcaHeight == Step(cfg, y', CommitBlock).state.height)
            && (tx.BtcCTx? ==> y'.state.latestBtccHeight == Step(cfg, y', CommitBlock).state.height)
  {
  }

  /** A commit that starts an anchoring, and its publication. */
  function AfterPublication(cfg: Config, y: System): System {
    Step(cfg, Step(cfg, y, CommitBlock), Publish(|y.running|))
  }

  lemma PublicationOfEpoch(cfg: Config, y: System)
    requires StartsAnchoring(cfg, y) && y.state.beginCalTxInt < y.state.latestCalTxInt
    requires cfg.rootOf(Range(y.state.beginCalTxInt, y.state.latestCalTxInt)) != []
    ensures var range := Range(y.state.beginCalTxInt, y.state.latestCalTxInt);
            AfterPublication(cfg, y)
            == y.(state := y.state.(height := y.state.height + 1, endCalTxInt := range.last,
                                    latestBtcaHeight := y.state.height + 1),
                  running := y.running + [Anchoring(range, true)], published := y.published + [range], timedOut := false)
  {
    var range := Range(y.state.beginCalTxInt, y.state.latestCalTxInt);
    var y1 := Step(cfg, y, CommitBlock);
    assert y1.running == y.running + [Anchoring(range, false)];
    assert y1.running[|y.running| := Anchoring(range, true)] == y.running + [Anchoring(range, true)];
  }

  /** The BTC-A with the root of the published range arrives, and is recorded. */
  function AfterAnswer(cfg: Config, y: System, anchored: Anchored, raw: Bytes): System {
    Step(cfg, Step(cfg, y, Deliver(BtcATx(Some(anchored), raw), true)), Record(|y.watched|))
  }

  lemma AnswerOfEpoch(cfg: Config, y: System, anchored: Anchored, raw: Bytes)
    requires y.state.chainSynced
    ensures var y' := AfterAnswer(cfg, y, anchored, raw);
            && y'.running == y.running && y'.watched == y.watched && y'.published == y.published && y'.cals == y.cals
            && y'.delivered == y.delivered + {anchored.aggRoot} && y'.timedOut == y.timedOut
            && y'.state.beginCalTxInt == y'.state.endCalTxInt == y.state.endCalTxInt
            && y'.state.latestCalTxInt == y.state.latestCalTxInt
            && y'.state.latestBtcAggRoot == anchored.aggRoot
            && y'.state.latestBtcaHeight == y'.state.height + 1 && y'.state.height == y.state.height
  {
    var y1 := Step(cfg, y, Deliver(BtcATx(Some(anchored), raw), true));
    assert y1.watched == y.watched + [anchored];
    assert Without(y1.watched, |y.watched|) == y.watched;
  }

  /** An epoch that goes well, next to any other goroutines: a due commit starts an anchoring, it is
      published, answered and recorded. It then concludes without a reset, and Begin and End stand
      at the latest CAL, so that the next anchoring goes on from there, and not before the interval
      has passed. */
  lemma EpochSucceeds(cfg: Config, y: System, anchored: Anchored, raw: Bytes)
    requires StartsAnchoring(cfg, y) && y.state.beginCalTxInt < y.state.latestCalTxInt && cfg.interval >= 0
    requires cfg.rootOf(Range(y.state.beginCalTxInt, y.state.latestCalTxInt)) == anchored.aggRoot != []
    ensures var range := Range(y.state.beginCalTxInt, y.state.latestCalTxInt);
            var y' := Step(cfg, AfterAnswer(cfg, AfterPublication(cfg, y), anchored, raw), Conclude(|y.running|, true));
            && y'.running == y.running && y'.watched == y.watched && !y'.timedOut
            && y'.state.beginCalTxInt == y'.state.endCalTxInt == y'.state.latestCalTxInt == range.last
            && y'.published == y.published + [range] && cfg.rootOf(range) in y'.delivered
            && !StartsAnchoring(cfg, y')
  {
    PublicationOfEpoch(cfg, y);
    var y2 := AfterPublication(cfg, y);
    AnswerOfEpoch(cfg, y2, anchored, raw);
    var y4 := AfterAnswer(cfg, y2, anchored, raw);
    assert y4.running[|y.running|] == Anchoring(Range(y.state.beginCalTxInt, y.state.latestCalTxInt), true);
    assert Without(y4.running, |y.running|) == y.running;
  }

  /** A node that is not synced anchors nothing itself: a commit at which an anchoring is due only moves
      End to the latest CAL, and the BTC-A of the others then moves Begin there too. */
  lemma UnsyncedFollows(cfg: Config, y: System, anchored: Anchored, raw: Bytes)
    requires !y.state.chainSynced
    ensures var y' := Step(cfg, y, CommitBlock);
            var due := cfg.doAnchor && y.state.height - y.state.latestBtcaHeight > cfg.interval;
            && y'.state.endCalTxInt == (if due then y.state.latestCalTxInt else y.state.endCalTxInt)
            && y'.running == y.running && y'.published == y.published
            && y'.state.beginCalTxInt == y.state.beginCalTxInt && y'.state.height == y.state.height + 1
            && Step(cfg, y', Deliver(BtcATx(Some(anchored), raw), false)).state.beginCalTxInt == y'.state.endCalTxInt
  {
  }
}
