/** What an untimely BTC-A does: CALs that are skipped, and that stay skipped. */
module AnchorSkips {
  import opened ByteStrings
  import opened AnchorApp
  import opened AnchorRuns
  import opened AnchorCoverage
  import opened AnchorEpochs

  // ---------- what is left behind stays behind ----------

  /** Nothing that Begin can be set back to, and no range in the making, lies before f. */
  ghost predicate HasFloor(y: System, f: int) {
    && f <= y.state.beginCalTxInt && f <= y.state.endCalTxInt
    && forall a :: a in y.running ==> f <= a.range.first
  }

  lemma ReceivedKeepsFloor(y: System, tx: Tx, f: int)
    requires HasFloor(y, f)
    ensures HasFloor(Received(y, tx), f) && Received(y, tx).published == y.published
  {
  }

  lemma StepKeepsFloor(cfg: Config, y: System, e: Event, f: int)
    requires Bounded(y) && HasFloor(y, f)
    ensures HasFloor(Step(cfg, y, e), f)
    ensures forall r :: r in Step(cfg, y, e).published ==> r in y.published || f <= r.first
  {
    if e.Deliver? {
      ReceivedKeepsFloor(y, Effective(e.tx, e.verifies, y.state.chainSynced), f);
    } else if e.Gossip? {
      ReceivedKeepsFloor(y, Effective(e.tx, e.verifies, true), f);
    } else {
      var y' := Step(cfg, y, e);
      forall a | a in y'.running
        ensures f <= a.range.first
      {
        RunningBefore(cfg, y, e, a);
      }
      if e.QueueFails? || e.Publish? || e.Conclude? {
        if e.g < |y.running| {
          assert y.running[e.g] in y.running && BoundedRange(y.running[e.g], y);
        }
      }
    }
  }

  lemma {:induction false} RunKeepsFloor(cfg: Config, y: System, events: seq<Event>, f: int)
    requires Bounded(y) && HasFloor(y, f)
    ensures HasFloor(Run(cfg, y, events), f)
    ensures forall r :: r in Run(cfg, y, events).published ==> r in y.published || f <= r.first
    decreases |events|
  {
    if events != [] {
      var before := events[..|events| - 1];
      RunKeepsFloor(cfg, y, before, f);
      RunKeepsBounds(cfg, y, before);
      StepKeepsFloor(cfg, Run(cfg, y, before), events[|events| - 1], f);
    }
  }

  /** A CAL below the floor that no answered range covers is skipped for good: in no run whatever,
      with any number of goroutines and sync changes, is it covered again, unless the BTC-A of a
      range that was published before arrives after all. */
  lemma SkippedForGood(cfg: Config, y: System, events: seq<Event>, f: int, c: int)
    requires Bounded(y) && HasFloor(y, f) && c < f
    ensures var y' := Run(cfg, y, events);
            IsCovered(c, cfg.rootOf, y'.published, y'.delivered) ==> IsCovered(c, cfg.rootOf, y.published, y'.delivered)
  {
    RunKeepsFloor(cfg, y, events, f);
    var y' := Run(cfg, y, events);
    if IsCovered(c, cfg.rootOf, y'.published, y'.delivered) {
      var r :| r in y'.published && CoveredBy(c, r, cfg.rootOf, y'.delivered);
      assert r in y.published;
    }
  }

  // ---------- an untimely BTC-A ----------

  function Cal(data: Bytes): Event {
    Deliver(CalTx(data), true)
  }

  /** A commit starts an anchoring; it publishes its range, and times out. */
  function FailedEpoch(): seq<Event> {
    [CommitBlock] + [Publish(0)] + [Conclude(0, true)]
  }

  /** What such an epoch leaves behind. */
  function AfterFailedEpoch(y: System): System {
    var s := y.state;
    y.(state := s.(endCalTxInt := s.latestCalTxInt, height := s.height + 1, latestBtcaHeight := -1),
       published := y.published + [Range(s.beginCalTxInt, s.latestCalTxInt)], timedOut := true)
  }

  lemma {:induction false} OneAtATimeConcat(cfg: Config, y: System, a: seq<Event>, b: seq<Event>)
    ensures OneAtATimeRun(cfg, y, a + b) <==> OneAtATimeRun(cfg, y, a) && OneAtATimeRun(cfg, Run(cfg, y, a), b)
    decreases |b|
  {
    if b == [] {
      assert a + b == a;
    } else {
      var n := |b| - 1;
      assert (a + b)[..|a + b| - 1] == a + b[..n];
      OneAtATimeConcat(cfg, y, a, b[..n]);
      RunConcat(cfg, y, a, b[..n]);
    }
  }

  lemma OneMoreEvent(cfg: Config, y: System, a: seq<Event>, e: Event)
    ensures Run(cfg, y, a + [e]) == Step(cfg, Run(cfg, y, a), e)
    ensures OneAtATimeRun(cfg, y, a + [e]) <==> OneAtATimeRun(cfg, y, a) && OneAtATime(cfg, Run(cfg, y, a), e)
  {
    assert (a + [e])[..|a|] == a;
  }

  lemma FailedEpochRuns(cfg: Config, y: System)
    requires StartsAnchoring(cfg, y) && y.running == [] && y.state.beginCalTxInt < y.state.latestCalTxInt
    requires var root := cfg.rootOf(Range(y.state.beginCalTxInt, y.state.latestCalTxInt));
             root != [] && root != y.state.latestBtcAggRoot
    ensures Run(cfg, y, FailedEpoch()) == AfterFailedEpoch(y) && OneAtATimeRun(cfg, y, FailedEpoch())
  {
    OneMoreEvent(cfg, y, [], CommitBlock);
    assert [] + [CommitBlock] == [CommitBlock];
    OneMoreEvent(cfg, y, [CommitBlock], Publish(0));
    OneMoreEvent(cfg, y, [CommitBlock] + [Publish(0)], Conclude(0, true));
  }

  /** Two epochs that both time out: of the first CAL, and of all three. */
  function TwoFailedEpochs(data: Bytes): seq<Event> {
    [Cal(data)] + FailedEpoch() + [Cal(data)] + [Cal(data)] + FailedEpoch()
  }

  /** Roots of different ranges that are not empty, and a core whose anchorings are due. */
  predicate Eventful(cfg: Config, s: AnchorState) {
    && s.chainSynced && s.latestBtcAggRoot == []
    && s.txInt == s.beginCalTxInt == s.endCalTxInt == s.latestCalTxInt == 0
    && cfg.doAnchor && AnchorIsDue(s, cfg.interval) && s.height + 2 > cfg.interval
    && cfg.rootOf(Range(0, 1)) != [] && cfg.rootOf(Range(0, 3)) != []
    && cfg.rootOf(Range(0, 1)) != cfg.rootOf(Range(0, 3))
  }

  lemma FirstEpochs(cfg: Config, s: AnchorState, data: Bytes) returns (y: System)
    requires Eventful(cfg, s)
    ensures y == Run(cfg, Fresh(s), [Cal(data)] + FailedEpoch())
    ensures y == AfterFailedEpoch(Step(cfg, Fresh(s), Cal(data)))
    ensures OneAtATimeRun(cfg, Fresh(s), [Cal(data)] + FailedEpoch())
  {
    var start := Fresh(s);
    OneMoreEvent(cfg, start, [], Cal(data));
    assert [] + [Cal(data)] == [Cal(data)];
    y := Step(cfg, start, Cal(data));
    FailedEpochRuns(cfg, y);
    RunConcat(cfg, start, [Cal(data)], FailedEpoch());
    OneAtATimeConcat(cfg, start, [Cal(data)], FailedEpoch());
    y := AfterFailedEpoch(y);
  }

  lemma EpochsRun(cfg: Config, s: AnchorState, data: Bytes) returns (y: System)
    requires Eventful(cfg, s)
    ensures y == Run(cfg, Fresh(s), TwoFailedEpochs(data)) && OneAtATimeRun(cfg, Fresh(s), TwoFailedEpochs(data))
    ensures y.cals == {1, 2, 3} && y.published == [Range(0, 1), Range(0, 3)] && y.delivered == {} && y.running == []
    ensures y.state.beginCalTxInt == 0 && y.state.endCalTxInt == y.state.latestCalTxInt == 3 && y.state.chainSynced
  {
    var start, first := Fresh(s), [Cal(data)] + FailedEpoch();
    y := FirstEpochs(cfg, s, data);
    OneMoreEvent(cfg, start, first, Cal(data));
    OneMoreEvent(cfg, start, first + [Cal(data)], Cal(data));
    y := Step(cfg, Step(cfg, y, Cal(data)), Cal(data));
    FailedEpochRuns(cfg, y);
    RunConcat(cfg, start, first + [Cal(data)] + [Cal(data)], FailedEpoch());
    OneAtATimeConcat(cfg, start, first + [Cal(data)] + [Cal(data)], FailedEpoch());
    y := AfterFailedEpoch(y);
  }

  /** It happens: both epochs have timed out and nothing is in flight when the BTC-A of the first
      one arrives. Begin moves to 3, so CAL 2 is skipped, and by the floor that is for good, unless
      the BTC-A of the second epoch arrives as well. */
  lemma UntimelyBtcA(cfg: Config, s: AnchorState, data: Bytes, btcTxID: Bytes, raw: Bytes) returns (y: System)
    requires Eventful(cfg, s)
    ensures var late := Deliver(BtcATx(Some(Anchored(cfg.rootOf(Range(0, 1)), btcTxID)), raw), true);
            && OneAtATimeRun(cfg, Fresh(s), TwoFailedEpochs(data))
            && y == Run(cfg, Fresh(s), TwoFailedEpochs(data) + [late])
    ensures y.running == [] && 2 in y.cals && y.state.beginCalTxInt == 3 && HasFloor(y, 3)
    ensures !IsCovered(2, cfg.rootOf, y.published, y.delivered) && !BeginIsCovered(cfg, y)
    ensures forall events :: cfg.rootOf(Range(0, 3)) !in Run(cfg, y, events).delivered ==>
              var y' := Run(cfg, y, events); !IsCovered(2, cfg.rootOf, y'.published, y'.delivered)
  {
    var late := Deliver(BtcATx(Some(Anchored(cfg.rootOf(Range(0, 1)), btcTxID)), raw), true);
    FreshCoreIsDisciplined(cfg, s);
    var before := EpochsRun(cfg, s, data);
    OneMoreEvent(cfg, Fresh(s), TwoFailedEpochs(data), late);
    y := Step(cfg, before, late);
    assert y.delivered == {cfg.rootOf(Range(0, 1))};
    assert forall r :: r in y.published ==> r == Range(0, 1) || r == Range(0, 3);
    RunKeepsBounds(cfg, Fresh(s), TwoFailedEpochs(data) + [late]);
    forall events | cfg.rootOf(Range(0, 3)) !in Run(cfg, y, events).delivered
      ensures var y' := Run(cfg, y, events); !IsCovered(2, cfg.rootOf, y'.published, y'.delivered)
    {
      SkippedForGood(cfg, y, events, 3, 2);
    }
  }
}
