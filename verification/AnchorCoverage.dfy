/**
  Every CAL that an anchoring leaves behind lies in a range that the core published and whose
  root a delivered BTC-A carries. BTC-As may come from any core and carry any root: nothing ties
  them to the ranges of this core but the roots.
 */
module AnchorCoverage {
  import opened ByteStrings
  import opened AnchorApp
  import opened AnchorRuns

  // ---------- how far the answered ranges reach ----------

  function Max(a: int, b: int): int {
    if a < b then b else a
  }

  /** The end of the furthest of those published ranges whose roots were delivered. */
  function Frontier(rootOf: Range -> Bytes, published: seq<Range>, delivered: set<Bytes>): (f: int)
    ensures f >= 0
  {
    if published == [] then 0
    else
      var n := |published| - 1;
      var before := Frontier(rootOf, published[..n], delivered);
      if rootOf(published[n]) in delivered then Max(before, published[n].last) else before
  }

  ghost predicate CoveredBy(c: int, r: Range, rootOf: Range -> Bytes, delivered: set<Bytes>) {
    r.first <= c <= r.last && rootOf(r) in delivered
  }

  ghost predicate IsCovered(c: int, rootOf: Range -> Bytes, published: seq<Range>, delivered: set<Bytes>) {
    exists r :: r in published && CoveredBy(c, r, rootOf, delivered)
  }

  /** Each published range starts within the reach of the answered ones before it; in particular
      the first one starts at 0, and answered ranges follow one another without a gap. */
  ghost predicate NoGaps(rootOf: Range -> Bytes, published: seq<Range>, delivered: set<Bytes>) {
    forall k :: 0 <= k < |published| ==> Adjoins(rootOf, published, delivered, k)
  }

  ghost predicate Adjoins(rootOf: Range -> Bytes, published: seq<Range>, delivered: set<Bytes>, k: nat)
    requires k < |published|
  {
    0 <= published[k].first <= Frontier(rootOf, published[..k], delivered)
  }

  lemma {:induction false} FrontierReaches(rootOf: Range -> Bytes, published: seq<Range>, delivered: set<Bytes>, r: Range)
    requires r in published && rootOf(r) in delivered
    ensures r.last <= Frontier(rootOf, published, delivered)
  {
    var n := |published| - 1;
    if r != published[n] {
      assert r in published[..n];
      FrontierReaches(rootOf, published[..n], delivered, r);
    }
  }

  lemma {:induction false} FrontierAtMost(rootOf: Range -> Bytes, published: seq<Range>, delivered: set<Bytes>, bound: int)
    requires 0 <= bound && forall r :: r in published ==> r.last <= bound
    ensures Frontier(rootOf, published, delivered) <= bound
  {
    if published != [] {
      FrontierAtMost(rootOf, published[..|published| - 1], delivered, bound);
    }
  }

  lemma {:induction false} FrontierGrows(rootOf: Range -> Bytes, published: seq<Range>, delivered: set<Bytes>, more: set<Bytes>)
    requires delivered <= more
    ensures Frontier(rootOf, published, delivered) <= Frontier(rootOf, published, more)
  {
    if published != [] {
      FrontierGrows(rootOf, published[..|published| - 1], delivered, more);
    }
  }

  lemma FrontierOneMore(rootOf: Range -> Bytes, published: seq<Range>, delivered: set<Bytes>, r: Range)
    ensures Frontier(rootOf, published + [r], delivered)
         == if rootOf(r) in delivered then Max(Frontier(rootOf, published, delivered), r.last)
            else Frontier(rootOf, published, delivered)
  {
    assert (published + [r])[..|published|] == published;
  }

  lemma NoGapsWithMore(rootOf: Range -> Bytes, published: seq<Range>, delivered: set<Bytes>, more: set<Bytes>)
    requires NoGaps(rootOf, published, delivered) && delivered <= more
    ensures NoGaps(rootOf, published, more)
  {
    forall k | 0 <= k < |published|
      ensures Adjoins(rootOf, published, more, k)
    {
      assert Adjoins(rootOf, published, delivered, k);
      FrontierGrows(rootOf, published[..k], delivered, more);
    }
  }

  lemma NoGapsOneMore(rootOf: Range -> Bytes, published: seq<Range>, delivered: set<Bytes>, r: Range)
    requires NoGaps(rootOf, published, delivered) && 0 <= r.first <= Frontier(rootOf, published, delivered)
    ensures NoGaps(rootOf, published + [r], delivered)
  {
    var longer := published + [r];
    forall k | 0 <= k < |longer|
      ensures Adjoins(rootOf, longer, delivered, k)
    {
      assert longer[..k] == published[..k];
      if k < |published| {
        assert Adjoins(rootOf, published, delivered, k);
      } else {
        assert published[..k] == published;
      }
    }
  }

  lemma NoGapsPrefix(rootOf: Range -> Bytes, published: seq<Range>, delivered: set<Bytes>, n: nat)
    requires NoGaps(rootOf, published, delivered) && n <= |published|
    ensures NoGaps(rootOf, published[..n], delivered)
  {
    forall k | 0 <= k < n
      ensures Adjoins(rootOf, published[..n], delivered, k)
    {
      assert published[..n][..k] == published[..k];
      assert Adjoins(rootOf, published, delivered, k);
    }
  }

  /** Without gaps, exactly what lies within the frontier is covered. */
  lemma {:induction false} CoveredUpToFrontier(rootOf: Range -> Bytes, published: seq<Range>, delivered: set<Bytes>, c: int)
    requires NoGaps(rootOf, published, delivered) && 0 < c
    ensures IsCovered(c, rootOf, published, delivered) <==> c <= Frontier(rootOf, published, delivered)
    decreases |published|
  {
    if IsCovered(c, rootOf, published, delivered) {
      var r :| r in published && CoveredBy(c, r, rootOf, delivered);
      FrontierReaches(rootOf, published, delivered, r);
    }
    if c <= Frontier(rootOf, published, delivered) {
      var n := |published| - 1;
      assert Adjoins(rootOf, published, delivered, n);
      NoGapsPrefix(rootOf, published, delivered, n);
      CoveredUpToFrontier(rootOf, published[..n], delivered, c);
      if c <= Frontier(rootOf, published[..n], delivered) {
        var r :| r in published[..n] && CoveredBy(c, r, rootOf, delivered);
        assert r in published;
      } else {
        assert CoveredBy(c, published[n], rootOf, delivered);
      }
    }
  }

  // ---------- the property, and what a BTC-A does to it ----------

  function Reach(cfg: Config, y: System): int {
    Frontier(cfg.rootOf, y.published, y.delivered)
  }

  /** The coverage property: every CAL up to Begin lies in a published range whose BTC-A was
      delivered. */
  ghost predicate BeginIsCovered(cfg: Config, y: System) {
    forall c :: c in y.cals && c <= y.state.beginCalTxInt ==> IsCovered(c, cfg.rootOf, y.published, y.delivered)
  }

  ghost predicate Based(cfg: Config, y: System) {
    && Bounded(y) && NoGaps(cfg.rootOf, y.published, y.delivered)
    && forall r :: r in y.published ==> r.last <= y.state.latestCalTxInt && cfg.rootOf(r) != []
  }

  /** Without gaps, coverage is a comparison of two numbers. */
  lemma CoverageIsReach(cfg: Config, y: System)
    requires Based(cfg, y)
    ensures BeginIsCovered(cfg, y) <==> y.state.beginCalTxInt <= Reach(cfg, y)
    ensures Reach(cfg, y) <= y.state.latestCalTxInt
  {
    var b := y.state.beginCalTxInt;
    FrontierAtMost(cfg.rootOf, y.published, y.delivered, y.state.latestCalTxInt);
    if BeginIsCovered(cfg, y) && b > 0 {
      assert b in y.cals;
      CoveredUpToFrontier(cfg.rootOf, y.published, y.delivered, b);
    }
    if b <= Reach(cfg, y) {
      forall c | c in y.cals && c <= b
        ensures IsCovered(c, cfg.rootOf, y.published, y.delivered)
      {
        CoveredUpToFrontier(cfg.rootOf, y.published, y.delivered, c);
      }
    }
  }

  /** The reach once a BTC-A with this root is there as well. */
  function ReachWith(cfg: Config, y: System, root: Bytes): int {
    Frontier(cfg.rootOf, y.published, y.delivered + {root})
  }

  /** The answered ranges, this one included, reach End: no range has been published beyond them. */
  predicate OnTime(cfg: Config, y: System, root: Bytes) {
    y.state.endCalTxInt <= ReachWith(cfg, y, root)
  }

  lemma ReceivedStaysBased(cfg: Config, y: System, tx: Tx)
    requires Based(cfg, y)
    ensures Based(cfg, Received(y, tx)) && Reach(cfg, y) <= Reach(cfg, Received(y, tx))
    ensures IsBtcA(tx) ==> Reach(cfg, Received(y, tx)) == ReachWith(cfg, y, tx.anchored.value.aggRoot)
  {
    var y' := Received(y, tx);
    ReceivedKeepsBounds(y, tx);
    NoGapsWithMore(cfg.rootOf, y.published, y.delivered, y'.delivered);
    FrontierGrows(cfg.rootOf, y.published, y.delivered, y'.delivered);
  }

  /** Whatever root a BTC-A carries and whatever is in flight: right after it, every CAL up to
      Begin is covered if and only if it is on time. */
  lemma BtcACoversIfOnTime(cfg: Config, y: System, tx: Tx)
    requires Based(cfg, y) && IsBtcA(tx)
    ensures BeginIsCovered(cfg, Received(y, tx)) <==> OnTime(cfg, y, tx.anchored.value.aggRoot)
  {
    ReceivedStaysBased(cfg, y, tx);
    CoverageIsReach(cfg, Received(y, tx));
  }

  // ---------- any number of anchorings at a time ----------

  /** Nothing that Begin can be set back to lies beyond the reach. */
  ghost predicate Safe(cfg: Config, y: System) {
    && Based(cfg, y) && y.state.chainSynced
    && y.state.beginCalTxInt <= Reach(cfg, y)
    && (forall a :: a in y.running ==> a.range.first <= Reach(cfg, y))
  }

  /** The node stays synced, and BTC-As are on time. */
  predicate Orderly(cfg: Config, y: System, e: Event) {
    && (e.Sync? ==> e.synced)
    && (BtcARoot(y, e).Some? ==> OnTime(cfg, y, BtcARoot(y, e).value))
  }

  predicate OrderlyRun(cfg: Config, y: System, events: seq<Event>)
    decreases |events|
  {
    events != [] ==>
      var before := events[..|events| - 1];
      OrderlyRun(cfg, y, before) && Orderly(cfg, Run(cfg, y, before), events[|events| - 1])
  }

  lemma ReceivedStaysSafe(cfg: Config, y: System, tx: Tx)
    requires Safe(cfg, y) && (IsBtcA(tx) ==> OnTime(cfg, y, tx.anchored.value.aggRoot))
    ensures Safe(cfg, Received(y, tx))
  {
    ReceivedStaysBased(cfg, y, tx);
  }

  /** Publication of a range that starts within the reach. */
  lemma PublishedStaysBased(cfg: Config, y: System, g: nat)
    requires Based(cfg, y) && CanPublish(cfg, y, g) && y.running[g].range.first <= Reach(cfg, y)
    ensures Based(cfg, Step(cfg, y, Publish(g))) && Reach(cfg, y) <= Reach(cfg, Step(cfg, y, Publish(g)))
  {
    StepKeepsBounds(cfg, y, Publish(g));
    var range := y.running[g].range;
    assert BoundedRange(y.running[g], y);
    NoGapsOneMore(cfg.rootOf, y.published, y.delivered, range);
    FrontierOneMore(cfg.rootOf, y.published, y.delivered, range);
  }

  lemma OtherStepsStayBased(cfg: Config, y: System, e: Event)
    requires Based(cfg, y) && !e.Deliver? && !e.Gossip? && !e.Publish?
    ensures Based(cfg, Step(cfg, y, e)) && Reach(cfg, Step(cfg, y, e)) == Reach(cfg, y)
  {
    StepKeepsBounds(cfg, y, e);
    StateStaysBounded(cfg, y, e);
  }

  lemma StepStaysSafe(cfg: Config, y: System, e: Event)
    requires Safe(cfg, y) && Orderly(cfg, y, e)
    ensures Safe(cfg, Step(cfg, y, e))
  {
    if e.Deliver? {
      ReceivedStaysSafe(cfg, y, Effective(e.tx, e.verifies, y.state.chainSynced));
    } else if e.Gossip? {
      ReceivedStaysSafe(cfg, y, Effective(e.tx, e.verifies, true));
    } else {
      if e.Publish? {
        if CanPublish(cfg, y, e.g) {
          assert y.running[e.g] in y.running;
          PublishedStaysBased(cfg, y, e.g);
        }
      } else {
        OtherStepsStayBased(cfg, y, e);
      }
      BeginStaysInReach(cfg, y, e);
    }
  }

  lemma BeginStaysInReach(cfg: Config, y: System, e: Event)
    requires Safe(cfg, y) && Orderly(cfg, y, e) && !e.Deliver? && !e.Gossip?
    ensures var y' := Step(cfg, y, e);
            && y'.state.chainSynced && y'.state.beginCalTxInt <= Reach(cfg, y)
            && forall a :: a in y'.running ==> a.range.first <= Reach(cfg, y)
  {
    forall a | a in Step(cfg, y, e).running
      ensures a.range.first <= Reach(cfg, y)
    {
      RunningBefore(cfg, y, e, a);
    }
    if e.QueueFails? || e.Conclude? {
      if e.g < |y.running| {
        assert y.running[e.g] in y.running;
      }
    }
  }

  /** Coverage over whole runs, at every moment of them, with any number of goroutines, timeouts
      and failures, and BTC-As for any roots, as long as they are on time. */
  lemma {:induction false} AnyNumberCoverage(cfg: Config, y: System, events: seq<Event>)
    requires Safe(cfg, y) && OrderlyRun(cfg, y, events)
    ensures Safe(cfg, Run(cfg, y, events)) && BeginIsCovered(cfg, Run(cfg, y, events))
    decreases |events|
  {
    if events == [] {
      CoverageIsReach(cfg, y);
    } else {
      var before := events[..|events| - 1];
      AnyNumberCoverage(cfg, y, before);
      StepStaysSafe(cfg, Run(cfg, y, before), events[|events| - 1]);
      CoverageIsReach(cfg, Run(cfg, y, events));
    }
  }
}
