/**
  Runs of a core: deliveries, gossip, commits, changes of the sync state and the steps of any
  number of anchoring goroutines, interleaved in any order.
 */
module AnchorRuns {
  import opened ByteStrings
  import opened AnchorApp

  /** The CALs numbered from `first` to `last`. */
  datatype Range = Range(first: int, last: int)

  /** An AnchorBTC goroutine: it gathers the CALs of its range until it publishes the range, and
      then waits until a BTC-A with the root of the range is recorded. */
  datatype Anchoring = Anchoring(range: Range, waiting: bool)

  /** A core, its goroutines, and the history that the properties speak of: the numbers of the
      delivered CALs, the published ranges in order, the roots of the delivered BTC-As, and
      whether an anchoring has timed out since the last publication. */
  datatype System = System(
    state: AnchorState, running: seq<Anchoring>, watched: seq<Anchored>,
    cals: set<int>, published: seq<Range>, delivered: set<Bytes>, timedOut: bool)

  /** `rootOf` gives the root (as text) of the tree over the CALs of a range, the same on every
      core; it is empty when there is nothing to anchor. */
  datatype Config = Config(doAnchor: bool, interval: int, rootOf: Range -> Bytes)

  /** A BTC-A may come from any core and carry any root. */
  datatype Event =
    | Deliver(tx: Tx, verifies: bool)
    | Gossip(tx: Tx, verifies: bool)
    | Check(received: Option<Tx>)
    | CommitBlock
    | Sync(synced: bool)
    | Record(k: nat)
    | GiveUp(g: nat)
    | QueueFails(g: nat)
    | Publish(g: nat)
    | Conclude(g: nat, queued: bool)

  function Without<T>(s: seq<T>, k: nat): seq<T>
    requires k < |s|
  {
    s[..k] + s[k + 1..]
  }

  predicate IsBtcA(tx: Tx) {
    tx.BtcATx? && tx.anchored.Some?
  }

  function Received(y: System, tx: Tx): System {
    var s := Delivered(y.state, tx);
    y.(state := s,
       cals := if tx.CalTx? then y.cals + {s.txInt} else y.cals,
       delivered := if IsBtcA(tx) then y.delivered + {tx.anchored.value.aggRoot} else y.delivered,
       watched := if IsBtcA(tx) && y.state.chainSynced then y.watched + [tx.anchored.value] else y.watched)
  }

  /** A goroutine that can go on to publish: it has found CALs in a proper range. */
  predicate CanPublish(cfg: Config, y: System, g: nat) {
    && g < |y.running| && !y.running[g].waiting
    && y.running[g].range.first < y.running[g].range.last && cfg.rootOf(y.running[g].range) != []
  }

  /** An event that is not possible, like a step of a goroutine that does not run, does nothing. */
  function Step(cfg: Config, y: System, e: Event): System {
    match e
    case Deliver(tx, verifies) => Received(y, Effective(tx, verifies, y.state.chainSynced))
    case Gossip(tx, verifies) =>
      if y.state.chainSynced then Received(y, Effective(tx, verifies, true)) else y
    case Check(Some(BtcCTx(data, _))) => y.(state := y.state.(latestBtccTx := data))
    case Check(_) => y
    case CommitBlock =>
      var s := Committed(y.state, cfg.doAnchor, cfg.interval);
      if StartsAnchoring(cfg, y) then y.(state := s, running := y.running + [StartedBy(y)]) else y.(state := s)
    case Sync(synced) => y.(state := y.state.(chainSynced := synced))
    case Record(k) =>
      if k >= |y.watched| then y
      else y.(state := Recorded(y.state, y.watched[k]), watched := Without(y.watched, k))
    case GiveUp(g) =>
      if g >= |y.running| || y.running[g].waiting then y
      else y.(running := Without(y.running, g))
    case QueueFails(g) =>
      if !CanPublish(cfg, y, g) then y
      else y.(state := WithReset(y.state, y.running[g].range.first), running := Without(y.running, g))
    case Publish(g) =>
      if !CanPublish(cfg, y, g) then y
      else
        var range := y.running[g].range;
        y.(state := Published(y.state, range.last), running := y.running[g := Anchoring(range, true)],
           published := y.published + [range], timedOut := false)
    case Conclude(g, queued) =>
      if g >= |y.running| || !y.running[g].waiting then y
      else
        var range := y.running[g].range;
        var answered := y.state.latestBtcAggRoot == cfg.rootOf(range);
        y.(state := if answered && queued then y.state else WithReset(y.state, range.first),
           running := Without(y.running, g), timedOut := y.timedOut || !answered)
  }

  /** The goroutine that a commit starts when it starts one. */
  function StartedBy(y: System): Anchoring {
    Anchoring(Range(y.state.beginCalTxInt, y.state.latestCalTxInt), false)
  }

  predicate StartsAnchoring(cfg: Config, y: System) {
    cfg.doAnchor && AnchorIsDue(y.state, cfg.interval) && y.state.chainSynced
  }

  function Run(cfg: Config, y: System, events: seq<Event>): System
    decreases |events|
  {
    if events == [] then y
    else Step(cfg, Run(cfg, y, events[..|events| - 1]), events[|events| - 1])
  }

  // ---------- the integers of the range stay within the calendar ----------

  predicate IsMark(n: int, cals: set<int>) {
    n == 0 || n in cals
  }

  /** Begin and End never exceed the latest CAL, which never exceeds TxInt, and each of the three
      is 0 or the number of a delivered CAL; the same holds of every goroutine's range. */
  ghost predicate Bounded(y: System) {
    var s := y.state;
    && 0 <= s.beginCalTxInt <= s.latestCalTxInt && 0 <= s.endCalTxInt <= s.latestCalTxInt <= s.txInt
    && IsMark(s.beginCalTxInt, y.cals) && IsMark(s.endCalTxInt, y.cals) && IsMark(s.latestCalTxInt, y.cals)
    && (forall c :: c in y.cals ==> 0 < c <= s.latestCalTxInt)
    && (forall a :: a in y.running ==> BoundedRange(a, y))
  }

  ghost predicate BoundedRange(a: Anchoring, y: System) {
    && 0 <= a.range.first <= a.range.last <= y.state.latestCalTxInt
    && IsMark(a.range.first, y.cals) && IsMark(a.range.last, y.cals)
  }

  lemma ReceivedKeepsBounds(y: System, tx: Tx)
    requires Bounded(y)
    ensures Bounded(Received(y, tx))
  {
    var y' := Received(y, tx);
    forall a | a in y'.running
      ensures BoundedRange(a, y')
    {
      assert BoundedRange(a, y);
    }
  }

  lemma StepKeepsBounds(cfg: Config, y: System, e: Event)
    requires Bounded(y)
    ensures Bounded(Step(cfg, y, e))
  {
    if e.Deliver? {
      ReceivedKeepsBounds(y, Effective(e.tx, e.verifies, y.state.chainSynced));
    } else if e.Gossip? {
      ReceivedKeepsBounds(y, Effective(e.tx, e.verifies, true));
    } else {
      StateStaysBounded(cfg, y, e);
      forall a | a in Step(cfg, y, e).running
        ensures BoundedRange(a, Step(cfg, y, e))
      {
        RunningBefore(cfg, y, e, a);
      }
    }
  }

  lemma StateStaysBounded(cfg: Config, y: System, e: Event)
    requires Bounded(y) && !e.Deliver? && !e.Gossip?
    ensures Bounded(Step(cfg, y, e).(running := []))
    ensures Step(cfg, y, e).cals == y.cals && Step(cfg, y, e).state.latestCalTxInt == y.state.latestCalTxInt
  {
    if (e.QueueFails? || e.Publish? || e.Conclude?) && e.g < |y.running| {
      GoroutineStaysBounded(cfg, y, e);
    }
  }

  lemma GoroutineStaysBounded(cfg: Config, y: System, e: Event)
    requires Bounded(y) && (e.QueueFails? || e.Publish? || e.Conclude?) && e.g < |y.running|
    ensures Bounded(Step(cfg, y, e).(running := []))
    ensures Step(cfg, y, e).cals == y.cals && Step(cfg, y, e).state.latestCalTxInt == y.state.latestCalTxInt
  {
    assert BoundedRange(y.running[e.g], y);
  }

  /** Where a goroutine of the next state comes from. */
  lemma RunningBefore(cfg: Config, y: System, e: Event, a: Anchoring)
    requires !e.Deliver? && !e.Gossip? && a in Step(cfg, y, e).running
    ensures (exists b :: b in y.running && b.range == a.range)
         || (e.CommitBlock? && StartsAnchoring(cfg, y) && a == StartedBy(y))
  {
    if a in y.running {
    } else if e.Publish? {
      assert y.running[e.g] in y.running;
    }
  }

  /** Bounds, over every run and every interleaving. */
  lemma {:induction false} RunKeepsBounds(cfg: Config, y: System, events: seq<Event>)
    requires Bounded(y)
    ensures Bounded(Run(cfg, y, events))
    decreases |events|
  {
    if events != [] {
      RunKeepsBounds(cfg, y, events[..|events| - 1]);
      StepKeepsBounds(cfg, Run(cfg, y, events[..|events| - 1]), events[|events| - 1]);
    }
  }

  /** Every range that is accepted for anchoring ends with a CAL. */
  lemma AcceptedRangeHasCal(y: System, a: Anchoring)
    requires Bounded(y) && a in y.running && a.range.first < a.range.last
    ensures a.range.last in y.cals
  {
    assert BoundedRange(a, y);
  }

  lemma {:induction false} RunConcat(cfg: Config, y: System, a: seq<Event>, b: seq<Event>)
    ensures Run(cfg, y, a + b) == Run(cfg, Run(cfg, y, a), b)
    decreases |b|
  {
    if b == [] {
      assert a + b == a;
    } else {
      assert (a + b)[..|a + b| - 1] == a + b[..|b| - 1];
      RunConcat(cfg, y, a, b[..|b| - 1]);
    }
  }

  // ---------- the recorded root ----------

  /** The root that goroutines wait for, and those about to be recorded, come from BTC-As. */
  predicate RootsAreDelivered(y: System) {
    && (y.state.latestBtcAggRoot == [] || y.state.latestBtcAggRoot in y.delivered)
    && forall w :: w in y.watched ==> w.aggRoot in y.delivered
  }

  lemma StepKeepsRootsDelivered(cfg: Config, y: System, e: Event)
    requires RootsAreDelivered(y)
    ensures RootsAreDelivered(Step(cfg, y, e)) && y.delivered <= Step(cfg, y, e).delivered
  {
    if e.Record? && e.k < |y.watched| {
      assert y.watched[e.k] in y.watched;
    }
  }

  /** Over every run, what RecordAnchor records is the root of a delivered BTC-A, so a goroutine
      that finds its root has been answered. */
  lemma {:induction false} RecordedWasDelivered(cfg: Config, y: System, events: seq<Event>, g: nat)
    requires RootsAreDelivered(y)
    ensures var y' := Run(cfg, y, events);
            && RootsAreDelivered(y')
            && (g < |y'.running| && cfg.rootOf(y'.running[g].range) != []
                && y'.state.latestBtcAggRoot == cfg.rootOf(y'.running[g].range) ==>
                  cfg.rootOf(y'.running[g].range) in y'.delivered)
    decreases |events|
  {
    if events != [] {
      var before := events[..|events| - 1];
      RecordedWasDelivered(cfg, y, before, g);
      StepKeepsRootsDelivered(cfg, Run(cfg, y, before), events[|events| - 1]);
    }
  }

  // ---------- answered anchorings ----------

  /** What the last event of the run that records a BTC-A records. */
  function LastRecord(cfg: Config, y: System, events: seq<Event>): Option<Anchored>
    decreases |events|
  {
    if events == [] then None
    else
      var n := |events| - 1;
      var before := Run(cfg, y, events[..n]);
      if events[n].Record? && events[n].k < |before.watched| then Some(before.watched[events[n].k])
      else LastRecord(cfg, y, events[..n])
  }

  lemma RecordSets(cfg: Config, y: System, e: Event)
    ensures var y' := Step(cfg, y, e).state;
            if e.Record? && e.k < |y.watched| then
              y'.latestBtcAggRoot == y.watched[e.k].aggRoot && y'.latestBtcTx == y.watched[e.k].btcTxID
            else y'.latestBtcAggRoot == y.state.latestBtcAggRoot && y'.latestBtcTx == y.state.latestBtcTx
  {
  }

  /** Over every run, the state holds the root and the Bitcoin transaction that were recorded last. */
  lemma {:induction false} LastRecordIsHeld(cfg: Config, y: System, events: seq<Event>)
    ensures var y', last := Run(cfg, y, events).state, LastRecord(cfg, y, events);
            if last.Some? then y'.latestBtcAggRoot == last.value.aggRoot && y'.latestBtcTx == last.value.btcTxID
            else y'.latestBtcAggRoot == y.state.latestBtcAggRoot && y'.latestBtcTx == y.state.latestBtcTx
    decreases |events|
  {
    if events != [] {
      var n := |events| - 1;
      LastRecordIsHeld(cfg, y, events[..n]);
      RecordSets(cfg, Run(cfg, y, events[..n]), events[n]);
    }
  }

  /** The goroutine goes on as if nothing had happened. */
  predicate LeavesEpochAlone(y: System, y': System) {
    && y'.state.beginCalTxInt == y.state.beginCalTxInt && y'.state.endCalTxInt == y.state.endCalTxInt
    && y'.state.latestBtcaHeight == y.state.latestBtcaHeight && y'.timedOut == y.timedOut
  }

  predicate ResetsTo(y': System, first: int) {
    y'.state.beginCalTxInt == first && y'.state.latestBtcaHeight == -1
  }

  /** Over every run in which something was recorded, a waiting anchoring that concludes leaves the
      epoch alone if the last record was its own root and its message is queued. Otherwise it resets
      the anchoring, and it has timed out if and only if the last record was another root. */
  lemma ConcludesByLastRecord(cfg: Config, y: System, events: seq<Event>, g: nat, queued: bool)
    requires LastRecord(cfg, y, events).Some?
    requires g < |Run(cfg, y, events).running| && Run(cfg, y, events).running[g].waiting
    ensures var at, y' := Run(cfg, y, events), Step(cfg, Run(cfg, y, events), Conclude(g, queued));
            var range := at.running[g].range;
            var answered := LastRecord(cfg, y, events).value.aggRoot == cfg.rootOf(range);
            && y'.running == Without(at.running, g)
            && (answered && queued ==> LeavesEpochAlone(at, y'))
            && (!(answered && queued) ==> ResetsTo(y', range.first))
            && y'.timedOut == (at.timedOut || !answered)
  {
    LastRecordIsHeld(cfg, y, events);
  }

  /** No event of the run records another root than this one. */
  predicate RecordsOnly(cfg: Config, y: System, events: seq<Event>, root: Bytes)
    decreases |events|
  {
    events != [] ==>
      var n := |events| - 1;
      var before := Run(cfg, y, events[..n]);
      && RecordsOnly(cfg, y, events[..n], root)
      && (events[n].Record? && events[n].k < |before.watched| ==> before.watched[events[n].k].aggRoot == root)
  }

  lemma {:induction false} RootStaysRecorded(cfg: Config, y: System, events: seq<Event>, root: Bytes)
    requires y.state.latestBtcAggRoot == root && RecordsOnly(cfg, y, events, root)
    ensures Run(cfg, y, events).state.latestBtcAggRoot == root
    decreases |events|
  {
    if events != [] {
      var n := |events| - 1;
      RootStaysRecorded(cfg, y, events[..n], root);
      RecordSets(cfg, Run(cfg, y, events[..n]), events[n]);
    }
  }

  /** So an anchoring that is answered is not reset: once the BTC-A with its root is recorded, it
      concludes without a reset and without a timeout, after any events that record no other root. */
  lemma AnsweredIsNotReset(cfg: Config, y: System, k: nat, events: seq<Event>, g: nat)
    requires k < |y.watched| && RecordsOnly(cfg, Step(cfg, y, Record(k)), events, y.watched[k].aggRoot)
    requires var at := Run(cfg, Step(cfg, y, Record(k)), events);
             g < |at.running| && at.running[g].waiting && cfg.rootOf(at.running[g].range) == y.watched[k].aggRoot
    ensures var at := Run(cfg, Step(cfg, y, Record(k)), events);
            LeavesEpochAlone(at, Step(cfg, at, Conclude(g, true)))
  {
    RecordSets(cfg, y, Record(k));
    RootStaysRecorded(cfg, Step(cfg, y, Record(k)), events, y.watched[k].aggRoot);
  }

  // ---------- when anchorings start ----------

  function Commits(events: seq<Event>): nat {
    if events == [] then 0
    else Commits(events[..|events| - 1]) + if events[|events| - 1].CommitBlock? then 1 else 0
  }

  /** No goroutine of the run resets the anchoring. */
  predicate NoReset(cfg: Config, y: System, e: Event) {
    && (e.QueueFails? ==> !CanPublish(cfg, y, e.g))
    && (e.Conclude? && e.g < |y.running| && y.running[e.g].waiting ==>
          e.queued && y.state.latestBtcAggRoot == cfg.rootOf(y.running[e.g].range))
  }

  predicate NoResetRun(cfg: Config, y: System, events: seq<Event>)
    decreases |events|
  {
    events != [] ==>
      var before := events[..|events| - 1];
      NoResetRun(cfg, y, before) && NoReset(cfg, Run(cfg, y, before), events[|events| - 1])
  }

  /** After a publication nobody anchors again while it is processed: without a reset, and
      whatever else happens, no commit starts an anchoring before the interval has passed. */
  lemma {:induction false} PublicationHoldsOff(cfg: Config, y: System, endTxRange: int, events: seq<Event>)
    requires NoResetRun(cfg, y.(state := Published(y.state, endTxRange)), events) && Commits(events) <= cfg.interval
    ensures !StartsAnchoring(cfg, Run(cfg, y.(state := Published(y.state, endTxRange)), events))
  {
    SinceAfterRun(cfg, y.(state := Published(y.state, endTxRange)), events);
  }

  /** How many blocks the chain has grown since the last BTC-A or publication. */
  function Since(s: AnchorState): int {
    s.height - s.latestBtcaHeight
  }

  lemma SinceAfterTx(s: AnchorState, tx: Tx)
    ensures Since(Delivered(s, tx)) == if IsBtcA(tx) then -1 else Since(s)
  {
  }

  lemma SinceAfterStep(cfg: Config, y: System, e: Event, n: nat)
    requires NoReset(cfg, y, e) && Since(y.state) <= n
    ensures Since(Step(cfg, y, e).state) <= n + if e.CommitBlock? then 1 else 0
  {
    if e.Deliver? {
      SinceAfterTx(y.state, Effective(e.tx, e.verifies, y.state.chainSynced));
    } else if e.Gossip? {
      SinceAfterTx(y.state, Effective(e.tx, e.verifies, true));
    }
  }

  lemma {:induction false} SinceAfterRun(cfg: Config, y: System, events: seq<Event>)
    requires NoResetRun(cfg, y, events) && Since(y.state) <= 0
    ensures Since(Run(cfg, y, events).state) <= Commits(events)
    decreases |events|
  {
    if events != [] {
      var before := events[..|events| - 1];
      SinceAfterRun(cfg, y, before);
      SinceAfterStep(cfg, Run(cfg, y, before), events[|events| - 1], Commits(before));
    }
  }

  // ---------- after a reset ----------

  /** The root of the BTC-A, as the node reads it, when the event is the arrival of one. */
  function BtcARoot(y: System, e: Event): Option<Bytes> {
    var tx := match e
      case Deliver(tx, verifies) => Effective(tx, verifies, y.state.chainSynced)
      case Gossip(tx, verifies) => if y.state.chainSynced then Effective(tx, verifies, true) else OtherTx
      case _ => OtherTx;
    if IsBtcA(tx) then Some(tx.anchored.value.aggRoot) else None
  }

  /** Anchorings run only once the chain is higher than the interval, and it never shrinks; those
      that wait have a proper range. */
  predicate Paced(cfg: Config, y: System) {
    && y.state.latestBtcaHeight >= -1 && y.state.height >= 0
    && (y.running != [] ==> cfg.doAnchor && y.state.height + 1 > cfg.interval)
    && (forall a :: a in y.running && a.waiting ==> a.range.first < a.range.last)
  }

  lemma ReceivedStaysPaced(cfg: Config, y: System, tx: Tx)
    requires Paced(cfg, y)
    ensures Paced(cfg, Received(y, tx))
  {
  }

  lemma StepStaysPaced(cfg: Config, y: System, e: Event)
    requires Paced(cfg, y)
    ensures Paced(cfg, Step(cfg, y, e))
  {
    if e.Deliver? {
      ReceivedStaysPaced(cfg, y, Effective(e.tx, e.verifies, y.state.chainSynced));
    } else if e.Gossip? {
      ReceivedStaysPaced(cfg, y, Effective(e.tx, e.verifies, true));
    }
  }

  lemma {:induction false} RunStaysPaced(cfg: Config, y: System, events: seq<Event>)
    requires Paced(cfg, y)
    ensures Paced(cfg, Run(cfg, y, events))
    decreases |events|
  {
    if events != [] {
      RunStaysPaced(cfg, y, events[..|events| - 1]);
      StepStaysPaced(cfg, Run(cfg, y, events[..|events| - 1]), events[|events| - 1]);
    }
  }

  /** A step by which a goroutine resets the anchoring. */
  predicate Resets(cfg: Config, y: System, e: Event) {
    (e.QueueFails? || e.Conclude?) && e.g < |y.running| && !NoReset(cfg, y, e)
  }

  /** Neither a commit nor a BTC-A nor a publication nor a reset. */
  predicate Quiet(cfg: Config, y: System, e: Event) {
    !e.CommitBlock? && BtcARoot(y, e) == None && (e.Publish? ==> !CanPublish(cfg, y, e.g)) && NoReset(cfg, y, e)
  }

  predicate QuietRun(cfg: Config, y: System, events: seq<Event>)
    decreases |events|
  {
    events != [] ==>
      var before := events[..|events| - 1];
      QuietRun(cfg, y, before) && Quiet(cfg, Run(cfg, y, before), events[|events| - 1])
  }

  /** The anchoring from this CAL on is to be done again. */
  predicate IsReset(cfg: Config, y: System, first: int) {
    y.state.beginCalTxInt == first && y.state.latestBtcaHeight == -1 && cfg.doAnchor && y.state.height + 1 > cfg.interval
  }

  lemma QuietStepStaysReset(cfg: Config, y: System, e: Event, first: int)
    requires Bounded(y) && IsReset(cfg, y, first) && Quiet(cfg, y, e)
    ensures IsReset(cfg, Step(cfg, y, e), first) && y.state.latestCalTxInt <= Step(cfg, y, e).state.latestCalTxInt
  {
  }

  lemma {:induction false} QuietRunStaysReset(cfg: Config, y: System, events: seq<Event>, first: int)
    requires Bounded(y) && IsReset(cfg, y, first) && QuietRun(cfg, y, events)
    ensures IsReset(cfg, Run(cfg, y, events), first) && y.state.latestCalTxInt <= Run(cfg, y, events).state.latestCalTxInt
    decreases |events|
  {
    if events != [] {
      var before := events[..|events| - 1];
      QuietRunStaysReset(cfg, y, before, first);
      RunKeepsBounds(cfg, y, before);
      QuietStepStaysReset(cfg, Run(cfg, y, before), events[|events| - 1], first);
    }
  }

  /** Whatever happened before, a reset leads to a new anchoring in the next block: the next commit
      starts one if and only if the node is synced then, and it anchors a proper range, from the
      start of the one that failed to the latest CAL. */
  lemma ResetAnchorsAgain(cfg: Config, y: System, events: seq<Event>, e: Event, between: seq<Event>)
    requires Bounded(y) && Paced(cfg, y) && Resets(cfg, Run(cfg, y, events), e)
    requires QuietRun(cfg, Step(cfg, Run(cfg, y, events), e), between)
    ensures var failed := Run(cfg, y, events).running[e.g].range;
            var y' := Run(cfg, Step(cfg, Run(cfg, y, events), e), between);
            && (StartsAnchoring(cfg, y') <==> y'.state.chainSynced)
            && StartedBy(y') == Anchoring(Range(failed.first, y'.state.latestCalTxInt), false)
            && failed.first < failed.last <= y'.state.latestCalTxInt
            && (y'.state.chainSynced ==> Step(cfg, y', CommitBlock).running == y'.running + [StartedBy(y')])
  {
    var at := Run(cfg, y, events);
    var failed := at.running[e.g];
    RunKeepsBounds(cfg, y, events);
    RunStaysPaced(cfg, y, events);
    assert failed in at.running && BoundedRange(failed, at);
    StepKeepsBounds(cfg, at, e);
    assert IsReset(cfg, Step(cfg, at, e), failed.range.first);
    QuietRunStaysReset(cfg, Step(cfg, at, e), between, failed.range.first);
  }
}
