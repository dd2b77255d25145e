/**
  Cores agree: what the chain's search tags are computed from depends on the delivered
  transactions only, not on gossip, sync changes, commits or anchoring goroutines.
 */
module AnchorReplicas {
  import opened ByteStrings
  import opened AnchorApp
  import opened AnchorRuns

  /** The part of the state on which cores agree. */
  datatype Consensus = Consensus(
    txInt: int, latestCalTxInt: int, latestBtcaTxInt: int, latestBtccTxInt: int,
    lastNodeMint: int, prevNodeMint: int, lastCoreMint: int, prevCoreMint: int, lastAnchorCoreID: Bytes)

  function Agreed(s: AnchorState): Consensus {
    Consensus(s.txInt, s.latestCalTxInt, s.latestBtcaTxInt, s.latestBtccTxInt,
              s.lastNodeMint, s.prevNodeMint, s.lastCoreMint, s.prevCoreMint, s.lastAnchorCoreID)
  }

  /** The transactions delivered in a run, in order. */
  function Deliveries(events: seq<Event>): seq<Tx> {
    if events == [] then []
    else
      var n := |events| - 1;
      Deliveries(events[..n]) + if events[n].Deliver? then [events[n].tx] else []
  }

  /** The tags emitted in a run, one list for each delivered transaction. */
  function Emitted(cfg: Config, y: System, events: seq<Event>): seq<seq<Tag>> {
    if events == [] then []
    else
      var n := |events| - 1;
      var before := Run(cfg, y, events[..n]);
      Emitted(cfg, y, events[..n]) +
      match events[n]
      case Deliver(tx, verifies) => [Answer(before.state, Effective(tx, verifies, before.state.chainSynced)).tags]
      case _ => []
  }

  /** Nothing but the deliveries: the reference every core is compared with. */
  function Replayed(s: AnchorState, txs: seq<Tx>): AnchorState {
    if txs == [] then s else Delivered(Replayed(s, txs[..|txs| - 1]), txs[|txs| - 1])
  }

  function Tagged(s: AnchorState, txs: seq<Tx>): seq<seq<Tag>> {
    if txs == [] then []
    else Tagged(s, txs[..|txs| - 1]) + [Answer(Replayed(s, txs[..|txs| - 1]), txs[|txs| - 1]).tags]
  }

  /** Delivered transactions verify, and gossip brings what validateGossip passes on. */
  predicate Proper(e: Event) {
    && (e.Deliver? ==> e.verifies)
    && (e.Gossip? ==> e.tx.TokenTx? || e.tx.NistTx?)
  }

  lemma SameAgreedSameStep(s: AnchorState, t: AnchorState, tx: Tx)
    requires Agreed(s) == Agreed(t)
    ensures Agreed(Delivered(s, tx)) == Agreed(Delivered(t, tx)) && Answer(s, tx) == Answer(t, tx)
  {
  }

  lemma OnlyDeliveriesCount(cfg: Config, y: System, e: Event)
    requires Proper(e) && !e.Deliver?
    ensures Agreed(Step(cfg, y, e).state) == Agreed(y.state)
  {
  }

  /** A run agrees with the mere sequence of its deliveries, in state and in tags. */
  lemma {:induction false} RunAgreesWithReplay(cfg: Config, y: System, events: seq<Event>)
    requires forall k :: 0 <= k < |events| ==> Proper(events[k])
    ensures Agreed(Run(cfg, y, events).state) == Agreed(Replayed(y.state, Deliveries(events)))
    ensures Emitted(cfg, y, events) == Tagged(y.state, Deliveries(events))
    decreases |events|
  {
    if events != [] {
      var n := |events| - 1;
      var before, e := Run(cfg, y, events[..n]), events[n];
      RunAgreesWithReplay(cfg, y, events[..n]);
      if e.Deliver? {
        var txs := Deliveries(events[..n]);
        assert Deliveries(events)[..|txs|] == txs;
        SameAgreedSameStep(before.state, Replayed(y.state, txs), e.tx);
      } else {
        OnlyDeliveriesCount(cfg, before, e);
        assert Deliveries(events) == Deliveries(events[..n]);
      }
    }
  }

  lemma {:induction false} SameAgreedSameReplay(s: AnchorState, t: AnchorState, txs: seq<Tx>)
    requires Agreed(s) == Agreed(t)
    ensures Agreed(Replayed(s, txs)) == Agreed(Replayed(t, txs)) && Tagged(s, txs) == Tagged(t, txs)
  {
    if txs != [] {
      var before := txs[..|txs| - 1];
      SameAgreedSameReplay(s, t, before);
      SameAgreedSameStep(Replayed(s, before), Replayed(t, before), txs[|txs| - 1]);
    }
  }

  /** Replica determinism: the same deliveries, whatever else happens on either core and however
      it is configured, end in the same agreed state and emit the same tags. */
  lemma ReplicasAgree(cfg: Config, y: System, events: seq<Event>, cfg': Config, y': System, events': seq<Event>)
    requires Agreed(y.state) == Agreed(y'.state) && Deliveries(events) == Deliveries(events')
    requires forall k :: 0 <= k < |events| ==> Proper(events[k])
    requires forall k :: 0 <= k < |events'| ==> Proper(events'[k])
    ensures Agreed(Run(cfg, y, events).state) == Agreed(Run(cfg', y', events').state)
    ensures Emitted(cfg, y, events) == Emitted(cfg', y', events')
  {
    RunAgreesWithReplay(cfg, y, events);
    RunAgreesWithReplay(cfg', y', events');
    SameAgreedSameReplay(y.state, y'.state, Deliveries(events));
  }

  /** The transactions that may be read or skipped without a difference. */
  predicate Harmless(c: Consensus, tx: Tx) {
    && !Numbered(tx)
    && (tx.NodeMintTx? && tx.block.Some? ==> tx.block.value == c.lastNodeMint == c.prevNodeMint)
    && (tx.CoreMintTx? && tx.block.Some? ==> tx.block.value == c.lastCoreMint == c.prevCoreMint)
  }

  /** Verification is needed for agreement: of an unverifiable transaction, a synced and a
      syncing core that agree make the same if and only if it is harmless. */
  lemma UnverifiedMustBeHarmless(s: AnchorState, t: AnchorState, tx: Tx)
    requires Agreed(s) == Agreed(t) && s.chainSynced && !t.chainSynced
    ensures Agreed(Delivered(s, Effective(tx, false, true))) == Agreed(Delivered(t, Effective(tx, false, false)))
       <==> tx.TokenTx? || tx.JwkTx? || Harmless(Agreed(s), tx)
  {
  }

  // ---------- each number tags one transaction ----------

  /** The transactions of a replay that carry a given number. */
  function CarriersOf(number: int, tagged: seq<seq<Tag>>): set<int> {
    set k | 0 <= k < |tagged| && TxIntTag(number) in tagged[k]
  }

  lemma AnswerNumber(s: AnchorState, tx: Tx, number: int)
    ensures TxIntTag(number) in Answer(s, tx).tags <==> Numbered(tx) && number == s.txInt + 1
    ensures Delivered(s, tx).txInt == s.txInt + if Numbered(tx) then 1 else 0
  {
  }

  lemma CarriersOneMore(number: int, tagged: seq<seq<Tag>>, tags: seq<Tag>)
    ensures |CarriersOf(number, tagged + [tags])| == |CarriersOf(number, tagged)| + if TxIntTag(number) in tags then 1 else 0
  {
    var more := if TxIntTag(number) in tags then {|tagged|} else {};
    assert CarriersOf(number, tagged + [tags]) == CarriersOf(number, tagged) + more;
    assert |tagged| !in CarriersOf(number, tagged);
  }

  /** Over any replay, exactly the numbers after the initial TxInt up to the final one are given
      out, and each of them to one transaction. */
  lemma {:induction false} EachNumberTagsOne(s: AnchorState, txs: seq<Tx>, number: int)
    ensures |Tagged(s, txs)| == |txs| && s.txInt <= Replayed(s, txs).txInt
    ensures |CarriersOf(number, Tagged(s, txs))| == if s.txInt < number <= Replayed(s, txs).txInt then 1 else 0
  {
    if txs == [] {
      assert CarriersOf(number, []) == {};
    } else {
      var n := |txs| - 1;
      var before, tags := Tagged(s, txs[..n]), Answer(Replayed(s, txs[..n]), txs[n]).tags;
      EachNumberTagsOne(s, txs[..n], number);
      AnswerNumber(Replayed(s, txs[..n]), txs[n], number);
      CarriersOneMore(number, before, tags);
    }
  }
}
