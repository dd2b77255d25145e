/**
  What the state and the tags say about the past: each is the last, or the last but one, of what the
  transactions brought, and a number counts the transactions before it.
 */
module AnchorHistory {
  import opened ByteStrings
  import opened Ordering
  import opened AnchorApp
  import opened AnchorReplicas

  // ---------- the history of a replay ----------

  /** CALs, BTC-As that can be parsed, BTC-Cs and NODE-RCs are numbered, and nothing else is. */
  predicate GetsNumber(tx: Tx) {
    match tx
    case CalTx(_) => true
    case BtcATx(anchored, _) => anchored.Some?
    case BtcCTx(_, _) => true
    case NodeRcTx => true
    case _ => false
  }

  /** How many of these transactions got a number. */
  function Count(txs: seq<Tx>): nat {
    if txs == [] then 0 else Count(txs[..|txs| - 1]) + if GetsNumber(txs[|txs| - 1]) then 1 else 0
  }

  /** What the last of them that brought something brought. */
  function Last<T>(txs: seq<Tx>, pick: Tx -> Option<T>): Option<T> {
    if txs == [] then None
    else if pick(txs[|txs| - 1]).Some? then pick(txs[|txs| - 1])
    else Last(txs[..|txs| - 1], pick)
  }

  /** Those before the last one that brought something. */
  function BeforeLast<T>(txs: seq<Tx>, pick: Tx -> Option<T>): seq<Tx> {
    if txs == [] then []
    else if pick(txs[|txs| - 1]).Some? then txs[..|txs| - 1]
    else BeforeLast(txs[..|txs| - 1], pick)
  }

  /** The number of the last of them that brought something, when `first` is the number before them. */
  function LastNumber<T>(first: int, txs: seq<Tx>, pick: Tx -> Option<T>): Option<int> {
    if txs == [] then None
    else if pick(txs[|txs| - 1]).Some? then Some(first + Count(txs))
    else LastNumber(first, txs[..|txs| - 1], pick)
  }

  function Or<T>(value: Option<T>, otherwise: T): T {
    if value.Some? then value.value else otherwise
  }

  function CalOf(tx: Tx): Option<Bytes> {
    if tx.CalTx? then Some(tx.data) else None
  }

  function BtcaOf(tx: Tx): Option<Bytes> {
    if tx.BtcATx? && tx.anchored.Some? then Some(tx.raw) else None
  }

  function BtccOf(tx: Tx): Option<Bytes> {
    if tx.BtcCTx? then Some(tx.data) else None
  }

  function ConfirmerOf(tx: Tx): Option<Bytes> {
    if tx.BtcCTx? then Some(tx.coreID) else None
  }

  function NistOf(tx: Tx): Option<Bytes> {
    if tx.NistTx? then Some(tx.record) else None
  }

  function NodeMintOf(tx: Tx): Option<int> {
    if tx.NodeMintTx? then tx.block else None
  }

  function CoreMintOf(tx: Tx): Option<int> {
    if tx.CoreMintTx? then tx.block else None
  }

  /** Which numbers the state holds. */
  lemma {:induction false} NumbersGrow(s: AnchorState, txs: seq<Tx>)
    ensures Replayed(s, txs).txInt == s.txInt + Count(txs)
  {
    if txs != [] {
      NumbersGrow(s, txs[..|txs| - 1]);
    }
  }

  lemma {:induction false} CalNumberHeld(s: AnchorState, txs: seq<Tx>)
    ensures Replayed(s, txs).latestCalTxInt == Or(LastNumber(s.txInt, txs, CalOf), s.latestCalTxInt)
  {
    NumbersGrow(s, txs);
    if txs != [] {
      CalNumberHeld(s, txs[..|txs| - 1]);
    }
  }

  lemma {:induction false} BtcaNumberHeld(s: AnchorState, txs: seq<Tx>)
    ensures Replayed(s, txs).latestBtcaTxInt == Or(LastNumber(s.txInt, txs, BtcaOf), s.latestBtcaTxInt)
  {
    NumbersGrow(s, txs);
    if txs != [] {
      BtcaNumberHeld(s, txs[..|txs| - 1]);
    }
  }

  lemma {:induction false} BtccNumberHeld(s: AnchorState, txs: seq<Tx>)
    ensures Replayed(s, txs).latestBtccTxInt == Or(LastNumber(s.txInt, txs, BtccOf), s.latestBtccTxInt)
  {
    NumbersGrow(s, txs);
    if txs != [] {
      BtccNumberHeld(s, txs[..|txs| - 1]);
    }
  }

  /** Which records it holds. */
  lemma {:induction false} BtcaHeld(s: AnchorState, txs: seq<Tx>)
    ensures Replayed(s, txs).latestBtcaTx == Or(Last(txs, BtcaOf), s.latestBtcaTx)
  {
    if txs != [] {
      BtcaHeld(s, txs[..|txs| - 1]);
    }
  }

  lemma {:induction false} BtccHeld(s: AnchorState, txs: seq<Tx>)
    ensures Replayed(s, txs).latestBtccTx == Or(Last(txs, BtccOf), s.latestBtccTx)
  {
    if txs != [] {
      BtccHeld(s, txs[..|txs| - 1]);
    }
  }

  lemma {:induction false} NistHeld(s: AnchorState, txs: seq<Tx>)
    ensures Replayed(s, txs).latestNistRecord == Or(Last(txs, NistOf), s.latestNistRecord)
  {
    if txs != [] {
      NistHeld(s, txs[..|txs| - 1]);
    }
  }

  /** Which core it holds as the one that anchored last. */
  lemma {:induction false} ConfirmerHeld(s: AnchorState, txs: seq<Tx>)
    ensures Replayed(s, txs).lastAnchorCoreID == Or(Last(txs, ConfirmerOf), s.lastAnchorCoreID)
  {
    if txs != [] {
      ConfirmerHeld(s, txs[..|txs| - 1]);
    }
  }

  /** Which mints it holds: the last one and the one before it. */
  lemma {:induction false} NodeMintHeld(s: AnchorState, txs: seq<Tx>)
    ensures Replayed(s, txs).lastNodeMint == Or(Last(txs, NodeMintOf), s.lastNodeMint)
  {
    if txs != [] {
      NodeMintHeld(s, txs[..|txs| - 1]);
    }
  }

  lemma {:induction false} NodeMintBeforeHeld(s: AnchorState, txs: seq<Tx>)
    ensures Replayed(s, txs).prevNodeMint
         == if Last(txs, NodeMintOf).None? then s.prevNodeMint
            else Or(Last(BeforeLast(txs, NodeMintOf), NodeMintOf), s.lastNodeMint)
  {
    if txs != [] {
      NodeMintBeforeHeld(s, txs[..|txs| - 1]);
      NodeMintHeld(s, txs[..|txs| - 1]);
    }
  }

  lemma {:induction false} CoreMintHeld(s: AnchorState, txs: seq<Tx>)
    ensures Replayed(s, txs).lastCoreMint == Or(Last(txs, CoreMintOf), s.lastCoreMint)
  {
    if txs != [] {
      CoreMintHeld(s, txs[..|txs| - 1]);
    }
  }

  lemma {:induction false} CoreMintBeforeHeld(s: AnchorState, txs: seq<Tx>)
    ensures Replayed(s, txs).prevCoreMint
         == if Last(txs, CoreMintOf).None? then s.prevCoreMint
            else Or(Last(BeforeLast(txs, CoreMintOf), CoreMintOf), s.lastCoreMint)
  {
    if txs != [] {
      CoreMintBeforeHeld(s, txs[..|txs| - 1]);
      CoreMintHeld(s, txs[..|txs| - 1]);
    }
  }

  /** Which signatures it holds: those it had and those that came, each once. */
  lemma {:induction false} CoreSignaturesHeld(s: AnchorState, txs: seq<Tx>, signature: Bytes)
    requires NoRepeats(s.coreSignatures)
    ensures var signatures := Replayed(s, txs).coreSignatures;
            && NoRepeats(signatures)
            && (signature in signatures <==> signature in s.coreSignatures || CoreSignTx(signature) in txs)
  {
    if txs != [] {
      var n := |txs| - 1;
      CoreSignaturesHeld(s, txs[..n], signature);
      assert txs == txs[..n] + [txs[n]];
      if txs[n].CoreSignTx? {
        FirstOccurrencesElements(Replayed(s, txs[..n]).coreSignatures + [txs[n].signature]);
      }
    }
  }

  lemma {:induction false} NodeSignaturesHeld(s: AnchorState, txs: seq<Tx>, signature: Bytes)
    requires NoRepeats(s.nodeSignatures)
    ensures var signatures := Replayed(s, txs).nodeSignatures;
            && NoRepeats(signatures)
            && (signature in signatures <==> signature in s.nodeSignatures || NodeSignTx(signature) in txs)
  {
    if txs != [] {
      var n := |txs| - 1;
      NodeSignaturesHeld(s, txs[..n], signature);
      assert txs == txs[..n] + [txs[n]];
      if txs[n].NodeSignTx? {
        FirstOccurrencesElements(Replayed(s, txs[..n]).nodeSignatures + [txs[n].signature]);
      }
    }
  }

  // ---------- the tags ----------

  lemma {:induction false} TaggedSize(s: AnchorState, txs: seq<Tx>)
    ensures |Tagged(s, txs)| == |txs|
  {
    if txs != [] {
      TaggedSize(s, txs[..|txs| - 1]);
    }
  }

  lemma {:induction false} TaggedAt(s: AnchorState, txs: seq<Tx>, k: nat)
    requires k < |txs|
    ensures |Tagged(s, txs)| == |txs| && Tagged(s, txs)[k] == Answer(Replayed(s, txs[..k]), txs[k]).tags
  {
    var n := |txs| - 1;
    var before := Tagged(s, txs[..n]);
    TaggedSize(s, txs);
    TaggedSize(s, txs[..n]);
    if k < n {
      TaggedAt(s, txs[..n], k);
      assert Tagged(s, txs)[k] == before[k];
      assert txs[..n][..k] == txs[..k] && txs[..n][k] == txs[k];
    }
  }

  lemma TagsOfAnswer(s: AnchorState, tx: Tx)
    ensures var tags := Answer(s, tx).tags;
            && (forall n :: TxIntTag(n) in tags <==> GetsNumber(tx) && n == s.txInt + 1)
            && (forall id :: BtcTxTag(id) in tags <==> tx.BtcATx? && tx.anchored.Some? && tx.anchored.value.btcTxID == id)
            && (forall b :: CoreRcTag(b) in tags <==> tx.BtcCTx? && b == s.lastCoreMint)
            && (forall b :: NodeRcTag(b) in tags <==> tx.NodeRcTx? && b == s.lastNodeMint)
  {
  }

  /** What each transaction of a replay is tagged with, and so found by: its number, its Bitcoin
      transaction if it is a BTC-A, and the block of the last mint before it if it earns a reward. */
  lemma TagsSay(s: AnchorState, txs: seq<Tx>, k: nat)
    requires k < |txs|
    ensures |Tagged(s, txs)| == |txs|
    ensures var tags, tx := Tagged(s, txs)[k], txs[k];
            && (forall n :: TxIntTag(n) in tags <==> GetsNumber(tx) && n == s.txInt + Count(txs[..k]) + 1)
            && (forall id :: BtcTxTag(id) in tags <==> tx.BtcATx? && tx.anchored.Some? && tx.anchored.value.btcTxID == id)
            && (forall b :: CoreRcTag(b) in tags <==> tx.BtcCTx? && b == Or(Last(txs[..k], CoreMintOf), s.lastCoreMint))
            && (forall b :: NodeRcTag(b) in tags <==> tx.NodeRcTx? && b == Or(Last(txs[..k], NodeMintOf), s.lastNodeMint))
  {
    TaggedAt(s, txs, k);
    NumbersGrow(s, txs[..k]);
    NodeMintHeld(s, txs[..k]);
    CoreMintHeld(s, txs[..k]);
    TagsOfAnswer(Replayed(s, txs[..k]), txs[k]);
  }

  /** What is answered: only a transaction without a known type is refused. */
  lemma RefusedIfUnknown(s: AnchorState, tx: Tx)
    ensures Answer(s, tx).code == if tx == OtherTx then Unauthorized else Okay
  {
  }

  // ---------- what is kept beside the state ----------

  function AsideReplayed(a: Aside, txs: seq<Tx>, ownKid: Bytes, doCal: bool): Aside {
    if txs == [] then a else AsideAfter(AsideReplayed(a, txs[..|txs| - 1], ownKid, doCal), txs[|txs| - 1], ownKid, doCal)
  }

  function KeyOf(tx: Tx, coreID: Bytes): Option<Bytes> {
    if tx.JwkTx? && tx.jwk.coreID == coreID then tx.jwk.pubKey else None
  }

  /** A node has seen its own key once a transaction with that key's ID came. */
  lemma {:induction false} OwnKeySeen(a: Aside, txs: seq<Tx>, ownKid: Bytes, doCal: bool)
    ensures AsideReplayed(a, txs, ownKid, doCal).jwkSent <==>
              a.jwkSent || exists tx :: tx in txs && tx.JwkTx? && tx.jwk.kid == ownKid
  {
    if txs != [] {
      var n := |txs| - 1;
      OwnKeySeen(a, txs[..n], ownKid, doCal);
      assert txs == txs[..n] + [txs[n]];
    }
  }

  function Key(a: Aside, coreID: Bytes): Option<Bytes> {
    if coreID in a.coreKeys then Some(a.coreKeys[coreID]) else None
  }

  /** The key of a core is the last one of it that can be decoded. */
  lemma {:induction false} KeysHeld(a: Aside, txs: seq<Tx>, ownKid: Bytes, doCal: bool, coreID: Bytes)
    ensures var sent := Last(txs, (tx: Tx) => KeyOf(tx, coreID));
            Key(AsideReplayed(a, txs, ownKid, doCal), coreID) == if sent.Some? then sent else Key(a, coreID)
  {
    if txs != [] {
      KeysHeld(a, txs[..|txs| - 1], ownKid, doCal, coreID);
    }
  }

  /** The aggregator of a core that aggregates uses the last NIST record that was delivered since the node
      was started, like the state; only before the first one it lacks what the state was saved with. */
  lemma {:induction false} NistIsCopied(s: AnchorState, a: Aside, txs: seq<Tx>, ownKid: Bytes, doCal: bool)
    ensures AsideReplayed(a, txs, ownKid, doCal).latestNist == if doCal then Or(Last(txs, NistOf), a.latestNist) else a.latestNist
    ensures doCal && Last(txs, NistOf).Some? ==>
              AsideReplayed(a, txs, ownKid, doCal).latestNist == Replayed(s, txs).latestNistRecord
  {
    NistHeld(s, txs);
    if txs != [] {
      NistIsCopied(s, a, txs[..|txs| - 1], ownKid, doCal);
    }
  }

  /** Every node upserts a token that it receives, and nothing else. */
  lemma TokensAreUpserted(tx: Tx, verifies: bool, synced: bool, data: Bytes)
    ensures TokenHashUpsert(data) in StartedByTx(Effective(tx, verifies, synced), synced) <==> tx == TokenTx(data)
  {
  }

  // ---------- what is not verified ----------

  /** A synced node reads an unverified transaction as it is if and only if it is a token or a key. */
  lemma ReadUnverified(tx: Tx)
    requires tx != OtherTx
    ensures Effective(tx, false, true) == tx <==> tx.TokenTx? || tx.JwkTx?
    ensures Effective(tx, true, true) == Effective(tx, false, false) == tx
  {
  }

  /** So every node learns every key that can be decoded, even one by which it cannot verify yet; and
      whatever else a synced node cannot verify is refused and changes nothing. */
  lemma KeysReachEveryNode(s: AnchorState, a: Aside, tx: Tx, verifies: bool, ownKid: Bytes, doCal: bool)
    ensures var read := Effective(tx, verifies, s.chainSynced);
            && (tx.JwkTx? && tx.jwk.pubKey.Some? ==>
                  var keys := AsideAfter(a, read, ownKid, doCal).coreKeys;
                  tx.jwk.coreID in keys && keys[tx.jwk.coreID] == tx.jwk.pubKey.value)
            && (s.chainSynced && !verifies && !tx.JwkTx? && !tx.TokenTx? ==>
                  && Delivered(s, read) == s && AsideAfter(a, read, ownKid, doCal) == a
                  && Answer(s, read) == Response(Unauthorized, []))
  {
  }
}
