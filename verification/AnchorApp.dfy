/**
  The state of the ABCI application and what transactions, commits and the pieces of an
  anchoring goroutine do to it.
 */
module AnchorApp {
  import opened ByteStrings
  import opened Ordering

  /** What the data of a BTC-A transaction says. */
  datatype Anchored = Anchored(aggRoot: Bytes, btcTxID: Bytes)

  /** What a JWK transaction says: the key's ID, the core it is of, and the key if it can be decoded. */
  datatype Jwk = Jwk(kid: Bytes, coreID: Bytes, pubKey: Option<Bytes>)

  /** A decoded transaction. None stands for data that cannot be parsed. */
  datatype Tx =
    | CalTx(data: Bytes)
    | BtcATx(anchored: Option<Anchored>, raw: Bytes)
    | BtcCTx(data: Bytes, coreID: Bytes)
    | NistTx(record: Bytes)
    | NodeMintTx(block: Option<int>)
    | CoreMintTx(block: Option<int>)
    | JwkTx(jwk: Jwk)
    | CoreSignTx(signature: Bytes)
    | NodeSignTx(signature: Bytes)
    | NodeRcTx
    | TokenTx(data: Bytes)
    | OtherTx

  datatype AnchorState = AnchorState(
    txInt: int, height: int, chainSynced: bool,
    beginCalTxInt: int, endCalTxInt: int, latestCalTxInt: int,
    latestBtcaTx: Bytes, latestBtcaTxInt: int, latestBtcaHeight: int, latestBtcTx: Bytes, latestBtcAggRoot: Bytes,
    latestBtccTx: Bytes, latestBtccTxInt: int, latestBtccHeight: int, latestNistRecord: Bytes,
    lastNodeMint: int, prevNodeMint: int, lastCoreMint: int, prevCoreMint: int, lastAnchorCoreID: Bytes,
    coreSignatures: seq<Bytes>, nodeSignatures: seq<Bytes>)

  datatype Tag = TxIntTag(value: int) | BtcTxTag(btcTxID: Bytes) | CoreRcTag(block: int) | NodeRcTag(block: int)

  datatype Code = Okay | Unauthorized | EncodingError | UnknownError

  datatype Response = Response(code: Code, tags: seq<Tag>)

  /** What the node makes of a received transaction: while it is synced, one whose signature does
      not verify is read as a transaction without a type. */
  function Effective(tx: Tx, verifies: bool, synced: bool): Tx {
    if synced && !verifies && !tx.TokenTx? && !tx.JwkTx? then OtherTx else tx
  }

  /** The transactions that get a number of their own. */
  predicate Numbered(tx: Tx) {
    tx.CalTx? || (tx.BtcATx? && tx.anchored.Some?) || tx.BtcCTx? || tx.NodeRcTx?
  }

  /** The state after a transaction. */
  function Delivered(s: AnchorState, tx: Tx): AnchorState {
    var n := if Numbered(tx) then s.txInt + 1 else s.txInt;
    match tx
    case CalTx(_) => s.(txInt := n, latestCalTxInt := n)
    case BtcATx(None, _) => s
    case BtcATx(Some(_), raw) =>
      s.(txInt := n, latestBtcaTx := raw, latestBtcaTxInt := n, latestBtcaHeight := s.height + 1, beginCalTxInt := s.endCalTxInt)
    case BtcCTx(data, coreID) =>
      s.(txInt := n, latestBtccTxInt := n, latestBtccHeight := s.height + 1, latestBtccTx := data,
         lastAnchorCoreID := coreID)
    case NistTx(record) => s.(latestNistRecord := record)
    case NodeMintTx(None) => s
    case NodeMintTx(Some(block)) => s.(prevNodeMint := s.lastNodeMint, lastNodeMint := block)
    case CoreMintTx(None) => s
    case CoreMintTx(Some(block)) => s.(prevCoreMint := s.lastCoreMint, lastCoreMint := block)
    case CoreSignTx(signature) => s.(coreSignatures := FirstOccurrences(s.coreSignatures + [signature]))
    case NodeSignTx(signature) => s.(nodeSignatures := FirstOccurrences(s.nodeSignatures + [signature]))
    case NodeRcTx => s.(txInt := n)
    case _ => s
  }

  /** The response to a transaction: its tags are what the chain is searched by later. */
  function Answer(s: AnchorState, tx: Tx): Response {
    var number := [TxIntTag(s.txInt + 1)];
    match tx
    case CalTx(_) => Response(Okay, number)
    case BtcATx(None, _) => Response(Okay, [])
    case BtcATx(Some(anchored), _) => Response(Okay, number + [BtcTxTag(anchored.btcTxID)])
    case BtcCTx(_, _) => Response(Okay, number + [CoreRcTag(s.lastCoreMint)])
    case NodeRcTx => Response(Okay, number + [NodeRcTag(s.lastNodeMint)])
    case OtherTx => Response(Unauthorized, [])
    case _ => Response(Okay, [])
  }

  /** A commit starts an anchoring of this range, on a synced node when it is due. */
  predicate AnchorIsDue(s: AnchorState, interval: int) {
    s.height - s.latestBtcaHeight > interval
  }

  function Committed(s: AnchorState, doAnchor: bool, interval: int): AnchorState {
    var s' := if doAnchor && AnchorIsDue(s, interval) && !s.chainSynced then s.(endCalTxInt := s.latestCalTxInt) else s;
    s'.(height := s.height + 1)
  }

  /** What the node keeps beside the saved state: whether its own key is on the chain, the keys of the
      cores, and the copy of the NIST record in its aggregator. */
  datatype Aside = Aside(jwkSent: bool, coreKeys: map<Bytes, Bytes>, latestNist: Bytes)

  function AsideAfter(a: Aside, tx: Tx, ownKid: Bytes, doCal: bool): Aside {
    match tx
    case JwkTx(Jwk(kid, coreID, pubKey)) =>
      a.(jwkSent := a.jwkSent || kid == ownKid,
         coreKeys := if pubKey.Some? then a.coreKeys[coreID := pubKey.value] else a.coreKeys)
    case NistTx(record) => if doCal then a.(latestNist := record) else a
    case _ => a
  }

  /** The goroutines that the application starts. */
  datatype Goroutine =
    | ConsumeBtcTxMsg(anchored: Anchored)
    | TokenHashUpsert(data: Bytes)
    | NistBeaconMonitor
    | MintMonitor
    | AggregateCalendar
    | AnchorBTC(startTxRange: int, endTxRange: int)
    | AuditNodes
    | StartNodeMintProcess
    | StartCoreMintProcess

  /** A synced node watches anchored transactions; a token is upserted by every node. */
  function StartedByTx(tx: Tx, synced: bool): seq<Goroutine> {
    match tx
    case BtcATx(Some(anchored), _) => if synced then [ConsumeBtcTxMsg(anchored)] else []
    case TokenTx(data) => [TokenHashUpsert(data)]
    case _ => []
  }

  datatype AnchorConfig = AnchorConfig(doCal: bool, doAnchor: bool, doNodeAudit: bool, anchorInterval: int)

  function When<T>(condition: bool, s: seq<T>): seq<T> {
    if condition then s else []
  }

  /** What a synced node polls with every commit. */
  function Monitors(c: AnchorConfig, jwkSent: bool): seq<Goroutine> {
    [NistBeaconMonitor] + When(c.doNodeAudit && jwkSent, [MintMonitor]) + When(c.doCal, [AggregateCalendar])
  }

  /** What begins with an anchor epoch: the anchoring, and the audit and the mints that are not pending. */
  function EpochStart(s: AnchorState, c: AnchorConfig, nodeMintPending: bool, coreMintPending: bool): seq<Goroutine> {
    [AnchorBTC(s.beginCalTxInt, s.latestCalTxInt)]
    + When(c.doNodeAudit && !nodeMintPending, [AuditNodes, StartNodeMintProcess])
    + When(c.doNodeAudit && !coreMintPending, [StartCoreMintProcess])
  }

  /** What a commit starts: nothing on a node that is not synced. */
  function StartedByCommit(s: AnchorState, c: AnchorConfig, jwkSent: bool, nodeMintPending: bool, coreMintPending: bool): seq<Goroutine> {
    When(s.chainSynced, Monitors(c, jwkSent)
                        + When(c.doAnchor && AnchorIsDue(s, c.anchorInterval), EpochStart(s, c, nodeMintPending, coreMintPending)))
  }

  lemma WhatMonitorsHold(c: AnchorConfig, jwkSent: bool, x: Goroutine)
    ensures x in Monitors(c, jwkSent) <==>
              || x == NistBeaconMonitor
              || (x == MintMonitor && c.doNodeAudit && jwkSent)
              || (x == AggregateCalendar && c.doCal)
  {
  }

  lemma WhatEpochsHold(s: AnchorState, c: AnchorConfig, nodeMintPending: bool, coreMintPending: bool, x: Goroutine)
    ensures x in EpochStart(s, c, nodeMintPending, coreMintPending) <==>
              || x == AnchorBTC(s.beginCalTxInt, s.latestCalTxInt)
              || ((x == AuditNodes || x == StartNodeMintProcess) && c.doNodeAudit && !nodeMintPending)
              || (x == StartCoreMintProcess && c.doNodeAudit && !coreMintPending)
  {
  }

  /** When each goroutine is started: on a synced node only; the monitors with every commit, the others
      when an anchoring is due, which anchors from Begin to the latest CAL. */
  lemma WhatCommitStarts(s: AnchorState, c: AnchorConfig, jwkSent: bool, nodeMintPending: bool, coreMintPending: bool, x: Goroutine)
    ensures var due := c.doAnchor && s.height - s.latestBtcaHeight > c.anchorInterval;
            x in StartedByCommit(s, c, jwkSent, nodeMintPending, coreMintPending) <==>
              && s.chainSynced
              && (|| x == NistBeaconMonitor
                  || (x == MintMonitor && c.doNodeAudit && jwkSent)
                  || (x == AggregateCalendar && c.doCal)
                  || (x == AnchorBTC(s.beginCalTxInt, s.latestCalTxInt) && due)
                  || ((x == AuditNodes || x == StartNodeMintProcess) && due && c.doNodeAudit && !nodeMintPending)
                  || (x == StartCoreMintProcess && due && c.doNodeAudit && !coreMintPending))
  {
    WhatMonitorsHold(c, jwkSent, x);
    WhatEpochsHold(s, c, nodeMintPending, coreMintPending, x);
  }

  /** The saved state: besides the above, the application hash and whether mints are in progress. */
  datatype Saved = Saved(state: AnchorState, appHash: Bytes, nodeMintPending: bool, coreMintPending: bool)

  class AnchorApplication {
    var state: AnchorState
    var appHash: Bytes
    var nodeMintPending: bool
    var coreMintPending: bool
    var saved: Saved
    var jwkSent: bool
    var coreKeys: map<Bytes, Bytes>
    var latestNist: Bytes
    const config: AnchorConfig
    const ownKid: Bytes

    /** A core starts from what was saved, not synced, without signatures, and with the cores' keys that
        it finds in Redis. */
    constructor (saved: Saved, config: AnchorConfig, ownKid: Bytes, keysInRedis: map<Bytes, Bytes>)
      ensures state == saved.state.(chainSynced := false, coreSignatures := [], nodeSignatures := [])
      ensures appHash == saved.appHash && nodeMintPending == saved.nodeMintPending && coreMintPending == saved.coreMintPending
      ensures this.saved == saved && this.config == config && this.ownKid == ownKid
      ensures Beside() == Aside(false, keysInRedis, [])
    {
      state := saved.state.(chainSynced := false, coreSignatures := [], nodeSignatures := []);
      appHash, nodeMintPending, coreMintPending := saved.appHash, saved.nodeMintPending, saved.coreMintPending;
      this.saved, this.config, this.ownKid := saved, config, ownKid;
      jwkSent, coreKeys, latestNist := false, keysInRedis, [];
    }

    ghost function Beside(): Aside
      reads this
    {
      Aside(jwkSent, coreKeys, latestNist)
    }

    method IncrementTxInt(tags: seq<Tag>) returns (tags': seq<Tag>)
      modifies this`state
      ensures state == old(state).(txInt := old(state).txInt + 1)
      ensures tags' == tags + [TxIntTag(old(state).txInt + 1)]
    {
      state := state.(txInt := state.txInt + 1);
      tags' := tags + [TxIntTag(state.txInt)];
    }

    /** The key is kept unless it cannot be decoded. */
    method SaveJWK(jwk: Jwk)
      modifies this`jwkSent, this`coreKeys
      ensures Beside() == AsideAfter(old(Beside()), JwkTx(jwk), ownKid, config.doCal)
    {
      if jwk.kid == ownKid {
        jwkSent := true;
      }
      if jwk.pubKey.Some? {
        coreKeys := coreKeys[jwk.coreID := jwk.pubKey.value];
      }
    }

    /** The signatures received so far and a new one, de-duplicated in place. */
    method AddSignature(signatures: seq<Bytes>, signature: Bytes) returns (all: seq<Bytes>)
      ensures all == FirstOccurrences(signatures + [signature])
    {
      var longer := signatures + [signature];
      var a := new Bytes[|longer|](i requires 0 <= i < |longer| => longer[i]);
      assert a[..] == longer;
      var j := Uniquify(a);
      all := a[..j];
    }

    /** The cases of a BTC-A that can be parsed and of a BTC-C. */
    method AcceptBtcA(anchored: Anchored, raw: Bytes) returns (resp: Response)
      modifies this`state
      ensures state == Delivered(old(state), BtcATx(Some(anchored), raw))
      ensures resp == Answer(old(state), BtcATx(Some(anchored), raw))
    {
      state := state.(latestBtcaTx := raw);
      state := state.(latestBtcaHeight := state.height + 1);
      var tags := IncrementTxInt([]);
      state := state.(latestBtcaTxInt := state.txInt);
      state := state.(beginCalTxInt := state.endCalTxInt);
      tags := tags + [BtcTxTag(anchored.btcTxID)];
      resp := Response(Okay, tags);
    }

    method AcceptBtcC(data: Bytes, coreID: Bytes) returns (resp: Response)
      modifies this`state
      ensures state == Delivered(old(state), BtcCTx(data, coreID)) && resp == Answer(old(state), BtcCTx(data, coreID))
    {
      state := state.(latestBtccTx := data);
      state := state.(latestBtccHeight := state.height + 1);
      var tags := IncrementTxInt([]);
      state := state.(latestBtccTxInt := state.txInt);
      state := state.(lastAnchorCoreID := coreID);
      tags := tags + [CoreRcTag(state.lastCoreMint)];
      resp := Response(Okay, tags);
    }

    /** The cases that only keep what a transaction brings. */
    method KeepRecord(tx: Tx)
      requires tx.NistTx? || tx.NodeMintTx? || tx.CoreMintTx? || tx.CoreSignTx? || tx.NodeSignTx?
      modifies this`state, this`latestNist
      ensures state == Delivered(old(state), tx)
      ensures Beside() == AsideAfter(old(Beside()), tx, ownKid, config.doCal)
    {
      match tx {
        case NistTx(record) =>
          state := state.(latestNistRecord := record);
          if config.doCal {
            latestNist := state.latestNistRecord;
          }
        case NodeMintTx(block) =>
          if block.Some? {
            state := state.(prevNodeMint := state.lastNodeMint);
            state := state.(lastNodeMint := block.value);
          }
        case CoreMintTx(block) =>
          if block.Some? {
            state := state.(prevCoreMint := state.lastCoreMint);
            state := state.(lastCoreMint := block.value);
          }
        case CoreSignTx(signature) =>
          var all := AddSignature(state.coreSignatures, signature);
          state := state.(coreSignatures := all);
        case NodeSignTx(signature) =>
          var all := AddSignature(state.nodeSignatures, signature);
          state := state.(nodeSignatures := all);
      }
    }

    /** updateStateFromTx, with the goroutines that it starts. */
    method UpdateStateFromTx(received: Tx, verifies: bool) returns (resp: Response, started: seq<Goroutine>)
      modifies this`state, this`jwkSent, this`coreKeys, this`latestNist
      ensures var tx := Effective(received, verifies, old(state).chainSynced);
              && state == Delivered(old(state), tx)
              && Beside() == AsideAfter(old(Beside()), tx, ownKid, config.doCal)
              && resp == Answer(old(state), tx)
              && started == StartedByTx(tx, old(state).chainSynced)
    {
      var tx := if state.chainSynced then (if verifies || received.TokenTx? || received.JwkTx? then received else OtherTx)
                else received;
      var tags: seq<Tag> := [];
      resp, started := Response(Okay, []), [];
      match tx {
        case CalTx(_) =>
          tags := IncrementTxInt(tags);
          state := state.(latestCalTxInt := state.txInt);
          resp := Response(Okay, tags);
        case BtcATx(anchored, raw) =>
          if anchored.Some? {
            if state.chainSynced {
              started := [ConsumeBtcTxMsg(anchored.value)];
            }
            resp := AcceptBtcA(anchored.value, raw);
          }
        case BtcCTx(data, coreID) =>
          resp := AcceptBtcC(data, coreID);
        case NistTx(_) =>
          KeepRecord(tx);
        case NodeMintTx(_) =>
          KeepRecord(tx);
        case CoreMintTx(_) =>
          KeepRecord(tx);
        case JwkTx(jwk) =>
          SaveJWK(jwk);
        case CoreSignTx(_) =>
          KeepRecord(tx);
        case NodeSignTx(_) =>
          KeepRecord(tx);
        case NodeRcTx =>
          tags := IncrementTxInt(tags);
          tags := tags + [NodeRcTag(state.lastNodeMint)];
          resp := Response(Okay, tags);
        case TokenTx(data) =>
          started := [TokenHashUpsert(data)];
        case OtherTx =>
          resp := Response(Unauthorized, tags);
      }
    }

    method DeliverTx(tx: Tx, verifies: bool) returns (resp: Response, started: seq<Goroutine>)
      modifies this`state, this`jwkSent, this`coreKeys, this`latestNist
      ensures var tx' := Effective(tx, verifies, old(state).chainSynced);
              && state == Delivered(old(state), tx')
              && Beside() == AsideAfter(old(Beside()), tx', ownKid, config.doCal)
              && resp == Answer(old(state), tx')
              && started == StartedByTx(tx', old(state).chainSynced)
    {
      resp, started := UpdateStateFromTx(tx, verifies);
    }

    /** Gossip counts only on a synced node. */
    method DeliverMsg(tx: Tx, verifies: bool) returns (code: Code, started: seq<Goroutine>)
      modifies this`state, this`jwkSent, this`coreKeys, this`latestNist
      ensures var tx' := Effective(tx, verifies, true);
              if old(state).chainSynced then
                && state == Delivered(old(state), tx')
                && Beside() == AsideAfter(old(Beside()), tx', ownKid, config.doCal)
                && code == Answer(old(state), tx').code
                && started == StartedByTx(tx', true)
              else state == old(state) && Beside() == old(Beside()) && code == UnknownError && started == []
    {
      code, started := UnknownError, [];
      if state.chainSynced {
        var resp;
        resp, started := UpdateStateFromTx(tx, verifies);
        code := resp.code;
      }
    }

    /** validateGossip: TOKEN and NIST are passed on to other cores instead of the mempool, and
        the latest BTC-C is not taken twice. None is a transaction that cannot be decoded, or on
        a synced node not be verified. */
    method CheckTx(received: Option<Tx>) returns (code: Code, passOn: bool)
      modifies this`state
      ensures state == match received
                       case Some(BtcCTx(data, _)) => old(state).(latestBtccTx := data)
                       case _ => old(state)
      ensures passOn == (received.Some? && (received.value.TokenTx? || received.value.NistTx?))
      ensures code == match received
                      case None => EncodingError
                      case Some(TokenTx(_)) => Unauthorized
                      case Some(NistTx(_)) => Unauthorized
                      case Some(BtcCTx(data, _)) => if data == old(state).latestBtccTx then Unauthorized else Okay
                      case _ => Okay
    {
      passOn := false;
      if received == None {
        return EncodingError, false;
      }
      var tx := received.value;
      if tx.TokenTx? || tx.NistTx? {
        return Unauthorized, true;
      }
      if tx.BtcCTx? {
        if tx.data == state.latestBtccTx {
          return Unauthorized, false;
        } else {
          state := state.(latestBtccTx := tx.data);
        }
      }
      return Okay, false;
    }

    method StartMonitors() returns (started: seq<Goroutine>)
      ensures started == Monitors(config, jwkSent)
    {
      started := [NistBeaconMonitor];
      if config.doNodeAudit && jwkSent {
        started := started + [MintMonitor];
      }
      if config.doCal {
        started := started + [AggregateCalendar];
      }
    }

    method StartEpoch() returns (started: seq<Goroutine>)
      ensures started == EpochStart(state, config, nodeMintPending, coreMintPending)
    {
      started := [AnchorBTC(state.beginCalTxInt, state.latestCalTxInt)];
      if config.doNodeAudit && !nodeMintPending {
        started := started + [AuditNodes, StartNodeMintProcess];
      }
      if config.doNodeAudit && !coreMintPending {
        started := started + [StartCoreMintProcess];
      }
    }

    /** Commit, with the goroutines that it starts; `varint` encodes a height in 8 bytes. */
    method Commit(varint: int -> Bytes) returns (data: Bytes, started: seq<Goroutine>)
      modifies this`state, this`appHash, this`saved
      ensures state == Committed(old(state), config.doAnchor, config.anchorInterval)
      ensures data == appHash == varint(old(state).height) && saved == Saved(state, appHash, nodeMintPending, coreMintPending)
      ensures started == StartedByCommit(old(state), config, jwkSent, nodeMintPending, coreMintPending)
    {
      var monitors, epoch := [], [];
      if state.chainSynced {
        monitors := StartMonitors();
      }
      if config.doAnchor && state.height - state.latestBtcaHeight > config.anchorInterval {
        if state.chainSynced {
          epoch := StartEpoch();
        } else {
          state := state.(endCalTxInt := state.latestCalTxInt);
        }
      }
      appHash := varint(state.height);
      state := state.(height := state.height + 1);
      saved := Saved(state, appHash, nodeMintPending, coreMintPending);
      data, started := appHash, monitors + epoch;
    }
  }

  // ---------- what anchoring goroutines do to the state ----------

  function Published(s: AnchorState, endTxRange: int): AnchorState {
    s.(endCalTxInt := endTxRange, latestBtcaHeight := s.height)
  }

  function WithReset(s: AnchorState, startTxRange: int): AnchorState {
    s.(beginCalTxInt := startTxRange, latestBtcaHeight := -1)
  }

  function Recorded(s: AnchorState, anchored: Anchored): AnchorState {
    s.(latestBtcTx := anchored.btcTxID, latestBtcAggRoot := anchored.aggRoot)
  }

  /** getCalTxRange over a search by number that can fail. */
  function Found<T>(search: int -> Option<seq<T>>, minTxInt: int, maxTxInt: int): Option<seq<T>>
    requires minTxInt <= maxTxInt + 1
    decreases maxTxInt + 1 - minTxInt
  {
    if minTxInt > maxTxInt then Some([])
    else
      var before := Found(search, minTxInt, maxTxInt - 1);
      var last := search(maxTxInt);
      if before == None || last == None then None else Some(before.value + last.value)
  }

  method GetCalTxRange<T>(search: int -> Option<seq<T>>, minTxInt: int, maxTxInt: int) returns (r: Option<seq<T>>)
    ensures r == if maxTxInt <= minTxInt then None else Found(search, minTxInt, maxTxInt)
  {
    if maxTxInt <= minTxInt {
      return None;
    }
    var txs := [];
    var i := minTxInt;
    while i <= maxTxInt
      invariant minTxInt <= i <= maxTxInt + 1
      invariant Found(search, minTxInt, i - 1) == Some(txs)
    {
      var result := search(i);
      if result == None {
        FoundFails(search, minTxInt, i, maxTxInt);
        return None;
      }
      txs := txs + result.value;
      i := i + 1;
    }
    return Some(txs);
  }

  lemma {:induction false} FoundFails<T>(search: int -> Option<seq<T>>, minTxInt: int, i: int, maxTxInt: int)
    requires minTxInt <= i <= maxTxInt && search(i) == None
    ensures Found(search, minTxInt, maxTxInt) == None
    decreases maxTxInt - i
  {
    if i < maxTxInt {
      FoundFails(search, minTxInt, i, maxTxInt - 1);
    }
  }

  /** Whatever the search yields for a number of the range is in the result. */
  lemma {:induction false} FoundHolds<T>(search: int -> Option<seq<T>>, minTxInt: int, maxTxInt: int, i: int, t: T)
    requires minTxInt <= i <= maxTxInt && Found(search, minTxInt, maxTxInt).Some?
    requires search(i).Some? && t in search(i).value
    ensures t in Found(search, minTxInt, maxTxInt).value
    decreases maxTxInt - i
  {
    if i < maxTxInt {
      FoundHolds(search, minTxInt, maxTxInt - 1, i, t);
    }
  }
}
