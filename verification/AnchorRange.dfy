/** What the anchoring of a range of numbers anchors. */
module AnchorRange {
  import opened ByteStrings
  import opened Merkle
  import opened Calendar
  import opened AnchorApp
  import opened AnchorRuns

  /** The transactions that the chain holds under the numbers of a range. */
  function TxsOf(ledger: int -> seq<ResultTx>, first: int, last: int): seq<ResultTx>
    requires first <= last + 1
    decreases last + 1 - first
  {
    if first > last then [] else TxsOf(ledger, first, last - 1) + ledger(last)
  }

  /** A search that yields what the chain holds, whenever it does not fail. */
  ghost predicate Searches(search: int -> Option<seq<ResultTx>>, ledger: int -> seq<ResultTx>) {
    forall n :: search(n) == None || search(n) == Some(ledger(n))
  }

  lemma {:induction false} FoundIsTheLedgers(search: int -> Option<seq<ResultTx>>, ledger: int -> seq<ResultTx>, first: int, last: int)
    requires Searches(search, ledger) && first <= last + 1
    ensures Found(search, first, last) == None || Found(search, first, last) == Some(TxsOf(ledger, first, last))
    decreases last + 1 - first
  {
    if first <= last {
      FoundIsTheLedgers(search, ledger, first, last - 1);
    }
  }

  /** The text of the root over the CALs of these transactions; empty when they cannot be anchored,
      because there are none or the root is too short to cut an ID from. */
  function RootOfTxs(h: Hasher, txs: seq<ResultTx>): Bytes {
    var cals := CalTxs(txs);
    if cals == [] || |Merkle.Root(h, PLAIN, CalRoots(cals))| < 16 then [] else RootText(h, CalRoots(cals))
  }

  /** The root that the anchoring of a range publishes. */
  function RangeRoot(h: Hasher, ledger: int -> seq<ResultTx>, r: Range): Bytes {
    if r.last <= r.first then [] else RootOfTxs(h, TxsOf(ledger, r.first, r.last))
  }

  /** Whatever the chain holds under a number of the range is among its transactions, and nothing else. */
  lemma {:induction false} TxsOfHolds(ledger: int -> seq<ResultTx>, first: int, last: int, t: ResultTx)
    requires first <= last + 1
    ensures t in TxsOf(ledger, first, last) <==> exists n :: first <= n <= last && t in ledger(n)
    decreases last + 1 - first
  {
    if first <= last {
      TxsOfHolds(ledger, first, last - 1, t);
    }
  }

  /** The transactions of a range are those of a first part of it and then those of the rest. */
  lemma {:induction false} TxsInOrder(ledger: int -> seq<ResultTx>, first: int, middle: int, last: int)
    requires first <= middle + 1 <= last + 1
    ensures TxsOf(ledger, first, last) == TxsOf(ledger, first, middle) + TxsOf(ledger, middle + 1, last)
    ensures TxsOf(ledger, first, first) == ledger(first)
    decreases last - middle
  {
    assert TxsOf(ledger, first, first - 1) == [];
    if middle < last {
      TxsInOrder(ledger, first, middle, last - 1);
    }
  }

  lemma {:induction false} CalTxsMembers(txs: seq<ResultTx>, t: ResultTx)
    ensures t in CalTxs(txs) <==> t in txs && IsCalTx(t)
  {
    if txs != [] {
      CalTxsMembers(txs[..|txs| - 1], t);
      assert txs == txs[..|txs| - 1] + [txs[|txs| - 1]];
    }
  }

  /** The chain holds every delivered CAL under its number, and CALs carry 32 bytes. */
  ghost predicate Indexed(cals: set<int>, ledger: int -> seq<ResultTx>) {
    && (forall n, t :: t in ledger(n) && IsCalTx(t) ==> |HexDecode(t.tx.value.data).bytes| == 32)
    && (forall c :: c in cals ==> exists t :: t in ledger(c) && IsCalTx(t))
  }

  /** In a bounded state, a range that getCalTxRange accepts always has a root, from which
      AggregateAnchorTx can take its 16 bytes: there is a CAL in it, the last one at least. */
  lemma AnchoringFindsItsRoot(h: Hasher, y: System, a: Anchoring, ledger: int -> seq<ResultTx>)
    requires Bounded(y) && a in y.running && a.range.first < a.range.last && Indexed(y.cals, ledger)
    ensures var cals := CalTxs(TxsOf(ledger, a.range.first, a.range.last));
            && cals != [] && |Merkle.Root(h, PLAIN, CalRoots(cals))| == 32
            && RangeRoot(h, ledger, a.range) == RootText(h, CalRoots(cals)) != []
  {
    var first, last := a.range.first, a.range.last;
    var txs := TxsOf(ledger, first, last);
    var cals := CalTxs(txs);
    AcceptedRangeHasCal(y, a);
    var t :| t in ledger(last) && IsCalTx(t);
    TxsOfHolds(ledger, first, last, t);
    CalTxsMembers(txs, t);
    forall i | 0 <= i < |cals|
      ensures IsCalTx(cals[i]) && |HexDecode(cals[i].tx.value.data).bytes| == 32
    {
      CalTxsMembers(txs, cals[i]);
      TxsOfHolds(ledger, first, last, cals[i]);
    }
    RootIsLongEnough(h, cals);
    HexRoundTrip(Merkle.Root(h, PLAIN, CalRoots(cals)));
  }
}
