/** The rows of the proof-state tables, and the lookup tables that are made from lists of them. */
module ProofRows {
  import opened ByteStrings
  import opened ProofOps

  type Id = Bytes

  /** An anchor's ID and where it can be looked up. */
  datatype AnchorRef = AnchorRef(anchorID: Bytes, uris: seq<Bytes>)

  datatype AggRow = AggRow(hashID: Id, hash: Bytes, aggID: Id, ops: seq<LineItem>)

  datatype CalRow = CalRow(aggID: Id, calID: Id, ops: seq<LineItem>, anchor: AnchorRef)

  datatype AnchorRow = AnchorRow(calID: Id, anchorBtcAggID: Id, ops: seq<LineItem>)

  datatype TxRow = TxRow(anchorBtcAggID: Id, btcTxID: Id, ops: seq<LineItem>)

  datatype HeadRow = HeadRow(btcTxID: Id, height: int, ops: seq<LineItem>, anchor: AnchorRef)

  /** The reduce calls of the proof generator: of the rows with one key, the last one counts. */
  function Lookup<K, R>(rows: seq<R>, key: R -> K): map<K, R> {
    if rows == [] then map[]
    else
      var row := rows[|rows| - 1];
      Lookup(rows[..|rows| - 1], key)[key(row) := row]
  }

  /** A lookup holds rows of the list under their own keys, and every key of the list. */
  lemma {:induction false} LookupHolds<K, R>(rows: seq<R>, key: R -> K)
    ensures forall k :: k in Lookup(rows, key) ==> Lookup(rows, key)[k] in rows && key(Lookup(rows, key)[k]) == k
    ensures forall row :: row in rows ==> key(row) in Lookup(rows, key)
  {
    if rows != [] {
      LookupHolds(rows[..|rows| - 1], key);
      assert rows == rows[..|rows| - 1] + [rows[|rows| - 1]];
    }
  }
}
