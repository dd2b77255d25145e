/**
  The aggregator: salts each submitted hash with its ID (and the latest NIST beacon value),
  builds a Merkle tree and writes one list of ops per hash.
 */
module Aggregator {
  import opened ByteStrings
  import opened Merkle
  import opened MerkleTools
  import opened ProofOps
  import opened Sequences

  datatype HashItem = HashItem(hashID: Bytes, hash: Bytes)

  datatype ProofData = ProofData(hashID: Bytes, hash: Bytes, proof: seq<LineItem>)

  datatype Aggregation = Aggregation(aggID: Bytes, aggRoot: Bytes, proofData: seq<ProofData>)

  const EMPTY := Aggregation([], [], [])

  /** The queue messages that can be decoded. */
  function Decodable(msgs: seq<Option<HashItem>>): seq<HashItem> {
    if msgs == [] then []
    else
      var n := |msgs| - 1;
      Decodable(msgs[..n]) + if msgs[n].Some? then [msgs[n].value] else []
  }

  function CoreTag(item: HashItem): Bytes {
    Ascii("core_id:") + item.hashID
  }

  function NistTag(nist: Bytes): Bytes {
    Ascii("nistv2:") + nist
  }

  /** The leaf of a submitted hash. A hash that is not hexadecimal counts up to the place where
      it stops being so, because the decoding error is ignored. */
  function Leaf(h: Hasher, item: HashItem, nist: Bytes): Bytes {
    var salted := h(CoreTag(item) + HexDecode(item.hash).bytes);
    if nist == [] then salted else h(NistTag(nist) + salted)
  }

  function Leaves(h: Hasher, items: seq<HashItem>, nist: Bytes): (leaves: seq<Bytes>)
    ensures |leaves| == |items|
  {
    seq(|items|, i requires 0 <= i < |items| => Leaf(h, items[i], nist))
  }

  /** The steps from the submitted hash to its leaf. */
  function Salting(item: HashItem, nist: Bytes): seq<ProofStep> {
    [ProofStep(true, CoreTag(item))] + if nist == [] then [] else [ProofStep(true, NistTag(nist))]
  }

  /** The steps from the submitted hash to the root of the aggregation. */
  function Steps(h: Hasher, items: seq<HashItem>, nist: Bytes, i: nat): seq<ProofStep>
    requires i < |items|
  {
    Salting(items[i], nist) + Path(h, PLAIN, Leaves(h, items, nist), i)
  }

  function Entry(h: Hasher, items: seq<HashItem>, nist: Bytes, i: nat): ProofData
    requires i < |items|
  {
    ProofData(items[i].hashID, items[i].hash, Items(Steps(h, items, nist, i), true))
  }

  /** The two loops over the messages: the decoded items and their leaves. */
  method SaltHashes(h: Hasher, msgs: seq<Option<HashItem>>, nist: Bytes)
    returns (hashStructSlice: seq<HashItem>, hashSlice: seq<Bytes>)
    ensures hashStructSlice == Decodable(msgs) && hashSlice == Leaves(h, Decodable(msgs), nist)
  {
    hashStructSlice, hashSlice := [], [];
    for i := 0 to |msgs|
      invariant hashStructSlice == Decodable(msgs[..i]) && hashSlice == Leaves(h, hashStructSlice, nist)
    {
      assert msgs[..i + 1][..i] == msgs[..i];
      if msgs[i] == None {
        continue;
      }
      var unPackedHashItem := msgs[i].value;
      var buffer := Ascii("core_id:") + unPackedHashItem.hashID;
      buffer := buffer + HexDecode(unPackedHashItem.hash).bytes;
      var newHash := h(buffer);
      if nist != [] {
        newHash := h(Ascii("nistv2:") + nist + newHash);
      }
      hashStructSlice := hashStructSlice + [unPackedHashItem];
      hashSlice := hashSlice + [newHash];
    }
    assert msgs[..|msgs|] == msgs;
  }

  /** ProcessAggregation; the new UUID is a parameter. */
  method ProcessAggregation(h: Hasher, msgs: seq<Option<HashItem>>, nist: Bytes, aggID: Bytes) returns (agg: Aggregation)
    ensures var items := Decodable(msgs);
            if items == [] then agg == EMPTY
            else
              && agg.aggID == aggID
              && agg.aggRoot == HexEncode(Merkle.Root(h, PLAIN, Leaves(h, items, nist)))
              && |agg.proofData| == |items|
              && forall i :: 0 <= i < |items| ==>
                   && agg.proofData[i] == Entry(h, items, nist, i)
                   && agg.proofData[i].hashID == items[i].hashID && agg.proofData[i].hash == items[i].hash
  {
    var items, hashSlice := SaltHashes(h, msgs, nist);
    if |msgs| == 0 || |hashSlice| == 0 {
      return EMPTY;
    }
    var tree := NewTree(h, PLAIN, hashSlice);
    var proofSlice := WriteEntries(h, items, nist, tree);
    agg := Aggregation(aggID, HexEncode(tree.Root), proofSlice);
  }

  /** The loop that creates the proof paths. */
  method WriteEntries(h: Hasher, items: seq<HashItem>, nist: Bytes, tree: MerkleTree) returns (proofSlice: seq<ProofData>)
    requires items != [] && tree.Built(h, PLAIN) && Hashes(tree.Leaves) == Leaves(h, items, nist)
    ensures |proofSlice| == |items| && forall i :: 0 <= i < |items| ==> proofSlice[i] == Entry(h, items, nist, i)
  {
    proofSlice := [];
    for i := 0 to |items|
      invariant |proofSlice| == i && AreEntries(h, items, nist, proofSlice)
    {
      var proofData := WriteEntry(h, items, nist, i, tree);
      OneMoreEntry(h, items, nist, proofSlice, proofData);
      proofSlice := proofSlice + [proofData];
    }
  }

  predicate AreEntries(h: Hasher, items: seq<HashItem>, nist: Bytes, proofSlice: seq<ProofData>) {
    |proofSlice| <= |items| && forall k :: 0 <= k < |proofSlice| ==> proofSlice[k] == Entry(h, items, nist, k)
  }

  lemma OneMoreEntry(h: Hasher, items: seq<HashItem>, nist: Bytes, proofSlice: seq<ProofData>, proofData: ProofData)
    requires AreEntries(h, items, nist, proofSlice) && |proofSlice| < |items|
    requires proofData == Entry(h, items, nist, |proofSlice|)
    ensures AreEntries(h, items, nist, proofSlice + [proofData])
  {
  }

  /** The tags of a hash's salting are put in front of its leaf's proof. */
  method WriteEntry(ghost h: Hasher, items: seq<HashItem>, nist: Bytes, i: nat, tree: MerkleTree) returns (data: ProofData)
    requires i < |items| && tree.Built(h, PLAIN) && Hashes(tree.Leaves) == Leaves(h, items, nist)
    ensures data == Entry(h, items, nist, i)
  {
    var path := tree.GetProof(i, h, PLAIN);
    var proofs := path.value;
    if nist != [] {
      proofs := [ProofStep(true, Ascii("nistv2:") + nist)] + proofs;
    }
    proofs := [ProofStep(true, Ascii("core_id:") + items[i].hashID)] + proofs;
    SaltingInFront(items[i], nist, path.value);
    var lines := WriteSteps(proofs, true);
    data := ProofData(items[i].hashID, items[i].hash, lines);
  }

  lemma SaltingInFront(item: HashItem, nist: Bytes, path: seq<ProofStep>)
    ensures Salting(item, nist) + path
         == [ProofStep(true, CoreTag(item))] + if nist == [] then path else [ProofStep(true, NistTag(nist))] + path
  {
  }

  // ---------- the branch leads to the aggregation's root ----------

  /** What JSON must not mangle: the ID, the beacon value, and sibling hashes that contain a
      marker by chance. */
  ghost predicate LegibleEntry(h: Hasher, items: seq<HashItem>, nist: Bytes, i: nat)
    requires i < |items|
  {
    && IsUtf8(items[i].hashID) && IsUtf8(nist)
    && forall k :: 0 <= k < |Path(h, PLAIN, Leaves(h, items, nist), i)| ==>
         Legible(Path(h, PLAIN, Leaves(h, items, nist), i)[k], true)
  }

  lemma FoldSalting(h: Hasher, item: HashItem, nist: Bytes)
    ensures Fold(h, false, Salting(item, nist), HexDecode(item.hash).bytes) == Leaf(h, item, nist)
  {
    var start := HexDecode(item.hash).bytes;
    var core, beacon := ProofStep(true, CoreTag(item)), ProofStep(true, NistTag(nist));
    FoldOne(h, false, core, start);
    if nist != [] {
      FoldConcat(h, false, [core], [beacon], start);
      FoldOne(h, false, beacon, Absorb(h, false, core, start));
    }
  }

  lemma TagsAreLegible(item: HashItem, nist: Bytes)
    requires IsUtf8(item.hashID) && IsUtf8(nist)
    ensures forall k :: 0 <= k < |Salting(item, nist)| ==> Legible(Salting(item, nist)[k], true)
  {
    PrefixedIsUtf8("core_id:", item.hashID);
    PrefixedIsUtf8("nistv2:", nist);
  }

  /** From the submitted hash, the published ops of its entry lead to the aggregation's root. */
  lemma EntryLeadsToRoot(h: Hasher, items: seq<HashItem>, nist: Bytes, i: nat)
    requires i < |items| && LegibleEntry(h, items, nist, i)
    ensures Eval(h, HexDecode(items[i].hash).bytes, Published(Entry(h, items, nist, i).proof))
         == Merkle.Root(h, PLAIN, Leaves(h, items, nist))
  {
    var leaves, start := Leaves(h, items, nist), HexDecode(items[i].hash).bytes;
    var salting, path := Salting(items[i], nist), Path(h, PLAIN, leaves, i);
    TagsAreLegible(items[i], nist);
    EvalItems(h, salting + path, true, start);
    FoldConcat(h, false, salting, path, start);
    FoldSalting(h, items[i], nist);
    PathFoldsToRoot(h, PLAIN, leaves, i);
  }

  /** In plain terms: when the ID and the beacon value are UTF-8, and no sibling on the leaf's way
      contains the bytes of "nistv2" or "core_id" anywhere, the ops lead to the root. */
  lemma UnmarkedEntryLeadsToRoot(h: Hasher, items: seq<HashItem>, nist: Bytes, i: nat)
    requires i < |items| && IsUtf8(items[i].hashID) && IsUtf8(nist)
    requires forall k :: 0 <= k < |Path(h, PLAIN, Leaves(h, items, nist), i)| ==>
               !Marked(Path(h, PLAIN, Leaves(h, items, nist), i)[k].value)
    ensures Eval(h, HexDecode(items[i].hash).bytes, Published(Entry(h, items, nist, i).proof))
         == Merkle.Root(h, PLAIN, Leaves(h, items, nist))
  {
    EntryLeadsToRoot(h, items, nist, i);
  }

  // ---------- which messages count ----------

  /** The decodable messages of two lists are those of the one and then those of the other. */
  lemma {:induction false} DecodableInOrder(a: seq<Option<HashItem>>, b: seq<Option<HashItem>>)
    ensures Decodable(a + b) == Decodable(a) + Decodable(b)
    ensures forall item :: Decodable([Some(item)]) == [item]
    ensures Decodable([None]) == [] && Decodable([]) == []
  {
    if b == [] {
      assert a + b == a;
    } else {
      var n := |b| - 1;
      assert (a + b)[..|a + b| - 1] == a + b[..n];
      DecodableInOrder(a, b[..n]);
      Regroup(Decodable(a), Decodable(b[..n]), if b[n].Some? then [b[n].value] else []);
    }
    OneMessage();
  }

  lemma OneMessage()
    ensures forall item :: Decodable([Some(item)]) == [item]
    ensures Decodable([None]) == [] && Decodable([]) == []
  {
    forall item
      ensures Decodable([Some(item)]) == [item]
    {
      assert [Some(item)][..0] == [];
    }
    var none: seq<Option<HashItem>> := [None];
    assert none[..0] == [];
  }
}
