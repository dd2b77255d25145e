/** The nodes to be rewarded for an epoch: collected from the chain, de-duplicated, sorted. */
module Rewards {
  import opened ByteStrings
  import opened Ordering

  type Address = Bytes

  /** A transaction the search returned: undecodable, with data that is no list of nodes, or
      with the addresses of the nodes it lists. */
  datatype RewardTx = Undecodable | Malformed | Listed(addresses: seq<Address>)

  datatype Candidates = Candidates(addresses: seq<Address>, rewardHash: Bytes) | SearchFailed | NoneFound | BadData

  /** All listed addresses in order; None as soon as a decodable transaction is malformed. */
  function Collected(txs: seq<RewardTx>): Option<seq<Address>> {
    if txs == [] then Some([])
    else
      var n := |txs| - 1;
      var before := Collected(txs[..n]);
      match txs[n]
      case Undecodable => before
      case Malformed => None
      case Listed(addresses) => if before == None then None else Some(before.value + addresses)
  }

  /** The canonical list of a collection: every address once, by descending text. */
  function Canonical(addresses: seq<Address>, hex: Address -> Bytes): seq<Address> {
    Sorted(FirstOccurrences(addresses), hex)
  }

  lemma {:induction false} CollectedPrefix(txs: seq<RewardTx>, k: nat)
    requires k <= |txs| && Collected(txs[..k]) == None
    ensures Collected(txs) == None
    decreases |txs|
  {
    if k < |txs| {
      assert txs[..|txs| - 1][..k] == txs[..k];
      CollectedPrefix(txs[..|txs| - 1], k);
    } else {
      assert txs[..k] == txs;
    }
  }

  lemma CollectedOneMore(txs: seq<RewardTx>, k: nat)
    requires k < |txs|
    ensures Collected(txs[..k + 1]) ==
            match txs[k]
            case Undecodable => Collected(txs[..k])
            case Malformed => None
            case Listed(addresses) =>
              if Collected(txs[..k]) == None then None else Some(Collected(txs[..k]).value + addresses)
  {
    assert txs[..k + 1][..k] == txs[..k];
  }

  /** The collection fails if and only if some transaction is malformed, and otherwise holds exactly what
      the others list, in order. */
  lemma {:induction false} CollectedSays(txs: seq<RewardTx>, x: Address)
    ensures Collected(txs) == None <==> Malformed in txs
    ensures Collected(txs).Some? ==> (x in Collected(txs).value <==> exists t :: t in txs && t.Listed? && x in t.addresses)
  {
    if txs != [] {
      var n := |txs| - 1;
      CollectedSays(txs[..n], x);
      assert txs == txs[..n] + [txs[n]];
    }
  }

  /** GetNodeRewardCandidates; the search may fail. `hex` is the text of an address, different for
      different ones, and `toHash` what the rewards contract makes of the list. */
  method GetNodeRewardCandidates(txResult: Option<seq<RewardTx>>, hex: Address -> Bytes, toHash: seq<Address> -> Bytes)
    returns (r: Candidates)
    requires forall a, b :: hex(a) == hex(b) ==> a == b
    ensures r == if txResult == None then SearchFailed
                 else match Collected(txResult.value)
                      case None => BadData
                      case Some(all) =>
                        if all == [] then NoneFound else Candidates(Canonical(all, hex), toHash(Canonical(all, hex)))
  {
    if txResult == None {
      return SearchFailed;
    }
    var txs := txResult.value;
    var nodeArray: seq<Address> := [];
    for i := 0 to |txs|
      invariant Collected(txs[..i]) == Some(nodeArray)
    {
      CollectedOneMore(txs, i);
      match txs[i] {
        case Undecodable =>
        case Malformed =>
          CollectedPrefix(txs, i + 1);
          return BadData;
        case Listed(addresses) =>
          var before := nodeArray;
          for k := 0 to |addresses|
            invariant nodeArray == before + addresses[..k]
          {
            nodeArray := nodeArray + [addresses[k]];
          }
          assert addresses[..|addresses|] == addresses;
      }
    }
    assert txs[..|txs|] == txs;
    if |nodeArray| == 0 {
      return NoneFound;
    }
    var addresses := UniqueAndSorted(nodeArray, hex);
    return Candidates(addresses, toHash(addresses));
  }

  method UniqueAndSorted(nodeArray: seq<Address>, hex: Address -> Bytes) returns (addresses: seq<Address>)
    requires forall a, b :: hex(a) == hex(b) ==> a == b
    ensures addresses == Canonical(nodeArray, hex)
  {
    var all := new Address[|nodeArray|](i requires 0 <= i < |nodeArray| => nodeArray[i]);
    assert all[..] == nodeArray;
    var j := Uniquify(all);
    ghost var unique := FirstOccurrences(nodeArray);
    assert all[..j] == unique;
    var kept := all[..j];
    var list := new Address[j](i requires 0 <= i < j => kept[i]);
    assert list[..] == unique;
    SortDescending(list, hex);
    SortedIsSorted(unique, hex);
    DescendingIsUnique(list[..], Sorted(unique, hex), hex);
    addresses := list[..];
  }

  /** The list does not depend on the order in which the addresses were found, nor on how often
      each was: only on which ones were. */
  lemma CanonicalForm(a: seq<Address>, b: seq<Address>, hex: Address -> Bytes)
    requires forall x, y :: hex(x) == hex(y) ==> x == y
    requires forall x :: x in a <==> x in b
    ensures Canonical(a, hex) == Canonical(b, hex)
  {
    FirstOccurrencesElements(a);
    FirstOccurrencesElements(b);
    SameElements(FirstOccurrences(a), FirstOccurrences(b));
    SortedIsSorted(FirstOccurrences(a), hex);
    SortedIsSorted(FirstOccurrences(b), hex);
    DescendingIsUnique(Canonical(a, hex), Canonical(b, hex), hex);
  }

  /** It lists exactly the addresses that were found, once each, by descending text. */
  lemma CanonicalLists(a: seq<Address>, hex: Address -> Bytes)
    ensures NoRepeats(Canonical(a, hex)) && Descending(Canonical(a, hex), hex)
    ensures forall x :: x in Canonical(a, hex) <==> x in a
  {
    var unique := FirstOccurrences(a);
    FirstOccurrencesElements(a);
    SortedIsSorted(unique, hex);
    forall x
      ensures x in Canonical(a, hex) <==> x in unique
    {
      assert x in multiset(Canonical(a, hex)) <==> x in multiset(unique);
    }
    PermutationNoRepeats(unique, Canonical(a, hex));
  }
}
