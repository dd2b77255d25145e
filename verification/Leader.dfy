/**
  Leader election: every core sorts the IDs of the nodes it knows, rotates the list by a number
  drawn from a shared seed, and takes the first ones.
 */
module Leader {
  import opened ByteStrings
  import opened Ordering
  import opened Rotation

  /** A node's ID and what a core knows about it besides. */
  datatype Peer = Peer(id: Bytes, remoteIP: Bytes, listenAddr: Bytes)

  datatype Validator = Validator(address: Bytes, power: int)

  function Ids(peers: seq<Peer>): seq<Bytes> {
    Map(peers, (p: Peer) => p.id)
  }

  function Addresses(validators: seq<Validator>): seq<Bytes> {
    Map(validators, (v: Validator) => v.address)
  }

  function SortedIds(ids: seq<Bytes>): seq<Bytes> {
    Sorted(ids, (id: Bytes) => id)
  }

  /** The first `numLeaders` IDs of the rotated list; one of them when there are not so many. */
  function FirstOf(rotated: seq<Bytes>, numLeaders: nat): seq<Bytes>
    requires rotated != []
  {
    if numLeaders <= |rotated| then rotated[..numLeaders] else rotated[..1]
  }

  /** The leaders that the IDs in play and the drawn index determine. */
  function Elected(ids: seq<Bytes>, index: nat, numLeaders: nat): seq<Bytes>
    requires ids != []
  {
    SortedSize(ids);
    FirstOf(Rotated(SortedIds(ids), index), numLeaders)
  }

  /** What one core concludes: whether it leads, and who does. `others` are its peers' IDs. */
  function Verdict(self: Bytes, others: seq<Bytes>, catchingUp: bool, index: nat, numLeaders: nat)
    : (bool, seq<Bytes>)
  {
    if others == [] then (true, [self])
    else
      var leaders := Elected(others + [self], index, numLeaders);
      (self in leaders && !catchingUp, leaders)
  }

  lemma SortedSize(ids: seq<Bytes>)
    ensures |SortedIds(ids)| == |ids|
  {
    SortedIsSorted(ids, (id: Bytes) => id);
    SameSize(SortedIds(ids), ids);
  }

  /** Sorting records by ID sorts their IDs; what else they hold does not matter. */
  lemma SortedById<T>(before: seq<T>, after: seq<T>, id: T -> Bytes)
    requires multiset(after) == multiset(before) && Descending(after, id)
    ensures Map(after, id) == SortedIds(Map(before, id))
  {
    var same := (x: Bytes) => x;
    MapPermutes(after, before, id);
    SortedIsSorted(Map(before, id), same);
    assert Descending(Map(after, id), same);
    DescendingIsUnique(Map(after, id), SortedIds(Map(before, id)), same);
  }

  /** The peers and the core itself, by descending ID. The peers' addresses are corrected in
      the caller's list as well. */
  method GetSortedPeerList(self: Peer, peers: array<Peer>, determineIP: Peer -> Bytes) returns (nodes: array<Peer>)
    modifies peers
    ensures fresh(nodes) && nodes.Length == peers.Length + 1
    ensures Ids(nodes[..]) == SortedIds(Ids(old(peers[..])) + [self.id])
    ensures forall i :: 0 <= i < peers.Length ==> peers[i] == old(peers[i].(remoteIP := determineIP(peers[i])))
  {
    var nodeArray: seq<Peer> := [];
    ghost var start := peers[..];
    for i := 0 to peers.Length
      invariant |nodeArray| == i
      invariant forall k :: 0 <= k < i ==> nodeArray[k] == peers[k] == start[k].(remoteIP := determineIP(start[k]))
      invariant forall k :: i <= k < peers.Length ==> peers[k] == start[k]
    {
      peers[i] := peers[i].(remoteIP := determineIP(peers[i]));
      nodeArray := nodeArray + [peers[i]];
    }
    nodeArray := nodeArray + [self.(remoteIP := Ascii("127.0.0.1"))];
    assert Ids(nodeArray) == Ids(start) + [self.id];
    nodes := new Peer[|nodeArray|](i requires 0 <= i < |nodeArray| => nodeArray[i]);
    assert nodes[..] == nodeArray;
    SortDescending(nodes, (p: Peer) => p.id);
    SortedById(nodeArray, nodes[..], (p: Peer) => p.id);
  }

  lemma MapRotated<T>(s: seq<T>, id: T -> Bytes, amount: int)
    ensures Map(Rotated(s, amount), id) == Rotated(Map(s, id), amount)
  {
  }

  lemma FirstOfRotated(ids: seq<Bytes>, index: nat, numLeaders: nat, k: nat)
    requires ids != [] && k < if numLeaders <= |ids| then numLeaders else 1
    ensures k < |FirstOf(Rotated(ids, index), numLeaders)|
    ensures FirstOf(Rotated(ids, index), numLeaders)[k] == ids[(k + index) % |ids|]
  {
    RotatedAt(ids, index, k);
  }

  /** The loop over the leaders. */
  method ListIds<T>(leaders: seq<T>, id: T -> Bytes, self: Bytes, catchingUp: bool) returns (isLeader: bool, leaderIDs: seq<Bytes>)
    ensures leaderIDs == Map(leaders, id) && isLeader == (self in leaderIDs && !catchingUp)
  {
    leaderIDs, isLeader := [], false;
    for i := 0 to |leaders|
      invariant leaderIDs == Map(leaders[..i], id)
      invariant isLeader == (self in leaderIDs && !catchingUp)
    {
      leaderIDs := leaderIDs + [id(leaders[i])];
      if id(leaders[i]) == self && !catchingUp {
        isLeader := true;
      }
    }
    assert leaders[..|leaders|] == leaders;
  }

  /** Rotation of a sorted list and choice of its first records, as both elections do it. */
  method RotateAndTake<T>(list: array<T>, id: T -> Bytes, index: nat, numLeaders: nat, self: Bytes, catchingUp: bool)
    returns (isLeader: bool, leaderIDs: seq<Bytes>)
    requires list.Length > 0
    modifies list
    ensures leaderIDs == FirstOf(Rotated(old(Map(list[..], id)), index), numLeaders)
    ensures |leaderIDs| == if numLeaders <= list.Length then numLeaders else 1
    ensures forall k :: 0 <= k < |leaderIDs| ==> leaderIDs[k] == old(Map(list[..], id))[(k + index) % list.Length]
    ensures isLeader == (self in leaderIDs && !catchingUp)
  {
    ghost var ids := Map(list[..], id);
    MapRotated(list[..], id, index);
    var ok := RotateLeft(list, index);
    var leaders := if numLeaders <= list.Length then list[..numLeaders] else list[..1];
    isLeader, leaderIDs := ListIds(leaders, id, self, catchingUp);
    assert leaderIDs == FirstOf(Rotated(ids, index), numLeaders);
    forall k | 0 <= k < |leaderIDs|
      ensures leaderIDs[k] == ids[(k + index) % list.Length]
    {
      FirstOfRotated(ids, index, numLeaders, k);
    }
  }

  /** determineLeader; `draw` is the seeded choice of a number below its argument. */
  method DetermineLeader(numLeaders: nat, self: Peer, catchingUp: bool, peers: array<Peer>,
                         draw: nat -> nat, determineIP: Peer -> Bytes)
    returns (isLeader: bool, leaderIDs: seq<Bytes>)
    requires forall n :: n > 0 ==> draw(n) < n
    modifies peers
    ensures (isLeader, leaderIDs)
         == Verdict(self.id, Ids(old(peers[..])), catchingUp, draw(peers.Length + 1), numLeaders)
  {
    if peers.Length > 0 {
      var nodeArray := GetSortedPeerList(self, peers, determineIP);
      var index := draw(nodeArray.Length);
      isLeader, leaderIDs := RotateAndTake(nodeArray, (p: Peer) => p.id, index, numLeaders, self.id, catchingUp);
      return;
    }
    return true, [self.id];
  }

  /** determineValidatorLeader; the source demands at least one validator. */
  method DetermineValidatorLeader(numLeaders: nat, catchingUp: bool, validators: seq<Validator>, draw: nat -> nat, address: Bytes)
    returns (isLeader: bool, leaderIDs: seq<Bytes>)
    requires validators != [] && forall n :: n > 0 ==> draw(n) < n
    ensures leaderIDs == Elected(Addresses(validators), draw(|validators|), numLeaders)
    ensures isLeader == (address in leaderIDs && !catchingUp)
  {
    var list := new Validator[|validators|](i requires 0 <= i < |validators| => validators[i]);
    assert list[..] == validators;
    SortDescending(list, (v: Validator) => v.address);
    SortedById(validators, list[..], (v: Validator) => v.address);
    var index := draw(list.Length);
    isLeader, leaderIDs := RotateAndTake(list, (v: Validator) => v.address, index, numLeaders, address, catchingUp);
  }

  // ---------- agreement ----------

  /** Lists without repetitions and with the same IDs elect the same leaders. */
  lemma SameIdsSameLeaders(a: seq<Bytes>, b: seq<Bytes>, index: nat, numLeaders: nat)
    requires a != [] && NoRepeats(a) && NoRepeats(b) && (forall x :: x in a <==> x in b)
    ensures b != [] && Elected(a, index, numLeaders) == Elected(b, index, numLeaders)
  {
    var same := (x: Bytes) => x;
    assert a[0] in b;
    SameElements(a, b);
    SortedIsSorted(a, same);
    SortedIsSorted(b, same);
    DescendingIsUnique(SortedIds(a), SortedIds(b), same);
  }

  /** What the elected list looks like: as many different IDs as asked for, all of them from
      the list, or a single one when more are asked for than there are. */
  lemma LeadersAreDistinct(ids: seq<Bytes>, index: nat, numLeaders: nat)
    requires ids != [] && NoRepeats(ids)
    ensures var leaders := Elected(ids, index, numLeaders);
            && |leaders| == (if numLeaders <= |ids| then numLeaders else 1)
            && NoRepeats(leaders)
            && (forall x :: x in leaders ==> x in ids)
  {
    var same := (x: Bytes) => x;
    var sorted := SortedIds(ids);
    SortedIsSorted(ids, same);
    SortedSize(ids);
    PermutationNoRepeats(ids, sorted);
    RotatedDistinct(sorted, index);
    forall x | x in Elected(ids, index, numLeaders)
      ensures x in ids
    {
      RotatedMembers(sorted, index, x);
      assert x in multiset(sorted);
    }
  }

  /** The IDs in descending order: each comes before all that are smaller. */
  ghost predicate IsDescendingList(d: seq<Bytes>, ids: seq<Bytes>) {
    multiset(d) == multiset(ids) && forall i, j :: 0 <= i < j < |d| ==> Less(d[j], d[i])
  }

  lemma DescendingListIsSorted(d: seq<Bytes>, ids: seq<Bytes>)
    requires IsDescendingList(d, ids)
    ensures d == SortedIds(ids)
  {
    var same := (x: Bytes) => x;
    SortedIsSorted(ids, same);
    forall i, j | 0 <= i < j < |d|
      ensures !Less(same(d[i]), same(d[j]))
    {
      LessIsStrict(d[j], d[i]);
    }
    DescendingIsUnique(d, SortedIds(ids), same);
  }

  /** Who is elected: the ID at the drawn index of the descending list, and those that follow it there,
      wrapped around. */
  lemma LeadersFollowTheDraw(ids: seq<Bytes>, d: seq<Bytes>, index: nat, numLeaders: nat, k: nat)
    requires ids != [] && IsDescendingList(d, ids) && k < if numLeaders <= |ids| then numLeaders else 1
    ensures d != [] && k < |Elected(ids, index, numLeaders)|
    ensures Elected(ids, index, numLeaders)[k] == d[(index + k) % |d|]
  {
    DescendingListIsSorted(d, ids);
    SortedSize(ids);
    FirstOfRotated(d, index, numLeaders, k);
  }

  /** A core leads if and only if it stands there and is not catching up. */
  lemma LeadsIfDrawn(self: Bytes, others: seq<Bytes>, d: seq<Bytes>, catchingUp: bool, index: nat)
    requires others != [] && IsDescendingList(d, others + [self])
    ensures d != []
    ensures Verdict(self, others, catchingUp, index, 1) == (self == d[index % |d|] && !catchingUp, [d[index % |d|]])
  {
    LeadersFollowTheDraw(others + [self], d, index, 1, 0);
    assert Elected(others + [self], index, 1) == [d[index % |d|]];
  }

  /** The cores of a network: each knows all the others, in an order of its own. */
  ghost predicate FullView(cores: seq<Bytes>, views: map<Bytes, seq<Bytes>>) {
    && |cores| >= 2 && NoRepeats(cores)
    && (forall x :: x in cores ==> x in views)
    && (forall x :: x in cores ==> NoRepeats(views[x] + [x]) && forall y :: y in views[x] + [x] <==> y in cores)
  }

  /** What a core knows is a permutation of the network, so it draws from the same number of cores. */
  lemma ViewIsComplete(cores: seq<Bytes>, views: map<Bytes, seq<Bytes>>, x: Bytes)
    requires FullView(cores, views) && x in cores
    ensures views[x] != [] && |views[x]| + 1 == |cores|
  {
    assert cores[0] in views[x] + [x] && cores[1] in views[x] + [x];
    SameElements(views[x] + [x], cores);
    SameSize(views[x] + [x], cores);
  }

  /** The verdict of a core of the network: it draws a number below the length of its own list. */
  function VerdictOf(x: Bytes, views: map<Bytes, seq<Bytes>>, catchingUp: bool, draw: nat -> nat, numLeaders: nat)
    : (bool, seq<Bytes>)
    requires x in views
  {
    Verdict(x, views[x], catchingUp, draw(|views[x]| + 1), numLeaders)
  }

  /** All cores of a network that draw with the same seed compute the same list of leaders ... */
  lemma CoresAgree(cores: seq<Bytes>, views: map<Bytes, seq<Bytes>>, x: Bytes, catchingUp: bool, draw: nat -> nat, numLeaders: nat)
    requires FullView(cores, views) && x in cores
    ensures VerdictOf(x, views, catchingUp, draw, numLeaders).1 == Elected(cores, draw(|cores|), numLeaders)
  {
    ViewIsComplete(cores, views, x);
    SameIdsSameLeaders(views[x] + [x], cores, draw(|cores|), numLeaders);
  }

  /** ... and when one is to be elected and nobody is catching up, exactly one core takes the
      lead: the elected one. */
  lemma ExactlyOneLeader(cores: seq<Bytes>, views: map<Bytes, seq<Bytes>>, draw: nat -> nat) returns (leader: Bytes)
    requires FullView(cores, views)
    ensures leader in cores
    ensures forall x :: x in cores ==> VerdictOf(x, views, false, draw, 1) == (x == leader, [leader])
  {
    var index := draw(|cores|);
    LeadersAreDistinct(cores, index, 1);
    leader := Elected(cores, index, 1)[0];
    assert Elected(cores, index, 1) == [leader];
    forall x | x in cores
      ensures VerdictOf(x, views, false, draw, 1) == (x == leader, [leader])
    {
      CoresAgree(cores, views, x, false, draw, 1);
      ViewIsComplete(cores, views, x);
    }
  }
}
