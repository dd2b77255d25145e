/**
  A leaf of the aggregator commits to the submitted hash, to its ID and to the beacon value: two
  submissions with one leaf expose a collision of the hash function.
 */
module Salting {
  import opened ByteStrings
  import opened Binding
  import opened Aggregator

  /** What is hashed first: the tagged ID, and the bytes of the submitted hash. */
  function Inner(item: HashItem): Bytes {
    CoreTag(item) + HexDecode(item.hash).bytes
  }

  /** What is hashed last. */
  function Outer(h: Hasher, item: HashItem, nist: Bytes): Bytes {
    if nist == [] then Inner(item) else NistTag(nist) + h(Inner(item))
  }

  /** IDs of one size and hashes can be told apart inside the salted text. */
  lemma InnerIsInjective(a: HashItem, b: HashItem)
    requires |a.hashID| == |b.hashID| && Inner(a) == Inner(b)
    ensures a.hashID == b.hashID && HexDecode(a.hash).bytes == HexDecode(b.hash).bytes
  {
    ConcatIsInjective(CoreTag(a), HexDecode(a.hash).bytes, CoreTag(b), HexDecode(b.hash).bytes);
    ConcatIsInjective(Ascii("core_id:"), a.hashID, Ascii("core_id:"), b.hashID);
  }

  lemma OuterIsInjective(nist: Bytes, nist': Bytes, s: Hash32, s': Hash32)
    requires NistTag(nist) + s == NistTag(nist') + s'
    ensures nist == nist' && s == s'
  {
    assert |NistTag(nist)| == |NistTag(nist')|;
    ConcatIsInjective(NistTag(nist), s, NistTag(nist'), s');
    ConcatIsInjective(Ascii("nistv2:"), nist, Ascii("nistv2:"), nist');
  }

  lemma TagsDiffer(item: HashItem, nist: Bytes, s: Bytes)
    ensures Inner(item) != NistTag(nist) + s
  {
    assert Inner(item)[0] == 99 && (NistTag(nist) + s)[0] == 110;
  }

  lemma WhereTheyDiffer(h: Hasher, a: HashItem, nist: Bytes, b: HashItem, nist': Bytes)
    requires |a.hashID| == |b.hashID|
    requires a.hashID != b.hashID || HexDecode(a.hash).bytes != HexDecode(b.hash).bytes || nist != nist'
    ensures || Outer(h, a, nist) != Outer(h, b, nist')
            || (nist != [] && nist' != [] && Inner(a) != Inner(b) && h(Inner(a)) == h(Inner(b)))
  {
    TagsDiffer(a, nist', h(Inner(b)));
    TagsDiffer(b, nist, h(Inner(a)));
    if nist != [] && nist' != [] && Outer(h, a, nist) == Outer(h, b, nist') {
      OuterIsInjective(nist, nist', h(Inner(a)), h(Inner(b)));
    }
    if Inner(a) == Inner(b) {
      InnerIsInjective(a, b);
    }
  }

  /** Two submissions with IDs of one size that differ in the ID, in the hash or in the beacon value, and
      still have one leaf: the collision behind it. */
  lemma SaltCollision(h: Hasher, a: HashItem, nist: Bytes, b: HashItem, nist': Bytes) returns (c: (Bytes, Bytes))
    requires Leaf(h, a, nist) == Leaf(h, b, nist') && |a.hashID| == |b.hashID|
    requires a.hashID != b.hashID || HexDecode(a.hash).bytes != HexDecode(b.hash).bytes || nist != nist'
    ensures IsCollision(h, c)
  {
    WhereTheyDiffer(h, a, nist, b, nist');
    c := if Outer(h, a, nist) != Outer(h, b, nist') then (Outer(h, a, nist), Outer(h, b, nist')) else (Inner(a), Inner(b));
  }
}
