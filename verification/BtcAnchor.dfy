/**
  The ops that lead from an anchor root through a Bitcoin transaction to a block's Merkle root.
 */
module BtcAnchor {
  import opened ByteStrings
  import opened Merkle
  import opened ProofOps
  import opened Sequences

  // ---------- through the transaction ----------

  /** The ops of ConsumeBtcTxMsg: the texts around the first occurrence of the root in the
      transaction's text. None is the panic when the root does not occur. */
  function TxOps(body: Bytes, root: Bytes): Option<seq<LineItem>> {
    var at := Index(body, root);
    if at < 0 then None
    else Some([LeftItem(body[..at]), RightItem(body[at + |root|..]), HASH_TWICE])
  }

  /** The bytes that a left and a right text put around a value. */
  function Around(l: Bytes, value: Bytes, r: Bytes): Bytes {
    Operand(JsonText(l)) + value + Operand(JsonText(r))
  }

  lemma EvalAround(h: Hasher, l: Bytes, value: Bytes, r: Bytes)
    ensures Eval(h, value, Published([LeftItem(l), RightItem(r)])) == Around(l, value, r)
  {
    assert Published([LeftItem(l), RightItem(r)]) == [PublishedItem(LeftItem(l)), PublishedItem(RightItem(r))];
    EvalPair(h, value, PublishedItem(LeftItem(l)), PublishedItem(RightItem(r)));
    ApplyText(h, value, l);
    ApplyText(h, Operand(JsonText(l)) + value, r);
  }

  lemma SplitAtRoot(body: Bytes, root: Bytes)
    requires Index(body, root) >= 0
    ensures var at := Index(body, root); body == body[..at] + (root + body[at + |root|..])
  {
    var at := Index(body, root);
    assert body == body[..at] + body[at..at + |root|] + body[at + |root|..];
  }

  /** When the value's text starts at a byte of the transaction, the parts join to its bytes. */
  lemma EvenPartsJoin(l: Bytes, value: Bytes, r: Bytes)
    requires IsHex(l + (HexEncode(value) + r)) && |l| % 2 == 0
    ensures Around(l, value, r) == HexDecode(l + (HexEncode(value) + r)).bytes
  {
    HexRoundTrip(value);
    EvenText(value);
    HexInParts(l, HexEncode(value), r);
    OperandOfHexText(l);
    OperandOfHexText(r);
    Regroup(HexDecode(l).bytes, value, HexDecode(r).bytes);
  }

  lemma EvenText(value: Bytes)
    ensures |HexEncode(value)| % 2 == 0
  {
    HexRoundTrip(value);
    TwiceIsEven(|value|, |HexEncode(value)|);
  }

  lemma TwiceIsEven(n: nat, twice: nat)
    requires twice == 2 * n
    ensures twice % 2 == 0
  {
  }

  lemma HexInParts(l: Bytes, m: Bytes, r: Bytes)
    requires |l| % 2 == 0 && |m| % 2 == 0
    ensures IsHex(l + (m + r)) <==> IsHex(l) && IsHex(m) && IsHex(r)
    ensures IsHex(l) && IsHex(m) ==>
              HexDecode(l + (m + r)).bytes == HexDecode(l).bytes + (HexDecode(m).bytes + HexDecode(r).bytes)
  {
    HexConcat(l, m + r);
    HexConcat(m, r);
  }

  lemma OperandOfHexText(s: Bytes)
    requires IsHex(s)
    ensures Operand(JsonText(s)) == HexDecode(s).bytes
  {
    JsonHex(s);
  }

  lemma AsciiParts(l: Bytes, m: Bytes, r: Bytes)
    requires IsAscii(l + (m + r))
    ensures IsAscii(l) && IsAscii(r)
  {
    var s := l + (m + r);
    assert l == s[..|l|] && r == s[|l| + |m|..];
  }

  lemma AsciiTextSurvives(s: Bytes)
    requires IsAscii(s)
    ensures JsonText(s) == s
  {
    AsciiIsUtf8(s);
    JsonFaithful(s);
  }

  lemma OddIsNotHex(s: Bytes)
    requires |s| % 2 == 1
    ensures !IsHex(s)
  {
    HexLength(s);
  }

  lemma OddPartIsLiteral(s: Bytes)
    requires IsAscii(s) && |s| % 2 == 1
    ensures |Operand(JsonText(s))| == |s|
  {
    AsciiTextSurvives(s);
    OddIsNotHex(s);
  }

  lemma PartSizes(body: Bytes, l: Bytes, value: Bytes, r: Bytes)
    requires body == l + (HexEncode(value) + r) && IsHex(body)
    ensures |l| + 2 * |value| + |r| == 2 * |HexDecode(body).bytes|
    ensures IsAscii(l) && IsAscii(r)
  {
    HexRoundTrip(value);
    HexLength(body);
    AsciiParts(l, HexEncode(value), r);
  }

  lemma OddSizes(l: nat, v: nat, r: nat, all: nat)
    requires l + 2 * v + r == 2 * all && l % 2 == 1
    ensures r % 2 == 1 && l + v + r > all
  {
  }

  lemma AroundSize(l: Bytes, value: Bytes, r: Bytes)
    ensures |Around(l, value, r)| == |Operand(JsonText(l))| + |value| + |Operand(JsonText(r))|
  {
  }

  /** When it starts in the middle of a byte, they do not: the parts are then no hexadecimal
      texts and are taken literally, which makes the result too long. */
  lemma OddPartsDoNot(body: Bytes, l: Bytes, value: Bytes, r: Bytes)
    requires body == l + (HexEncode(value) + r) && IsHex(body) && |l| % 2 == 1
    ensures |Around(l, value, r)| > |HexDecode(body).bytes|
  {
    PartSizes(body, l, value, r);
    OddSizes(|l|, |value|, |r|, |HexDecode(body).bytes|);
    OddPartIsLiteral(l);
    OddPartIsLiteral(r);
    AroundSize(l, value, r);
  }

  /** The two ops around a value rebuild the text it is cut from, byte by byte, if and only if
      the cut is between bytes. */
  lemma PartsRebuild(h: Hasher, body: Bytes, l: Bytes, value: Bytes, r: Bytes)
    requires body == l + (HexEncode(value) + r) && IsHex(body)
    ensures Eval(h, value, Published([LeftItem(l), RightItem(r)])) == HexDecode(body).bytes <==> |l| % 2 == 0
  {
    EvalAround(h, l, value, r);
    if |l| % 2 == 0 {
      EvenPartsJoin(l, value, r);
    } else {
      OddPartsDoNot(body, l, value, r);
    }
  }

  lemma FirstTwoOps(body: Bytes, root: Bytes)
    requires Index(body, root) >= 0
    ensures var at := Index(body, root);
            TxOps(body, root).value[..2] == [LeftItem(body[..at]), RightItem(body[at + |root|..])]
  {
  }

  /** The ops rebuild the transaction's bytes around the anchored value if and only if the first
      occurrence of its text starts at an even offset. */
  lemma TransactionIsRebuilt(h: Hasher, body: Bytes, value: Bytes)
    requires IsHex(body) && TxOps(body, HexEncode(value)).Some?
    ensures Eval(h, value, Published(TxOps(body, HexEncode(value)).value[..2])) == HexDecode(body).bytes
       <==> Index(body, HexEncode(value)) % 2 == 0
  {
    var root := HexEncode(value);
    var at := Index(body, root);
    SplitAtRoot(body, root);
    FirstTwoOps(body, root);
    PartsRebuild(h, body, body[..at], value, body[at + |root|..]);
  }

  /** A value of n bytes 0x11. */
  function Elevens(n: nat): (b: Bytes)
    ensures |b| == n
  {
    if n == 0 then [] else [0x11] + Elevens(n - 1)
  }

  predicate AllOnes(s: Bytes) {
    forall k :: 0 <= k < |s| ==> s[k] == 49
  }

  lemma {:induction false} HexOfElevens(n: nat)
    ensures AllOnes(HexEncode(Elevens(n)))
  {
    if n > 0 {
      HexOfElevens(n - 1);
      assert Elevens(n)[1..] == Elevens(n - 1);
      assert HexEncode(Elevens(n)) == [49, 49] + HexEncode(Elevens(n - 1));
    }
  }

  /** A digit 0, then ones, then a digit 0: a text of ones that is two shorter than the ones occurs
      first behind the first of them. */
  lemma OnesOccur(ones: Bytes)
    requires AllOnes(ones) && ones != []
    ensures var body: Bytes := [48, 49] + (ones + [49, 48]);
            Index(body, ones) == 1 && HasAt(body, ones, 2)
  {
    var body: Bytes := [48, 49] + (ones + [49, 48]);
    var n := |ones|;
    assert body[0..n][0] == 48;
    assert body[1..1 + n] == ones && body[2..2 + n] == ones;
    assert HasAt(body, ones, 1) && !HasAt(body, ones, 0);
  }

  lemma HexOfOne()
    ensures HexDecode([48, 49]) == Decoded([0x01], true) && HexDecode([49, 48]) == Decoded([0x10], true)
  {
    var first, last: Bytes := [48, 49], [49, 48];
    assert first[2..] == [] && last[2..] == [];
  }

  lemma HexBetween(value: Bytes)
    ensures var body: Bytes := [48, 49] + (HexEncode(value) + [49, 48]);
            IsHex(body) && HexDecode(body).bytes == [0x01] + (value + [0x10])
  {
    HexOfOne();
    HexRoundTrip(value);
    EvenText(value);
    HexInParts([48, 49], HexEncode(value), [49, 48]);
  }

  /** Such transactions, for values of every size: when the byte 0x01 is in front of 0x11...11 and
      0x10 behind it, the text of the value occurs first between the bytes. */
  lemma MisalignedOccurrence(n: nat)
    requires n > 0
    ensures var value := Elevens(n);
            var body: Bytes := [48, 49] + (HexEncode(value) + [49, 48]);
            && IsHex(body) && HexDecode(body).bytes == [0x01] + (value + [0x10])
            && Index(body, HexEncode(value)) == 1 && HasAt(body, HexEncode(value), 2)
  {
    HexOfElevens(n);
    HexRoundTrip(Elevens(n));
    HexBetween(Elevens(n));
    OnesOccur(HexEncode(Elevens(n)));
  }

  /** What the transaction's ops hash when they are applied to any value. */
  function TxWith(body: Bytes, root: Bytes, value: Bytes): Bytes
    requires Index(body, root) >= 0
  {
    Around(body[..Index(body, root)], value, body[Index(body, root) + |root|..])
  }

  lemma TxOpsDoubleHash(h: Hasher, body: Bytes, root: Bytes, value: Bytes)
    requires Index(body, root) >= 0
    ensures Eval(h, value, Published(TxOps(body, root).value)) == h(h(TxWith(body, root, value)))
  {
    var at := Index(body, root);
    var l, r := body[..at], body[at + |root|..];
    PublishedConcat([LeftItem(l), RightItem(r)], [HASH_TWICE]);
    assert TxOps(body, root).value == [LeftItem(l), RightItem(r)] + [HASH_TWICE];
    EvalConcat(h, value, Published([LeftItem(l), RightItem(r)]), Published([HASH_TWICE]));
    EvalAround(h, l, value, r);
    HashTwice(h, Around(l, value, r));
  }

  lemma HashTwice(h: Hasher, value: Bytes)
    ensures Eval(h, value, Published([HASH_TWICE])) == h(h(value))
  {
    assert Published([HASH_TWICE]) == [PublishedItem(HASH_TWICE)];
    EvalOne(h, value, PublishedItem(HASH_TWICE));
    ApplyHash(h, value);
  }

  /** Different values of one size in the same place make different transactions. */
  lemma TxsDiffer(body: Bytes, root: Bytes, v: Bytes, w: Bytes)
    requires Index(body, root) >= 0 && v != w && |v| == |w|
    ensures TxWith(body, root, v) != TxWith(body, root, w)
  {
    var at := Index(body, root);
    AroundDiffers(Operand(JsonText(body[..at])), v, w, Operand(JsonText(body[at + |root|..])));
  }

  lemma AroundDiffers(l: Bytes, v: Bytes, w: Bytes, r: Bytes)
    requires v != w && |v| == |w|
    ensures l + v + r != l + w + r
  {
    MiddleOf(l, v, r);
    MiddleOf(l, w, r);
  }

  lemma MiddleOf(l: Bytes, v: Bytes, r: Bytes)
    ensures |l| + |v| <= |l + v + r| && (l + v + r)[|l|..|l| + |v|] == v
  {
  }

  /** The value the transaction's ops lead to: the double hash of its bytes. */
  lemma TxOpsLeadToDoubleHash(h: Hasher, body: Bytes, value: Bytes)
    requires IsHex(body) && TxOps(body, HexEncode(value)).Some? && Index(body, HexEncode(value)) % 2 == 0
    ensures Eval(h, value, Published(TxOps(body, HexEncode(value)).value)) == h(h(HexDecode(body).bytes))
  {
    var ops := TxOps(body, HexEncode(value)).value;
    TransactionIsRebuilt(h, body, value);
    assert ops == ops[..2] + [HASH_TWICE];
    assert Published(ops) == Published(ops[..2]) + [PublishedItem(HASH_TWICE)];
    EvalConcat(h, value, Published(ops[..2]), [PublishedItem(HASH_TWICE)]);
    EvalOne(h, HexDecode(body).bytes, PublishedItem(HASH_TWICE));
    ApplyHash(h, HexDecode(body).bytes);
  }

  // ---------- through the block ----------

  /** A step of the path that the monitoring service reports; one side is usually empty. */
  datatype JSProof = JSProof(left: Bytes, right: Bytes)

  function HeadItems(p: JSProof): seq<LineItem> {
    (if p.left != [] then [LeftItem(p.left)] else [])
    + (if p.right != [] then [RightItem(p.right)] else [])
    + [HASH_TWICE]
  }

  function HeadOps(path: seq<JSProof>): seq<LineItem> {
    if path == [] then []
    else HeadOps(path[..|path| - 1]) + HeadItems(path[|path| - 1])
  }

  /** The loop of ConsumeBtcMonMsg. */
  method BuildHeadOps(path: seq<JSProof>) returns (ops: seq<LineItem>)
    ensures ops == HeadOps(path)
  {
    ops := [];
    for i := 0 to |path|
      invariant ops == HeadOps(path[..i])
    {
      assert path[..i + 1][..i] == path[..i];
      ghost var before := ops;
      var p := path[i];
      if p.left != [] {
        ops := ops + [LeftItem(p.left)];
      }
      if p.right != [] {
        ops := ops + [RightItem(p.right)];
      }
      ops := ops + [HASH_TWICE];
      assert ops == before + HeadItems(p);
    }
    assert path[..|path|] == path;
  }

  /** The report of a Bitcoin-style Merkle proof. */
  function JsStep(step: ProofStep): JSProof {
    if step.left then JSProof(HexEncode(step.value), []) else JSProof([], HexEncode(step.value))
  }

  function JsPath(steps: seq<ProofStep>): seq<JSProof> {
    seq(|steps|, i requires 0 <= i < |steps| => JsStep(steps[i]))
  }

  lemma HeadStep(h: Hasher, step: ProofStep, value: Bytes)
    ensures Eval(h, value, Published(HeadItems(JsStep(step)))) == Absorb(h, true, step, value)
  {
    var text := HexEncode(step.value);
    var joined := if step.left then step.value + value else value + step.value;
    OperandOfHex(step.value);
    ApplyHash(h, joined);
    if text == [] {
      assert step.value == [];
      Neutral(value);
      EvalOne(h, value, PublishedItem(HASH_TWICE));
      assert Published(HeadItems(JsStep(step))) == [PublishedItem(HASH_TWICE)];
    } else {
      var item := if step.left then LeftItem(text) else RightItem(text);
      ApplyText(h, value, text);
      EvalPair(h, value, PublishedItem(item), PublishedItem(HASH_TWICE));
      HeadItemsOfStep(step);
    }
  }

  lemma HeadItemsOfStep(step: ProofStep)
    requires HexEncode(step.value) != []
    ensures Published(HeadItems(JsStep(step)))
         == [PublishedItem(if step.left then LeftItem(HexEncode(step.value)) else RightItem(HexEncode(step.value))),
             PublishedItem(HASH_TWICE)]
  {
  }

  /** Evaluating the ops of a reported path folds it, hashing twice at every step. */
  lemma {:induction false} HeadOpsFold(h: Hasher, steps: seq<ProofStep>, value: Bytes)
    ensures Eval(h, value, Published(HeadOps(JsPath(steps)))) == Fold(h, true, steps, value)
    decreases |steps|
  {
    if steps != [] {
      var n := |steps| - 1;
      var before := HeadOps(JsPath(steps[..n]));
      var last := HeadItems(JsStep(steps[n]));
      HeadOpsFold(h, steps[..n], value);
      HeadOpsOneMore(steps);
      EvalConcat(h, value, Published(before), Published(last));
      HeadStep(h, steps[n], Fold(h, true, steps[..n], value));
      FoldLast(h, steps, value);
    }
  }

  lemma HeadOpsOneMore(steps: seq<ProofStep>)
    requires steps != []
    ensures var n := |steps| - 1;
            Published(HeadOps(JsPath(steps))) == Published(HeadOps(JsPath(steps[..n]))) + Published(HeadItems(JsStep(steps[n])))
  {
    var n := |steps| - 1;
    assert JsPath(steps)[..n] == JsPath(steps[..n]);
    PublishedConcat(HeadOps(JsPath(steps[..n])), HeadItems(JsStep(steps[n])));
  }

  lemma FoldLast(h: Hasher, steps: seq<ProofStep>, value: Bytes)
    requires steps != []
    ensures var n := |steps| - 1;
            Fold(h, true, steps, value) == Absorb(h, true, steps[n], Fold(h, true, steps[..n], value))
  {
    var n := |steps| - 1;
    assert steps == steps[..n] + [steps[n]];
    FoldConcat(h, true, steps[..n], [steps[n]], value);
    FoldOne(h, true, steps[n], Fold(h, true, steps[..n], value));
  }

  /** From a transaction of a block, its reported path leads to the block's Merkle root. */
  lemma HeadOpsLeadToBlockRoot(h: Hasher, txids: seq<Bytes>, i: nat)
    requires i < |txids|
    ensures Eval(h, txids[i], Published(HeadOps(JsPath(Path(h, BITCOIN, txids, i))))) == Root(h, BITCOIN, txids)
  {
    HeadOpsFold(h, Path(h, BITCOIN, txids, i), txids[i]);
    PathFoldsToRoot(h, BITCOIN, txids, i);
  }
}
