/**
  The operations of a Chainpoint proof, how the services write them and what a reader of the
  proof computes from them.
 */
module ProofOps {
  import opened ByteStrings
  import opened Merkle

  datatype HashOp = NoHash | Sha256 | Sha256x2

  /** A proof line item; an empty text stands for a field that is left out. */
  datatype LineItem = LineItem(l: Bytes, r: Bytes, op: HashOp)

  const HASH := LineItem([], [], Sha256)
  const HASH_TWICE := LineItem([], [], Sha256x2)

  function LeftItem(text: Bytes): LineItem {
    LineItem(text, [], NoHash)
  }

  function RightItem(text: Bytes): LineItem {
    LineItem([], text, NoHash)
  }

  // ---------- reading ----------

  /** The bytes an operand stands for: hexadecimal text is decoded, other text is taken as it is. */
  function Operand(text: Bytes): Bytes {
    if IsHex(text) then HexDecode(text).bytes else text
  }

  function Apply(h: Hasher, value: Bytes, item: LineItem): Bytes {
    var joined := Operand(item.l) + value + Operand(item.r);
    match item.op
    case NoHash => joined
    case Sha256 => h(joined)
    case Sha256x2 => h(h(joined))
  }

  function Eval(h: Hasher, value: Bytes, ops: seq<LineItem>): Bytes
    decreases |ops|
  {
    if ops == [] then value else Eval(h, Apply(h, value, ops[0]), ops[1..])
  }

  lemma {:induction false} EvalConcat(h: Hasher, value: Bytes, a: seq<LineItem>, b: seq<LineItem>)
    ensures Eval(h, value, a + b) == Eval(h, Eval(h, value, a), b)
    decreases |a|
  {
    if a == [] {
      assert a + b == b;
    } else {
      assert (a + b)[1..] == a[1..] + b;
      EvalConcat(h, Apply(h, value, a[0]), a[1..], b);
    }
  }

  lemma EvalOne(h: Hasher, value: Bytes, a: LineItem)
    ensures Eval(h, value, [a]) == Apply(h, value, a)
  {
    assert [a][1..] == [];
  }

  lemma EvalPair(h: Hasher, value: Bytes, a: LineItem, b: LineItem)
    ensures Eval(h, value, [a, b]) == Apply(h, Apply(h, value, a), b)
  {
    EvalOne(h, Apply(h, value, a), b);
    assert [a, b][1..] == [b];
  }

  // ---------- the way through JSON ----------

  function PublishedItem(item: LineItem): LineItem {
    LineItem(JsonText(item.l), JsonText(item.r), item.op)
  }

  /** The ops as the consumer of the published message gets them. */
  function Published(ops: seq<LineItem>): seq<LineItem> {
    seq(|ops|, i requires 0 <= i < |ops| => PublishedItem(ops[i]))
  }

  lemma PublishedConcat(a: seq<LineItem>, b: seq<LineItem>)
    ensures Published(a + b) == Published(a) + Published(b)
  {
  }

  /** What the published items do to a value. */
  lemma ApplyText(h: Hasher, value: Bytes, text: Bytes)
    ensures Apply(h, value, PublishedItem(LeftItem(text))) == Operand(JsonText(text)) + value
    ensures Apply(h, value, PublishedItem(RightItem(text))) == value + Operand(JsonText(text))
  {
    NoText();
    Neutral(value);
    Neutral(Operand(JsonText(text)) + value);
  }

  lemma ApplyHash(h: Hasher, value: Bytes)
    ensures Apply(h, value, PublishedItem(HASH)) == h(value)
    ensures Apply(h, value, PublishedItem(HASH_TWICE)) == h(h(value))
  {
    NoText();
    Neutral(value);
  }

  lemma NoText()
    ensures JsonText([]) == [] && Operand([]) == []
  {
  }

  lemma Neutral(value: Bytes)
    ensures [] + value == value && value + [] == value
  {
  }

  lemma OperandOfHex(b: Bytes)
    ensures Operand(JsonText(HexEncode(b))) == b && JsonText(HexEncode(b)) == HexEncode(b)
  {
    HexRoundTrip(b);
    JsonHex(HexEncode(b));
  }

  // ---------- writing proof steps ----------

  predicate HasMarker(value: Bytes) {
    Contains(value, Ascii("nistv2")) || Contains(value, Ascii("core_id"))
  }

  /** How a step's value is written: in hexadecimal, except that the aggregator writes left
      values with a marker in them as they are. */
  function StepText(step: ProofStep, aggregator: bool): Bytes {
    if aggregator && step.left && HasMarker(step.value) then step.value else HexEncode(step.value)
  }

  function StepItems(step: ProofStep, aggregator: bool): seq<LineItem> {
    var text := StepText(step, aggregator);
    [if step.left then LeftItem(text) else RightItem(text), HASH]
  }

  /** The items of a whole proof. */
  function Items(steps: seq<ProofStep>, aggregator: bool): seq<LineItem>
    decreases |steps|
  {
    if steps == [] then [] else StepItems(steps[0], aggregator) + Items(steps[1..], aggregator)
  }

  /** The loops that turn a proof's steps into line items. */
  method WriteSteps(steps: seq<ProofStep>, aggregator: bool) returns (proof: seq<LineItem>)
    ensures proof == Items(steps, aggregator)
  {
    proof := [];
    for k := 0 to |steps|
      invariant Items(steps, aggregator) == proof + Items(steps[k..], aggregator)
    {
      var p := steps[k];
      ItemsOneMore(steps, aggregator, k, proof);
      if p.left {
        if aggregator && HasMarker(p.value) {
          proof := proof + [LeftItem(p.value)];
        } else {
          proof := proof + [LeftItem(HexEncode(p.value))];
        }
      } else {
        proof := proof + [RightItem(HexEncode(p.value))];
      }
      proof := proof + [HASH];
    }
  }

  lemma ItemsOneMore(steps: seq<ProofStep>, aggregator: bool, k: nat, before: seq<LineItem>)
    requires k < |steps|
    ensures before + Items(steps[k..], aggregator)
         == before + [StepItems(steps[k], aggregator)[0]] + [HASH] + Items(steps[k + 1..], aggregator)
    ensures k + 1 == |steps| ==> Items(steps[k + 1..], aggregator) == []
  {
    assert steps[k..][1..] == steps[k + 1..];
    assert StepItems(steps[k], aggregator) == [StepItems(steps[k], aggregator)[0]] + [HASH];
  }

  // ---------- when a written value is read back ----------

  /** Somewhere in the value are the bytes of "nistv2" or those of "core_id". */
  ghost predicate Marked(value: Bytes) {
    || (exists i :: HasAt(value, [0x6E, 0x69, 0x73, 0x74, 0x76, 0x32], i))
    || (exists i :: HasAt(value, [0x63, 0x6F, 0x72, 0x65, 0x5F, 0x69, 0x64], i))
  }

  lemma MarkerIsMark(value: Bytes)
    ensures HasMarker(value) <==> Marked(value)
  {
    assert Ascii("nistv2") == [0x6E, 0x69, 0x73, 0x74, 0x76, 0x32];
    assert Ascii("core_id") == [0x63, 0x6F, 0x72, 0x65, 0x5F, 0x69, 0x64];
    OccursIfContained(value, Ascii("nistv2"));
    OccursIfContained(value, Ascii("core_id"));
  }

  lemma OccursIfContained(value: Bytes, sub: Bytes)
    ensures Contains(value, sub) <==> exists i :: HasAt(value, sub, i)
  {
    if Contains(value, sub) {
      assert HasAt(value, sub, Index(value, sub));
    }
  }

  /** The aggregator writes a left value as it is if and only if it is marked; every other value is
      written in hexadecimal. The empty value is written alike either way. */
  lemma WrittenAsItIs(step: ProofStep, aggregator: bool)
    ensures aggregator && step.left && Marked(step.value) ==> StepText(step, aggregator) == step.value
    ensures !(aggregator && step.left && Marked(step.value)) ==> StepText(step, aggregator) == HexEncode(step.value)
    ensures step.value != [] ==> (StepText(step, aggregator) == step.value <==> aggregator && step.left && Marked(step.value))
  {
    MarkerIsMark(step.value);
    HexRoundTrip(step.value);
  }

  /** A step whose value is not mangled by JSON: in hexadecimal, or well-formed UTF-8. */
  ghost predicate Legible(step: ProofStep, aggregator: bool) {
    aggregator && step.left && Marked(step.value) ==> IsUtf8(step.value)
  }

  lemma {:induction false} HexHasOnlyDigits(s: Bytes, i: nat)
    requires IsHex(s) && i < |s|
    ensures HexVal(s[i]) >= 0
  {
    if i >= 2 {
      HexHasOnlyDigits(s[2..], i - 2);
    }
  }

  /** A text with a marker in it is not hexadecimal: of the letters, n and o are no digits. */
  lemma MarkedIsNotHex(value: Bytes)
    requires HasMarker(value)
    ensures !IsHex(value)
  {
    var nist, core := Ascii("nistv2"), Ascii("core_id");
    if IsHex(value) {
      if Contains(value, nist) {
        var i := Index(value, nist);
        assert value[i] == value[i..i + |nist|][0] == nist[0];
        HexHasOnlyDigits(value, i);
      } else {
        var i := Index(value, core);
        assert value[i + 1] == value[i..i + |core|][1] == core[1];
        HexHasOnlyDigits(value, i + 1);
      }
    }
  }

  lemma {:induction false} MangledIsNotAscii(s: Bytes)
    requires !IsUtf8(s)
    ensures !IsAscii(JsonText(s))
  {
    var n := RuneLength(s);
    if n == 0 {
      assert JsonText(s)[0] == 0xEF;
    } else {
      MangledIsNotAscii(s[n..]);
      var i :| 0 <= i < |JsonText(s[n..])| && JsonText(s[n..])[i] >= 128;
      assert JsonText(s)[n + i] == JsonText(s[n..])[i];
    }
  }

  /** The reader gets a step's value back if and only if the step is legible. */
  lemma ReadBack(step: ProofStep, aggregator: bool)
    ensures Operand(JsonText(StepText(step, aggregator))) == step.value <==> Legible(step, aggregator)
  {
    var value := step.value;
    MarkerIsMark(value);
    if aggregator && step.left && HasMarker(value) {
      MarkedIsNotHex(value);
      JsonFaithful(value);
      if !IsUtf8(value) {
        MangledIsNotAscii(value);
        HexLength(JsonText(value));
      }
    } else {
      OperandOfHex(value);
    }
  }

  /** Evaluating the published items of a proof is folding its steps. */
  lemma {:induction false} EvalItems(h: Hasher, steps: seq<ProofStep>, aggregator: bool, value: Bytes)
    requires forall i :: 0 <= i < |steps| ==> Legible(steps[i], aggregator)
    ensures Eval(h, value, Published(Items(steps, aggregator))) == Fold(h, false, steps, value)
    decreases |steps|
  {
    if steps != [] {
      var first, rest := StepItems(steps[0], aggregator), Items(steps[1..], aggregator);
      EvalStep(h, steps[0], aggregator, value);
      PublishedConcat(first, rest);
      EvalConcat(h, value, Published(first), Published(rest));
      EvalItems(h, steps[1..], aggregator, Absorb(h, false, steps[0], value));
    }
  }

  lemma EvalStep(h: Hasher, step: ProofStep, aggregator: bool, value: Bytes)
    requires Legible(step, aggregator)
    ensures Eval(h, value, Published(StepItems(step, aggregator))) == Absorb(h, false, step, value)
  {
    var items, text := StepItems(step, aggregator), StepText(step, aggregator);
    ReadBack(step, aggregator);
    assert Published(items) == [PublishedItem(items[0]), PublishedItem(HASH)];
    EvalPair(h, value, PublishedItem(items[0]), PublishedItem(HASH));
    ApplyText(h, value, text);
    ApplyHash(h, if step.left then step.value + value else value + step.value);
  }
}
