/** Cipher block chaining over an abstract invertible block cipher, and what two
    parties that update their initialisation vectors per message can rely on. */
module Cbc {
  import opened Prelude
  import opened Arithmetic

  const BLOCK := 8

  type Block = b: seq<uint8> | |b| == BLOCK witness [0, 0, 0, 0, 0, 0, 0, 0]

  datatype Words = Words(left: uint32, right: uint32)

  /** A cipher on pairs of words, and its inverse. */
  datatype Cipher = Cipher(encipher: Words -> Words, decipher: Words -> Words)

  ghost predicate Invertible(c: Cipher) {
    forall w: Words :: c.decipher(c.encipher(w)) == w
  }

  // ---------------------------------------------------------------- blocks

  function ToWords(b: Block): Words {
    Words(Word(b[..4]), Word(b[4..]))
  }

  function FromWords(w: Words): Block {
    Be32(w.left) + Be32(w.right)
  }

  lemma Be32OfWord(s: Bytes)
    requires |s| == 4
    ensures Be32(Word(s)) == s
  {
    var a: int, b: int, c: int, d: int := s[0], s[1], s[2], s[3];
    var v := Word(s);
    ModUnique(v, 0x100_0000, a, b * 0x1_0000 + c * 0x100 + d);
    ModUnique(v, 0x1_0000, a * 0x100 + b, c * 0x100 + d);
    ModUnique(v, 0x100, a * 0x1_0000 + b * 0x100 + c, d);
    ModUnique(a * 0x100 + b, 0x100, a, b);
    ModUnique(a * 0x1_0000 + b * 0x100 + c, 0x100, a * 0x100 + b, c);
  }

  lemma WordsOfBlock(w: Words)
    ensures ToWords(FromWords(w)) == w
  {
    hide Be32, Word;
    assert FromWords(w)[..4] == Be32(w.left) && FromWords(w)[4..] == Be32(w.right);
  }

  lemma BlockOfWords(b: Block)
    ensures FromWords(ToWords(b)) == b
  {
    hide Be32, Word;
    Be32OfWord(b[..4]);
    Be32OfWord(b[4..]);
  }

  function Enc(c: Cipher, b: Block): Block {
    FromWords(c.encipher(ToWords(b)))
  }

  function Dec(c: Cipher, b: Block): Block {
    FromWords(c.decipher(ToWords(b)))
  }

  lemma DecEnc(c: Cipher, b: Block)
    requires Invertible(c)
    ensures Dec(c, Enc(c, b)) == b
  {
    hide ToWords, FromWords;
    WordsOfBlock(c.encipher(ToWords(b)));
    BlockOfWords(b);
  }

  // ---------------------------------------------------------------- exclusive or

  function XorBits(a: nat, b: nat, n: nat): nat {
    if n == 0 then 0 else 2 * XorBits(a / 2, b / 2, n - 1) + (a + b) % 2
  }

  lemma {:induction false} XorBound(a: nat, b: nat, n: nat)
    ensures XorBits(a, b, n) < Pow2(n)
  {
    if n > 0 { XorBound(a / 2, b / 2, n - 1); }
  }

  lemma {:induction false} XorTwice(a: nat, b: nat, n: nat)
    requires a < Pow2(n)
    ensures XorBits(XorBits(a, b, n), b, n) == a
  {
    if n > 0 {
      var y, r := XorBits(a / 2, b / 2, n - 1), (a + b) % 2;
      XorTwice(a / 2, b / 2, n - 1);
      XorStep(a, b, n, y, r);
    }
  }

  lemma XorStep(a: nat, b: nat, n: nat, y: nat, r: nat)
    requires n > 0 && y == XorBits(a / 2, b / 2, n - 1) && r == (a + b) % 2
    ensures XorBits(XorBits(a, b, n), b, n) == 2 * XorBits(y, b / 2, n - 1) + a % 2
  {
    hide XorBits;
    var x := XorBits(a, b, n);
    XorUnfold(a, b, n);
    XorUnfold(x, b, n);
    ModUnique(x, 2, y, r);
    Parity(a, b, y, r);
  }

  lemma XorUnfold(a: nat, b: nat, n: nat)
    requires n > 0
    ensures XorBits(a, b, n) == 2 * XorBits(a / 2, b / 2, n - 1) + (a + b) % 2
  {}

  lemma Parity(a: nat, b: nat, y: nat, r: nat)
    requires r == (a + b) % 2
    ensures (2 * y + r + b) % 2 == a % 2
  {}

  function XorByte(a: uint8, b: uint8): uint8 {
    XorBound(a, b, 8);
    Pow2Bytes();
    XorBits(a, b, 8)
  }

  function Xor(a: Block, b: Block): Block {
    seq(BLOCK, i requires 0 <= i < BLOCK => XorByte(a[i], b[i]))
  }

  lemma XorUndo(a: Block, b: Block)
    ensures Xor(Xor(a, b), b) == a
  {
    hide XorByte;
    forall i | 0 <= i < BLOCK ensures XorByte(XorByte(a[i], b[i]), b[i]) == a[i] { XorByteUndo(a[i], b[i]); }
  }

  lemma XorByteUndo(a: uint8, b: uint8)
    ensures XorByte(XorByte(a, b), b) == a
  {
    hide XorBits, Pow2;
    Pow2Bytes();
    XorTwice(a, b, 8);
  }

  // ---------------------------------------------------------------- chaining

  predicate Whole(data: Bytes) {
    |data| % BLOCK == 0
  }

  function Chain(c: Cipher, iv: Block, data: Bytes): (r: Bytes)
    requires Whole(data)
    ensures |r| == |data|
    decreases |data|
  {
    if data == [] then []
    else
      var first := Enc(c, Xor(data[..BLOCK], iv));
      first + Chain(c, first, data[BLOCK..])
  }

  function Unchain(c: Cipher, iv: Block, data: Bytes): (r: Bytes)
    requires Whole(data)
    ensures |r| == |data|
    decreases |data|
  {
    if data == [] then [] else Xor(Dec(c, data[..BLOCK]), iv) + Unchain(c, data[..BLOCK], data[BLOCK..])
  }

  /** Decryption undoes encryption under the same vector. */
  lemma {:induction false} UnchainChain(c: Cipher, iv: Block, data: Bytes)
    requires Invertible(c) && Whole(data)
    ensures Unchain(c, iv, Chain(c, iv, data)) == data
    decreases |data|
  {
    hide Enc, Dec, Xor, Invertible;
    if data != [] {
      var plain: Block := data[..BLOCK];
      var first := Enc(c, Xor(plain, iv));
      var cipher := Chain(c, iv, data);
      assert cipher[..BLOCK] == first && cipher[BLOCK..] == Chain(c, first, data[BLOCK..]);
      DecEnc(c, Xor(plain, iv));
      XorUndo(plain, iv);
      UnchainChain(c, first, data[BLOCK..]);
    }
  }

  lemma ChainStep(c: Cipher, iv: Block, data: Bytes)
    requires Whole(data) && data != []
    ensures var first := Enc(c, Xor(data[..BLOCK], iv)); Chain(c, iv, data) == first + Chain(c, first, data[BLOCK..])
  {}

  lemma ChainEnd(c: Cipher, iv: Block)
    ensures Chain(c, iv, []) == []
  {}

  lemma UnchainStep(c: Cipher, iv: Block, data: Bytes)
    requires Whole(data) && data != []
    ensures Unchain(c, iv, data) == Xor(Dec(c, data[..BLOCK]), iv) + Unchain(c, data[..BLOCK], data[BLOCK..])
  {}

  /** Block `i` of the plain text needs only two neighbouring cipher blocks. */
  lemma {:induction false} UnchainAt(c: Cipher, iv: Block, data: Bytes, i: nat)
    requires Whole(data) && i % BLOCK == 0 && i + BLOCK <= |data|
    ensures Unchain(c, iv, data)[i..i + BLOCK] == Xor(Dec(c, data[i..i + BLOCK]), if i == 0 then iv else data[i - BLOCK..i])
    decreases i
  {
    hide Enc, Dec, Xor, Unchain;
    UnchainStep(c, iv, data);
    var rest := Unchain(c, data[..BLOCK], data[BLOCK..]);
    if i > 0 {
      UnchainAt(c, data[..BLOCK], data[BLOCK..], i - BLOCK);
      assert Unchain(c, iv, data)[i..i + BLOCK] == rest[i - BLOCK..i];
      assert data[BLOCK..][i - BLOCK..i] == data[i..i + BLOCK];
      assert i > BLOCK ==> data[BLOCK..][i - 2 * BLOCK..i - BLOCK] == data[i - BLOCK..i];
    }
  }

  function Last(data: Bytes): Block
    requires |data| >= BLOCK
  {
    data[|data| - BLOCK..]
  }

  // ---------------------------------------------------------------- message by message

  /** The two vectors of a key state: the one in use and the one being made. */
  datatype Vectors = Vectors(riv: Block, liv: Block)

  predicate Message(m: Bytes) {
    m != [] && Whole(m)
  }

  predicate Messages(ms: seq<Bytes>) {
    forall i :: 0 <= i < |ms| ==> Message(ms[i])
  }

  /** Vectors after a message with cipher text `ct` and the swap. */
  function Advance(v: Vectors, ct: Bytes): Vectors
    requires Message(ct)
  {
    Vectors(Last(ct), v.riv)
  }

  /** The cipher texts of a sequence of messages. */
  function SendAll(c: Cipher, v: Vectors, ms: seq<Bytes>): (cts: seq<Bytes>)
    requires Messages(ms)
    ensures |cts| == |ms| && Messages(cts)
    decreases |ms|
  {
    if ms == [] then []
    else
      var ct := Chain(c, v.riv, ms[0]);
      [ct] + SendAll(c, Advance(v, ct), ms[1..])
  }

  function ReceiveAll(c: Cipher, v: Vectors, cts: seq<Bytes>): seq<Bytes>
    requires Messages(cts)
    decreases |cts|
  {
    if cts == [] then [] else [Unchain(c, v.riv, cts[0])] + ReceiveAll(c, Advance(v, cts[0]), cts[1..])
  }

  /** The vectors after a sequence of cipher texts: the same computation on both
      sides. */
  function After(v: Vectors, cts: seq<Bytes>): Vectors
    requires Messages(cts)
    decreases |cts|
  {
    if cts == [] then v else After(Advance(v, cts[0]), cts[1..])
  }

  lemma {:induction false} InStep(v: Vectors, w: Vectors, cts: seq<Bytes>)
    requires v.riv == w.riv && Messages(cts)
    ensures After(v, cts).riv == After(w, cts).riv
    ensures cts != [] ==> After(v, cts) == After(w, cts)
    decreases |cts|
  {
    if cts != [] { InStep(Advance(v, cts[0]), Advance(w, cts[0]), cts[1..]); }
  }

  /** For every sequence of non-empty block-multiple messages, a receiver that
      starts with the sender's vector recovers each of them, and the vectors in
      use agree after every message. */
  lemma {:induction false} Conversation(c: Cipher, sender: Vectors, receiver: Vectors, ms: seq<Bytes>, k: nat)
    requires Invertible(c) && Messages(ms) && sender.riv == receiver.riv && k <= |ms|
    ensures ReceiveAll(c, receiver, SendAll(c, sender, ms)) == ms
    ensures After(sender, SendAll(c, sender, ms)[..k]).riv == After(receiver, SendAll(c, sender, ms)[..k]).riv
    decreases |ms|
  {
    hide Invertible, Chain, Unchain;
    var cts := SendAll(c, sender, ms);
    InStep(sender, receiver, cts[..k]);
    if ms != [] {
      UnchainChain(c, sender.riv, ms[0]);
      var next := Advance(sender, cts[0]);
      assert cts[1..] == SendAll(c, next, ms[1..]);
      Conversation(c, next, Advance(receiver, cts[0]), ms[1..], 0);
    }
  }

  // ---------------------------------------------------------------- both directions

  /** A message to encrypt or one to decrypt, on the same key state. */
  datatype Op = Outgoing(data: Bytes) | Incoming(data: Bytes)

  predicate Ops(ops: seq<Op>) {
    forall i :: 0 <= i < |ops| ==> Message(ops[i].data)
  }

  /** What the message becomes. */
  function Output(c: Cipher, v: Vectors, op: Op): (out: Bytes)
    requires Message(op.data)
    ensures Message(out)
  {
    if op.Outgoing? then Chain(c, v.riv, op.data) else Unchain(c, v.riv, op.data)
  }

  function Evolve(c: Cipher, v: Vectors, ops: seq<Op>): Vectors
    requires Ops(ops)
  {
    if ops == [] then v
    else
      var w, op := Evolve(c, v, ops[..|ops| - 1]), ops[|ops| - 1];
      Advance(w, if op.Outgoing? then Output(c, w, op) else op.data)
  }

  function Outputs(c: Cipher, v: Vectors, ops: seq<Op>): seq<Bytes>
    requires Ops(ops)
  {
    if ops == [] then []
    else Outputs(c, v, ops[..|ops| - 1]) + [Output(c, Evolve(c, v, ops[..|ops| - 1]), ops[|ops| - 1])]
  }
}
