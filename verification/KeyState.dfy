/** The key state with its double-buffered vectors, encrypting and decrypting in
    place. */
module KeyState {
  import opened Prelude
  import opened Cbc

  const MAXBLK := 16

  class KeyState {
    const cipher: Cipher
    const iv: array<uint8>
    const iv2: array<uint8>
    var riv: array<uint8>
    var liv: array<uint8>

    /** The two vectors are the two buffers, in one order or the other, so they
        never alias. */
    ghost predicate Valid()
      reads this
    {
      && iv != iv2 && iv.Length == MAXBLK && iv2.Length == MAXBLK
      && ((riv == iv && liv == iv2) || (riv == iv2 && liv == iv))
    }

    ghost function View(): Vectors
      requires Valid()
      reads this, iv, iv2
    {
      Vectors(riv[..BLOCK], liv[..BLOCK])
    }

    constructor (c: Cipher)
      ensures Valid() && cipher == c && fresh(iv) && fresh(iv2)
      ensures View() == Vectors([0, 0, 0, 0, 0, 0, 0, 0], [0, 0, 0, 0, 0, 0, 0, 0])
    {
      cipher := c;
      var a, b := new uint8[MAXBLK](_ => 0), new uint8[MAXBLK](_ => 0);
      iv, iv2 := a, b;
      riv, liv := a, b;
    }

    /** Copy the orientation together with the contents. */
    constructor Clone(other: KeyState)
      requires other.Valid()
      ensures Valid() && cipher == other.cipher && fresh(iv) && fresh(iv2)
      ensures View() == other.View() && (riv == iv <==> other.riv == other.iv)
    {
      cipher := other.cipher;
      var a := new uint8[MAXBLK](i requires 0 <= i < other.iv.Length reads other.iv => other.iv[i]);
      var b := new uint8[MAXBLK](i requires 0 <= i < other.iv2.Length reads other.iv2 => other.iv2[i]);
      iv, iv2 := a, b;
      if other.riv == other.iv {
        riv, liv := a, b;
      } else {
        riv, liv := b, a;
      }
      new;
      assert iv[..BLOCK] == other.iv[..BLOCK] && iv2[..BLOCK] == other.iv2[..BLOCK];
    }

    method InitIv(buf: Block)
      requires Valid()
      modifies iv, iv2
      ensures View() == old(View()).(riv := buf)
    {
      ghost var other := liv[..BLOCK];
      for i := 0 to BLOCK
        invariant riv[..i] == buf[..i] && liv[..BLOCK] == other
      {
        riv[i] := buf[i];
      }
      assert riv[..BLOCK] == buf;
    }

    method UpdateIv()
      requires Valid()
      modifies this
      ensures Valid() && View() == Vectors(old(View()).liv, old(View()).riv)
    {
      riv, liv := liv, riv;
    }

    method CopyBlock(src: array<uint8>, at: nat, dst: array<uint8>)
      requires at + BLOCK <= src.Length && BLOCK <= dst.Length && src != dst
      modifies dst
      ensures dst[..BLOCK] == old(src[at..at + BLOCK])
    {
      for i := 0 to BLOCK
        invariant src[..] == old(src[..]) && dst[..i] == src[at..at + i]
      {
        dst[i] := src[at + i];
      }
    }

    method StoreBlock(b: Block, dst: array<uint8>, at: nat)
      requires at + BLOCK <= dst.Length
      modifies dst
      ensures dst[..] == old(dst[..])[..at] + b + old(dst[..])[at + BLOCK..]
    {
      for i := 0 to BLOCK
        invariant forall j :: 0 <= j < dst.Length ==> dst[j] == if at <= j < at + i then b[j - at] else old(dst[j])
      {
        dst[at + i] := b[i];
      }
    }

    /** Forward over the message, each block under the previous cipher block. */
    method BlfEncrypt(data: array<uint8>)
      requires Valid() && Whole(data[..]) && data != iv && data != iv2
      modifies data, liv
      ensures data[..] == Chain(cipher, old(View()).riv, old(data[..])) && View().riv == old(View()).riv
      ensures data.Length > 0 ==> View().liv == Last(data[..])
    {
      hide Chain;
      CopyBlock(riv, 0, liv);
      ghost var start, whole := old(View()).riv, Chain(cipher, old(View()).riv, old(data[..]));
      var i := 0;
      assert data[0..] == data[..] && data[..0] + Chain(cipher, start, data[..]) == whole;
      while i < data.Length
        invariant 0 <= i <= data.Length && i % BLOCK == 0 && Whole(data[i..])
        invariant riv[..BLOCK] == start
        invariant data[..i] + Chain(cipher, liv[..BLOCK], data[i..]) == whole
        invariant i > 0 ==> liv[..BLOCK] == data[i - BLOCK..i]
      {
        EncryptNext(data, i, whole);
        i := i + BLOCK;
      }
      ChainEnd(cipher, liv[..BLOCK]);
      assert data[i..] == [] && data[..i] + [] == data[..];
    }

    /** One more block done; what is done and what the rest will become stay
        the whole cipher text. */
    method EncryptNext(data: array<uint8>, i: nat, ghost whole: Bytes)
      requires Valid() && i + BLOCK <= data.Length && Whole(data[i..]) && data != iv && data != iv2
      requires data[..i] + Chain(cipher, liv[..BLOCK], data[i..]) == whole
      modifies data, liv
      ensures riv[..BLOCK] == old(riv[..BLOCK]) && liv[..BLOCK] == data[i..i + BLOCK] && Whole(data[i + BLOCK..])
      ensures data[..i + BLOCK] + Chain(cipher, liv[..BLOCK], data[i + BLOCK..]) == whole
    {
      hide Enc, Xor, Chain;
      ghost var prev: Block := liv[..BLOCK];
      ghost var before, rest := data[..i], data[i..];
      EncryptBlock(data, i);
      assert data[i + BLOCK..] == rest[BLOCK..];
      ChainAdvance(cipher, prev, before, rest, data[i..i + BLOCK], data[i + BLOCK..]);
      assert data[..i + BLOCK] == before + data[i..i + BLOCK];
    }

    /** Encrypt the block at `i` under the vector, which becomes its result. */
    method EncryptBlock(data: array<uint8>, i: nat)
      requires Valid() && i + BLOCK <= data.Length && data != iv && data != iv2
      modifies data, liv
      ensures data[..i] == old(data[..i]) && data[i + BLOCK..] == old(data[i + BLOCK..])
      ensures data[i..i + BLOCK] == Enc(cipher, Xor(old(data[i..])[..BLOCK], old(liv[..BLOCK])))
      ensures liv[..BLOCK] == data[i..i + BLOCK] && riv[..BLOCK] == old(riv[..BLOCK])
    {
      hide Enc, Xor;
      assert data[i..][..BLOCK] == data[i..i + BLOCK];
      var block := Enc(cipher, Xor(data[i..i + BLOCK], liv[..BLOCK]));
      StoreBlock(block, data, i);
      assert data[i..i + BLOCK] == block;
      CopyBlock(data, i, liv);
    }

    /** Backward over the message: every block still finds the cipher block
        before it. */
    method BlfDecrypt(data: array<uint8>)
      requires Valid() && Message(data[..]) && data != iv && data != iv2
      modifies data
      ensures data[..] == Unchain(cipher, old(View()).riv, old(data[..]))
    {
      hide Dec, Xor, Unchain;
      ghost var start, ct := old(View()).riv, old(data[..]);
      ghost var target := Unchain(cipher, start, ct);
      var i := data.Length - BLOCK;
      assert data[i + BLOCK..] == target[i + BLOCK..];
      while i >= BLOCK
        invariant 0 <= i <= data.Length - BLOCK && i % BLOCK == 0 && |target| == |ct| == data.Length
        invariant data[..i + BLOCK] == ct[..i + BLOCK] && data[i + BLOCK..] == target[i + BLOCK..]
        invariant riv[..BLOCK] == start
        decreases i
      {
        DecryptBlock(data, i, data[i - BLOCK..i], ct, start, target);
        i := i - BLOCK;
      }
      DecryptBlock(data, 0, riv[..BLOCK], ct, start, target);
      assert data[..] == data[0..] && target == target[0..];
    }

    /** Decrypt the block at `i`, with everything behind it already done. */
    method DecryptBlock(data: array<uint8>, i: nat, prev: Block, ghost ct: Bytes, ghost start: Block, ghost target: Bytes)
      requires i + BLOCK <= data.Length && i % BLOCK == 0 && Whole(ct) && |ct| == data.Length
      requires target == Unchain(cipher, start, ct)
      requires data[..i + BLOCK] == ct[..i + BLOCK] && data[i + BLOCK..] == target[i + BLOCK..]
      requires prev == if i == 0 then start else ct[i - BLOCK..i]
      modifies data
      ensures data[..i] == ct[..i] && data[i..] == target[i..]
    {
      hide Dec, Xor, Unchain;
      assert data[i..i + BLOCK] == data[..i + BLOCK][i..] == ct[i..i + BLOCK];
      UnchainAt(cipher, start, ct, i);
      ghost var before := data[..];
      var block := Xor(Dec(cipher, data[i..i + BLOCK]), prev);
      StoreBlock(block, data, i);
      assert before[..i] == before[..i + BLOCK][..i] && before[i + BLOCK..] == target[i + BLOCK..];
      assert data[i..] == block + before[i + BLOCK..];
      assert target[i..] == target[i..i + BLOCK] + target[i + BLOCK..];
    }

    method Encrypt(data: array<uint8>)
      requires Valid() && Message(data[..]) && data != iv && data != iv2
      modifies data, liv
      ensures data[..] == Chain(cipher, old(View()).riv, old(data[..]))
      ensures Message(data[..]) && View() == Vectors(old(View()).riv, Last(data[..]))
    {
      hide Chain;
      BlfEncrypt(data);
      CopyBlock(data, data.Length - BLOCK, liv);
    }

    /** The last cipher block is saved before it is overwritten. */
    method Decrypt(data: array<uint8>)
      requires Valid() && Message(data[..]) && data != iv && data != iv2
      modifies data, liv
      ensures data[..] == Unchain(cipher, old(View()).riv, old(data[..]))
      ensures View() == Vectors(old(View()).riv, Last(old(data[..])))
    {
      hide Unchain;
      CopyBlock(data, data.Length - BLOCK, liv);
      BlfDecrypt(data);
    }

    /** One message out, and the swap that makes its last block the next vector. */
    method SendMessage(data: array<uint8>)
      requires Valid() && Message(data[..]) && data != iv && data != iv2
      modifies this, iv, iv2, data
      ensures Valid() && data[..] == SendAll(cipher, old(View()), [old(data[..])])[0]
      ensures Message(data[..]) && View() == Advance(old(View()), data[..])
    {
      hide Chain;
      Encrypt(data);
      UpdateIv();
    }

    method ReceiveMessage(data: array<uint8>)
      requires Valid() && Message(data[..]) && data != iv && data != iv2
      modifies this, iv, iv2, data
      ensures Valid() && data[..] == ReceiveAll(cipher, old(View()), [old(data[..])])[0]
      ensures View() == Advance(old(View()), old(data[..]))
    {
      hide Unchain;
      Decrypt(data);
      UpdateIv();
    }
  }

  /** Moving one block from what is to be chained to what is done. */
  lemma ChainAdvance(c: Cipher, iv: Block, done: Bytes, rest: Bytes, first: Block, tail: Bytes)
    requires Whole(rest) && Whole(tail) && |rest| >= BLOCK && tail == rest[BLOCK..]
    requires first == Enc(c, Xor(rest[..BLOCK], iv))
    ensures done + Chain(c, iv, rest) == (done + first) + Chain(c, first, tail)
  {
    hide Enc, Xor, Chain;
    ChainStep(c, iv, rest);
    assert done + (first + Chain(c, first, tail)) == (done + first) + Chain(c, first, tail);
  }

  /** Any sequence of messages in both directions, each in a buffer of its own. */
  method Exchange(ks: KeyState, ops: seq<Op>) returns (out: seq<Bytes>)
    requires ks.Valid() && Ops(ops)
    modifies ks, ks.iv, ks.iv2
    ensures ks.Valid() && out == Outputs(ks.cipher, old(ks.View()), ops)
    ensures ks.View() == Evolve(ks.cipher, old(ks.View()), ops)
  {
    hide Chain, Unchain, SendAll, ReceiveAll, Output;
    out := [];
    for i := 0 to |ops|
      invariant ks.Valid() && out == Outputs(ks.cipher, old(ks.View()), ops[..i])
      invariant ks.View() == Evolve(ks.cipher, old(ks.View()), ops[..i])
    {
      assert ops[..i + 1][..i] == ops[..i];
      var bytes := ops[i].data;
      var data := new uint8[|bytes|](j requires 0 <= j < |bytes| => bytes[j]);
      assert data[..] == bytes;
      OneMessage(ks.cipher, ks.View(), ops[i]);
      if ops[i].Outgoing? {
        ks.SendMessage(data);
      } else {
        ks.ReceiveMessage(data);
      }
      out := out + [data[..]];
    }
    assert ops[..|ops|] == ops;
  }

  lemma OneMessage(c: Cipher, v: Vectors, op: Op)
    requires Message(op.data)
    ensures op.Outgoing? ==> SendAll(c, v, [op.data])[0] == Output(c, v, op)
    ensures op.Incoming? ==> ReceiveAll(c, v, [op.data])[0] == Output(c, v, op)
  {}

  /** A clone goes on as the original would have, whatever messages follow, and
      neither of the two notices what the other is used for. */
  method CloneAgrees(ks: KeyState, ops: seq<Op>, others: seq<Op>)
    returns (clone: KeyState, out: seq<Bytes>, otherOut: seq<Bytes>)
    requires ks.Valid() && Ops(ops) && Ops(others)
    modifies ks, ks.iv, ks.iv2
    ensures ks.Valid() && clone.Valid() && fresh(clone) && fresh(clone.iv) && fresh(clone.iv2)
    ensures out == Outputs(ks.cipher, old(ks.View()), ops) && otherOut == Outputs(ks.cipher, old(ks.View()), others)
    ensures clone.View() == Evolve(ks.cipher, old(ks.View()), ops) && ks.View() == Evolve(ks.cipher, old(ks.View()), others)
  {
    hide Outputs, Evolve;
    clone := new KeyState.Clone(ks);
    out := Exchange(clone, ops);
    assert ks.View() == old(ks.View());
    otherOut := Exchange(ks, others);
  }
}
