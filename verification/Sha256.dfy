/** SHA-256 fed a piece at a time: sections 5.1.1 and 6.2 of FIPS 180-4. */
module Sha256 {
  const TWO64: nat := 0x1_0000_0000_0000_0000

  // ----- The functions of section 4.1.2 -----

  function RotateRight(x: bv32, n: nat): bv32
    requires 0 < n < 32
  {
    (x >> n) | (x << (32 - n))
  }

  /** Addition modulo 2^32 */
  function Plus(x: bv32, y: bv32): bv32 {
    x + y
  }

  function Xor(x: bv32, y: bv32, z: bv32): bv32 {
    (x ^ y) ^ z
  }

  function Ch(x: bv32, y: bv32, z: bv32): bv32 {
    (x & y) ^ (!x & z)
  }

  function Maj(x: bv32, y: bv32, z: bv32): bv32 {
    ((x & y) ^ (x & z)) ^ (y & z)
  }

  function BigSigma0(x: bv32): bv32 {
    Xor(RotateRight(x, 2), RotateRight(x, 13), RotateRight(x, 22))
  }

  function BigSigma1(x: bv32): bv32 {
    Xor(RotateRight(x, 6), RotateRight(x, 11), RotateRight(x, 25))
  }

  function SmallSigma0(x: bv32): bv32 {
    Xor(RotateRight(x, 7), RotateRight(x, 18), x >> 3)
  }

  function SmallSigma1(x: bv32): bv32 {
    Xor(RotateRight(x, 17), RotateRight(x, 19), x >> 10)
  }

  const K: seq<seq<bv32>> := [
    [0x428a2f98, 0x71374491, 0xb5c0fbcf, 0xe9b5dba5, 0x3956c25b, 0x59f111f1, 0x923f82a4, 0xab1c5ed5],
    [0xd807aa98, 0x12835b01, 0x243185be, 0x550c7dc3, 0x72be5d74, 0x80deb1fe, 0x9bdc06a7, 0xc19bf174],
    [0xe49b69c1, 0xefbe4786, 0x0fc19dc6, 0x240ca1cc, 0x2de92c6f, 0x4a7484aa, 0x5cb0a9dc, 0x76f988da],
    [0x983e5152, 0xa831c66d, 0xb00327c8, 0xbf597fc7, 0xc6e00bf3, 0xd5a79147, 0x06ca6351, 0x14292967],
    [0x27b70a85, 0x2e1b2138, 0x4d2c6dfc, 0x53380d13, 0x650a7354, 0x766a0abb, 0x81c2c92e, 0x92722c85],
    [0xa2bfe8a1, 0xa81a664b, 0xc24b8b70, 0xc76c51a3, 0xd192e819, 0xd6990624, 0xf40e3585, 0x106aa070],
    [0x19a4c116, 0x1e376c08, 0x2748774c, 0x34b0bcb5, 0x391c0cb3, 0x4ed8aa4a, 0x5b9cca4f, 0x682e6ff3],
    [0x748f82ee, 0x78a5636f, 0x84c87814, 0x8cc70208, 0x90befffa, 0xa4506ceb, 0xbef9a3f7, 0xc67178f2]]

  function Constant(t: nat): bv32
    requires t < 64
  {
    assert |K| == 8 && forall i | 0 <= i < 8 :: |K[i]| == 8;
    K[t / 8][t % 8]
  }

  // ----- One block, section 6.2.2 -----

  datatype Words = Words(a: bv32, b: bv32, c: bv32, d: bv32, e: bv32, f: bv32, g: bv32, h: bv32)

  const Initial := Words(0x6a09e667, 0xbb67ae85, 0x3c6ef372, 0xa54ff53a, 0x510e527f, 0x9b05688c, 0x1f83d9ab, 0x5be0cd19)

  type Block = s: seq<bv8> | |s| == 64 witness seq(64, i => 0)

  function Word(block: Block, i: nat): bv32
    requires i < 16
  {
    (((block[4 * i] as bv32) << 24) | ((block[4 * i + 1] as bv32) << 16)) | ((block[4 * i + 2] as bv32) << 8)
      | (block[4 * i + 3] as bv32)
  }

  /** The message schedule */
  function Schedule(block: Block, t: nat): bv32
    requires t < 64
  {
    if t < 16 then Word(block, t)
    else Plus(Plus(Plus(SmallSigma1(Schedule(block, t - 2)), Schedule(block, t - 7)),
                   SmallSigma0(Schedule(block, t - 15))), Schedule(block, t - 16))
  }

  function Round(w: Words, k: bv32, m: bv32): Words {
    var t1 := Plus(Plus(Plus(Plus(w.h, BigSigma1(w.e)), Ch(w.e, w.f, w.g)), k), m);
    var t2 := Plus(BigSigma0(w.a), Maj(w.a, w.b, w.c));
    Words(Plus(t1, t2), w.a, w.b, w.c, Plus(w.d, t1), w.e, w.f, w.g)
  }

  function Rounds(block: Block, w: Words, t: nat): Words
    requires t <= 64
  {
    if t == 0 then w else Round(Rounds(block, w, t - 1), Constant(t - 1), Schedule(block, t - 1))
  }

  function Compress(w: Words, block: Block): Words {
    var r := Rounds(block, w, 64);
    Words(Plus(w.a, r.a), Plus(w.b, r.b), Plus(w.c, r.c), Plus(w.d, r.d), Plus(w.e, r.e), Plus(w.f, r.f),
          Plus(w.g, r.g), Plus(w.h, r.h))
  }

  // ----- A whole message -----

  /** The compression function folded over the whole blocks of `s` */
  function Fold(w: Words, s: seq<bv8>): Words
    decreases |s|
  {
    if |s| < 64 then w else Fold(Compress(w, s[..64]), s[64..])
  }

  function Zeros(n: nat): (s: seq<bv8>)
    ensures |s| == n && forall i | 0 <= i < n :: s[i] == 0
  {
    seq(n, i => 0)
  }

  function ByteAt(v: nat, shift: nat): bv8
    requires shift > 0
  {
    (v / shift % 256) as bv8
  }

  /** 64 bits, the most significant byte first */
  function Length64(v: nat): (s: seq<bv8>)
    ensures |s| == 8
  {
    [ByteAt(v, 0x100_0000_0000_0000), ByteAt(v, 0x1_0000_0000_0000),
     ByteAt(v, 0x100_0000_0000), ByteAt(v, 0x1_0000_0000),
     ByteAt(v, 0x100_0000), ByteAt(v, 0x1_0000), ByteAt(v, 0x100), ByteAt(v, 1)]
  }

  /** Section 5.1.1: a 1 bit, as few 0 bits as it takes, and the length in bits */
  function Pad(message: seq<bv8>): seq<bv8> {
    message + [0x80] + Zeros((119 - |message| % 64) % 64) + Length64(8 * |message|)
  }

  lemma PadIsBlocks(message: seq<bv8>)
    ensures |Pad(message)| % 64 == 0 && |Pad(message)| - |message| < 64 + 9
  {
    hide Zeros, Length64;
    ZeroCount(|message| % 64);
    Padding(|message|, |message| % 64);
  }

  lemma Padding(length: nat, n: nat)
    requires n == length % 64
    ensures (length - n + 64) % 64 == 0 && (length - n + 128) % 64 == 0
  {
  }

  function WordOf(w: Words, k: nat): bv32
    requires k < 8
  {
    match k
    case 0 => w.a
    case 1 => w.b
    case 2 => w.c
    case 3 => w.d
    case 4 => w.e
    case 5 => w.f
    case 6 => w.g
    case 7 => w.h
  }

  function ByteOfWord(w: bv32, i: nat): bv8
    requires i < 4
  {
    ((w >> (24 - i * 8)) & 0xFF) as bv8
  }

  /** The words, each with its most significant byte first */
  function Digest(w: Words): (s: seq<bv8>)
    ensures |s| == 32
  {
    seq(32, j requires 0 <= j < 32 => ByteOfWord(WordOf(w, j / 4), j % 4))
  }

  function Hash(message: seq<bv8>): seq<bv8> {
    Digest(Fold(Initial, Pad(message)))
  }

  lemma {:induction false} FoldMore(w: Words, s: seq<bv8>, block: Block)
    requires |s| % 64 == 0
    ensures Fold(w, s + block) == Compress(Fold(w, s), block)
    decreases |s|
  {
    hide Compress;
    if |s| == 0 {
      assert (s + block)[..64] == block && |(s + block)[64..]| == 0;
    } else {
      assert (s + block)[..64] == s[..64] && (s + block)[64..] == s[64..] + block;
      FoldMore(Compress(w, s[..64]), s[64..], block);
    }
  }

  // ----- The context -----

  /** The message is whole blocks, counted and mixed in, and what is in the buffer */
  ghost predicate Holds(message: seq<bv8>, buffer: seq<bv8>, bits: nat, state: Words) {
    && |buffer| <= |message| && (|message| - |buffer|) % 64 == 0
    && buffer == message[|message| - |buffer|..]
    && bits == 8 * (|message| - |buffer|) % TWO64
    && state == Fold(Initial, message[..|message| - |buffer|])
  }

  lemma HoldsNothing()
    ensures Holds([], [], 0, Initial)
  {
  }

  lemma HoldsMore(message: seq<bv8>, buffer: seq<bv8>, bits: nat, state: Words, b: bv8)
    requires Holds(message, buffer, bits, state)
    ensures Holds(message + [b], buffer + [b], bits, state)
  {
    hide Fold;
    var at := |message| - |buffer|;
    assert (message + [b])[..at] == message[..at];
    assert (message + [b])[at..] == message[at..] + [b];
  }

  /** A full buffer mixed in */
  lemma HoldsBlock(message: seq<bv8>, buffer: Block, bits: nat, state: Words)
    requires Holds(message, buffer, bits, state)
    ensures Holds(message, [], (bits + 512) % TWO64, Compress(state, buffer))
  {
    hide Fold, Compress;
    var head := message[..|message| - 64];
    assert message == head + buffer;
    assert message[..|message|] == message;
    FoldMore(Initial, head, buffer);
    BlocksMore(|message| - 64, bits);
  }

  lemma BlocksMore(n: nat, bits: nat)
    requires bits == 8 * n % TWO64 && n % 64 == 0
    ensures (bits + 512) % TWO64 == 8 * (n + 64) % TWO64 && (n + 64) % 64 == 0
  {
  }

  class Context {
    var data: array<bv8>
    var dataLength: nat
    var bitLength: nat      // 64 bits
    var state: Words
    /** All that was ever put in */
    ghost var message: seq<bv8>

    ghost predicate Valid()
      reads this, data
    {
      data.Length == 64 && dataLength < 64 && Holds(message, data[..dataLength], bitLength, state)
    }

    /** sha256_init */
    constructor ()
      ensures Valid() && fresh(data) && message == []
    {
      data := new bv8[64];
      dataLength := 0;
      bitLength := 0;
      state := Initial;
      message := [];
      HoldsNothing();
    }

    /** sha256_transform */
    method Transform(block: Block)
      modifies `state
      ensures state == Compress(old(state), block)
    {
      hide Plus, Word, SmallSigma0, SmallSigma1, Round, Constant;
      var m := new bv32[64];
      for i := 0 to 16
        invariant state == old(state) && forall k | 0 <= k < i :: m[k] == Schedule(block, k)
      {
        m[i] := Word(block, i);
      }
      for i := 16 to 64
        invariant state == old(state) && forall k | 0 <= k < i :: m[k] == Schedule(block, k)
      {
        m[i] := Plus(Plus(Plus(SmallSigma1(m[i - 2]), m[i - 7]), SmallSigma0(m[i - 15])), m[i - 16]);
      }
      var w := state;
      for i := 0 to 64
        invariant w == Rounds(block, old(state), i) && state == old(state)
        invariant forall k | 0 <= k < 64 :: m[k] == Schedule(block, k)
      {
        w := Mixed(w, Constant(i), m[i]);
      }
      state := Words(Plus(state.a, w.a), Plus(state.b, w.b), Plus(state.c, w.c), Plus(state.d, w.d),
                     Plus(state.e, w.e), Plus(state.f, w.f), Plus(state.g, w.g), Plus(state.h, w.h));
    }

    /** The body of the round loop, one register after another */
    static method Mixed(w: Words, k: bv32, m: bv32) returns (r: Words)
      ensures r == Round(w, k, m)
    {
      hide Plus, BigSigma0, BigSigma1, Ch, Maj;
      var a, b, c, d, e, f, g, h := w.a, w.b, w.c, w.d, w.e, w.f, w.g, w.h;
      var t1 := Plus(Plus(Plus(Plus(h, BigSigma1(e)), Ch(e, f, g)), k), m);
      var t2 := Plus(BigSigma0(a), Maj(a, b, c));
      h := g;
      g := f;
      f := e;
      e := Plus(d, t1);
      d := c;
      c := b;
      b := a;
      a := Plus(t1, t2);
      r := Words(a, b, c, d, e, f, g, h);
    }

    /** One byte of an update */
    method Put(b: bv8)
      requires Valid()
      modifies this, data
      ensures Valid() && data == old(data) && message == old(message) + [b]
    {
      hide Holds, Compress;
      ghost var before := data[..dataLength];
      HoldsMore(message, before, bitLength, state, b);
      data[dataLength] := b;
      dataLength := dataLength + 1;
      message := message + [b];
      assert data[..dataLength] == before + [b];
      if dataLength == 64 {
        var block := data[..];
        assert block == data[..dataLength];
        HoldsBlock(message, block, bitLength, state);
        Transform(block);
        bitLength := (bitLength + 512) % TWO64;
        dataLength := 0;
        assert data[..0] == [];
      }
    }

    /** sha256_update: whatever was cut how, the message is all of it in order */
    method Update(bytes: seq<bv8>)
      requires Valid()
      modifies this, data
      ensures Valid() && data == old(data) && message == old(message) + bytes
    {
      hide Fold, Valid;
      assert message == old(message) + bytes[..0];
      for i := 0 to |bytes|
        invariant Valid() && data == old(data) && message == old(message) + bytes[..i]
      {
        Put(bytes[i]);
        assert bytes[..i + 1] == bytes[..i] + [bytes[i]];
      }
      assert bytes[..|bytes|] == bytes;
    }

    /** Zeros in the block from `from` up to `to` */
    method FillZeros(from: nat, to: nat)
      requires from <= to <= data.Length
      modifies data
      ensures data[..] == old(data[..from]) + Zeros(to - from) + old(data[to..])
    {
      var i := from;
      while i < to
        invariant from <= i <= to && data[..] == old(data[..from]) + Zeros(i - from) + old(data[i..])
      {
        data[i] := 0;
        i := i + 1;
      }
    }

    /** The length into the last eight bytes */
    method StoreLength()
      requires data.Length == 64
      modifies data
      ensures data[..] == old(data[..56]) + Length64(bitLength)
    {
      hide ByteAt;
      data[63] := ByteAt(bitLength, 1);
      data[62] := ByteAt(bitLength, 0x100);
      data[61] := ByteAt(bitLength, 0x1_0000);
      data[60] := ByteAt(bitLength, 0x100_0000);
      data[59] := ByteAt(bitLength, 0x1_0000_0000);
      data[58] := ByteAt(bitLength, 0x100_0000_0000);
      data[57] := ByteAt(bitLength, 0x1_0000_0000_0000);
      data[56] := ByteAt(bitLength, 0x100_0000_0000_0000);
    }

    /** sha256_final */
    method Final(hash: array<bv8>)
      requires Valid() && hash.Length == 32 && hash != data && |message| < 0x2000_0000_0000_0000
      modifies this, data, hash
      ensures hash[..] == Hash(old(message))
    {
      hide Fold, Compress, Zeros, Length64, Digest;
      ghost var head, tail := message[..|message| - dataLength], message[|message| - dataLength..];
      assert message == head + tail;
      var i := dataLength;
      bitLength := (bitLength + dataLength * 8) % TWO64;
      LengthInBits(|message|, dataLength, bitLength);
      data[i] := 0x80;
      assert data[..i + 1] == tail + [0x80];
      if dataLength < 56 {
        FillZeros(i + 1, 56);
        assert data[..56] == tail + [0x80] + Zeros(55 - i);
        StoreLength();
        PadShort(head, tail, data[..]);
      } else {
        FillZeros(i + 1, 64);
        ghost var first := data[..];
        assert first == tail + [0x80] + Zeros(63 - i);
        Transform(data[..]);
        FillZeros(0, 56);
        assert data[..56] == Zeros(56);
        StoreLength();
        PadLong(head, tail, first, data[..]);
      }
      Transform(data[..]);
      StoreDigest(hash);
    }

    method StoreDigest(hash: array<bv8>)
      requires hash.Length == 32
      modifies hash
      ensures hash[..] == Digest(state)
    {
      hide ByteOfWord;
      for i := 0 to 4
        invariant forall j | 0 <= j < 32 && j % 4 < i :: hash[j] == ByteOfWord(WordOf(state, j / 4), j % 4)
      {
        StoreColumn(hash, i);
        forall j | 0 <= j < 32 && j % 4 == i
          ensures hash[j] == ByteOfWord(WordOf(state, j / 4), i)
        {
          assert j == i + 4 * (j / 4);
        }
      }
    }

    /** Byte `i` of every word */
    method StoreColumn(hash: array<bv8>, i: nat)
      requires hash.Length == 32 && i < 4
      modifies hash
      ensures hash[i] == ByteOfWord(state.a, i) && hash[i + 4] == ByteOfWord(state.b, i)
      ensures hash[i + 8] == ByteOfWord(state.c, i) && hash[i + 12] == ByteOfWord(state.d, i)
      ensures hash[i + 16] == ByteOfWord(state.e, i) && hash[i + 20] == ByteOfWord(state.f, i)
      ensures hash[i + 24] == ByteOfWord(state.g, i) && hash[i + 28] == ByteOfWord(state.h, i)
      ensures forall j | 0 <= j < 32 && j % 4 != i :: hash[j] == old(hash[j])
    {
      hide ByteOfWord;
      hash[i] := ByteOfWord(state.a, i);
      hash[i + 4] := ByteOfWord(state.b, i);
      hash[i + 8] := ByteOfWord(state.c, i);
      hash[i + 12] := ByteOfWord(state.d, i);
      hash[i + 16] := ByteOfWord(state.e, i);
      hash[i + 20] := ByteOfWord(state.f, i);
      hash[i + 24] := ByteOfWord(state.g, i);
      hash[i + 28] := ByteOfWord(state.h, i);
    }
  }

  lemma LengthInBits(n: nat, left: nat, bits: nat)
    requires left <= n && 8 * n < TWO64 && bits == (8 * (n - left) % TWO64 + left * 8) % TWO64
    ensures bits == 8 * n
  {
  }

  lemma TailLength(h: nat, t: nat)
    requires h % 64 == 0 && t < 64
    ensures (h + t) % 64 == t
  {
  }

  lemma Group(a: seq<bv8>, b: seq<bv8>, c: seq<bv8>, d: seq<bv8>, e: seq<bv8>)
    ensures a + b + c + d + e == a + (b + c + d + e)
  {
  }

  lemma GroupLong(a: seq<bv8>, b: seq<bv8>, c: seq<bv8>, d: seq<bv8>, e: seq<bv8>, f: seq<bv8>)
    ensures a + b + c + (d + e) + f == (a + (b + c + d)) + (e + f)
  {
  }

  lemma ZerosSplit(m: nat, n: nat)
    ensures Zeros(m + n) == Zeros(m) + Zeros(n)
  {
  }

  lemma ZeroCount(n: nat)
    requires n < 64
    ensures (119 - n) % 64 == if n < 56 then 55 - n else 119 - n
  {
  }

  lemma PadUnfolds(message: seq<bv8>, n: nat)
    requires (119 - |message| % 64) % 64 == n
    ensures Pad(message) == message + [0x80] + Zeros(n) + Length64(8 * |message|)
  {
    hide Zeros, Length64;
  }

  lemma ShortIs(head: seq<bv8>, tail: seq<bv8>)
    requires |head| % 64 == 0 && |tail| < 56
    ensures Pad(head + tail) == head + (tail + [0x80] + Zeros(55 - |tail|) + Length64(8 * |head + tail|))
  {
    hide *;
    TailLength(|head|, |tail|);
    ZeroCount(|tail|);
    PadUnfolds(head + tail, 55 - |tail|);
    Group(head, tail, [0x80], Zeros(55 - |tail|), Length64(8 * |head + tail|));
  }

  lemma LongIs(head: seq<bv8>, tail: seq<bv8>)
    requires |head| % 64 == 0 && 56 <= |tail| < 64
    ensures Pad(head + tail) == (head + (tail + [0x80] + Zeros(63 - |tail|)))
            + (Zeros(56) + Length64(8 * |head + tail|))
  {
    hide *;
    TailLength(|head|, |tail|);
    ZeroCount(|tail|);
    PadUnfolds(head + tail, 119 - |tail|);
    ZerosSplit(63 - |tail|, 56);
    GroupLong(head, tail, [0x80], Zeros(63 - |tail|), Zeros(56), Length64(8 * |head + tail|));
  }

  lemma PadShort(head: seq<bv8>, tail: seq<bv8>, block: Block)
    requires |head| % 64 == 0 && |tail| < 56
    requires block == tail + [0x80] + Zeros(55 - |tail|) + Length64(8 * |head + tail|)
    ensures Fold(Initial, Pad(head + tail)) == Compress(Fold(Initial, head), block)
  {
    hide *;
    ShortIs(head, tail);
    FoldMore(Initial, head, block);
  }

  lemma PadLong(head: seq<bv8>, tail: seq<bv8>, first: Block, second: Block)
    requires |head| % 64 == 0 && 56 <= |tail| < 64
    requires first == tail + [0x80] + Zeros(63 - |tail|) && second == Zeros(56) + Length64(8 * |head + tail|)
    ensures Fold(Initial, Pad(head + tail)) == Compress(Compress(Fold(Initial, head), first), second)
  {
    hide *;
    LongIs(head, tail);
    TwoBlocks(head, first, second);
  }

  lemma TwoBlocks(head: seq<bv8>, first: Block, second: Block)
    requires |head| % 64 == 0
    ensures Fold(Initial, (head + first) + second) == Compress(Compress(Fold(Initial, head), first), second)
  {
    hide *;
    FoldMore(Initial, head, first);
    assert |head + first| % 64 == 0;
    FoldMore(Initial, head + first, second);
  }

  function Join(pieces: seq<seq<bv8>>): seq<bv8> {
    if pieces == [] then [] else Join(pieces[..|pieces| - 1]) + pieces[|pieces| - 1]
  }

  /** A message in pieces, one update each: sha256_hash is the case of one piece */
  method HashPieces(pieces: seq<seq<bv8>>) returns (hash: seq<bv8>)
    requires |Join(pieces)| < 0x2000_0000_0000_0000
    ensures hash == Hash(Join(pieces))
  {
    hide Hash;
    var context := new Context();
    assert pieces[..0] == [];
    for i := 0 to |pieces|
      invariant context.Valid() && fresh(context) && fresh(context.data) && context.message == Join(pieces[..i])
    {
      context.Update(pieces[i]);
      assert pieces[..i + 1][..i] == pieces[..i];
    }
    assert pieces[..|pieces|] == pieces;
    var out := new bv8[32];
    context.Final(out);
    hash := out[..];
  }
}
