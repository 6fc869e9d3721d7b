/** The parts of SHA-256 against what FIPS 180-4 says of them: the constants as roots of
    primes, words with their most significant byte first, turned words, and the functions
    that choose bit by bit.
 */
module Sha256Laws {
  import opened Sha256

  // ----- The constants, sections 4.2.2 and 5.3.3 -----

  /** The first sixty-four primes */
  const PRIMES: seq<seq<nat>> := [
    [2, 3, 5, 7, 11, 13, 17, 19],
    [23, 29, 31, 37, 41, 43, 47, 53],
    [59, 61, 67, 71, 73, 79, 83, 89],
    [97, 101, 103, 107, 109, 113, 127, 131],
    [137, 139, 149, 151, 157, 163, 167, 173],
    [179, 181, 191, 193, 197, 199, 211, 223],
    [227, 229, 233, 239, 241, 251, 257, 263],
    [269, 271, 277, 281, 283, 293, 307, 311]]

  /** `whole` and 32 bits of fraction are as much of a cube root as fits in them */
  predicate CubeRoot(whole: nat, fraction: nat, p: nat) {
    var r := whole * 0x1_0000_0000 + fraction;
    r * r * r <= p * 0x1_0000_0000_0000_0000_0000_0000 < (r + 1) * (r + 1) * (r + 1)
  }

  predicate SquareRoot(whole: nat, fraction: nat, p: nat) {
    var r := whole * 0x1_0000_0000 + fraction;
    r * r <= p * 0x1_0000_0000_0000_0000 < (r + 1) * (r + 1)
  }

  function CubeFloor(p: nat): nat {
    if p < 8 then 1 else if p < 27 then 2 else if p < 64 then 3 else if p < 125 then 4 else if p < 216 then 5 else 6
  }

  lemma RootsOfRow0(j: nat)
    requires j < 8
    ensures CubeRoot(CubeFloor(PRIMES[0][j]), K[0][j] as int, PRIMES[0][j])
  {
    assert CubeRoot(1, 0x428a2f98, 2);
    assert CubeRoot(1, 0x71374491, 3);
    assert CubeRoot(1, 0xb5c0fbcf, 5);
    assert CubeRoot(1, 0xe9b5dba5, 7);
    assert CubeRoot(2, 0x3956c25b, 11);
    assert CubeRoot(2, 0x59f111f1, 13);
    assert CubeRoot(2, 0x923f82a4, 17);
    assert CubeRoot(2, 0xab1c5ed5, 19);
  }

  lemma RootsOfRow1(j: nat)
    requires j < 8
    ensures CubeRoot(CubeFloor(PRIMES[1][j]), K[1][j] as int, PRIMES[1][j])
  {
    assert CubeRoot(2, 0xd807aa98, 23);
    assert CubeRoot(3, 0x12835b01, 29);
    assert CubeRoot(3, 0x243185be, 31);
    assert CubeRoot(3, 0x550c7dc3, 37);
    assert CubeRoot(3, 0x72be5d74, 41);
    assert CubeRoot(3, 0x80deb1fe, 43);
    assert CubeRoot(3, 0x9bdc06a7, 47);
    assert CubeRoot(3, 0xc19bf174, 53);
  }

  lemma RootsOfRow2(j: nat)
    requires j < 8
    ensures CubeRoot(CubeFloor(PRIMES[2][j]), K[2][j] as int, PRIMES[2][j])
  {
    assert CubeRoot(3, 0xe49b69c1, 59);
    assert CubeRoot(3, 0xefbe4786, 61);
    assert CubeRoot(4, 0xfc19dc6, 67);
    assert CubeRoot(4, 0x240ca1cc, 71);
    assert CubeRoot(4, 0x2de92c6f, 73);
    assert CubeRoot(4, 0x4a7484aa, 79);
    assert CubeRoot(4, 0x5cb0a9dc, 83);
    assert CubeRoot(4, 0x76f988da, 89);
  }

  lemma RootsOfRow3(j: nat)
    requires j < 8
    ensures CubeRoot(CubeFloor(PRIMES[3][j]), K[3][j] as int, PRIMES[3][j])
  {
    assert CubeRoot(4, 0x983e5152, 97);
    assert CubeRoot(4, 0xa831c66d, 101);
    assert CubeRoot(4, 0xb00327c8, 103);
    assert CubeRoot(4, 0xbf597fc7, 107);
    assert CubeRoot(4, 0xc6e00bf3, 109);
    assert CubeRoot(4, 0xd5a79147, 113);
    assert CubeRoot(5, 0x6ca6351, 127);
    assert CubeRoot(5, 0x14292967, 131);
  }

  lemma RootsOfRow4(j: nat)
    requires j < 8
    ensures CubeRoot(CubeFloor(PRIMES[4][j]), K[4][j] as int, PRIMES[4][j])
  {
    assert CubeRoot(5, 0x27b70a85, 137);
    assert CubeRoot(5, 0x2e1b2138, 139);
    assert CubeRoot(5, 0x4d2c6dfc, 149);
    assert CubeRoot(5, 0x53380d13, 151);
    assert CubeRoot(5, 0x650a7354, 157);
    assert CubeRoot(5, 0x766a0abb, 163);
    assert CubeRoot(5, 0x81c2c92e, 167);
    assert CubeRoot(5, 0x92722c85, 173);
  }

  lemma RootsOfRow5(j: nat)
    requires j < 8
    ensures CubeRoot(CubeFloor(PRIMES[5][j]), K[5][j] as int, PRIMES[5][j])
  {
    assert CubeRoot(5, 0xa2bfe8a1, 179);
    assert CubeRoot(5, 0xa81a664b, 181);
    assert CubeRoot(5, 0xc24b8b70, 191);
    assert CubeRoot(5, 0xc76c51a3, 193);
    assert CubeRoot(5, 0xd192e819, 197);
    assert CubeRoot(5, 0xd6990624, 199);
    assert CubeRoot(5, 0xf40e3585, 211);
    assert CubeRoot(6, 0x106aa070, 223);
  }

  lemma RootsOfRow6(j: nat)
    requires j < 8
    ensures CubeRoot(CubeFloor(PRIMES[6][j]), K[6][j] as int, PRIMES[6][j])
  {
    assert CubeRoot(6, 0x19a4c116, 227);
    assert CubeRoot(6, 0x1e376c08, 229);
    assert CubeRoot(6, 0x2748774c, 233);
    assert CubeRoot(6, 0x34b0bcb5, 239);
    assert CubeRoot(6, 0x391c0cb3, 241);
    assert CubeRoot(6, 0x4ed8aa4a, 251);
    assert CubeRoot(6, 0x5b9cca4f, 257);
    assert CubeRoot(6, 0x682e6ff3, 263);
  }

  lemma RootsOfRow7(j: nat)
    requires j < 8
    ensures CubeRoot(CubeFloor(PRIMES[7][j]), K[7][j] as int, PRIMES[7][j])
  {
    assert CubeRoot(6, 0x748f82ee, 269);
    assert CubeRoot(6, 0x78a5636f, 271);
    assert CubeRoot(6, 0x84c87814, 277);
    assert CubeRoot(6, 0x8cc70208, 281);
    assert CubeRoot(6, 0x90befffa, 283);
    assert CubeRoot(6, 0xa4506ceb, 293);
    assert CubeRoot(6, 0xbef9a3f7, 307);
    assert CubeRoot(6, 0xc67178f2, 311);
  }

  /** Each constant is the fraction of the cube root of its prime, to 32 bits */
  lemma ConstantsAreRoots(t: nat)
    requires t < 64
    ensures CubeRoot(CubeFloor(PRIMES[t / 8][t % 8]), Constant(t) as int, PRIMES[t / 8][t % 8])
  {
    hide CubeRoot;
    match t / 8
    case 0 => RootsOfRow0(t % 8);
    case 1 => RootsOfRow1(t % 8);
    case 2 => RootsOfRow2(t % 8);
    case 3 => RootsOfRow3(t % 8);
    case 4 => RootsOfRow4(t % 8);
    case 5 => RootsOfRow5(t % 8);
    case 6 => RootsOfRow6(t % 8);
    case 7 => RootsOfRow7(t % 8);
  }

  /** The words to start with are those of the square roots of the first eight */
  lemma InitialIsRoots()
    ensures SquareRoot(1, Initial.a as int, 2) && SquareRoot(1, Initial.b as int, 3)
    ensures SquareRoot(2, Initial.c as int, 5) && SquareRoot(2, Initial.d as int, 7)
    ensures SquareRoot(3, Initial.e as int, 11) && SquareRoot(3, Initial.f as int, 13)
    ensures SquareRoot(4, Initial.g as int, 17) && SquareRoot(4, Initial.h as int, 19)
  {
  }

  // ----- Words -----

  /** Four bytes as a number, the first the most */
  function Big(a: bv8, b: bv8, c: bv8, d: bv8): bv32 {
    (((a as bv32) * 0x100 + (b as bv32)) * 0x100 + (c as bv32)) * 0x100 + (d as bv32)
  }

  lemma WordIs(block: Block, i: nat)
    requires i < 16
    ensures Word(block, i) == Big(block[4 * i], block[4 * i + 1], block[4 * i + 2], block[4 * i + 3])
  {
  }

  /** The digest's bytes are those of the words, in order */
  lemma DigestIs(w: Words, k: nat)
    requires k < 8
    ensures var s := Digest(w); Big(s[4 * k], s[4 * k + 1], s[4 * k + 2], s[4 * k + 3]) == WordOf(w, k)
  {
    hide Big, ByteOfWord, WordOf;
    BytesOfWord(WordOf(w, k));
  }

  lemma BytesOfWord(w: bv32)
    ensures Big(ByteOfWord(w, 0), ByteOfWord(w, 1), ByteOfWord(w, 2), ByteOfWord(w, 3)) == w
  {
    hide ByteOfWord;
    ByteIs(w, 0, 24);
    ByteIs(w, 1, 16);
    ByteIs(w, 2, 8);
    ByteIs(w, 3, 0);
    AllOfIt(w);
    OneByteMore(w);
  }

  lemma ByteIs(w: bv32, i: nat, shift: nat)
    requires i < 4 && shift == 24 - 8 * i
    ensures ByteOfWord(w, i) as bv32 == (w >> shift) & 0xFF
  {
    LowByte(w >> shift);
  }

  lemma LowByte(v: bv32)
    ensures ((v & 0xFF) as bv8) as bv32 == v & 0xFF
  {
  }

  lemma AllOfIt(w: bv32)
    ensures (w >> 24) & 0xFF == w >> 24 && w >> 0 == w
  {
  }

  lemma OneByteMore(w: bv32)
    ensures (w >> 24) * 0x100 + ((w >> 16) & 0xFF) == w >> 16
    ensures (w >> 16) * 0x100 + ((w >> 8) & 0xFF) == w >> 8
    ensures (w >> 8) * 0x100 + (w & 0xFF) == w
  {
  }

  /** A length's bytes, the most significant first */
  lemma LengthIs()
    ensures Length64(0x0123_4567_89AB_CDEF) == [0x01, 0x23, 0x45, 0x67, 0x89, 0xAB, 0xCD, 0xEF]
  {
    hide ByteAt;
    var v := 0x0123_4567_89AB_CDEF;
    OneByte(v, 0x100000000000000, 0x01);
    OneByte(v, 0x1000000000000, 0x23);
    OneByte(v, 0x10000000000, 0x45);
    OneByte(v, 0x100000000, 0x67);
    OneByte(v, 0x1000000, 0x89);
    OneByte(v, 0x10000, 0xAB);
    OneByte(v, 0x100, 0xCD);
    OneByte(v, 0x1, 0xEF);
  }

  lemma OneByte(v: nat, shift: nat, n: nat)
    requires shift > 0 && v / shift % 256 == n
    ensures ByteAt(v, shift) == n as bv8
  {
  }

  // ----- The functions of section 4.1.2 -----

  lemma BigSigmasTurn(x: bv32)
    ensures BigSigma0(x) == Xor(x.RotateRight(2), x.RotateRight(13), x.RotateRight(22))
    ensures BigSigma1(x) == Xor(x.RotateRight(6), x.RotateRight(11), x.RotateRight(25))
  {
    hide RotateRight, Xor;
    Turned(x);
  }

  lemma SmallSigmasTurn(x: bv32)
    ensures SmallSigma0(x) == Xor(x.RotateRight(7), x.RotateRight(18), x >> 3)
    ensures SmallSigma1(x) == Xor(x.RotateRight(17), x.RotateRight(19), x >> 10)
  {
    hide RotateRight, Xor;
    Turned(x);
  }

  lemma Turned(x: bv32)
    ensures RotateRight(x, 2) == x.RotateRight(2)
    ensures RotateRight(x, 6) == x.RotateRight(6)
    ensures RotateRight(x, 7) == x.RotateRight(7)
    ensures RotateRight(x, 11) == x.RotateRight(11)
    ensures RotateRight(x, 13) == x.RotateRight(13)
    ensures RotateRight(x, 17) == x.RotateRight(17)
    ensures RotateRight(x, 18) == x.RotateRight(18)
    ensures RotateRight(x, 19) == x.RotateRight(19)
    ensures RotateRight(x, 22) == x.RotateRight(22)
    ensures RotateRight(x, 25) == x.RotateRight(25)
  {
  }

  /** Words are added in either order, with carries; the last one is lost */
  lemma PlusIs(x: bv32, y: bv32)
    ensures Plus(x, y) == Plus(y, x) && Plus(x, 0) == x && Plus(x, 0xFFFF_FFFF) == x - 1
    ensures Plus(0x7FFF_FFFF, 1) == 0x8000_0000 && Plus(0xFFFF_FFFF, 1) == 0
  {
  }

  /** What is in all three but in pairs is gone */
  lemma XorIs(x: bv32, y: bv32, z: bv32)
    ensures Xor(x, y, z ^ (x ^ y)) == z
  {
  }

  /** Where the first word has a 1, the bit of the second; elsewhere that of the third */
  lemma ChChooses(x: bv32, y: bv32, z: bv32)
    ensures x & Ch(x, y, z) == x & y && !x & Ch(x, y, z) == !x & z
  {
  }

  /** Where two words agree, their bit */
  lemma MajAgrees(x: bv32, y: bv32, z: bv32)
    ensures !(x ^ y) & Maj(x, y, z) == !(x ^ y) & x
    ensures Maj(y, z, x) == Maj(x, y, z) == Maj(z, x, y)
  {
  }
}
