/**
  Where the tables and functions of SHA-256 come from: bit by bit, from the roots
  of the first primes, and on the example that comes with the standard.
*/
module Sha256Standard {
  import opened ByteBuffers
  import opened Sha256

  // ------------------------------------------------------------------ bit by bit

  /** A bit of a word, counted from the lowest; there are none above. */
  function Bit(x: word, i: bv6): (b: word) {
    if i < 32 then (x >> i) & 1 else 0
  }

  /** Ch chooses: where the first word has a one the second, elsewhere the third. */
  lemma ChBits(x: word, y: word, z: word, i: bv6)
    ensures Bit(Ch(x, y, z), i) == if Bit(x, i) == 1 then Bit(y, i) else Bit(z, i)
  {
  }

  /** Maj takes the majority. */
  lemma MajBits(x: word, y: word, z: word, i: bv6)
    ensures Bit(Maj(x, y, z), i) == if Bit(x, i) + Bit(y, i) + Bit(z, i) >= 2 then 1 else 0
  {
  }

  // ------------------------------------------------------------------ roots of primes

  /** The first 64 primes, in rows of eight. */
  const PRIMES0: seq<nat> := [2, 3, 5, 7, 11, 13, 17, 19]
  const PRIMES1: seq<nat> := [23, 29, 31, 37, 41, 43, 47, 53]
  const PRIMES2: seq<nat> := [59, 61, 67, 71, 73, 79, 83, 89]
  const PRIMES3: seq<nat> := [97, 101, 103, 107, 109, 113, 127, 131]
  const PRIMES4: seq<nat> := [137, 139, 149, 151, 157, 163, 167, 173]
  const PRIMES5: seq<nat> := [179, 181, 191, 193, 197, 199, 211, 223]
  const PRIMES6: seq<nat> := [227, 229, 233, 239, 241, 251, 257, 263]
  const PRIMES7: seq<nat> := [269, 271, 277, 281, 283, 293, 307, 311]
  const PRIMES: seq<nat> := PRIMES0 + PRIMES1 + PRIMES2 + PRIMES3 + PRIMES4 + PRIMES5 + PRIMES6 + PRIMES7

  /** The first 32 bits behind the point of the cube root of a number. */
  predicate CubeRootBits(p: nat, k: nat) {
    exists r :: 0 <= r < 8 && IsCubeRoot(p, r, k)
  }

  predicate IsCubeRoot(p: nat, r: int, k: nat) {
    Cube(r * 0x1_0000_0000 + k) <= p * 0x1_0000_0000_0000_0000_0000_0000 < Cube(r * 0x1_0000_0000 + k + 1)
  }

  function Cube(x: int): (y: int) {
    x * x * x
  }

  predicate RootsOf(ps: seq<nat>, ks: seq<word>) {
    |ps| == |ks| && forall i :: 0 <= i < |ps| ==> CubeRootBits(ps[i], ks[i] as int)
  }

  lemma RootsOfBoth(ps: seq<nat>, ks: seq<word>, qs: seq<nat>, ls: seq<word>)
    requires RootsOf(ps, ks) && RootsOf(qs, ls)
    ensures RootsOf(ps + qs, ks + ls)
  {
    hide CubeRootBits;
  }

  lemma Roots0()
    ensures RootsOf(PRIMES0, K0)
  {
    assert IsCubeRoot(2, 1, 0x428a2f98);
    assert IsCubeRoot(3, 1, 0x71374491);
    assert IsCubeRoot(5, 1, 0xb5c0fbcf);
    assert IsCubeRoot(7, 1, 0xe9b5dba5);
    assert IsCubeRoot(11, 2, 0x3956c25b);
    assert IsCubeRoot(13, 2, 0x59f111f1);
    assert IsCubeRoot(17, 2, 0x923f82a4);
    assert IsCubeRoot(19, 2, 0xab1c5ed5);
  }

  lemma Roots1()
    ensures RootsOf(PRIMES1, K1)
  {
    assert IsCubeRoot(23, 2, 0xd807aa98);
    assert IsCubeRoot(29, 3, 0x12835b01);
    assert IsCubeRoot(31, 3, 0x243185be);
    assert IsCubeRoot(37, 3, 0x550c7dc3);
    assert IsCubeRoot(41, 3, 0x72be5d74);
    assert IsCubeRoot(43, 3, 0x80deb1fe);
    assert IsCubeRoot(47, 3, 0x9bdc06a7);
    assert IsCubeRoot(53, 3, 0xc19bf174);
  }

  lemma Roots2()
    ensures RootsOf(PRIMES2, K2)
  {
    assert IsCubeRoot(59, 3, 0xe49b69c1);
    assert IsCubeRoot(61, 3, 0xefbe4786);
    assert IsCubeRoot(67, 4, 0x0fc19dc6);
    assert IsCubeRoot(71, 4, 0x240ca1cc);
    assert IsCubeRoot(73, 4, 0x2de92c6f);
    assert IsCubeRoot(79, 4, 0x4a7484aa);
    assert IsCubeRoot(83, 4, 0x5cb0a9dc);
    assert IsCubeRoot(89, 4, 0x76f988da);
  }

  lemma Roots3()
    ensures RootsOf(PRIMES3, K3)
  {
    assert IsCubeRoot(97, 4, 0x983e5152);
    assert IsCubeRoot(101, 4, 0xa831c66d);
    assert IsCubeRoot(103, 4, 0xb00327c8);
    assert IsCubeRoot(107, 4, 0xbf597fc7);
    assert IsCubeRoot(109, 4, 0xc6e00bf3);
    assert IsCubeRoot(113, 4, 0xd5a79147);
    assert IsCubeRoot(127, 5, 0x06ca6351);
    assert IsCubeRoot(131, 5, 0x14292967);
  }

  lemma Roots4()
    ensures RootsOf(PRIMES4, K4)
  {
    assert IsCubeRoot(137, 5, 0x27b70a85);
    assert IsCubeRoot(139, 5, 0x2e1b2138);
    assert IsCubeRoot(149, 5, 0x4d2c6dfc);
    assert IsCubeRoot(151, 5, 0x53380d13);
    assert IsCubeRoot(157, 5, 0x650a7354);
    assert IsCubeRoot(163, 5, 0x766a0abb);
    assert IsCubeRoot(167, 5, 0x81c2c92e);
    assert IsCubeRoot(173, 5, 0x92722c85);
  }

  lemma Roots5()
    ensures RootsOf(PRIMES5, K5)
  {
    assert IsCubeRoot(179, 5, 0xa2bfe8a1);
    assert IsCubeRoot(181, 5, 0xa81a664b);
    assert IsCubeRoot(191, 5, 0xc24b8b70);
    assert IsCubeRoot(193, 5, 0xc76c51a3);
    assert IsCubeRoot(197, 5, 0xd192e819);
    assert IsCubeRoot(199, 5, 0xd6990624);
    assert IsCubeRoot(211, 5, 0xf40e3585);
    assert IsCubeRoot(223, 6, 0x106aa070);
  }

  lemma Roots6()
    ensures RootsOf(PRIMES6, K6)
  {
    assert IsCubeRoot(227, 6, 0x19a4c116);
    assert IsCubeRoot(229, 6, 0x1e376c08);
    assert IsCubeRoot(233, 6, 0x2748774c);
    assert IsCubeRoot(239, 6, 0x34b0bcb5);
    assert IsCubeRoot(241, 6, 0x391c0cb3);
    assert IsCubeRoot(251, 6, 0x4ed8aa4a);
    assert IsCubeRoot(257, 6, 0x5b9cca4f);
    assert IsCubeRoot(263, 6, 0x682e6ff3);
  }

  lemma Roots7()
    ensures RootsOf(PRIMES7, K7)
  {
    assert IsCubeRoot(269, 6, 0x748f82ee);
    assert IsCubeRoot(271, 6, 0x78a5636f);
    assert IsCubeRoot(277, 6, 0x84c87814);
    assert IsCubeRoot(281, 6, 0x8cc70208);
    assert IsCubeRoot(283, 6, 0x90befffa);
    assert IsCubeRoot(293, 6, 0xa4506ceb);
    assert IsCubeRoot(307, 6, 0xbef9a3f7);
    assert IsCubeRoot(311, 6, 0xc67178f2);
  }

  /** The constants of the rounds are the cube roots of the first 64 primes. */
  lemma Constants()
    ensures RootsOf(PRIMES, K)
  {
    hide RootsOf;
    Roots0();
    Roots1();
    Roots2();
    Roots3();
    Roots4();
    Roots5();
    Roots6();
    Roots7();
    RootsOfBoth(PRIMES0, K0, PRIMES1, K1);
    RootsOfBoth(PRIMES0 + PRIMES1, K0 + K1, PRIMES2, K2);
    RootsOfBoth(PRIMES0 + PRIMES1 + PRIMES2, K0 + K1 + K2, PRIMES3, K3);
    RootsOfBoth(PRIMES0 + PRIMES1 + PRIMES2 + PRIMES3, K0 + K1 + K2 + K3, PRIMES4, K4);
    RootsOfBoth(PRIMES0 + PRIMES1 + PRIMES2 + PRIMES3 + PRIMES4, K0 + K1 + K2 + K3 + K4, PRIMES5, K5);
    RootsOfBoth(PRIMES0 + PRIMES1 + PRIMES2 + PRIMES3 + PRIMES4 + PRIMES5, K0 + K1 + K2 + K3 + K4 + K5, PRIMES6, K6);
    RootsOfBoth(PRIMES0 + PRIMES1 + PRIMES2 + PRIMES3 + PRIMES4 + PRIMES5 + PRIMES6, K0 + K1 + K2 + K3 + K4 + K5 + K6, PRIMES7, K7);
  }

  /** The first 32 bits behind the point of the square root of a number. */
  predicate SquareRootBits(p: nat, k: nat) {
    exists r :: 0 <= r < 8 && IsSquareRoot(p, r, k)
  }

  predicate IsSquareRoot(p: nat, r: int, k: nat) {
    Square(r * 0x1_0000_0000 + k) <= p * 0x1_0000_0000_0000_0000 < Square(r * 0x1_0000_0000 + k + 1)
  }

  function Square(x: int): (y: int) {
    x * x
  }

  function Words(v: Hash): (ws: seq<word>) {
    [v.a, v.b, v.c, v.d, v.e, v.f, v.g, v.h]
  }

  /** The words a digest starts from are the square roots of the first eight primes. */
  lemma Initials(i: nat)
    requires i < 8
    ensures SquareRootBits(PRIMES0[i], Words(INITIAL)[i] as int)
  {
    assert IsSquareRoot(2, 1, 0x6a09e667);
    assert IsSquareRoot(3, 1, 0xbb67ae85);
    assert IsSquareRoot(5, 2, 0x3c6ef372);
    assert IsSquareRoot(7, 2, 0xa54ff53a);
    assert IsSquareRoot(11, 3, 0x510e527f);
    assert IsSquareRoot(13, 3, 0x9b05688c);
    assert IsSquareRoot(17, 4, 0x1f83d9ab);
    assert IsSquareRoot(19, 4, 0x5be0cd19);
  }

  // ------------------------------------------------------------------ the example of the standard

  /** The one block of the message abc. */
  const ABC: seq<byte> := Padded([97, 98, 99])

  lemma AbcBlock()
    ensures |ABC| == BLOCK && ABC[..4] == [97, 98, 99, 0x80] && ABC[63] == 24
    ensures forall i :: 4 <= i < 63 ==> ABC[i] == 0
  {
    assert BigEndian(24, 8) == BigEndian(0, 7) + [24];
    LowZeros(7);
  }

  lemma {:induction false} LowZeros(n: nat)
    ensures BigEndian(0, n) == Zeros(n)
  {
    if n > 0 { LowZeros(n - 1); }
  }

  predicate WordAt(j: nat, w: word) {
    |ABC| == BLOCK && W(ABC, j) == w
  }

  predicate HashAt(n: nat, u: Hash) {
    |ABC| == BLOCK && n <= 64 && Rounds(INITIAL, ABC, n) == u
  }

  predicate WordsAt(j: nat, a: word, b: word, c: word, d: word, e: word, f: word, g: word, h: word) {
    WordAt(j, a) && WordAt(j + 1, b) && WordAt(j + 2, c) && WordAt(j + 3, d) &&
    WordAt(j + 4, e) && WordAt(j + 5, f) && WordAt(j + 6, g) && WordAt(j + 7, h)
  }

  lemma NextWord(j: nat, w2: word, w7: word, w15: word, w16: word)
    requires j >= 16 && WordAt(j - 2, w2) && WordAt(j - 7, w7) && WordAt(j - 15, w15) && WordAt(j - 16, w16)
    ensures WordAt(j, Expanded(w2, w7, w15, w16))
  {
    hide Expanded;
  }

  lemma NextHash(n: nat, u: Hash, w: word)
    requires n < 64 && HashAt(n, u) && WordAt(n, w)
    ensures HashAt(n + 1, Round(u, K[n], w))
  {
    hide Round, W;
  }

  lemma FirstWord(j: nat, a: byte, b: byte, c: byte, d: byte)
    requires j < 16 && |ABC| == BLOCK && ABC[4 * j] == a && ABC[4 * j + 1] == b && ABC[4 * j + 2] == c && ABC[4 * j + 3] == d
    ensures WordAt(j, Pack(a, b, c, d))
  {
    hide Pack;
  }

  lemma PackedWords()
    ensures Pack(97, 98, 99, 0x80) == 0x61626380 && Pack(0, 0, 0, 0) == 0 && Pack(0, 0, 0, 24) == 24
  {
  }

  lemma Words0()
    ensures WordAt(0, 0x61626380) && WordAt(15, 24)
    ensures forall j :: 1 <= j < 15 ==> WordAt(j, 0)
  {
    hide Pack, WordAt;
    AbcBlock();
    PackedWords();
    assert ABC[0] == ABC[..4][0] && ABC[1] == ABC[..4][1] && ABC[2] == ABC[..4][2] && ABC[3] == ABC[..4][3];
    FirstWord(0, 97, 98, 99, 0x80);
    FirstWord(15, 0, 0, 0, 24);
    forall j | 1 <= j < 15 ensures WordAt(j, 0) { FirstWord(j, 0, 0, 0, 0); }
  }

  lemma Words1()
    ensures WordsAt(16, 0x61626380, 0x000f0000, 0x7da86405, 0x600003c6, 0x3e9d7b78, 0x0183fc00, 0x12dcbfdb, 0xe2e2c38e)
  {
    hide WordAt;
    Words0();
    NextWord(16, 0x00000000, 0x00000000, 0x00000000, 0x61626380);
    NextWord(17, 0x00000018, 0x00000000, 0x00000000, 0x00000000);
    NextWord(18, 0x61626380, 0x00000000, 0x00000000, 0x00000000);
    NextWord(19, 0x000f0000, 0x00000000, 0x00000000, 0x00000000);
    NextWord(20, 0x7da86405, 0x00000000, 0x00000000, 0x00000000);
    NextWord(21, 0x600003c6, 0x00000000, 0x00000000, 0x00000000);
    NextWord(22, 0x3e9d7b78, 0x00000018, 0x00000000, 0x00000000);
    NextWord(23, 0x0183fc00, 0x61626380, 0x00000000, 0x00000000);
  }

  lemma Words2()
    ensures WordsAt(24, 0xc8215c1a, 0xb73679a2, 0xe5bc3909, 0x32663c5b, 0x9d209d67, 0xec8726cb, 0x702138a4, 0xd3b7973b)
  {
    hide WordAt;
    Words0();
    Words1();
    NextWord(24, 0x12dcbfdb, 0x000f0000, 0x00000000, 0x00000000);
    NextWord(25, 0xe2e2c38e, 0x7da86405, 0x00000000, 0x00000000);
    NextWord(26, 0xc8215c1a, 0x600003c6, 0x00000000, 0x00000000);
    NextWord(27, 0xb73679a2, 0x3e9d7b78, 0x00000000, 0x00000000);
    NextWord(28, 0xe5bc3909, 0x0183fc00, 0x00000000, 0x00000000);
    NextWord(29, 0x32663c5b, 0x12dcbfdb, 0x00000000, 0x00000000);
    NextWord(30, 0x9d209d67, 0xe2e2c38e, 0x00000018, 0x00000000);
    NextWord(31, 0xec8726cb, 0xc8215c1a, 0x61626380, 0x00000018);
  }

  lemma Words3()
    ensures WordsAt(32, 0x93f5997f, 0x3b68ba73, 0xaff4ffc1, 0xf10a5c62, 0x0a8b3996, 0x72af830a, 0x9409e33e, 0x24641522)
  {
    hide WordAt;
    Words1();
    Words2();
    NextWord(32, 0x702138a4, 0xb73679a2, 0x000f0000, 0x61626380);
    NextWord(33, 0xd3b7973b, 0xe5bc3909, 0x7da86405, 0x000f0000);
    NextWord(34, 0x93f5997f, 0x32663c5b, 0x600003c6, 0x7da86405);
    NextWord(35, 0x3b68ba73, 0x9d209d67, 0x3e9d7b78, 0x600003c6);
    NextWord(36, 0xaff4ffc1, 0xec8726cb, 0x0183fc00, 0x3e9d7b78);
    NextWord(37, 0xf10a5c62, 0x702138a4, 0x12dcbfdb, 0x0183fc00);
    NextWord(38, 0x0a8b3996, 0xd3b7973b, 0xe2e2c38e, 0x12dcbfdb);
    NextWord(39, 0x72af830a, 0x93f5997f, 0xc8215c1a, 0xe2e2c38e);
  }

  lemma Words4()
    ensures WordsAt(40, 0x9f47bf94, 0xf0a64f5a, 0x3e246a79, 0x27333ba3, 0x0c4763f2, 0x840abf27, 0x7a290d5d, 0x065c43da)
  {
    hide WordAt;
    Words2();
    Words3();
    NextWord(40, 0x9409e33e, 0x3b68ba73, 0xb73679a2, 0xc8215c1a);
    NextWord(41, 0x24641522, 0xaff4ffc1, 0xe5bc3909, 0xb73679a2);
    NextWord(42, 0x9f47bf94, 0xf10a5c62, 0x32663c5b, 0xe5bc3909);
    NextWord(43, 0xf0a64f5a, 0x0a8b3996, 0x9d209d67, 0x32663c5b);
    NextWord(44, 0x3e246a79, 0x72af830a, 0xec8726cb, 0x9d209d67);
    NextWord(45, 0x27333ba3, 0x9409e33e, 0x702138a4, 0xec8726cb);
    NextWord(46, 0x0c4763f2, 0x24641522, 0xd3b7973b, 0x702138a4);
    NextWord(47, 0x840abf27, 0x9f47bf94, 0x93f5997f, 0xd3b7973b);
  }

  lemma Words5()
    ensures WordsAt(48, 0xfb3e89cb, 0xcc7617db, 0xb9e66c34, 0xa9993667, 0x84badedd, 0xc21462bc, 0x1487472c, 0xb20f7a99)
  {
    hide WordAt;
    Words3();
    Words4();
    NextWord(48, 0x7a290d5d, 0xf0a64f5a, 0x3b68ba73, 0x93f5997f);
    NextWord(49, 0x065c43da, 0x3e246a79, 0xaff4ffc1, 0x3b68ba73);
    NextWord(50, 0xfb3e89cb, 0x27333ba3, 0xf10a5c62, 0xaff4ffc1);
    NextWord(51, 0xcc7617db, 0x0c4763f2, 0x0a8b3996, 0xf10a5c62);
    NextWord(52, 0xb9e66c34, 0x840abf27, 0x72af830a, 0x0a8b3996);
    NextWord(53, 0xa9993667, 0x7a290d5d, 0x9409e33e, 0x72af830a);
    NextWord(54, 0x84badedd, 0x065c43da, 0x24641522, 0x9409e33e);
    NextWord(55, 0xc21462bc, 0xfb3e89cb, 0x9f47bf94, 0x24641522);
  }

  lemma Words6()
    ensures WordsAt(56, 0xef57b9cd, 0xebe6b238, 0x9fe3095e, 0x78bc8d4b, 0xa43fcf15, 0x668b2ff8, 0xeeaba2cc, 0x12b1edeb)
  {
    hide WordAt;
    Words4();
    Words5();
    NextWord(56, 0x1487472c, 0xcc7617db, 0xf0a64f5a, 0x9f47bf94);
    NextWord(57, 0xb20f7a99, 0xb9e66c34, 0x3e246a79, 0xf0a64f5a);
    NextWord(58, 0xef57b9cd, 0xa9993667, 0x27333ba3, 0x3e246a79);
    NextWord(59, 0xebe6b238, 0x84badedd, 0x0c4763f2, 0x27333ba3);
    NextWord(60, 0x9fe3095e, 0xc21462bc, 0x840abf27, 0x0c4763f2);
    NextWord(61, 0x78bc8d4b, 0x1487472c, 0x7a290d5d, 0x840abf27);
    NextWord(62, 0xa43fcf15, 0xb20f7a99, 0x065c43da, 0x7a290d5d);
    NextWord(63, 0x668b2ff8, 0xef57b9cd, 0xfb3e89cb, 0x065c43da);
  }

  lemma Constants0()
    ensures K[0] == 0x428a2f98 && K[1] == 0x71374491 && K[2] == 0xb5c0fbcf && K[3] == 0xe9b5dba5
    ensures K[4] == 0x3956c25b && K[5] == 0x59f111f1 && K[6] == 0x923f82a4 && K[7] == 0xab1c5ed5
  {
  }

  lemma Constants1()
    ensures K[8] == 0xd807aa98 && K[9] == 0x12835b01 && K[10] == 0x243185be && K[11] == 0x550c7dc3
    ensures K[12] == 0x72be5d74 && K[13] == 0x80deb1fe && K[14] == 0x9bdc06a7 && K[15] == 0xc19bf174
  {
  }

  lemma Constants2()
    ensures K[16] == 0xe49b69c1 && K[17] == 0xefbe4786 && K[18] == 0x0fc19dc6 && K[19] == 0x240ca1cc
    ensures K[20] == 0x2de92c6f && K[21] == 0x4a7484aa && K[22] == 0x5cb0a9dc && K[23] == 0x76f988da
  {
  }

  lemma Constants3()
    ensures K[24] == 0x983e5152 && K[25] == 0xa831c66d && K[26] == 0xb00327c8 && K[27] == 0xbf597fc7
    ensures K[28] == 0xc6e00bf3 && K[29] == 0xd5a79147 && K[30] == 0x06ca6351 && K[31] == 0x14292967
  {
  }

  lemma Constants4()
    ensures K[32] == 0x27b70a85 && K[33] == 0x2e1b2138 && K[34] == 0x4d2c6dfc && K[35] == 0x53380d13
    ensures K[36] == 0x650a7354 && K[37] == 0x766a0abb && K[38] == 0x81c2c92e && K[39] == 0x92722c85
  {
  }

  lemma Constants5()
    ensures K[40] == 0xa2bfe8a1 && K[41] == 0xa81a664b && K[42] == 0xc24b8b70 && K[43] == 0xc76c51a3
    ensures K[44] == 0xd192e819 && K[45] == 0xd6990624 && K[46] == 0xf40e3585 && K[47] == 0x106aa070
  {
  }

  lemma Constants6()
    ensures K[48] == 0x19a4c116 && K[49] == 0x1e376c08 && K[50] == 0x2748774c && K[51] == 0x34b0bcb5
    ensures K[52] == 0x391c0cb3 && K[53] == 0x4ed8aa4a && K[54] == 0x5b9cca4f && K[55] == 0x682e6ff3
  {
  }

  lemma Constants7()
    ensures K[56] == 0x748f82ee && K[57] == 0x78a5636f && K[58] == 0x84c87814 && K[59] == 0x8cc70208
    ensures K[60] == 0x90befffa && K[61] == 0xa4506ceb && K[62] == 0xbef9a3f7 && K[63] == 0xc67178f2
  {
  }

  lemma FirstHash()
    ensures HashAt(0, INITIAL)
  {
    AbcBlock();
  }

  lemma Hash0()
    ensures HashAt(8, Hash(0x85a07b5f, 0xe5030380, 0x2b4209f5, 0x04409a6a, 0x0c657a79, 0x9b27a401, 0x714260ad, 0x43ada245))
  {
    hide WordAt, HashAt;
    Words0();
    Constants0();
    FirstHash();
    NextHash(0, Hash(0x6a09e667, 0xbb67ae85, 0x3c6ef372, 0xa54ff53a, 0x510e527f, 0x9b05688c, 0x1f83d9ab, 0x5be0cd19), 0x61626380);
    NextHash(1, Hash(0x5d6aebcd, 0x6a09e667, 0xbb67ae85, 0x3c6ef372, 0xfa2a4622, 0x510e527f, 0x9b05688c, 0x1f83d9ab), 0x00000000);
    NextHash(2, Hash(0x5a6ad9ad, 0x5d6aebcd, 0x6a09e667, 0xbb67ae85, 0x78ce7989, 0xfa2a4622, 0x510e527f, 0x9b05688c), 0x00000000);
    NextHash(3, Hash(0xc8c347a7, 0x5a6ad9ad, 0x5d6aebcd, 0x6a09e667, 0xf92939eb, 0x78ce7989, 0xfa2a4622, 0x510e527f), 0x00000000);
    NextHash(4, Hash(0xd550f666, 0xc8c347a7, 0x5a6ad9ad, 0x5d6aebcd, 0x24e00850, 0xf92939eb, 0x78ce7989, 0xfa2a4622), 0x00000000);
    NextHash(5, Hash(0x04409a6a, 0xd550f666, 0xc8c347a7, 0x5a6ad9ad, 0x43ada245, 0x24e00850, 0xf92939eb, 0x78ce7989), 0x00000000);
    NextHash(6, Hash(0x2b4209f5, 0x04409a6a, 0xd550f666, 0xc8c347a7, 0x714260ad, 0x43ada245, 0x24e00850, 0xf92939eb), 0x00000000);
    NextHash(7, Hash(0xe5030380, 0x2b4209f5, 0x04409a6a, 0xd550f666, 0x9b27a401, 0x714260ad, 0x43ada245, 0x24e00850), 0x00000000);
  }

  lemma Hash1()
    ensures HashAt(16, Hash(0xb0fa238e, 0xc0645fde, 0xd932eb16, 0x87912990, 0x07590dcd, 0x0b92f20c, 0x745a48de, 0x1e578218))
  {
    hide WordAt, HashAt;
    Words0();
    Constants1();
    Hash0();
    NextHash(8, Hash(0x85a07b5f, 0xe5030380, 0x2b4209f5, 0x04409a6a, 0x0c657a79, 0x9b27a401, 0x714260ad, 0x43ada245), 0x00000000);
    NextHash(9, Hash(0x8e04ecb9, 0x85a07b5f, 0xe5030380, 0x2b4209f5, 0x32ca2d8c, 0x0c657a79, 0x9b27a401, 0x714260ad), 0x00000000);
    NextHash(10, Hash(0x8c87346b, 0x8e04ecb9, 0x85a07b5f, 0xe5030380, 0x1cc92596, 0x32ca2d8c, 0x0c657a79, 0x9b27a401), 0x00000000);
    NextHash(11, Hash(0x4798a3f4, 0x8c87346b, 0x8e04ecb9, 0x85a07b5f, 0x436b23e8, 0x1cc92596, 0x32ca2d8c, 0x0c657a79), 0x00000000);
    NextHash(12, Hash(0xf71fc5a9, 0x4798a3f4, 0x8c87346b, 0x8e04ecb9, 0x816fd6e9, 0x436b23e8, 0x1cc92596, 0x32ca2d8c), 0x00000000);
    NextHash(13, Hash(0x87912990, 0xf71fc5a9, 0x4798a3f4, 0x8c87346b, 0x1e578218, 0x816fd6e9, 0x436b23e8, 0x1cc92596), 0x00000000);
    NextHash(14, Hash(0xd932eb16, 0x87912990, 0xf71fc5a9, 0x4798a3f4, 0x745a48de, 0x1e578218, 0x816fd6e9, 0x436b23e8), 0x00000000);
    NextHash(15, Hash(0xc0645fde, 0xd932eb16, 0x87912990, 0xf71fc5a9, 0x0b92f20c, 0x745a48de, 0x1e578218, 0x816fd6e9), 0x00000018);
  }

  lemma Hash2()
    ensures HashAt(24, Hash(0xc5d53d8d, 0xa7a3623f, 0xc2606d6d, 0x9dc68b63, 0xaa47c347, 0x49f5114a, 0xe1257970, 0x8ada8930))
  {
    hide WordAt, HashAt;
    Words1();
    Constants2();
    Hash1();
    NextHash(16, Hash(0xb0fa238e, 0xc0645fde, 0xd932eb16, 0x87912990, 0x07590dcd, 0x0b92f20c, 0x745a48de, 0x1e578218), 0x61626380);
    NextHash(17, Hash(0x21da9a9b, 0xb0fa238e, 0xc0645fde, 0xd932eb16, 0x8034229c, 0x07590dcd, 0x0b92f20c, 0x745a48de), 0x000f0000);
    NextHash(18, Hash(0xc2fbd9d1, 0x21da9a9b, 0xb0fa238e, 0xc0645fde, 0x846ee454, 0x8034229c, 0x07590dcd, 0x0b92f20c), 0x7da86405);
    NextHash(19, Hash(0xfe777bbf, 0xc2fbd9d1, 0x21da9a9b, 0xb0fa238e, 0xcc899961, 0x846ee454, 0x8034229c, 0x07590dcd), 0x600003c6);
    NextHash(20, Hash(0xe1f20c33, 0xfe777bbf, 0xc2fbd9d1, 0x21da9a9b, 0xb0638179, 0xcc899961, 0x846ee454, 0x8034229c), 0x3e9d7b78);
    NextHash(21, Hash(0x9dc68b63, 0xe1f20c33, 0xfe777bbf, 0xc2fbd9d1, 0x8ada8930, 0xb0638179, 0xcc899961, 0x846ee454), 0x0183fc00);
    NextHash(22, Hash(0xc2606d6d, 0x9dc68b63, 0xe1f20c33, 0xfe777bbf, 0xe1257970, 0x8ada8930, 0xb0638179, 0xcc899961), 0x12dcbfdb);
    NextHash(23, Hash(0xa7a3623f, 0xc2606d6d, 0x9dc68b63, 0xe1f20c33, 0x49f5114a, 0xe1257970, 0x8ada8930, 0xb0638179), 0xe2e2c38e);
  }

  lemma Hash3()
    ensures HashAt(32, Hash(0x73b33bf5, 0xea992a22, 0xa0060b30, 0x363482c9, 0xba591112, 0x0109ab3a, 0xade79437, 0x6112a3b7))
  {
    hide WordAt, HashAt;
    Words2();
    Constants3();
    Hash2();
    NextHash(24, Hash(0xc5d53d8d, 0xa7a3623f, 0xc2606d6d, 0x9dc68b63, 0xaa47c347, 0x49f5114a, 0xe1257970, 0x8ada8930), 0xc8215c1a);
    NextHash(25, Hash(0x1c2c2838, 0xc5d53d8d, 0xa7a3623f, 0xc2606d6d, 0x2823ef91, 0xaa47c347, 0x49f5114a, 0xe1257970), 0xb73679a2);
    NextHash(26, Hash(0xcde8037d, 0x1c2c2838, 0xc5d53d8d, 0xa7a3623f, 0x14383d8e, 0x2823ef91, 0xaa47c347, 0x49f5114a), 0xe5bc3909);
    NextHash(27, Hash(0xb62ec4bc, 0xcde8037d, 0x1c2c2838, 0xc5d53d8d, 0xc74c6516, 0x14383d8e, 0x2823ef91, 0xaa47c347), 0x32663c5b);
    NextHash(28, Hash(0x77d37528, 0xb62ec4bc, 0xcde8037d, 0x1c2c2838, 0xedffbff8, 0xc74c6516, 0x14383d8e, 0x2823ef91), 0x9d209d67);
    NextHash(29, Hash(0x363482c9, 0x77d37528, 0xb62ec4bc, 0xcde8037d, 0x6112a3b7, 0xedffbff8, 0xc74c6516, 0x14383d8e), 0xec8726cb);
    NextHash(30, Hash(0xa0060b30, 0x363482c9, 0x77d37528, 0xb62ec4bc, 0xade79437, 0x6112a3b7, 0xedffbff8, 0xc74c6516), 0x702138a4);
    NextHash(31, Hash(0xea992a22, 0xa0060b30, 0x363482c9, 0x77d37528, 0x0109ab3a, 0xade79437, 0x6112a3b7, 0xedffbff8), 0xd3b7973b);
  }

  lemma Hash4()
    ensures HashAt(40, Hash(0x79ea687a, 0x6dc57a8a, 0x34df1604, 0x41a65cb1, 0x1efbc0a0, 0xf0781bc8, 0xa507a53d, 0x0772a26b))
  {
    hide WordAt, HashAt;
    Words3();
    Constants4();
    Hash3();
    NextHash(32, Hash(0x73b33bf5, 0xea992a22, 0xa0060b30, 0x363482c9, 0xba591112, 0x0109ab3a, 0xade79437, 0x6112a3b7), 0x93f5997f);
    NextHash(33, Hash(0x98e12507, 0x73b33bf5, 0xea992a22, 0xa0060b30, 0x9cd9f5f6, 0xba591112, 0x0109ab3a, 0xade79437), 0x3b68ba73);
    NextHash(34, Hash(0xfe604df5, 0x98e12507, 0x73b33bf5, 0xea992a22, 0x59249dd3, 0x9cd9f5f6, 0xba591112, 0x0109ab3a), 0xaff4ffc1);
    NextHash(35, Hash(0xa9a7738c, 0xfe604df5, 0x98e12507, 0x73b33bf5, 0x085f3833, 0x59249dd3, 0x9cd9f5f6, 0xba591112), 0xf10a5c62);
    NextHash(36, Hash(0x65a0cfe4, 0xa9a7738c, 0xfe604df5, 0x98e12507, 0xf4b002d6, 0x085f3833, 0x59249dd3, 0x9cd9f5f6), 0x0a8b3996);
    NextHash(37, Hash(0x41a65cb1, 0x65a0cfe4, 0xa9a7738c, 0xfe604df5, 0x0772a26b, 0xf4b002d6, 0x085f3833, 0x59249dd3), 0x72af830a);
    NextHash(38, Hash(0x34df1604, 0x41a65cb1, 0x65a0cfe4, 0xa9a7738c, 0xa507a53d, 0x0772a26b, 0xf4b002d6, 0x085f3833), 0x9409e33e);
    NextHash(39, Hash(0x6dc57a8a, 0x34df1604, 0x41a65cb1, 0x65a0cfe4, 0xf0781bc8, 0xa507a53d, 0x0772a26b, 0xf4b002d6), 0x24641522);
  }

  lemma Hash5()
    ensures HashAt(48, Hash(0x4172328d, 0xa14c14b0, 0x72ab4b91, 0x26628815, 0xfecf0bc6, 0xd57b94a9, 0xb7755da1, 0xa80f11f0))
  {
    hide WordAt, HashAt;
    Words4();
    Constants5();
    Hash4();
    NextHash(40, Hash(0x79ea687a, 0x6dc57a8a, 0x34df1604, 0x41a65cb1, 0x1efbc0a0, 0xf0781bc8, 0xa507a53d, 0x0772a26b), 0x9f47bf94);
    NextHash(41, Hash(0xd6670766, 0x79ea687a, 0x6dc57a8a, 0x34df1604, 0x26352d63, 0x1efbc0a0, 0xf0781bc8, 0xa507a53d), 0xf0a64f5a);
    NextHash(42, Hash(0xdf46652f, 0xd6670766, 0x79ea687a, 0x6dc57a8a, 0x838b2711, 0x26352d63, 0x1efbc0a0, 0xf0781bc8), 0x3e246a79);
    NextHash(43, Hash(0x17aa0dfe, 0xdf46652f, 0xd6670766, 0x79ea687a, 0xdecd4715, 0x838b2711, 0x26352d63, 0x1efbc0a0), 0x27333ba3);
    NextHash(44, Hash(0x9d4baf93, 0x17aa0dfe, 0xdf46652f, 0xd6670766, 0xfda24c2e, 0xdecd4715, 0x838b2711, 0x26352d63), 0x0c4763f2);
    NextHash(45, Hash(0x26628815, 0x9d4baf93, 0x17aa0dfe, 0xdf46652f, 0xa80f11f0, 0xfda24c2e, 0xdecd4715, 0x838b2711), 0x840abf27);
    NextHash(46, Hash(0x72ab4b91, 0x26628815, 0x9d4baf93, 0x17aa0dfe, 0xb7755da1, 0xa80f11f0, 0xfda24c2e, 0xdecd4715), 0x7a290d5d);
    NextHash(47, Hash(0xa14c14b0, 0x72ab4b91, 0x26628815, 0x9d4baf93, 0xd57b94a9, 0xb7755da1, 0xa80f11f0, 0xfda24c2e), 0x065c43da);
  }

  lemma Hash6()
    ensures HashAt(56, Hash(0x38cc9913, 0x3ec45cdb, 0xf5702fdb, 0x101fd28f, 0x54cb266b, 0xe50e1b4f, 0x9f4787c3, 0x529e7d00))
  {
    hide WordAt, HashAt;
    Words5();
    Constants6();
    Hash5();
    NextHash(48, Hash(0x4172328d, 0xa14c14b0, 0x72ab4b91, 0x26628815, 0xfecf0bc6, 0xd57b94a9, 0xb7755da1, 0xa80f11f0), 0xfb3e89cb);
    NextHash(49, Hash(0x05757ceb, 0x4172328d, 0xa14c14b0, 0x72ab4b91, 0xbd714038, 0xfecf0bc6, 0xd57b94a9, 0xb7755da1), 0xcc7617db);
    NextHash(50, Hash(0xf11bfaa8, 0x05757ceb, 0x4172328d, 0xa14c14b0, 0x6e5c390c, 0xbd714038, 0xfecf0bc6, 0xd57b94a9), 0xb9e66c34);
    NextHash(51, Hash(0x7a0508a1, 0xf11bfaa8, 0x05757ceb, 0x4172328d, 0x52f1ccf7, 0x6e5c390c, 0xbd714038, 0xfecf0bc6), 0xa9993667);
    NextHash(52, Hash(0x886e7a22, 0x7a0508a1, 0xf11bfaa8, 0x05757ceb, 0x49231c1e, 0x52f1ccf7, 0x6e5c390c, 0xbd714038), 0x84badedd);
    NextHash(53, Hash(0x101fd28f, 0x886e7a22, 0x7a0508a1, 0xf11bfaa8, 0x529e7d00, 0x49231c1e, 0x52f1ccf7, 0x6e5c390c), 0xc21462bc);
    NextHash(54, Hash(0xf5702fdb, 0x101fd28f, 0x886e7a22, 0x7a0508a1, 0x9f4787c3, 0x529e7d00, 0x49231c1e, 0x52f1ccf7), 0x1487472c);
    NextHash(55, Hash(0x3ec45cdb, 0xf5702fdb, 0x101fd28f, 0x886e7a22, 0xe50e1b4f, 0x9f4787c3, 0x529e7d00, 0x49231c1e), 0xb20f7a99);
  }

  lemma Hash7()
    ensures HashAt(64, Hash(0x506e3058, 0xd39a2165, 0x04d24d6c, 0xb85e2ce9, 0x5ef50f24, 0xfb121210, 0x948d25b6, 0x961f4894))
  {
    hide WordAt, HashAt;
    Words6();
    Constants7();
    Hash6();
    NextHash(56, Hash(0x38cc9913, 0x3ec45cdb, 0xf5702fdb, 0x101fd28f, 0x54cb266b, 0xe50e1b4f, 0x9f4787c3, 0x529e7d00), 0xef57b9cd);
    NextHash(57, Hash(0xfcd1887b, 0x38cc9913, 0x3ec45cdb, 0xf5702fdb, 0x9b5e906c, 0x54cb266b, 0xe50e1b4f, 0x9f4787c3), 0xebe6b238);
    NextHash(58, Hash(0xc062d46f, 0xfcd1887b, 0x38cc9913, 0x3ec45cdb, 0x7e44008e, 0x9b5e906c, 0x54cb266b, 0xe50e1b4f), 0x9fe3095e);
    NextHash(59, Hash(0xffb70472, 0xc062d46f, 0xfcd1887b, 0x38cc9913, 0x6d83bfc6, 0x7e44008e, 0x9b5e906c, 0x54cb266b), 0x78bc8d4b);
    NextHash(60, Hash(0xb6ae8fff, 0xffb70472, 0xc062d46f, 0xfcd1887b, 0xb21bad3d, 0x6d83bfc6, 0x7e44008e, 0x9b5e906c), 0xa43fcf15);
    NextHash(61, Hash(0xb85e2ce9, 0xb6ae8fff, 0xffb70472, 0xc062d46f, 0x961f4894, 0xb21bad3d, 0x6d83bfc6, 0x7e44008e), 0x668b2ff8);
    NextHash(62, Hash(0x04d24d6c, 0xb85e2ce9, 0xb6ae8fff, 0xffb70472, 0x948d25b6, 0x961f4894, 0xb21bad3d, 0x6d83bfc6), 0xeeaba2cc);
    NextHash(63, Hash(0xd39a2165, 0x04d24d6c, 0xb85e2ce9, 0xb6ae8fff, 0xfb121210, 0x948d25b6, 0x961f4894, 0xb21bad3d), 0x12b1edeb);
  }

  /** The digest of the three letters abc is the one the standard gives. */
  lemma Abc()
    ensures Digest([97, 98, 99]) == [
      0xba, 0x78, 0x16, 0xbf, 0x8f, 0x01, 0xcf, 0xea, 0x41, 0x41, 0x40, 0xde, 0x5d, 0xae, 0x22, 0x23,
      0xb0, 0x03, 0x61, 0xa3, 0x96, 0x17, 0x7a, 0x9c, 0xb4, 0x10, 0xff, 0x61, 0xf2, 0x00, 0x15, 0xad]
  {
    hide Rounds, Padded;
    AbcBlock();
    Hash7();
    assert ABC[..BLOCK] == ABC && ABC[BLOCK..] == [];
    assert Process(INITIAL, ABC) == Compress(INITIAL, ABC);
  }
}
