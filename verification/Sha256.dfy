/**
  SHA-256 as sections 5.1.1 and 6.2.2 of FIPS 180-4 define it, on values.
  Words are 32-bit vectors; bytes are numbers below 256.
*/
module Sha256 {
  import opened ByteBuffers

  type word = bv32

  const BLOCK: nat := 64

  // ------------------------------------------------------------------ functions on words

  function RotR(x: word, n: bv6): (r: word)
    requires n <= 32
  {
    (x >> n) | (x << (32 - n))
  }

  /** Addition modulo 2 to the 32. */
  function Add(x: word, y: word): (r: word) {
    x + y
  }

  function Ch(x: word, y: word, z: word): (r: word) {
    (x & y) ^ (!x & z)
  }

  function Maj(x: word, y: word, z: word): (r: word) {
    (x & y) ^ (x & z) ^ (y & z)
  }

  function BigSigma0(x: word): (r: word) {
    RotR(x, 2) ^ RotR(x, 13) ^ RotR(x, 22)
  }

  function BigSigma1(x: word): (r: word) {
    RotR(x, 6) ^ RotR(x, 11) ^ RotR(x, 25)
  }

  function SmallSigma0(x: word): (r: word) {
    RotR(x, 7) ^ RotR(x, 18) ^ (x >> 3)
  }

  function SmallSigma1(x: word): (r: word) {
    RotR(x, 17) ^ RotR(x, 19) ^ (x >> 10)
  }

  /** Four bytes, the first one on top. */
  function Pack(a: byte, b: byte, c: byte, d: byte): (r: word) {
    (d as word) | ((c as word) << 8) | ((b as word) << 16) | ((a as word) << 24)
  }

  function Unpack(x: word): (r: seq<byte>)
    ensures |r| == 4
  {
    [((x >> 24) & 0xFF) as byte, ((x >> 16) & 0xFF) as byte, ((x >> 8) & 0xFF) as byte, (x & 0xFF) as byte]
  }

  const K0: seq<word> := [0x428a2f98, 0x71374491, 0xb5c0fbcf, 0xe9b5dba5, 0x3956c25b, 0x59f111f1, 0x923f82a4, 0xab1c5ed5]
  const K1: seq<word> := [0xd807aa98, 0x12835b01, 0x243185be, 0x550c7dc3, 0x72be5d74, 0x80deb1fe, 0x9bdc06a7, 0xc19bf174]
  const K2: seq<word> := [0xe49b69c1, 0xefbe4786, 0x0fc19dc6, 0x240ca1cc, 0x2de92c6f, 0x4a7484aa, 0x5cb0a9dc, 0x76f988da]
  const K3: seq<word> := [0x983e5152, 0xa831c66d, 0xb00327c8, 0xbf597fc7, 0xc6e00bf3, 0xd5a79147, 0x06ca6351, 0x14292967]
  const K4: seq<word> := [0x27b70a85, 0x2e1b2138, 0x4d2c6dfc, 0x53380d13, 0x650a7354, 0x766a0abb, 0x81c2c92e, 0x92722c85]
  const K5: seq<word> := [0xa2bfe8a1, 0xa81a664b, 0xc24b8b70, 0xc76c51a3, 0xd192e819, 0xd6990624, 0xf40e3585, 0x106aa070]
  const K6: seq<word> := [0x19a4c116, 0x1e376c08, 0x2748774c, 0x34b0bcb5, 0x391c0cb3, 0x4ed8aa4a, 0x5b9cca4f, 0x682e6ff3]
  const K7: seq<word> := [0x748f82ee, 0x78a5636f, 0x84c87814, 0x8cc70208, 0x90befffa, 0xa4506ceb, 0xbef9a3f7, 0xc67178f2]

  const K: seq<word> := K0 + K1 + K2 + K3 + K4 + K5 + K6 + K7

  // ------------------------------------------------------------------ one block

  datatype Hash = Hash(a: word, b: word, c: word, d: word, e: word, f: word, g: word, h: word)

  const INITIAL := Hash(0x6a09e667, 0xbb67ae85, 0x3c6ef372, 0xa54ff53a,
                        0x510e527f, 0x9b05688c, 0x1f83d9ab, 0x5be0cd19)

  /** The message schedule. */
  function W(block: seq<byte>, j: nat): (w: word)
    requires |block| == BLOCK
  {
    if j < 16 then Pack(block[4 * j], block[4 * j + 1], block[4 * j + 2], block[4 * j + 3])
    else Expanded(W(block, j - 2), W(block, j - 7), W(block, j - 15), W(block, j - 16))
  }

  /** A word of the schedule from those 2, 7, 15 and 16 places before it. */
  function Expanded(w2: word, w7: word, w15: word, w16: word): (r: word) {
    SmallSigma1(w2) + w7 + SmallSigma0(w15) + w16
  }

  function Temp1(e: word, f: word, g: word, h: word, k: word, w: word): (r: word) {
    h + BigSigma1(e) + Ch(e, f, g) + k + w
  }

  function Temp2(a: word, b: word, c: word): (r: word) {
    BigSigma0(a) + Maj(a, b, c)
  }

  function Round(v: Hash, k: word, w: word): (r: Hash) {
    var t1 := Temp1(v.e, v.f, v.g, v.h, k, w);
    Hash(Add(t1, Temp2(v.a, v.b, v.c)), v.a, v.b, v.c, Add(v.d, t1), v.e, v.f, v.g)
  }

  /** The working variables after some rounds. */
  function Rounds(v: Hash, block: seq<byte>, n: nat): (r: Hash)
    requires |block| == BLOCK && n <= 64
  {
    if n == 0 then v else Round(Rounds(v, block, n - 1), K[n - 1], W(block, n - 1))
  }

  function Compress(v: Hash, block: seq<byte>): (r: Hash)
    requires |block| == BLOCK
  {
    var u := Rounds(v, block, 64);
    Hash(Add(v.a, u.a), Add(v.b, u.b), Add(v.c, u.c), Add(v.d, u.d),
         Add(v.e, u.e), Add(v.f, u.f), Add(v.g, u.g), Add(v.h, u.h))
  }

  // ------------------------------------------------------------------ whole messages

  /** One block after the other; what does not fill a block is left. */
  function Process(v: Hash, data: seq<byte>): (r: Hash)
    decreases |data|
  {
    if |data| < BLOCK then v else Process(Compress(v, data[..BLOCK]), data[BLOCK..])
  }

  function Zeros(n: nat): (s: seq<byte>)
    ensures |s| == n
  {
    seq(n, _ => 0)
  }

  /** The last bytes of a number, the first one on top. */
  function BigEndian(x: nat, n: nat): (s: seq<byte>)
    ensures |s| == n
  {
    if n == 0 then [] else BigEndian(x / 256, n - 1) + [(x % 256) as byte]
  }

  /** The zero bits that bring the one bit and the length to a multiple of 512. */
  function Gap(length: nat): (n: nat)
    ensures n < BLOCK && (length + 1 + n + 8) % BLOCK == 0
  {
    (BLOCK - (length + 9) % BLOCK) % BLOCK
  }

  /** The padding of the standard, with the length in bits as 64 bits. */
  function Padded(data: seq<byte>): (s: seq<byte>)
    requires 8 * |data| < 0x1_0000_0000_0000_0000
  {
    data + [0x80] + Zeros(Gap(|data|)) + BigEndian(8 * |data|, 8)
  }

  function Bytes(v: Hash): (s: seq<byte>) {
    Unpack(v.a) + Unpack(v.b) + Unpack(v.c) + Unpack(v.d) + Unpack(v.e) + Unpack(v.f) + Unpack(v.g) + Unpack(v.h)
  }

  function Digest(data: seq<byte>): (s: seq<byte>)
    requires 8 * |data| < 0x1_0000_0000_0000_0000
  {
    Bytes(Process(INITIAL, Padded(data)))
  }

  // ------------------------------------------------------------------ the padding of the program

  /** The program keeps the length in 32 bits; the 4 bytes above stay zero. */
  function PaddedShort(data: seq<byte>): (s: seq<byte>) {
    PaddedWith(data, BigEndian(8 * |data| % 0x1_0000_0000, 4))
  }

  function PaddedWith(data: seq<byte>, length: seq<byte>): (s: seq<byte>) {
    data + [0x80] + Zeros(Gap(|data|) + 4) + length
  }

  lemma {:induction false} ProcessSplit(v: Hash, a: seq<byte>, b: seq<byte>)
    requires |a| % BLOCK == 0
    ensures Process(v, a + b) == Process(Process(v, a), b)
    decreases |a|
  {
    hide Compress;
    if a == [] {
      assert a + b == b;
    } else {
      assert (a + b)[..BLOCK] == a[..BLOCK] && (a + b)[BLOCK..] == a[BLOCK..] + b;
      ProcessSplit(Compress(v, a[..BLOCK]), a[BLOCK..], b);
    }
  }

  function Pow256(n: nat): (p: nat)
    ensures p >= 1
  {
    if n == 0 then 1 else 256 * Pow256(n - 1)
  }

  lemma Pow256At()
    ensures Pow256(4) == 0x1_0000_0000 && Pow256(8) == 0x1_0000_0000_0000_0000
  {
    assert Pow256(4) == 256 * Pow256(3) && Pow256(3) == 256 * Pow256(2) && Pow256(2) == 256 * Pow256(1);
    assert Pow256(8) == 256 * Pow256(7) && Pow256(7) == 256 * Pow256(6) && Pow256(6) == 256 * Pow256(5);
  }

  /** A small number has zeros on top. */
  lemma {:induction false} SmallNumber(x: nat, n: nat, k: nat)
    requires x < Pow256(n)
    ensures BigEndian(x, k + n) == Zeros(k) + BigEndian(x, n)
    decreases k + n
  {
    if n > 0 {
      SmallNumber(x / 256, n - 1, k);
      assert k + n - 1 == k + (n - 1);
    } else if k > 0 {
      SmallNumber(x / 256, 0, k - 1);
      assert BigEndian(0, k) == BigEndian(0, k - 1) + [0];
      assert Zeros(k) == Zeros(k - 1) + [0];
    }
  }

  lemma {:induction false} NumbersDiffer(x: nat, y: nat, n: nat)
    requires x < Pow256(n) && y < Pow256(n) && BigEndian(x, n) == BigEndian(y, n)
    ensures x == y
  {
    if n > 0 {
      var s, t := BigEndian(x, n), BigEndian(y, n);
      assert s[..n - 1] == BigEndian(x / 256, n - 1) && t[..n - 1] == BigEndian(y / 256, n - 1);
      assert s[n - 1] == (x % 256) as byte && t[n - 1] == (y % 256) as byte;
      NumbersDiffer(x / 256, y / 256, n - 1);
    }
  }

  lemma Regroup(a: seq<byte>, b: seq<byte>, c: seq<byte>, d: seq<byte>)
    ensures a + (b + c) + d == a + b + (c + d)
  {
  }

  lemma ZerosOfBoth(m: nat, n: nat)
    ensures Zeros(m + n) == Zeros(m) + Zeros(n)
  {
  }

  lemma ShortLength(data: seq<byte>)
    ensures PaddedShort(data) == data + [0x80] + Zeros(Gap(|data|)) + BigEndian(8 * |data| % 0x1_0000_0000, 8)
  {
    hide Gap, BigEndian, Zeros;
    var x, g := 8 * |data| % 0x1_0000_0000, Gap(|data|);
    Pow256At();
    SmallNumber(x, 4, 4);
    ZerosOfBoth(g, 4);
    Regroup(data + [0x80], Zeros(g), Zeros(4), BigEndian(x, 4));
  }

  /** The program pads as the standard exactly for messages below 2 to the 29 bytes. */
  lemma PaddingExact(data: seq<byte>)
    requires 8 * |data| < 0x1_0000_0000_0000_0000
    ensures PaddedShort(data) == Padded(data) <==> |data| < 0x2000_0000
  {
    hide Gap, BigEndian;
    ShortLength(data);
    Pow256At();
    var x, z := 8 * |data|, 8 * |data| % 0x1_0000_0000;
    if |data| >= 0x2000_0000 && PaddedShort(data) == Padded(data) {
      var front := data + [0x80] + Zeros(Gap(|data|));
      assert Padded(data)[|front|..] == BigEndian(x, 8) && PaddedShort(data)[|front|..] == BigEndian(z, 8);
      NumbersDiffer(x, z, 8);
    }
  }
}
