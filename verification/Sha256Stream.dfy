/** SHA-256 computed as the data comes in, on arrays that are updated in place. */
module Sha256Stream {
  import opened ByteBuffers
  import opened Sha256

  const UINT: nat := 0x1_0000_0000

  /** The words of an array as a hash. */
  ghost function HashOf(s: seq<word>): (v: Hash)
    requires |s| == 8
  {
    Hash(s[0], s[1], s[2], s[3], s[4], s[5], s[6], s[7])
  }

  class Stream {
    const hash: array<word>
    const block: array<byte>
    /** Bytes in the block, and bytes in the blocks before it, both of 32 bits. */
    var len: nat
    var totLen: nat
    /** Everything that came in. */
    ghost var data: seq<byte>

    ghost predicate Shape()
      reads this
    {
      hash.Length == 8 && block.Length == 2 * BLOCK
    }

    /** All full blocks are processed, and the block holds the rest. */
    ghost predicate Valid()
      reads this, hash, block
    {
      Shape() && len < BLOCK && len <= |data| && (|data| - len) % BLOCK == 0 &&
      totLen == (|data| - len) % UINT &&
      block[..len] == data[|data| - len..] &&
      HashOf(hash[..]) == Process(INITIAL, data[..|data| - len])
    }

    constructor ()
      ensures Valid() && data == [] && fresh(hash) && fresh(block)
    {
      hash := new word[8];
      block := new byte[2 * BLOCK];
      new;
      Init();
    }

    method Init()
      requires Shape()
      modifies this, hash
      ensures Valid() && data == []
    {
      hide Process;
      var v := INITIAL;
      hash[0], hash[1], hash[2], hash[3] := v.a, v.b, v.c, v.d;
      hash[4], hash[5], hash[6], hash[7] := v.e, v.f, v.g, v.h;
      len, totLen := 0, 0;
      data := [];
      NothingProcessed(v);
      assert HashOf(hash[..]) == v;
      assert data[..0] == [] && block[..0] == [];
    }

    static lemma NothingProcessed(v: Hash)
      ensures Process(v, []) == v
    {
    }

    // ---------------------------------------------------------------- blocks

    /** The schedule of one block. */
    static method Expand(message: seq<byte>) returns (w: array<word>)
      requires |message| == BLOCK
      ensures fresh(w) && w.Length == 64 && forall j :: 0 <= j < 64 ==> w[j] == W(message, j)
    {
      hide Pack, Expanded;
      w := new word[64];
      for j := 0 to 16
        invariant forall i :: 0 <= i < j ==> w[i] == W(message, i)
      {
        w[j] := Pack(message[4 * j], message[4 * j + 1], message[4 * j + 2], message[4 * j + 3]);
      }
      for j := 16 to 64
        invariant forall i :: 0 <= i < j ==> w[i] == W(message, i)
      {
        w[j] := Expanded(w[j - 2], w[j - 7], w[j - 15], w[j - 16]);
      }
    }

    /** One round on the working variables. */
    static method RoundInPlace(wv: array<word>, k: word, w: word)
      requires wv.Length == 8
      modifies wv
      ensures HashOf(wv[..]) == Round(old(HashOf(wv[..])), k, w)
    {
      hide Temp1, Temp2, Add;
      var t1 := Temp1(wv[4], wv[5], wv[6], wv[7], k, w);
      var t2 := Temp2(wv[0], wv[1], wv[2]);
      wv[7] := wv[6];
      wv[6] := wv[5];
      wv[5] := wv[4];
      wv[4] := Add(wv[3], t1);
      wv[3] := wv[2];
      wv[2] := wv[1];
      wv[1] := wv[0];
      wv[0] := Add(t1, t2);
    }

    method TransformBlock(message: seq<byte>)
      requires Shape() && |message| == BLOCK
      modifies hash
      ensures HashOf(hash[..]) == Compress(old(HashOf(hash[..])), message)
    {
      hide W, Round, Add;
      ghost var start := HashOf(hash[..]);
      var w := Expand(message);
      var wv := new word[8];
      wv[0], wv[1], wv[2], wv[3] := hash[0], hash[1], hash[2], hash[3];
      wv[4], wv[5], wv[6], wv[7] := hash[4], hash[5], hash[6], hash[7];
      assert HashOf(wv[..]) == start;
      for j := 0 to 64
        invariant hash[..] == old(hash[..])
        invariant forall i :: 0 <= i < 64 ==> w[i] == W(message, i)
        invariant HashOf(wv[..]) == Rounds(start, message, j)
      {
        RoundInPlace(wv, K[j], w[j]);
      }
      AddTo(wv);
    }

    method AddTo(wv: array<word>)
      requires Shape() && wv.Length == 8 && wv != hash
      modifies hash
      ensures forall j :: 0 <= j < 8 ==> hash[j] == Add(old(hash[j]), wv[j])
    {
      hide Add;
      for j := 0 to 8
        invariant forall i :: 0 <= i < j ==> hash[i] == Add(old(hash[i]), wv[i])
        invariant forall i :: j <= i < 8 ==> hash[i] == old(hash[i])
      {
        hash[j] := Add(hash[j], wv[j]);
      }
    }

    method Transform(message: seq<byte>, blocks: nat)
      requires Shape() && blocks * BLOCK <= |message|
      modifies hash
      ensures HashOf(hash[..]) == Process(old(HashOf(hash[..])), message[..blocks * BLOCK])
    {
      hide Compress;
      ghost var start := HashOf(hash[..]);
      var i := 0;
      while i < blocks
        invariant 0 <= i <= blocks
        invariant HashOf(hash[..]) == Process(start, message[..i * BLOCK])
      {
        var sub := message[i * BLOCK..(i + 1) * BLOCK];
        TransformBlock(sub);
        ProcessOne(start, message[..i * BLOCK], sub);
        assert message[..(i + 1) * BLOCK] == message[..i * BLOCK] + sub;
        i := i + 1;
      }
    }

    // ---------------------------------------------------------------- data in and digest out

    /** Copies bytes into the block. */
    method Copy(at: nat, bytes: seq<byte>)
      requires Shape() && at + |bytes| <= 2 * BLOCK
      modifies block
      ensures block[..] == old(block[..at]) + bytes + old(block[at + |bytes|..])
    {
      for i := 0 to |bytes|
        invariant block[..] == old(block[..at]) + bytes[..i] + old(block[at + i..])
      {
        block[at + i] := bytes[i];
      }
    }

    /** Everything but the block fits the data. */
    ghost predicate Counted()
      reads this, hash
    {
      Shape() && len < BLOCK && len <= |data| && (|data| - len) % BLOCK == 0 &&
      totLen == (|data| - len) % UINT &&
      HashOf(hash[..]) == Process(INITIAL, data[..|data| - len])
    }

    method Update(message: seq<byte>)
      requires Valid() && len + |message| < UINT
      modifies this, hash, block
      ensures Valid() && data == old(data) + message
    {
      hide Process, HashOf;
      var rem := if |message| < BLOCK - len then |message| else BLOCK - len;
      ghost var tail, front := data[|data| - len..], data[..|data| - len];
      Copy(len, message[..rem]);
      assert block[..len + rem] == tail + message[..rem];
      if len + |message| < BLOCK {
        data := data + message;
        len := len + |message|;
        assert data[|data| - len..] == tail + message && data[..|data| - len] == front;
      } else {
        Absorb(message, rem);
      }
    }

    /** The block is full: it and the full blocks of the piece are processed, and the rest fills it anew. */
    method Absorb(message: seq<byte>, rem: nat)
      requires Counted() && rem == BLOCK - len <= |message|
      requires block[..BLOCK] == data[|data| - len..] + message[..rem]
      modifies this, hash, block
      ensures Valid() && data == old(data) + message
    {
      hide Process, HashOf;
      var newLen := |message| - rem;
      var blocks := newLen / BLOCK;
      var shifted := message[rem..];
      var first := block[..];
      ghost var n := |data| - len;
      ghost var k := blocks * BLOCK;
      assert first[..BLOCK] == block[..BLOCK];
      Transform(first, 1);
      Transform(shifted, blocks);
      BlockSum(n, newLen);
      Parts(data, len, message, k);
      ProcessParts(data[..n], first[..BLOCK], shifted[..k]);
      totLen := (totLen + (blocks + 1) * BLOCK) % UINT;
      ModAdd(n, k + BLOCK);
      Copy(0, shifted[blocks * BLOCK..]);
      len := newLen % BLOCK;
      data := data + message;
    }

    /** The digest of everything that came in; the object has to be initialised before it is used again. */
    method Final() returns (digest: seq<byte>)
      requires Valid()
      modifies this, hash, block
      ensures digest == Bytes(Process(INITIAL, PaddedShort(old(data))))
      ensures |old(data)| < 0x2000_0000 ==> digest == Digest(old(data))
    {
      hide Process, Unpack, HashOf, PaddedShort, Padded;
      var blocks := if BLOCK - 9 < len % BLOCK then 2 else 1;
      var end := blocks * BLOCK;
      PadBlock(end);
      var last := block[..];
      Transform(last, blocks);
      ProcessSplit(INITIAL, data[..|data| - len], last[..end]);
      if |data| < 0x2000_0000 { PaddingExact(data); }
      digest := HashBytes();
    }

    /** The one bit, zeros and the length behind the rest of the data. */
    method PadBlock(end: nat)
      requires Valid() && end == if BLOCK - 9 < len then 2 * BLOCK else BLOCK
      modifies block
      ensures PaddedShort(data) == data[..|data| - len] + block[..end]
    {
      hide Process, HashOf, PaddedWith, Gap, BigEndian;
      var lenB := (totLen + len) % UINT * 8 % UINT;
      var length := BigEndian(lenB, 4);
      Copy(len, Zeros(end - len));
      block[len] := 0x80;
      Copy(end - 4, length);
      LengthBits(|data| - len, len);
      var last := block[..];
      LastBlocks(last, data[|data| - len..], len, end, length);
      PaddedTail(data, len, last[..end], length);
    }

    method HashBytes() returns (s: seq<byte>)
      requires Shape()
      ensures s == Bytes(HashOf(hash[..]))
    {
      hide Unpack;
      s := Unpack(hash[0]) + Unpack(hash[1]) + Unpack(hash[2]) + Unpack(hash[3])
         + Unpack(hash[4]) + Unpack(hash[5]) + Unpack(hash[6]) + Unpack(hash[7]);
    }
  }

  /** Whole blocks in front stay whole blocks. */
  lemma BlockSum(n: nat, newLen: nat)
    requires n % BLOCK == 0
    ensures var k := newLen / BLOCK * BLOCK; newLen == k + newLen % BLOCK && (n + BLOCK + k) % BLOCK == 0 && k % BLOCK == 0
  {
  }

  /** The data after a long piece: what was processed, the block that was filled, and blocks of the piece. */
  lemma Parts(data: seq<byte>, len: nat, message: seq<byte>, k: nat)
    requires len < BLOCK && len <= |data| && BLOCK - len + k <= |message|
    ensures var all, n, rem := data + message, |data| - len, BLOCK - len;
      all[..n + BLOCK + k] == data[..n] + (data[n..] + message[..rem]) + message[rem..][..k] &&
      all[n + BLOCK + k..] == message[rem..][k..]
  {
  }

  lemma ProcessParts(a: seq<byte>, b: seq<byte>, c: seq<byte>)
    requires |a| % BLOCK == 0 && |b| == BLOCK
    ensures Process(INITIAL, a + b + c) == Process(Process(Process(INITIAL, a), b), c)
  {
    hide Process;
    ProcessSplit(INITIAL, a + b, c);
    ProcessSplit(INITIAL, a, b);
  }

  lemma ModAdd(n: nat, k: nat)
    ensures (n % UINT + k) % UINT == (n + k) % UINT
  {
    var q := n / UINT;
    assert n + k == (n % UINT + k) + q * UINT;
    ModTimes(n % UINT + k, q);
  }

  lemma {:induction false} ModTimes(x: nat, q: nat)
    ensures (x + q * UINT) % UINT == x % UINT
    decreases q
  {
    if q > 0 {
      ModTimes(x, q - 1);
      assert x + q * UINT == x + (q - 1) * UINT + UINT;
    }
  }

  lemma LengthBits(n: nat, len: nat)
    ensures (n % UINT + len) % UINT * 8 % UINT == 8 * (n + len) % UINT
  {
    ModAdd(n, len);
    var x := n + len;
    var q := x / UINT;
    assert 8 * x == x % UINT * 8 + 8 * q * UINT;
    ModTimes(x % UINT * 8, 8 * q);
  }

  /** What the last blocks hold after the copies. */
  lemma LastBlocks(last: seq<byte>, tail: seq<byte>, len: nat, end: nat, length: seq<byte>)
    requires |last| == 2 * BLOCK && len == |tail| && len + 5 <= end <= |last| && |length| == 4
    requires last[..len] == tail && last[len] == 0x80 && last[end - 4..end] == length
    requires forall i :: len < i < end - 4 ==> last[i] == 0
    ensures last[..end] == tail + [0x80] + Zeros(end - len - 5) + length
  {
  }

  lemma GapOf(n: nat, len: nat)
    requires n % BLOCK == 0 && len < BLOCK
    ensures Gap(n + len) + 4 == (if BLOCK - 9 < len then 2 * BLOCK else BLOCK) - len - 5
  {
  }

  lemma PaddedTail(data: seq<byte>, len: nat, last: seq<byte>, length: seq<byte>)
    requires len < BLOCK && len <= |data| && (|data| - len) % BLOCK == 0
    requires var end := if BLOCK - 9 < len then 2 * BLOCK else BLOCK;
      last == data[|data| - len..] + [0x80] + Zeros(end - len - 5) + length
    ensures PaddedWith(data, length) == data[..|data| - len] + last
  {
    hide Zeros, Gap;
    var n := |data| - len;
    GapOf(n, len);
    Appended(data[..n], data[n..], [0x80], Zeros(Gap(|data|) + 4), length);
    assert data == data[..n] + data[n..];
  }

  lemma Appended(a: seq<byte>, b: seq<byte>, c: seq<byte>, d: seq<byte>, e: seq<byte>)
    ensures a + b + c + d + e == a + (b + c + d + e)
  {
  }

  lemma ProcessOne(v: Hash, a: seq<byte>, sub: seq<byte>)
    requires |a| % BLOCK == 0 && |sub| == BLOCK
    ensures Process(v, a + sub) == Compress(Process(v, a), sub)
  {
    hide Compress;
    ProcessSplit(v, a, sub);
    assert sub[..BLOCK] == sub && sub[BLOCK..] == [];
  }

  function Joined(pieces: seq<seq<byte>>): (s: seq<byte>) {
    if pieces == [] then [] else Joined(pieces[..|pieces| - 1]) + pieces[|pieces| - 1]
  }

  /** However the data is cut into pieces, the digest is the one of the standard. */
  method DigestOfPieces(pieces: seq<seq<byte>>) returns (digest: seq<byte>)
    requires |Joined(pieces)| < 0x2000_0000
    ensures digest == Digest(Joined(pieces))
  {
    hide Digest;
    var stream := new Stream();
    for i := 0 to |pieces|
      invariant stream.Valid() && stream.data == Joined(pieces[..i]) && fresh(stream) && fresh(stream.hash) && fresh(stream.block)
    {
      assert pieces[..i + 1][..i] == pieces[..i];
      JoinedPart(pieces, i + 1);
      stream.Update(pieces[i]);
    }
    assert pieces[..|pieces|] == pieces;
    digest := stream.Final();
  }

  lemma {:induction false} JoinedPart(pieces: seq<seq<byte>>, i: nat)
    requires i <= |pieces|
    ensures |Joined(pieces[..i])| <= |Joined(pieces)|
    decreases |pieces|
  {
    if i == |pieces| {
      assert pieces[..i] == pieces;
    } else {
      JoinedPart(pieces[..|pieces| - 1], i);
      assert pieces[..|pieces| - 1][..i] == pieces[..i];
    }
  }
}
