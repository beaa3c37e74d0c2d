/**
  The byte buffer that the undo log of a transaction is written to: a list of
  fixed-size chunks, filled at the back and drained at the front.
*/
module ByteBuffers {

  newtype byte = x: int | 0 <= x < 256

  const BUF_SIZE: nat := 16384

  class Chunk {
    const data: array<byte>
    var readCursor: nat
    var writeCursor: nat

    constructor ()
      ensures Ok() && readCursor == 0 && writeCursor == 0 && fresh(data)
    {
      data := new byte[BUF_SIZE];
      readCursor, writeCursor := 0, 0;
    }

    ghost predicate Ok()
      reads this
    {
      data.Length == BUF_SIZE && readCursor <= writeCursor <= BUF_SIZE
    }

    /** The bytes that are in the chunk and not yet released. */
    ghost function Unread(): (s: seq<byte>)
      requires Ok()
      reads this, data
      ensures |s| == writeCursor - readCursor
    {
      data[readCursor..writeCursor]
    }

    function Available(): (n: nat)
      requires Ok()
      reads this
    {
      BUF_SIZE - writeCursor
    }

    function Used(): (n: nat)
      requires Ok()
      reads this, data
      ensures n == |Unread()|
    {
      writeCursor - readCursor
    }

    function Released(): (n: nat)
      reads this
    {
      readCursor
    }

    /** Copies the bytes `[from, from + n)` behind the write cursor. */
    method Write(bytes: seq<byte>, from: nat, n: nat)
      requires Ok() && from + n <= |bytes| && n <= Available()
      modifies this`writeCursor, data
      ensures Ok() && readCursor == old(readCursor) && writeCursor == old(writeCursor) + n
      ensures Unread() == old(Unread()) + bytes[from..from + n]
    {
      var w := writeCursor;
      for i := 0 to n
        invariant writeCursor == w
        invariant data[..w] == old(data[..w])
        invariant data[w..w + i] == bytes[from..from + i]
      {
        data[w + i] := bytes[from + i];
      }
      writeCursor := w + n;
      assert data[readCursor..w] == data[..w][readCursor..] && old(data[readCursor..w]) == old(data[..w])[readCursor..];
      assert data[readCursor..w + n] == data[readCursor..w] + data[w..w + n];
    }
  }

  class ByteBuffer {
    var chunks: seq<Chunk>

    static ghost function Footprint(cs: seq<Chunk>): (r: set<object>) {
      (set c: Chunk | c in cs :: c as object) + (set c: Chunk | c in cs :: c.data as object)
    }

    /** Chunks do not share memory. */
    static ghost predicate Separate(cs: seq<Chunk>) {
      forall i, j :: 0 <= i < j < |cs| ==> cs[i] != cs[j] && cs[i].data != cs[j].data
    }

    /** Every chunk but the last is fully written, and every chunk but the first is unread. */
    static ghost predicate Filled(cs: seq<Chunk>)
      reads cs
    {
      && (forall i :: 0 <= i < |cs| ==> cs[i].Ok())
      && (forall i :: 0 <= i < |cs| - 1 ==> cs[i].writeCursor == BUF_SIZE)
      && (forall i :: 0 < i < |cs| ==> cs[i].readCursor == 0)
    }

    static ghost function Bytes(cs: seq<Chunk>): (s: seq<byte>)
      requires forall i :: 0 <= i < |cs| ==> cs[i].Ok()
      reads cs, set c | c in cs :: c.data
    {
      if cs == [] then [] else Bytes(cs[..|cs| - 1]) + cs[|cs| - 1].Unread()
    }

    ghost predicate Valid()
      reads this, chunks
    {
      chunks != [] && Separate(chunks) && Filled(chunks)
    }

    /** The queue of bytes the buffer stands for. */
    ghost function Contents(): (s: seq<byte>)
      requires Valid()
      reads this, chunks, set c | c in chunks :: c.data
    {
      Bytes(chunks)
    }

    constructor ()
      ensures Valid() && Contents() == [] && fresh(Footprint(chunks))
    {
      var c := new Chunk();
      chunks := [c];
      new;
      assert chunks[..0] == [] && Bytes(chunks[..0]) == [];
    }

    static lemma {:induction false} Front(cs: seq<Chunk>)
      requires cs != [] && forall i :: 0 <= i < |cs| ==> cs[i].Ok()
      ensures Bytes(cs) == cs[0].Unread() + Bytes(cs[1..])
    {
      if |cs| > 1 {
        var n := |cs| - 1;
        Front(cs[..n]);
        assert cs[..n][1..] == cs[1..][..n - 1];
      }
    }

    /** What still fits into the last chunk. */
    function Room(): (n: nat)
      requires Valid()
      reads this, chunks
      ensures n <= BUF_SIZE
    {
      chunks[|chunks| - 1].Available()
    }

    /** Adds bytes at the back, opening new chunks as needed. */
    method Append(bytes: seq<byte>)
      requires Valid()
      modifies this, Footprint(chunks)
      ensures Valid() && fresh(Footprint(chunks) - old(Footprint(chunks)))
      ensures Contents() == old(Contents()) + bytes
    {
      hide Separate, Filled, Bytes, Room;
      var written: nat, size: nat := 0, |bytes|;
      while Room() < size
        invariant Valid() && written + size == |bytes|
        invariant fresh(Footprint(chunks) - old(Footprint(chunks)))
        invariant Contents() == old(Contents()) + bytes[..written]
        decreases size, BUF_SIZE - Room()
      {
        var n := Room();
        Longer(old(Contents()), bytes, written, n);
        WriteBack(bytes, written, n);
        size := size - n;
        written := written + n;
        Open();
      }
      Longer(old(Contents()), bytes, written, size);
      assert bytes[..written + size] == bytes;
      if size > 0 {
        WriteBack(bytes, written, size);
      }
    }

    static lemma Longer(front: seq<byte>, bytes: seq<byte>, w: nat, n: nat)
      requires w + n <= |bytes|
      ensures front + bytes[..w] + bytes[w..w + n] == front + bytes[..w + n]
    {
      assert bytes[..w + n] == bytes[..w] + bytes[w..w + n];
    }

    method WriteBack(bytes: seq<byte>, from: nat, n: nat)
      requires Valid() && from + n <= |bytes| && n <= Room()
      modifies Footprint(chunks)
      ensures Valid() && chunks == old(chunks)
      ensures Contents() == old(Contents()) + bytes[from..from + n]
      ensures Room() == old(Room()) - n
    {
      var m := |chunks| - 1;
      chunks[m].Write(bytes, from, n);
      assert Bytes(chunks[..m]) == old(Bytes(chunks[..m]));
    }

    method Open()
      requires Valid() && Room() == 0
      modifies this
      ensures Valid() && fresh(Footprint(chunks) - old(Footprint(chunks)))
      ensures Contents() == old(Contents()) && Room() == BUF_SIZE
    {
      hide Bytes;
      var c := new Chunk();
      assert c.Unread() == [];
      BytesBehind(chunks, c);
      chunks := chunks + [c];
    }

    static lemma BytesBehind(cs: seq<Chunk>, c: Chunk)
      requires (forall i :: 0 <= i < |cs| ==> cs[i].Ok()) && c.Ok() && c.Unread() == []
      ensures Bytes(cs + [c]) == Bytes(cs)
    {
      var r := cs + [c];
      assert r[..|r| - 1] == cs && r[|r| - 1] == c;
    }

    /** Takes the oldest `n` bytes out, dropping chunks that are used up. */
    method Release(n: nat) returns (bytes: seq<byte>)
      requires Valid() && n <= |Contents()|
      modifies this, Footprint(chunks)
      ensures Valid() && fresh(Footprint(chunks) - old(Footprint(chunks)))
      ensures bytes == old(Contents())[..n] && Contents() == old(Contents())[n..]
    {
      hide Separate, Bytes;
      bytes := ReleaseChunks(n);
      if |bytes| < n {
        var part := ReadFront(n - |bytes|);
        Regroup(bytes, part, Bytes(chunks));
        bytes := bytes + part;
      }
      Divided(bytes, Bytes(chunks));
      NoBytes(chunks);
      if chunks == [] {
        Clear();
      }
    }

    /** Takes out chunks as long as they are needed whole. */
    method ReleaseChunks(n: nat) returns (bytes: seq<byte>)
      requires Separate(chunks) && Filled(chunks) && n <= |Bytes(chunks)|
      modifies this
      ensures Separate(chunks) && Filled(chunks) && Footprint(chunks) <= old(Footprint(chunks))
      ensures |bytes| <= n && bytes + Bytes(chunks) == old(Bytes(chunks))
      ensures chunks != [] ==> chunks[0].Ok() && n - |bytes| < chunks[0].Used()
      ensures chunks == [] ==> |bytes| == n
    {
      hide Separate, Bytes;
      bytes := [];
      while chunks != [] && chunks[0].Used() <= n - |bytes|
        invariant Separate(chunks) && Filled(chunks) && Footprint(chunks) <= old(Footprint(chunks))
        invariant |bytes| <= n && bytes + Bytes(chunks) == old(Bytes(chunks))
        decreases |chunks|
      {
        var part := PopFront();
        Regroup(bytes, part, Bytes(chunks));
        bytes := bytes + part;
      }
      NoBytes(chunks);
    }

    static lemma NoBytes(cs: seq<Chunk>)
      ensures cs == [] ==> Bytes(cs) == []
    {
    }

    static lemma Regroup(a: seq<byte>, b: seq<byte>, c: seq<byte>)
      ensures a + (b + c) == a + b + c
    {
    }

    static lemma Divided(a: seq<byte>, b: seq<byte>)
      ensures a == (a + b)[..|a|] && b == (a + b)[|a|..]
    {
    }

    method PopFront() returns (bytes: seq<byte>)
      requires chunks != [] && Separate(chunks) && Filled(chunks)
      modifies this
      ensures chunks == old(chunks[1..]) && Separate(chunks) && Filled(chunks) && Footprint(chunks) <= old(Footprint(chunks))
      ensures bytes + Bytes(chunks) == old(Bytes(chunks)) && |bytes| == old(chunks[0].Used())
    {
      Front(chunks);
      var c := chunks[0];
      bytes := c.data[c.readCursor..c.readCursor + c.Used()];
      assert forall c :: c in chunks[1..] ==> c in chunks;
      chunks := chunks[1..];
    }

    method ReadFront(n: nat) returns (bytes: seq<byte>)
      requires chunks != [] && Separate(chunks) && Filled(chunks) && n < chunks[0].Used()
      modifies Footprint(chunks)
      ensures chunks == old(chunks) && Separate(chunks) && Filled(chunks)
      ensures bytes + Bytes(chunks) == old(Bytes(chunks)) && |bytes| == n
    {
      hide Bytes;
      Front(chunks);
      var c := chunks[0];
      bytes := c.data[c.readCursor..c.readCursor + n];
      c.readCursor := c.readCursor + n;
      Front(chunks);
      assert Bytes(chunks[1..]) == old(Bytes(chunks[1..]));
      ghost var mine, rest := c.Unread(), Bytes(chunks[1..]);
      assert bytes + mine == old(c.Unread());
      assert bytes + (mine + rest) == (bytes + mine) + rest;
    }

    /** The number of bytes in the queue, computed from the outermost cursors alone. */
    function Size(): (n: int)
      requires Valid()
      reads this, chunks, set c | c in chunks :: c.data
      ensures n == |Contents()|
    {
      Measured(chunks);
      |chunks| * BUF_SIZE - chunks[|chunks| - 1].Available() - chunks[0].Released()
    }

    static lemma {:induction false} Measured(cs: seq<Chunk>)
      requires cs != [] && Filled(cs)
      ensures |Bytes(cs)| == |cs| * BUF_SIZE - cs[|cs| - 1].Available() - cs[0].Released()
    {
      var m := |cs| - 1;
      if m > 0 {
        Measured(cs[..m]);
      } else {
        assert Bytes(cs[..0]) == [];
      }
    }

    method Clear()
      modifies this
      ensures Valid() && Contents() == [] && fresh(Footprint(chunks))
    {
      var c := new Chunk();
      chunks := [c];
      assert chunks[..0] == [] && Bytes(chunks[..0]) == [];
    }
  }
}
