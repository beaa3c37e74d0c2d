/**
  How the attributes of an object are written to the byte buffer of a
  transaction and read back from it.  What is read is fixed by the kinds of the
  attributes alone: the buffer holds no type information.
*/
module Serializer {
  import opened ByteBuffers
  import opened Calendar

  /** The declared type of an attribute. */
  datatype Kind = Scalar(width: nat) | Text | Day | Moment

  /** A value: the memory of a fixed-size scalar, a string, a date, or a time. */
  datatype Attribute =
    | Memory(bytes: seq<byte>)
    | String(bytes: seq<byte>)
    | OnDay(date: Date)
    | AtTime(seconds: int, millis: int)

  datatype Option<+T> = None | Some(value: T)

  const LONG: int := 0x1_0000_0000_0000_0000

  predicate HasKind(a: Attribute, k: Kind) {
    match k
    case Scalar(width) => a.Memory? && |a.bytes| == width
    case Text => a.String? && |a.bytes| < LONG
    case Day => a.OnDay? && Gregorian(a.date) && InRange(a.date)
    case Moment => a.AtTime? && -LONG / 2 <= a.seconds < LONG / 2 && 0 <= a.millis < WORD
  }

  // ------------------------------------------------------------------ numbers in memory

  function Power(width: nat): (p: nat)
    ensures p >= 1
  {
    if width == 0 then 1 else 256 * Power(width - 1)
  }

  /** The `width` bytes of an unsigned number, least significant first. */
  function ToMemory(n: nat, width: nat): (s: seq<byte>)
    ensures |s| == width
  {
    if width == 0 then [] else [(n % 256) as byte] + ToMemory(n / 256, width - 1)
  }

  function FromMemory(s: seq<byte>): (n: nat) {
    if s == [] then 0 else s[0] as int + 256 * FromMemory(s[1..])
  }

  lemma {:induction false} MemoryRoundTrip(n: nat, width: nat)
    requires n < Power(width)
    ensures FromMemory(ToMemory(n, width)) == n
    decreases width
  {
    if width > 0 {
      MemoryRoundTrip(n / 256, width - 1);
      assert ToMemory(n, width)[1..] == ToMemory(n / 256, width - 1);
    }
  }

  /** Least significant first: the bytes of a small number stand in front, and zeros behind them. */
  lemma {:induction false} SmallInFront(n: nat, width: nat, k: nat)
    requires k <= width && n < Power(k)
    ensures ToMemory(n, width)[..k] == ToMemory(n, k) && forall i :: k <= i < width ==> ToMemory(n, width)[i] == 0
    decreases width
  {
    if width > 0 {
      SmallInFront(n / 256, width - 1, if k == 0 then 0 else k - 1);
      assert ToMemory(n, width)[1..] == ToMemory(n / 256, width - 1);
    }
  }

  lemma Widths()
    ensures Power(4) == WORD && Power(8) == LONG
  {
    assert Power(2) == 65536;
    assert Power(3) == 16777216;
    assert Power(4) == WORD;
    assert Power(6) == 0x1_0000_0000_0000;
  }

  /** Two's complement. */
  function Unsigned(x: int, modulus: int): (n: nat)
    requires modulus > 0 && -modulus / 2 <= x < modulus
    ensures n < modulus
  {
    if x < 0 then x + modulus else x
  }

  function Signed(n: nat, modulus: nat): (x: int)
    requires n < modulus
  {
    if n < modulus / 2 then n else n - modulus
  }

  // ------------------------------------------------------------------ one attribute

  /** The bytes the serializer appends for a value. */
  function Encode(a: Attribute, k: Kind): (s: seq<byte>)
    requires HasKind(a, k)
  {
    match a
    case Memory(bytes) => bytes
    case String(bytes) => ToMemory(|bytes|, 8) + bytes
    case OnDay(t) => Gc2JdExact(t); ToMemory(Gc2Jd(t.day, t.month, t.year), 4)
    case AtTime(seconds, millis) => ToMemory(Unsigned(seconds, LONG), 8) + ToMemory(millis, 4)
  }

  /** The value the deserializer reads from the front of a byte queue, and what is left of the queue. */
  function Decode(k: Kind, s: seq<byte>): (r: Option<(Attribute, seq<byte>)>) {
    match k
    case Scalar(width) =>
      if |s| < width then None else Some((Memory(s[..width]), s[width..]))
    case Text =>
      if |s| < 8 then None
      else
        var n := FromMemory(s[..8]);
        if |s| < 8 + n then None else Some((String(s[8..8 + n]), s[8 + n..]))
    case Day =>
      if |s| < 4 then None
      else
        var n := FromMemory(s[..4]);
        if n >= WORD then None else Some((OnDay(Jd2Gc(AsInt(n))), s[4..]))
    case Moment =>
      if |s| < 12 then None
      else
        var n := FromMemory(s[..8]);
        if n >= LONG then None else Some((AtTime(Signed(n, LONG), FromMemory(s[8..12])), s[12..]))
  }

  /** A scalar takes its own width, a string eight bytes and its own, a date four and a time twelve. */
  lemma EncodedSize(a: Attribute, k: Kind)
    requires HasKind(a, k)
    ensures |Encode(a, k)| ==
      match k
      case Scalar(width) => width
      case Text => 8 + |a.bytes|
      case Day => 4
      case Moment => 12
  {
    hide Gc2Jd, ToMemory;
  }

  /** Reading an attribute undoes writing it and touches nothing behind it. */
  lemma AttributeRoundTrip(a: Attribute, k: Kind, rest: seq<byte>)
    requires HasKind(a, k)
    ensures Decode(k, Encode(a, k) + rest) == Some((a, rest))
  {
    hide ToMemory, FromMemory, Gc2Jd, Jd2Gc, Power;
    Widths();
    var s := Encode(a, k) + rest;
    match a
    case Memory(bytes) =>
    case String(bytes) =>
      MemoryRoundTrip(|bytes|, 8);
      assert s[..8] == ToMemory(|bytes|, 8);
      assert s[8..8 + |bytes|] == bytes;
    case OnDay(t) =>
      Gc2JdExact(t);
      DateRoundTrip(t);
      MemoryRoundTrip(Gc2Jd(t.day, t.month, t.year), 4);
      assert s[..4] == Encode(a, k);
    case AtTime(seconds, millis) =>
      MemoryRoundTrip(Unsigned(seconds, LONG), 8);
      MemoryRoundTrip(millis, 4);
      assert s[..8] == ToMemory(Unsigned(seconds, LONG), 8);
      assert s[8..12] == ToMemory(millis, 4);
  }

  // ------------------------------------------------------------------ whole objects

  predicate Fits(attributes: seq<Attribute>, kinds: seq<Kind>) {
    |attributes| == |kinds| && forall i :: 0 <= i < |kinds| ==> HasKind(attributes[i], kinds[i])
  }

  function EncodeAll(attributes: seq<Attribute>, kinds: seq<Kind>): (s: seq<byte>)
    requires Fits(attributes, kinds)
  {
    if kinds == [] then [] else Encode(attributes[0], kinds[0]) + EncodeAll(attributes[1..], kinds[1..])
  }

  function DecodeAll(kinds: seq<Kind>, s: seq<byte>): (r: Option<(seq<Attribute>, seq<byte>)>) {
    if kinds == [] then Some(([], s))
    else
      match Decode(kinds[0], s)
      case None => None
      case Some((a, rest)) =>
        match DecodeAll(kinds[1..], rest)
        case None => None
        case Some((tail, rest')) => Some(([a] + tail, rest'))
  }

  /** Restoring an object from the front of the queue undoes backing it up and leaves the bytes behind it. */
  lemma {:induction false} ObjectRoundTrip(attributes: seq<Attribute>, kinds: seq<Kind>, rest: seq<byte>)
    requires Fits(attributes, kinds)
    ensures DecodeAll(kinds, EncodeAll(attributes, kinds) + rest) == Some((attributes, rest))
    decreases |kinds|
  {
    hide Encode, Decode, HasKind;
    if kinds != [] {
      var tail := EncodeAll(attributes[1..], kinds[1..]);
      assert EncodeAll(attributes, kinds) + rest == Encode(attributes[0], kinds[0]) + (tail + rest);
      AttributeRoundTrip(attributes[0], kinds[0], tail + rest);
      ObjectRoundTrip(attributes[1..], kinds[1..], rest);
      assert [attributes[0]] + attributes[1..] == attributes;
    } else {
      assert EncodeAll(attributes, kinds) + rest == rest;
    }
  }

  // ------------------------------------------------------------------ on the buffer

  /** Appends one attribute. */
  method Write(buffer: ByteBuffer, a: Attribute, k: Kind)
    requires buffer.Valid() && HasKind(a, k)
    modifies buffer, ByteBuffer.Footprint(buffer.chunks)
    ensures buffer.Valid() && fresh(ByteBuffer.Footprint(buffer.chunks) - old(ByteBuffer.Footprint(buffer.chunks)))
    ensures buffer.Contents() == old(buffer.Contents()) + Encode(a, k)
  {
    hide ByteBuffer.Valid, ByteBuffer.Contents, ToMemory, FromMemory, Gc2Jd, Jd2Gc;
    match a
    case Memory(bytes) =>
      buffer.Append(bytes);
    case String(bytes) =>
      buffer.Append(ToMemory(|bytes|, 8));
      buffer.Append(bytes);
    case OnDay(t) =>
      Gc2JdExact(t);
      buffer.Append(ToMemory(Gc2Jd(t.day, t.month, t.year), 4));
    case AtTime(seconds, millis) =>
      buffer.Append(ToMemory(Unsigned(seconds, LONG), 8));
      buffer.Append(ToMemory(millis, 4));
  }

  /** Reads one attribute of a given kind. */
  method Read(buffer: ByteBuffer, k: Kind) returns (a: Attribute)
    requires buffer.Valid() && Decode(k, buffer.Contents()).Some?
    modifies buffer, ByteBuffer.Footprint(buffer.chunks)
    ensures buffer.Valid() && fresh(ByteBuffer.Footprint(buffer.chunks) - old(ByteBuffer.Footprint(buffer.chunks)))
    ensures Decode(k, old(buffer.Contents())) == Some((a, buffer.Contents()))
  {
    hide ByteBuffer.Valid, ByteBuffer.Contents, ToMemory, FromMemory, Gc2Jd, Jd2Gc;
    ghost var s := buffer.Contents();
    match k
    case Scalar(width) =>
      var bytes := buffer.Release(width);
      a := Memory(bytes);
    case Text =>
      var size := buffer.Release(8);
      var bytes := buffer.Release(FromMemory(size));
      assert bytes == s[8..8 + FromMemory(size)] && s[8..][FromMemory(size)..] == s[8 + FromMemory(size)..];
      a := String(bytes);
    case Day =>
      var bytes := buffer.Release(4);
      a := OnDay(Jd2Gc(AsInt(FromMemory(bytes))));
    case Moment =>
      var seconds := buffer.Release(8);
      var millis := buffer.Release(4);
      assert millis == s[8..12] && s[8..][4..] == s[12..];
      a := AtTime(Signed(FromMemory(seconds), LONG), FromMemory(millis));
  }

  /** Backs up an object: its attributes one after the other. */
  method Backup(buffer: ByteBuffer, attributes: seq<Attribute>, kinds: seq<Kind>)
    requires buffer.Valid() && Fits(attributes, kinds)
    modifies buffer, ByteBuffer.Footprint(buffer.chunks)
    ensures buffer.Valid() && fresh(ByteBuffer.Footprint(buffer.chunks) - old(ByteBuffer.Footprint(buffer.chunks)))
    ensures buffer.Contents() == old(buffer.Contents()) + EncodeAll(attributes, kinds)
    decreases |kinds|
  {
    hide ByteBuffer.Valid, ByteBuffer.Contents, Encode, HasKind;
    if kinds != [] {
      Write(buffer, attributes[0], kinds[0]);
      Backup(buffer, attributes[1..], kinds[1..]);
    }
  }

  /** Restores an object: reads as many attributes as its type has. */
  method Restore(buffer: ByteBuffer, kinds: seq<Kind>) returns (attributes: seq<Attribute>)
    requires buffer.Valid() && DecodeAll(kinds, buffer.Contents()).Some?
    modifies buffer, ByteBuffer.Footprint(buffer.chunks)
    ensures buffer.Valid() && fresh(ByteBuffer.Footprint(buffer.chunks) - old(ByteBuffer.Footprint(buffer.chunks)))
    ensures DecodeAll(kinds, old(buffer.Contents())) == Some((attributes, buffer.Contents()))
    decreases |kinds|
  {
    hide ByteBuffer.Valid, ByteBuffer.Contents, Decode;
    if kinds == [] {
      attributes := [];
    } else {
      var a := Read(buffer, kinds[0]);
      var tail := Restore(buffer, kinds[1..]);
      attributes := [a] + tail;
    }
  }

  // ------------------------------------------------------------------ character arrays

  /** The length of the string in a character array: up to its first zero byte. */
  function StrLen(memory: seq<byte>): (n: nat)
    ensures n <= |memory|
    ensures forall i :: 0 <= i < n ==> memory[i] != 0
    ensures n < |memory| ==> memory[n] == 0
  {
    if memory == [] || memory[0] == 0 then 0 else 1 + StrLen(memory[1..])
  }

  /** Restoring a character array copies the saved characters over the front of what is there now. */
  function RestoreChars(saved: seq<byte>, now: seq<byte>): (r: seq<byte>)
    requires |saved| <= |now|
    ensures |r| == |now|
  {
    saved + now[|saved|..]
  }

  /**
    The terminating zero is neither saved nor restored.  So the string comes
    back if and only if the array happens to hold a zero behind it now.
  */
  lemma CharsComeBack(was: seq<byte>, now: seq<byte>)
    requires |was| == |now| && StrLen(was) < |was|
    ensures
      var saved := was[..StrLen(was)];
      var r := RestoreChars(saved, now);
      r[..StrLen(r)] == saved <==> now[StrLen(was)] == 0
  {
    var n := StrLen(was);
    var r := RestoreChars(was[..n], now);
    assert r[n] == now[n];
    assert forall i :: 0 <= i < n ==> r[i] == was[i];
    assert StrLen(r) >= n;
  }
}
