/**
  Base64 with the url alphabet (section 5 of RFC 4648), with dots for padding.  Bit
  masks and shifts of the packing are written as division and remainder.
*/
module Base64 {
  import opened ByteBuffers

  const FILL: char := '.'

  // ------------------------------------------------------------------ packing

  /** The alphabet: upper-case letters, lower-case letters, digits, the minus sign and the underscore. */
  function Code(n: int): (c: char)
    requires 0 <= n < 64
  {
    if n < 26 then ('A' as int + n) as char
    else if n < 52 then ('a' as int + n - 26) as char
    else if n < 62 then ('0' as int + n - 52) as char
    else if n == 62 then '-'
    else '_'
  }

  /**
    The decode table, which serves both alphabets; the slash has an entry that is out of range.  For a character
    outside the table the program would read beyond it; here the entry is zero.
  */
  function CharValue(c: char): (v: int) {
    if 'A' <= c <= 'Z' then c as int - 'A' as int
    else if 'a' <= c <= 'z' then c as int - 'a' as int + 26
    else if '0' <= c <= '9' then c as int - '0' as int + 52
    else if c == '+' || c == '-' then 62
    else if c == '_' then 63
    else if c == '/' then 64
    else 0
  }

  function Pack4(a: byte, b: byte, c: byte): (s: string)
    ensures |s| == 4
  {
    var x, y, z := a as int, b as int, c as int;
    [Code(x / 4), Code(x % 4 * 16 + y / 16), Code(y % 16 * 4 + z / 64), Code(z % 64)]
  }

  /** The sum of two parts in a byte. */
  function Sum(x: int, y: int): (b: byte) {
    ((x + y) % 256) as byte
  }

  function Pack3(a: char, b: char, c: char, d: char): (s: seq<byte>)
    ensures |s| == 3
  {
    var w, x, y, z := CharValue(a), CharValue(b), CharValue(c), CharValue(d);
    [Sum(w * 4, x / 16 % 4), Sum(x % 16 * 16, y / 4 % 16), Sum(y % 4 * 64, z)]
  }

  function NonZero(s: seq<byte>): (r: seq<byte>) {
    if s == [] then [] else (if s[0] == 0 then [] else [s[0]]) + NonZero(s[1..])
  }

  // ------------------------------------------------------------------ encoding and decoding

  function Encoded(s: seq<byte>): (r: string) {
    if s == [] then ""
    else if |s| == 1 then Pack4(s[0], 0, 0)[..2] + [FILL, FILL]
    else if |s| == 2 then Pack4(s[0], s[1], 0)[..3] + [FILL]
    else Pack4(s[0], s[1], s[2]) + Encoded(s[3..])
  }

  /** Four characters give three bytes, of which zeros are dropped; what is left over is ignored. */
  function Decoded(s: string): (r: seq<byte>) {
    if |s| < 4 then [] else NonZero(Pack3(s[0], s[1], s[2], s[3])) + Decoded(s[4..])
  }

  // ------------------------------------------------------------------ the round trip

  lemma ValueOfCode(n: int)
    requires 0 <= n < 64
    ensures CharValue(Code(n)) == n
  {
  }

  lemma FirstByte(x: int, y: int)
    requires 0 <= x < 256 && 0 <= y < 256
    ensures Sum(x / 4 * 4, (x % 4 * 16 + y / 16) / 16 % 4) as int == x
  {
    assert (x % 4 * 16 + y / 16) / 16 == x % 4;
  }

  lemma SecondByte(x: int, y: int, z: int)
    requires 0 <= x < 4 && 0 <= y < 256 && 0 <= z < 256
    ensures Sum((x * 16 + y / 16) % 16 * 16, (y % 16 * 4 + z / 64) / 4 % 16) as int == y
  {
    assert (y % 16 * 4 + z / 64) / 4 == y % 16;
    assert (x * 16 + y / 16) % 16 == y / 16;
  }

  lemma ThirdByte(y: int, z: int)
    requires 0 <= y < 16 && 0 <= z < 256
    ensures Sum((y * 4 + z / 64) % 4 * 64, z % 64) as int == z
  {
    assert (y * 4 + z / 64) % 4 == z / 64;
  }

  /** Four characters unpack to the bytes they were made of, also where dots stand for zero bytes. */
  lemma PackBack(a: byte, b: byte, c: byte)
    ensures var s := Pack4(a, b, c);
      Pack3(s[0], s[1], s[2], s[3]) == [a, b, c] &&
      (c == 0 ==> Pack3(s[0], s[1], s[2], FILL) == [a, b, c]) &&
      (b == 0 && c == 0 ==> Pack3(s[0], s[1], FILL, FILL) == [a, b, c])
  {
    hide Code, CharValue, Sum;
    var x, y, z := a as int, b as int, c as int;
    ValueOfCode(x / 4);
    ValueOfCode(x % 4 * 16 + y / 16);
    ValueOfCode(y % 16 * 4 + z / 64);
    ValueOfCode(z % 64);
    FirstByte(x, y);
    SecondByte(x % 4, y, z);
    ThirdByte(y % 16, z);
    FillIsZero();
  }

  lemma FillIsZero()
    ensures CharValue(FILL) == 0
  {
  }

  lemma Grouped(a: seq<byte>, b: seq<byte>, c: seq<byte>)
    ensures a + (b + c) == a + b + c
  {
  }

  lemma {:induction false} NonZeroOfBoth(s: seq<byte>, t: seq<byte>)
    ensures NonZero(s + t) == NonZero(s) + NonZero(t)
  {
    if s == [] {
      assert s + t == t;
    } else {
      NonZeroOfBoth(s[1..], t);
      assert (s + t)[1..] == s[1..] + t;
      Grouped(if s[0] == 0 then [] else [s[0]], NonZero(s[1..]), NonZero(t));
    }
  }

  /** Decoding gives the bytes back that are not zero. */
  lemma {:induction false} DecodeEncoded(s: seq<byte>)
    ensures Decoded(Encoded(s)) == NonZero(s)
    decreases |s|
  {
    hide Pack3, Pack4;
    if |s| == 1 {
      PackBack(s[0], 0, 0);
      assert Decoded(Encoded(s)) == NonZero([s[0], 0, 0]) + [];
      NonZeroOfBoth(s, [0, 0]);
      assert s + [0, 0] == [s[0], 0, 0];
      ZerosGo();
    } else if |s| == 2 {
      PackBack(s[0], s[1], 0);
      assert Decoded(Encoded(s)) == NonZero([s[0], s[1], 0]) + [];
      NonZeroOfBoth(s, [0]);
      assert s + [0] == [s[0], s[1], 0];
      ZerosGo();
    } else if |s| > 2 {
      PackBack(s[0], s[1], s[2]);
      var e := Pack4(s[0], s[1], s[2]);
      assert (e + Encoded(s[3..]))[4..] == Encoded(s[3..]);
      DecodeEncoded(s[3..]);
      NonZeroOfBoth([s[0], s[1], s[2]], s[3..]);
      assert [s[0], s[1], s[2]] + s[3..] == s;
    }
  }

  lemma ZerosGo()
    ensures NonZero([0]) == [] && NonZero([0, 0]) == []
  {
    assert [0, 0][1..] == [0] && [0][1..] == [];
  }

  lemma {:induction false} NonZeroLength(s: seq<byte>)
    ensures |NonZero(s)| <= |s| && (|NonZero(s)| == |s| <==> 0 !in s) && (0 !in s ==> NonZero(s) == s)
  {
    if s != [] {
      NonZeroLength(s[1..]);
      assert s == [s[0]] + s[1..];
    }
  }

  /** The text comes back whole exactly if it holds no zero byte. */
  lemma RoundTripExact(s: seq<byte>)
    ensures Decoded(Encoded(s)) == s <==> 0 !in s
  {
    DecodeEncoded(s);
    NonZeroLength(s);
  }

  // ------------------------------------------------------------------ the digits

  const UPPER: string := "ABCDEFGHIJKLMNOPQRSTUVWXYZ"
  const LOWER: string := "abcdefghijklmnopqrstuvwxyz"
  const DIGITS: string := "0123456789"

  /** The 64 characters of section 5 of RFC 4648. */
  const ALPHABET: string := UPPER + LOWER + DIGITS + "-_"

  /** Codes are the places in the alphabet, also those the decode table gives. */
  lemma AlphabetPlaces(n: int)
    requires 0 <= n < 64
    ensures |ALPHABET| == 64 && Code(n) == ALPHABET[n] && CharValue(ALPHABET[n]) == n
    ensures CharValue('+') == 62 && CharValue('/') == 64 && FILL == '.'
  {
    assert n < 26 ==> UPPER[n] == ('A' as int + n) as char;
    assert 26 <= n < 52 ==> LOWER[n - 26] == ('a' as int + n - 26) as char;
    assert 52 <= n < 62 ==> DIGITS[n - 52] == ('0' as int + n - 52) as char;
  }

  /** The number that three bytes make. */
  function Triple(a: byte, b: byte, c: byte): (n: int) {
    (a as int * 256 + b as int) * 256 + c as int
  }

  /** A byte of the text, or zero behind its end. */
  function At(s: seq<byte>, i: nat): (b: byte) {
    if i < |s| then s[i] else 0
  }

  lemma LowDigits(x: int, y: int, z: int)
    requires 0 <= x < 256 && 0 <= y < 256 && 0 <= z < 256
    ensures var n := (x * 256 + y) * 256 + z; n % 64 == z % 64 && n / 64 == 1024 * x + 4 * y + z / 64
  {
  }

  lemma HighDigits(x: int, y: int, z: int)
    requires 0 <= x < 256 && 0 <= y < 256 && 0 <= z < 256
    ensures var n := (x * 256 + y) * 256 + z; n / 4096 == 16 * x + y / 16 && n / 262144 == x / 4
  {
  }

  lemma MiddleDigits(x: int, y: int, u: int)
    requires 0 <= x < 256 && 0 <= y < 256 && 0 <= u < 4
    ensures (1024 * x + 4 * y + u) % 64 == y % 16 * 4 + u && (16 * x + y / 16) % 64 == x % 4 * 16 + y / 16
  {
  }

  /** A pack is the number in digits to the base 64. */
  lemma PackDigits(a: byte, b: byte, c: byte)
    ensures var n, s := Triple(a, b, c), Pack4(a, b, c);
      s[0] == Code(n / 262144) && s[1] == Code(n / 4096 % 64) && s[2] == Code(n / 64 % 64) && s[3] == Code(n % 64)
  {
    hide Code;
    var x, y, z := a as int, b as int, c as int;
    LowDigits(x, y, z);
    HighDigits(x, y, z);
    MiddleDigits(x, y, z / 64);
  }

  function DigitOf(n: int, j: nat): (d: int)
    requires 0 <= n < 0x100_0000 && j < 4
    ensures 0 <= d < 64
  {
    if j == 0 then n / 262144 else if j == 1 then n / 4096 % 64 else if j == 2 then n / 64 % 64 else n % 64
  }

  lemma {:induction false} GroupsOf(s: seq<byte>)
    ensures |Encoded(s)| == (|s| + 2) / 3 * 4
    decreases |s|
  {
    hide Pack4;
    if |s| >= 3 { GroupsOf(s[3..]); }
  }

  /** Every character of an encoded text: a digit of the number its group of three bytes makes, or a dot where the bytes have ended. */
  lemma {:induction false} EncodedDigits(s: seq<byte>, k: nat, j: nat)
    requires 3 * k < |s| && j < 4
    ensures 4 * k + j < |Encoded(s)|
    ensures Encoded(s)[4 * k + j] ==
      if 3 * k + j <= |s| then Code(DigitOf(Triple(s[3 * k], At(s, 3 * k + 1), At(s, 3 * k + 2)), j)) else FILL
    decreases k
  {
    hide Pack4, Triple, Code;
    GroupsOf(s);
    if k == 0 {
      PackDigits(s[0], At(s, 1), At(s, 2));
    } else {
      EncodedDigits(s[3..], k - 1, j);
      assert Encoded(s)[4 * k + j] == Encoded(s[3..])[4 * (k - 1) + j];
    }
  }

  // ------------------------------------------------------------------ as it runs

  lemma EncodedThree(result: string, s: seq<byte>)
    requires |s| >= 3
    ensures result + Encoded(s) == result + Pack4(s[0], s[1], s[2]) + Encoded(s[3..])
  {
    hide Pack4;
  }

  /** Three bytes at a time are collected and packed; what remains is filled up. */
  method EncodeUrl(str: seq<byte>) returns (result: string)
    ensures result == Encoded(str)
  {
    hide *;
    result := "";
    var pack3 := new byte[3];
    var count := 0;
    ghost var from := 0;
    assert str[0..] == str && "" + Encoded(str) == Encoded(str);
    for i := 0 to |str|
      invariant count < 3 && from + count == i
      invariant forall k {:trigger pack3[k]} :: 0 <= k < count ==> pack3[k] == str[from + k]
      invariant Encoded(str) == result + Encoded(str[from..])
    {
      pack3[count] := str[i];
      count := count + 1;
      if count == 3 {
        assert str[from..][3..] == str[from + 3..];
        EncodedThree(result, str[from..]);
        result := result + Pack4(pack3[0], pack3[1], pack3[2]);
        count := 0;
        from := from + 3;
      }
    }
    var last := EncodeLast(pack3, count, str[from..]);
    result := result + last;
  }

  /** The one or two bytes that remain, with zeros behind them and dots for what they do not give. */
  method EncodeLast(pack3: array<byte>, count: nat, ghost rest: seq<byte>) returns (result: string)
    requires pack3.Length == 3 && count == |rest| < 3 && forall k :: 0 <= k < count ==> pack3[k] == rest[k]
    modifies pack3
    ensures result == Encoded(rest)
  {
    hide Pack4;
    result := "";
    if count == 0 { return; }
    var i := count;
    while i < 3
      invariant count <= i <= 3
      invariant forall k :: 0 <= k < count ==> pack3[k] == rest[k]
      invariant forall k :: count <= k < i ==> pack3[k] == 0
    {
      pack3[i] := 0;
      i := i + 1;
    }
    result := Pack4(pack3[0], pack3[1], pack3[2])[..count + 1];
    if count == 1 { result := result + [FILL, FILL]; } else { result := result + [FILL]; }
  }

  lemma DecodedFour(result: seq<byte>, s: string)
    requires |s| >= 4
    ensures result + Decoded(s) == result + NonZero(Pack3(s[0], s[1], s[2], s[3])) + Decoded(s[4..])
  {
    hide Pack3, NonZero;
  }

  method Decode(str: string) returns (result: seq<byte>)
    ensures result == Decoded(str)
  {
    hide *;
    result := [];
    var pack4 := new char[4];
    var count := 0;
    ghost var from := 0;
    assert str[0..] == str && [] + Decoded(str) == Decoded(str);
    for i := 0 to |str|
      invariant count < 4 && from + count == i
      invariant forall k {:trigger pack4[k]} :: 0 <= k < count ==> pack4[k] == str[from + k]
      invariant Decoded(str) == result + Decoded(str[from..])
    {
      pack4[count] := str[i];
      count := count + 1;
      if count == 4 {
        assert str[from..][4..] == str[from + 4..];
        DecodedFour(result, str[from..]);
        var out := DropZeros(Pack3(pack4[0], pack4[1], pack4[2], pack4[3]));
        result := result + out;
        count := 0;
        from := from + 4;
      }
    }
    ShortIgnored(str[from..]);
    assert result + [] == result;
  }

  lemma ShortIgnored(s: string)
    ensures |s| < 4 ==> Decoded(s) == []
  {
  }

  method DropZeros(bytes: seq<byte>) returns (r: seq<byte>)
    ensures r == NonZero(bytes)
  {
    hide NonZero;
    r := [];
    NonZeroFrom(bytes, 0, r);
    for i := 0 to |bytes|
      invariant NonZero(bytes) == r + NonZero(bytes[i..])
    {
      NonZeroFrom(bytes, i, r);
      if bytes[i] != 0 { r := r + [bytes[i]]; }
    }
    NonZeroFrom(bytes, |bytes|, r);
  }

  /** The next byte is dropped or kept. */
  lemma NonZeroFrom(bytes: seq<byte>, i: nat, r: seq<byte>)
    requires i <= |bytes|
    ensures i == 0 ==> [] + NonZero(bytes[0..]) == NonZero(bytes)
    ensures i == |bytes| ==> r + NonZero(bytes[i..]) == r
    ensures i < |bytes| ==> r + NonZero(bytes[i..]) == (if bytes[i] == 0 then r else r + [bytes[i]]) + NonZero(bytes[i + 1..])
  {
    assert bytes[0..] == bytes;
    if i < |bytes| {
      assert bytes[i..][1..] == bytes[i + 1..];
      var rest := NonZero(bytes[i + 1..]);
      assert r + ([bytes[i]] + rest) == r + [bytes[i]] + rest;
    }
  }
}
