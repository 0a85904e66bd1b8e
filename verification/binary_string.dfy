/** The two byte loops around the gzip and base64 builtins:
    `arrayBufferToBinaryString` in `compress` (src.js lines 160-169) and
    `binaryStringToBytes` in `decompress` (src.js lines 185-191). */
module BinaryString {

  /** An element of a `Uint8Array`. */
  newtype Byte = x: int | 0 <= x < 256

  /** `String.fromCharCode(b)` for a byte: the char whose code is the byte. */
  function CharOf(b: Byte): (c: char)
    ensures c as int == b as int
  {
    (b as int) as char
  }

  /** Storing `str.charCodeAt(i)` into a `Uint8Array` keeps the code modulo 256. */
  function ByteOf(c: char): (b: Byte)
    ensures b as int == c as int % 256
  {
    ((c as int) % 256) as Byte
  }

  /** A byte survives the trip through a char. */
  lemma ByteOfCharOf(b: Byte)
    ensures ByteOf(CharOf(b)) == b
  {
  }

  /** A char survives the trip through a byte exactly when its code is below
      256, as every char of a binary string is. */
  lemma CharOfByteOf(c: char)
    ensures CharOf(ByteOf(c)) == c <==> c as int < 256
  {
  }

  /** `arrayBufferToBinaryString`: one char per byte, with that byte's value as
      its code. */
  method ArrayBufferToBinaryString(bytes: array<Byte>) returns (binaryString: string)
    ensures |binaryString| == bytes.Length
    ensures forall i :: 0 <= i < |binaryString| ==> binaryString[i] as int == bytes[i] as int
    ensures forall i :: 0 <= i < |binaryString| ==> binaryString[i] as int < 256
  {
    binaryString := "";
    var i := 0;
    while i < bytes.Length
      invariant 0 <= i <= bytes.Length
      invariant |binaryString| == i
      invariant forall k :: 0 <= k < i ==> binaryString[k] as int == bytes[k] as int
    {
      binaryString := binaryString + [CharOf(bytes[i])];
      i := i + 1;
    }
  }

  /** `binaryStringToBytes`: a new array of the string's length holding each
      char code modulo 256. */
  method BinaryStringToBytes(str: string) returns (bytes: array<Byte>)
    ensures fresh(bytes)
    ensures bytes.Length == |str|
    ensures forall i :: 0 <= i < |str| ==> bytes[i] as int == str[i] as int % 256
  {
    bytes := new Byte[|str|];
    var i := 0;
    while i < |str|
      invariant 0 <= i <= |str|
      invariant forall k :: 0 <= k < i ==> bytes[k] as int == str[k] as int % 256
    {
      bytes[i] := ByteOf(str[i]);
      i := i + 1;
    }
  }

  /** Bytes turned into a binary string and back are the same bytes, in a new
      array of the same length. */
  method RoundTrip(bytes: array<Byte>) returns (back: array<Byte>)
    ensures fresh(back)
    ensures back[..] == bytes[..]
  {
    var binaryString := ArrayBufferToBinaryString(bytes);
    back := BinaryStringToBytes(binaryString);
    assert forall i :: 0 <= i < back.Length ==> back[i] == bytes[i];
  }

  /** A binary string turned into bytes and back is the same string. This is
      the direction `decompress` relies on for the output of `atob`, all of
      whose chars are below 256. */
  method StringRoundTrip(str: string) returns (back: string)
    requires forall i :: 0 <= i < |str| ==> str[i] as int < 256
    ensures back == str
  {
    var bytes := BinaryStringToBytes(str);
    back := ArrayBufferToBinaryString(bytes);
    assert forall i :: 0 <= i < |back| ==> back[i] as int == str[i] as int;
  }
}
