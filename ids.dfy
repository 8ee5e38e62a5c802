/**
  Entity identifiers: a string holding the 24 hexadecimal digits of a BSON
  ObjectID, stored in the database as the 12 raw bytes.

  The driver's hex decoding (ObjectIDFromHex) is part of this model because
  every repository check of an identifier goes through it: a string is an
  ObjectID when it has exactly 24 characters and each is a hexadecimal digit of
  either case; otherwise decoding fails on the length, or on the first
  character that is not a digit.
*/
module Ids {
  import opened Wrappers

  newtype byte = x: int | 0 <= x < 256

  /** BSON element types (one byte on the wire). */
  const TypeString: byte := 0x02
  const TypeObjectID: byte := 0x07
  const TypeNull: byte := 0x0A

  datatype HexError = InvalidHex | InvalidByte(c: char)

  /** The error for a BSON value that is not an ObjectID. */
  datatype DecodeError = ErrDecodeToNil

  datatype Id = Id(value: string)

  datatype Marshalled = Marshalled(bsonType: byte, data: seq<byte>, err: Option<HexError>)

  function HexValue(c: char): Option<nat>
  {
    if '0' <= c <= '9' then Some(c as int - '0' as int)
    else if 'a' <= c <= 'f' then Some(c as int - 'a' as int + 10)
    else if 'A' <= c <= 'F' then Some(c as int - 'A' as int + 10)
    else None
  }

  /** The lowercase digit of a nibble. */
  function HexDigit(n: nat): (c: char)
    requires n < 16
    ensures HexValue(c) == Some(n)
  {
    if n < 10 then (n + '0' as int) as char else (n - 10 + 'a' as int) as char
  }

  predicate IsLowerHexDigit(c: char)
  {
    '0' <= c <= '9' || 'a' <= c <= 'f'
  }

  /** The digit a hex decode followed by a re-encode gives back: letters lower-cased. */
  function LowerHexDigit(c: char): char
  {
    if 'A' <= c <= 'F' then (c as int - 'A' as int + 'a' as int) as char else c
  }

  /** Decodes pairs of digits front to back, failing on the first non-digit. */
  function DecodeHex(s: string): (r: Result<seq<byte>, HexError>)
    requires |s| % 2 == 0
    ensures r.Ok? ==> |r.value| == |s| / 2
    ensures r.Ok? <==> forall i :: 0 <= i < |s| ==> HexValue(s[i]).Some?
    decreases |s|
  {
    if s == [] then Ok([])
    else if HexValue(s[0]).None? then Err(InvalidByte(s[0]))
    else if HexValue(s[1]).None? then Err(InvalidByte(s[1]))
    else
      var rest := DecodeHex(s[2..]);
      assert forall i :: 2 <= i < |s| ==> s[i] == s[2..][i - 2];
      if rest.Err? then rest
      else Ok([(16 * HexValue(s[0]).value + HexValue(s[1]).value) as byte] + rest.value)
  }

  /** The driver's parse of an ObjectID string into its 12 bytes. */
  function ObjectIdFromHex(s: string): (r: Result<seq<byte>, HexError>)
    ensures r.Ok? ==> |r.value| == 12
    ensures r.Ok? <==> IsObjectIdHex(s)
    ensures |s| != 24 ==> r == Err(InvalidHex)
  {
    if |s| != 24 then Err(InvalidHex) else DecodeHex(s)
  }

  predicate IsObjectIdHex(s: string)
  {
    |s| == 24 && forall i :: 0 <= i < |s| ==> HexValue(s[i]).Some?
  }

  /** Lowercase hexadecimal text of some bytes, two digits each. */
  function Hex(bytes: seq<byte>): (s: string)
    ensures |s| == 2 * |bytes|
    ensures forall i :: 0 <= i < |s| ==> IsLowerHexDigit(s[i])
  {
    if bytes == [] then ""
    else [HexDigit(bytes[0] as int / 16), HexDigit(bytes[0] as int % 16)] + Hex(bytes[1..])
  }

  /** The identifier as text: the wrapped string itself. */
  function String(id: Id): (s: string)
    ensures Id(s) == id
  {
    id.value
  }

  /** An identifier goes to BSON as the ObjectID it spells, or as null with the parse error. */
  function MarshalBSONValue(id: Id): (m: Marshalled)
    ensures !IsObjectIdHex(id.value) ==> m.bsonType == TypeNull && m.data == [] && m.err.Some?
    ensures IsObjectIdHex(id.value) ==>
      m.bsonType == TypeObjectID && m.err == None && |m.data| == 12 && Ok(m.data) == ObjectIdFromHex(id.value)
  {
    var r := ObjectIdFromHex(id.value);
    if r.Err? then Marshalled(TypeNull, [], Some(r.error))
    else Marshalled(TypeObjectID, r.value, None)
  }

  /** The 12 bytes of an ObjectID copied from `data`: the first 12, zero-filled when shorter. */
  function ObjectIdBytes(data: seq<byte>): (b: seq<byte>)
    ensures |b| == 12
    ensures forall i :: 0 <= i < 12 ==> b[i] == if i < |data| then data[i] else 0
  {
    if |data| >= 12 then data[..12] else data + seq(12 - |data|, _ => 0 as byte)
  }

  /** The identifier an ObjectID element decodes to. */
  function Unmarshalled(data: seq<byte>): Id
  {
    Id(Hex(ObjectIdBytes(data)))
  }

  /** A place holding an identifier, written through by decoding. */
  class IdRef {
    var id: Id

    constructor (id0: Id)
      ensures id == id0
    {
      id := id0;
    }

    method UnmarshalBSONValue(t: byte, data: seq<byte>) returns (err: Option<DecodeError>)
      modifies this
      ensures t != TypeObjectID ==> err == Some(ErrDecodeToNil) && id == old(id)
      ensures t == TypeObjectID ==> err == None && id == Unmarshalled(data)
    {
      if t != TypeObjectID {
        return Some(ErrDecodeToNil);
      }
      var objId := new byte[12](_ => 0);
      var n := if |data| < 12 then |data| else 12;
      for i := 0 to n
        invariant forall k :: 0 <= k < i ==> objId[k] == data[k]
        invariant forall k :: i <= k < 12 ==> objId[k] == 0
      {
        objId[i] := data[i];
      }
      assert objId[..] == ObjectIdBytes(data);
      id := Id(Hex(objId[..]));
      err := None;
    }
  }

  // ---------------------------------------------------------------------------
  // Round trips
  // ---------------------------------------------------------------------------

  /** The lowercase re-encoding of digits that decoded. */
  function LowerHex(s: string): (t: string)
    ensures |t| == |s|
  {
    if s == [] then "" else [LowerHexDigit(s[0])] + LowerHex(s[1..])
  }

  lemma {:induction false} DigitRoundTrip(c: char)
    requires HexValue(c).Some?
    ensures HexDigit(HexValue(c).value) == LowerHexDigit(c)
  {
  }

  /** The two digits of a decoded byte. */
  lemma {:induction false} PairRoundTrip(c0: char, c1: char)
    requires HexValue(c0).Some? && HexValue(c1).Some?
    ensures var b := (16 * HexValue(c0).value + HexValue(c1).value) as byte;
      Hex([b]) == [LowerHexDigit(c0), LowerHexDigit(c1)]
  {
    var hi := HexValue(c0).value;
    var lo := HexValue(c1).value;
    var b := (16 * hi + lo) as byte;
    assert b as int / 16 == hi && b as int % 16 == lo;
    DigitRoundTrip(c0);
    DigitRoundTrip(c1);
    assert Hex([b]) == [HexDigit(hi), HexDigit(lo)] + Hex([]);
  }

  lemma {:induction false} HexAppend(a: seq<byte>, b: seq<byte>)
    ensures Hex(a + b) == Hex(a) + Hex(b)
  {
    if a != [] {
      assert (a + b)[1..] == a[1..] + b;
      HexAppend(a[1..], b);
    } else {
      assert a + b == b;
    }
  }

  lemma {:induction false} LowerHexPair(s: string)
    requires |s| >= 2
    ensures LowerHex(s) == [LowerHexDigit(s[0]), LowerHexDigit(s[1])] + LowerHex(s[2..])
  {
    assert s[1..][1..] == s[2..];
  }

  /** Encoding what was decoded gives the text back with its letters lower-cased. */
  lemma {:induction false} HexOfDecode(s: string)
    requires |s| % 2 == 0 && DecodeHex(s).Ok?
    ensures Hex(DecodeHex(s).value) == LowerHex(s)
    decreases |s|
  {
    if s != [] {
      var b := (16 * HexValue(s[0]).value + HexValue(s[1]).value) as byte;
      var rest := DecodeHex(s[2..]).value;
      HexOfDecode(s[2..]);
      assert DecodeHex(s).value == [b] + rest;
      PairRoundTrip(s[0], s[1]);
      HexAppend([b], rest);
      LowerHexPair(s);
    }
  }

  /** Decoding the encoding of some bytes gives them back. */
  lemma {:induction false} DecodeOfHex(bytes: seq<byte>)
    ensures DecodeHex(Hex(bytes)) == Ok(bytes)
    decreases |bytes|
  {
    if bytes != [] {
      var s := Hex(bytes);
      DecodeOfHex(bytes[1..]);
      assert s[2..] == Hex(bytes[1..]);
      assert 16 * (bytes[0] as int / 16) + bytes[0] as int % 16 == bytes[0] as int;
      assert bytes == [bytes[0]] + bytes[1..];
    }
  }

  predicate LowercaseOnly(s: string)
  {
    forall i :: 0 <= i < |s| ==> IsLowerHexDigit(s[i])
  }

  lemma {:induction false} LowerHexOfLowercase(s: string)
    requires LowercaseOnly(s)
    ensures LowerHex(s) == s
    decreases |s|
  {
    if s != [] {
      LowerHexOfLowercase(s[1..]);
    }
  }

  /** Storing an identifier and reading it back gives its lowercase spelling. */
  lemma {:induction false} MarshalUnmarshal(id: Id)
    requires IsObjectIdHex(id.value)
    ensures Unmarshalled(MarshalBSONValue(id).data) == Id(LowerHex(id.value))
  {
    var data := MarshalBSONValue(id).data;
    assert ObjectIdBytes(data) == data;
    HexOfDecode(id.value);
  }

  /** The round trip is exact for lowercase identifiers, the form new ones are generated in. */
  lemma {:induction false} MarshalUnmarshalLowercase(id: Id)
    requires IsObjectIdHex(id.value) && LowercaseOnly(id.value)
    ensures Unmarshalled(MarshalBSONValue(id).data) == id
  {
    MarshalUnmarshal(id);
    LowerHexOfLowercase(id.value);
  }

  /** Every decoded identifier is a valid lowercase ObjectID string that stores as those bytes. */
  lemma {:induction false} UnmarshalMarshal(data: seq<byte>)
    ensures var id := Unmarshalled(data);
      && IsObjectIdHex(id.value) && LowercaseOnly(id.value)
      && MarshalBSONValue(id) == Marshalled(TypeObjectID, ObjectIdBytes(data), None)
  {
    DecodeOfHex(ObjectIdBytes(data));
  }
}
