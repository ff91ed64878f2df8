/**
 The protobuf encoder of tools/generate_piper_speaker_fixture.py, with the decoder the format
 promises: base-128 varints and length-delimited records, as the Protocol Buffers Encoding
 guide defines them in "Base 128 Varints" and "Length-Delimited Records".
 */
module Protobuf {
  import opened Wrappers
  import opened Binary
  import opened Sequences

  // ---------------------------------------------------------------- varints

  /** Seven bits a byte, low bits first, the high bit set on every byte but the last. */
  function Varint(value: nat): Bytes {
    if value < 128 then [value] else [value % 128 + 128] + Varint(value / 128)
  }

  /** The encoder's loop. */
  method EncodeVarint(value: nat) returns (result: Bytes)
    ensures result == Varint(value)
  {
    var rest := value;
    result := [];
    while rest >= 128
      invariant result + Varint(rest) == Varint(value)
    {
      assert Varint(rest) == [rest % 128 + 128] + Varint(rest / 128);
      result := result + [rest % 128 + 128];
      rest := rest / 128;
    }
    result := result + [rest];
  }

  function DecodeVarint(bytes: Bytes): Option<(nat, Bytes)> {
    if bytes == [] then None
    else if bytes[0] < 128 then Some((bytes[0], bytes[1..]))
    else
      match DecodeVarint(bytes[1..])
      case None => None
      case Some((high, rest)) => Some((bytes[0] - 128 + 128 * high, rest))
  }

  lemma {:induction false} VarintRoundTrip(value: nat, rest: Bytes)
    ensures DecodeVarint(Varint(value) + rest) == Some((value, rest))
  {
    var bytes := Varint(value) + rest;
    if value < 128 {
      assert bytes[1..] == rest;
    } else {
      VarintRoundTrip(value / 128, rest);
      assert bytes[1..] == Varint(value / 128) + rest;
    }
  }

  /** No encoding is the beginning of another: what follows it is determined too. */
  lemma VarintPrefixFree(a: nat, b: nat, x: Bytes, y: Bytes)
    requires Varint(a) + x == Varint(b) + y
    ensures a == b && x == y
  {
    VarintRoundTrip(a, x);
    VarintRoundTrip(b, y);
  }

  /** Nothing shorter decodes to the same number. */
  lemma {:induction false} VarintMinimal(bytes: Bytes, value: nat)
    requires DecodeVarint(bytes) == Some((value, []))
    ensures |Varint(value)| <= |bytes|
  {
    if bytes[0] >= 128 {
      var (high, rest) := DecodeVarint(bytes[1..]).value;
      VarintMinimal(bytes[1..], high);
      if value >= 128 {
        assert value / 128 == high;
      }
    }
  }

  lemma {:induction false} VarintShrinks(bytes: Bytes)
    ensures DecodeVarint(bytes).Some? ==> |DecodeVarint(bytes).value.1| < |bytes|
  {
    if bytes != [] && bytes[0] >= 128 {
      VarintShrinks(bytes[1..]);
    }
  }

  /** The number that groups of seven bits stand for, the lowest group first. */
  function Base128(bytes: Bytes): nat {
    if bytes == [] then 0 else bytes[0] % 128 + 128 * Base128(bytes[1..])
  }

  /** The groups of a number, with the continuation bit on all but the last of them. */
  lemma {:induction false} VarintGroups(value: nat)
    ensures Varint(value) != [] && Base128(Varint(value)) == value
    ensures forall k :: 0 <= k < |Varint(value)| ==> (Varint(value)[k] >= 128 <==> k < |Varint(value)| - 1)
  {
    if value >= 128 {
      VarintGroups(value / 128);
      assert Varint(value)[1..] == Varint(value / 128);
    }
  }

  // ---------------------------------------------------------------- fields

  datatype Field = IntField(number: nat, value: nat) | BlobField(number: nat, content: Bytes)

  function Integer(field: nat, value: nat): Bytes {
    Varint(8 * field) + Varint(value)
  }

  function Blob(field: nat, value: Bytes): Bytes {
    Varint(8 * field + 2) + Varint(|value|) + value
  }

  function Encode(f: Field): Bytes {
    match f
    case IntField(number, value) => Integer(number, value)
    case BlobField(number, content) => Blob(number, content)
  }

  function EncodeAll(fields: seq<Field>): Bytes {
    FlatMap(Encode, fields)
  }

  /** Reads one field: the key's low three bits tell a varint from a length-delimited record. */
  function ParseField(bytes: Bytes): (r: Option<(Field, Bytes)>)
    ensures r.Some? ==> |r.value.1| < |bytes|
  {
    VarintShrinks(bytes);
    match DecodeVarint(bytes)
    case None => None
    case Some((key, body)) =>
      VarintShrinks(body);
      match DecodeVarint(body)
      case None => None
      case Some((n, rest)) =>
        if key % 8 == 0 then Some((IntField(key / 8, n), rest))
        else if key % 8 == 2 && n <= |rest| then Some((BlobField(key / 8, rest[..n]), rest[n..]))
        else None
  }

  function ParseAll(bytes: Bytes): Option<seq<Field>>
    decreases |bytes|
  {
    if bytes == [] then Some([])
    else
      match ParseField(bytes)
      case None => None
      case Some((field, rest)) =>
        match ParseAll(rest)
        case None => None
        case Some(fields) => Some([field] + fields)
  }

  /** The two encodings that the guide gives as examples: 150 in field 1, and "testing" in field 2. */
  lemma DocumentedBytes()
    ensures Integer(1, 150) == [0x08, 0x96, 0x01]
    ensures Blob(2, [0x74, 0x65, 0x73, 0x74, 0x69, 0x6E, 0x67])
         == [0x12, 0x07, 0x74, 0x65, 0x73, 0x74, 0x69, 0x6E, 0x67]
  {
    assert Varint(150) == [150 % 128 + 128] + Varint(1);
  }

  lemma IntegerRoundTrip(number: nat, value: nat, rest: Bytes)
    ensures ParseField(Integer(number, value) + rest) == Some((IntField(number, value), rest))
  {
    Assoc(Varint(8 * number), Varint(value), rest);
    VarintRoundTrip(8 * number, Varint(value) + rest);
    VarintRoundTrip(value, rest);
  }

  lemma BlobRoundTrip(number: nat, content: Bytes, rest: Bytes)
    ensures ParseField(Blob(number, content) + rest) == Some((BlobField(number, content), rest))
  {
    Assoc(Varint(8 * number + 2) + Varint(|content|), content, rest);
    Assoc(Varint(8 * number + 2), Varint(|content|), content + rest);
    VarintRoundTrip(8 * number + 2, Varint(|content|) + (content + rest));
    VarintRoundTrip(|content|, content + rest);
    assert (content + rest)[..|content|] == content && (content + rest)[|content|..] == rest;
  }

  lemma FieldRoundTrip(f: Field, rest: Bytes)
    ensures ParseField(Encode(f) + rest) == Some((f, rest))
  {
    match f
    case IntField(number, value) => IntegerRoundTrip(number, value, rest);
    case BlobField(number, content) => BlobRoundTrip(number, content, rest);
  }

  /** Every list of fields is read back from its encoding. */
  lemma {:induction false} FieldsRoundTrip(fields: seq<Field>)
    ensures ParseAll(EncodeAll(fields)) == Some(fields)
  {
    if fields != [] {
      FieldRoundTrip(fields[0], EncodeAll(fields[1..]));
      FieldsRoundTrip(fields[1..]);
      assert fields == [fields[0]] + fields[1..];
    }
  }

  // ---------------------------------------------------------------- picking fields

  function BlobIn(number: nat): Field -> seq<Bytes> {
    (f: Field) => if f.BlobField? && f.number == number then [f.content] else []
  }

  function IntIn(number: nat): Field -> seq<nat> {
    (f: Field) => if f.IntField? && f.number == number then [f.value] else []
  }

  /** The contents of the records with one number, in order. */
  function Blobs(fields: seq<Field>, number: nat): seq<Bytes> {
    FlatMap(BlobIn(number), fields)
  }

  function Ints(fields: seq<Field>, number: nat): seq<nat> {
    FlatMap(IntIn(number), fields)
  }

  lemma PickAppend(a: seq<Field>, b: seq<Field>, number: nat)
    ensures Blobs(a + b, number) == Blobs(a, number) + Blobs(b, number)
    ensures Ints(a + b, number) == Ints(a, number) + Ints(b, number)
  {
    FlatMapAppend(BlobIn(number), a, b);
    FlatMapAppend(IntIn(number), a, b);
  }

  lemma PickOne(f: Field, number: nat)
    ensures Blobs([f], number) == BlobIn(number)(f)
    ensures Ints([f], number) == IntIn(number)(f)
  {
    FlatMapOne(BlobIn(number), f);
    FlatMapOne(IntIn(number), f);
  }

  function AsBlob(number: nat): Bytes -> Field {
    (content: Bytes) => BlobField(number, content)
  }

  function AsInt(number: nat): nat -> Field {
    (value: nat) => IntField(number, value)
  }
}
