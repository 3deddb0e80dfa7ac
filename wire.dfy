/**
 * The protobuf wire format, as far as the raw file descriptor of
 * hello_world.proto needs it: varints and length-delimited fields.
 */
module ProtoWire {

  import opened Wrappers

  newtype byte = x: int | 0 <= x < 256

  /** A base-128 varint: the value and the number of bytes it took. */
  function DecodeVarint(bs: seq<byte>): (r: Option<(nat, nat)>)
    ensures r.Some? ==> 1 <= r.value.1 <= |bs|
  {
    if |bs| == 0 then None
    else if bs[0] < 128 then Some((bs[0] as nat, 1))
    else
      match DecodeVarint(bs[1..])
      case None => None
      case Some((v, n)) => Some(((bs[0] - 128) as nat + 128 * v, n + 1))
  }

  function EncodeVarint(n: nat): (bs: seq<byte>)
    ensures |bs| >= 1
  {
    if n < 128 then [n as byte] else [(n % 128 + 128) as byte] + EncodeVarint(n / 128)
  }

  lemma {:induction false} VarintRoundTrip(n: nat, rest: seq<byte>)
    ensures DecodeVarint(EncodeVarint(n) + rest) == Some((n, |EncodeVarint(n)|))
  {
    var bs := EncodeVarint(n) + rest;
    if n >= 128 {
      assert bs[1..] == EncodeVarint(n / 128) + rest;
      VarintRoundTrip(n / 128, rest);
    }
  }

  /** The payload of a field: wire type 0 (varint) or 2 (length-delimited). */
  datatype WireValue = VarintValue(n: nat) | BytesValue(bytes: seq<byte>)
  datatype Field = Field(number: nat, value: WireValue)

  /** The first field of an encoded message and the number of bytes it took. */
  function DecodeField(bs: seq<byte>): (r: Option<(Field, nat)>)
    ensures r.Some? ==> 1 <= r.value.1 <= |bs|
  {
    match DecodeVarint(bs)
    case None => None
    case Some((key, n)) =>
      match DecodeVarint(bs[n..])
      case None => None
      case Some((v, m)) =>
        if key % 8 == 0 then Some((Field(key / 8, VarintValue(v)), n + m))
        else if key % 8 == 2 && n + m + v <= |bs| then
          Some((Field(key / 8, BytesValue(bs[n + m..n + m + v])), n + m + v))
        else None
  }

  /** The fields of an encoded message, in order; `None` on malformed input. */
  function DecodeFields(bs: seq<byte>): Option<seq<Field>>
    decreases |bs|
  {
    if |bs| == 0 then Some([])
    else
      match DecodeField(bs)
      case None => None
      case Some((f, k)) =>
        match DecodeFields(bs[k..])
        case None => None
        case Some(fs) => Some([f] + fs)
  }

  function EncodeField(f: Field): seq<byte> {
    match f.value
    case VarintValue(v) => EncodeVarint(f.number * 8) + EncodeVarint(v)
    case BytesValue(b) => EncodeVarint(f.number * 8 + 2) + EncodeVarint(|b|) + b
  }

  function EncodeFields(fs: seq<Field>): seq<byte> {
    if |fs| == 0 then [] else EncodeField(fs[0]) + EncodeFields(fs[1..])
  }

  /** Decoding an encoded field in front of other bytes yields that field first. */
  lemma DecodeEncodedField(f: Field, tail: seq<byte>)
    ensures DecodeField(EncodeField(f) + tail) == Some((f, |EncodeField(f)|))
  {
    match f.value
    case VarintValue(v) =>
      var keyValue := f.number * 8;
      assert keyValue % 8 == 0 && keyValue / 8 == f.number;
      var key, val := EncodeVarint(keyValue), EncodeVarint(v);
      var rest := val + tail;
      assert EncodeField(f) + tail == key + rest;
      VarintRoundTrip(keyValue, rest);
      VarintRoundTrip(v, tail);
    case BytesValue(b) =>
      var keyValue := f.number * 8 + 2;
      assert keyValue % 8 == 2 && keyValue / 8 == f.number;
      var key, len := EncodeVarint(keyValue), EncodeVarint(|b|);
      var rest := len + (b + tail);
      var bs := EncodeField(f) + tail;
      assert bs == key + rest;
      VarintRoundTrip(keyValue, rest);
      VarintRoundTrip(|b|, b + tail);
      assert bs[|key| + |len|..|key| + |len| + |b|] == b;
  }

  /** One step of `DecodeFields`: the first field, then the fields after it. */
  lemma DecodeFieldsStep(bs: seq<byte>, f: Field, n: nat, rest: seq<Field>)
    requires DecodeField(bs) == Some((f, n))
    requires n <= |bs| && DecodeFields(bs[n..]) == Some(rest)
    ensures DecodeFields(bs) == Some([f] + rest)
  {
  }

  /** Decoding undoes encoding. */
  lemma {:induction false} FieldsRoundTrip(fs: seq<Field>)
    ensures DecodeFields(EncodeFields(fs)) == Some(fs)
  {
    if |fs| > 0 {
      var head, tail := EncodeField(fs[0]), EncodeFields(fs[1..]);
      assert EncodeFields(fs) == head + tail;
      DecodeEncodedField(fs[0], tail);
      assert (head + tail)[|head|..] == tail;
      FieldsRoundTrip(fs[1..]);
      DecodeFieldsStep(head + tail, fs[0], |head|, fs[1..]);
      assert [fs[0]] + fs[1..] == fs;
    }
  }

  /** The last occurrence of a field number wins, as for a protobuf scalar field. */
  function Lookup(fs: seq<Field>, number: nat): (r: Option<WireValue>)
    ensures r.Some? ==> exists i :: 0 <= i < |fs| && fs[i] == Field(number, r.value)
    ensures r.None? ==> forall i :: 0 <= i < |fs| ==> fs[i].number != number
  {
    if |fs| == 0 then None
    else if fs[|fs| - 1].number == number then Some(fs[|fs| - 1].value)
    else Lookup(fs[..|fs| - 1], number)
  }

  function LookupBytes(bs: seq<byte>, number: nat): Option<seq<byte>> {
    match DecodeFields(bs)
    case Some(fs) =>
      (match Lookup(fs, number)
       case Some(BytesValue(b)) => Some(b)
       case _ => None)
    case None => None
  }

  function LookupVarint(fs: seq<Field>, number: nat): Option<nat> {
    match Lookup(fs, number)
    case Some(VarintValue(n)) => Some(n)
    case _ => None
  }

  function Ascii(bs: seq<byte>): string {
    seq(|bs|, k requires 0 <= k < |bs| => bs[k] as char)
  }
}
