/**
 * The message part of the raw file descriptor that protoc-gen-go embeds in
 * hello_world.pb.go (`file_helloworld_hello_world_proto_rawDesc`): the four
 * `DescriptorProto` entries of the file, field by field, decoded with the
 * wire format of ProtoWire. The one `FieldOptions` in them is the
 * protoc-gen-validate rule on `HelloRequest.name`.
 */
module Descriptor {

  import opened Wrappers
  import opened ProtoWire

  /** Field numbers of descriptor.proto used here. */
  const NameNumber: nat := 1         // DescriptorProto.name, FieldDescriptorProto.name
  const FieldNumber: nat := 2        // DescriptorProto.field
  const MessageTypeNumber: nat := 4  // FileDescriptorProto.message_type
  const OptionsNumber: nat := 8      // FieldDescriptorProto.options

  /** The encoded `FieldOptions` of `HelloRequest.name`: extension 1071 carrying the string rules. */
  const NameFieldOptions: seq<byte> := [
    0xfa, 0x42, 0x17, 0x72, 0x15, 0x10, 0x06, 0x18, 0x10, 0x32, 0x0f, 0x5e, 0x5b,
    0x61, 0x2d, 0x7a, 0x41, 0x2d, 0x5a, 0x30, 0x2d, 0x39, 0x5f, 0x5d, 0x2a, 0x24]

  function Concat(pieces: seq<seq<byte>>): seq<byte> {
    if |pieces| == 0 then [] else pieces[0] + Concat(pieces[1..])
  }

  /** Encoding a list of fields is concatenating the encodings of its fields. */
  lemma {:induction false} EncodedPieces(fs: seq<Field>, pieces: seq<seq<byte>>)
    requires |fs| == |pieces|
    requires forall i :: 0 <= i < |fs| ==> EncodeField(fs[i]) == pieces[i]
    ensures EncodeFields(fs) == Concat(pieces)
  {
    if |fs| > 0 {
      EncodedPieces(fs[1..], pieces[1..]);
    }
  }

  /** The characters of ASCII bytes, one by one. */
  lemma AsciiLiteral(bs: seq<byte>, s: string)
    requires |bs| == |s| && forall k :: 0 <= k < |s| ==> bs[k] as int == s[k] as int
    ensures Ascii(bs) == s
  {
  }

  function Total(pieces: seq<seq<byte>>): nat {
    if |pieces| == 0 then 0 else |pieces[0]| + Total(pieces[1..])
  }

  lemma {:induction false} ConcatLength(pieces: seq<seq<byte>>)
    ensures |Concat(pieces)| == Total(pieces)
  {
    if |pieces| > 0 {
      ConcatLength(pieces[1..]);
    }
  }

  /** A short length-delimited field: one key byte, one length byte, the payload. */
  lemma EncodeBytesField(n: nat, payload: seq<byte>)
    requires n * 8 + 2 < 128 && |payload| < 128
    ensures EncodeField(Field(n, BytesValue(payload))) == [(n * 8 + 2) as byte, |payload| as byte] + payload
  {
  }

  /** A length-delimited field whose length takes two bytes. */
  lemma EncodeLongBytesField(n: nat, payload: seq<byte>)
    requires n * 8 + 2 < 128 && 128 <= |payload| < 128 * 128
    ensures EncodeField(Field(n, BytesValue(payload))) ==
            [(n * 8 + 2) as byte, (|payload| % 128 + 128) as byte, (|payload| / 128) as byte] + payload
  {
    assert EncodeVarint(|payload|) == [(|payload| % 128 + 128) as byte] + EncodeVarint(|payload| / 128);
  }

  /** A small varint field: one key byte, one value byte. */
  lemma EncodeVarintField(n: nat, v: nat)
    requires n * 8 < 128 && v < 128
    ensures EncodeField(Field(n, VarintValue(v))) == [(n * 8) as byte, v as byte]
  {
  }

  /** A string-valued field (the last occurrence wins). */
  function StringField(bs: seq<byte>, number: nat): Option<string> {
    match LookupBytes(bs, number)
    case Some(b) => Some(Ascii(b))
    case None => None
  }

  /** The payloads of every length-delimited occurrence of `number`, in order: a repeated message field. */
  function Select(fs: seq<Field>, number: nat): (r: seq<seq<byte>>)
    ensures |r| <= |fs|
  {
    if |fs| == 0 then []
    else (if fs[0].number == number && fs[0].value.BytesValue? then [fs[0].value.bytes] else []) + Select(fs[1..], number)
  }

  function Entries(bs: seq<byte>, number: nat): Option<seq<seq<byte>>> {
    match DecodeFields(bs)
    case Some(fs) => Some(Select(fs, number))
    case None => None
  }

  /** The first entry whose name is `name`, as a lookup of a message or a field by name finds it. */
  function FindNamed(entries: seq<seq<byte>>, name: string): (r: Option<seq<byte>>)
    ensures r.Some? <==> exists i :: 0 <= i < |entries| && StringField(entries[i], NameNumber) == Some(name)
    ensures r.Some? ==> r.value in entries && StringField(r.value, NameNumber) == Some(name)
  {
    if |entries| == 0 then None
    else if StringField(entries[0], NameNumber) == Some(name) then Some(entries[0])
    else
      var r := FindNamed(entries[1..], name);
      assert forall i :: 1 <= i < |entries| ==> entries[i] == entries[1..][i - 1];
      r
  }

  /** The encoded options of the field named `field` of one message descriptor. */
  function OptionsInMessage(message: seq<byte>, field: string): Option<seq<byte>> {
    match Entries(message, FieldNumber)
    case None => None
    case Some(fs) =>
      match FindNamed(fs, field)
      case None => None
      case Some(f) => LookupBytes(f, OptionsNumber)
  }

  /** The encoded options of field `field` of message `message`, if both exist and the field has options. */
  function FieldOptions(messageTypes: seq<byte>, message: string, field: string): Option<seq<byte>> {
    match Entries(messageTypes, MessageTypeNumber)
    case None => None
    case Some(ms) =>
      match FindNamed(ms, message)
      case None => None
      case Some(m) => OptionsInMessage(m, field)
  }

  // ---------------------------------------------------------------------------
  // Reading facts off a decoded entry.

  /** The options of a field of a message that is found are looked up in that message. */
  lemma OptionsOfFoundMessage(messageTypes: seq<byte>, ms: seq<seq<byte>>, message: string, m: seq<byte>, field: string)
    requires Entries(messageTypes, MessageTypeNumber) == Some(ms)
    requires FindNamed(ms, message) == Some(m)
    ensures FieldOptions(messageTypes, message, field) == OptionsInMessage(m, field)
  {
  }

  /** A message that is not there has no fields with options. */
  lemma OptionsOfMissingMessage(messageTypes: seq<byte>, ms: seq<seq<byte>>, message: string, field: string)
    requires Entries(messageTypes, MessageTypeNumber) == Some(ms)
    requires FindNamed(ms, message).None?
    ensures FieldOptions(messageTypes, message, field).None?
  {
  }

  /** A field number that occurs once is looked up to that occurrence. */
  lemma LookupOnce(fs: seq<Field>, i: nat)
    requires i < |fs|
    requires forall j :: 0 <= j < |fs| && j != i ==> fs[j].number != fs[i].number
    ensures Lookup(fs, fs[i].number) == Some(fs[i].value)
  {
  }

  /** An entry whose first field is its name, and no other field has that number, is named so. */
  lemma NameOf(bs: seq<byte>, fs: seq<Field>, name: string)
    requires DecodeFields(bs) == Some(fs)
    requires |fs| > 0 && fs[0].number == NameNumber && fs[0].value.BytesValue?
    requires Ascii(fs[0].value.bytes) == name
    requires forall j :: 1 <= j < |fs| ==> fs[j].number != NameNumber
    ensures StringField(bs, NameNumber) == Some(name)
  {
    LookupOnce(fs, 0);
  }

  /** An entry without an options field has no options. */
  lemma NoOptions(bs: seq<byte>, fs: seq<Field>)
    requires DecodeFields(bs) == Some(fs)
    requires forall j :: 0 <= j < |fs| ==> fs[j].number != OptionsNumber
    ensures LookupBytes(bs, OptionsNumber) == None
  {
  }

  /** A list made only of length-delimited occurrences of `number` selects all their payloads. */
  lemma {:induction false} SelectAll(fs: seq<Field>, number: nat, payloads: seq<seq<byte>>)
    requires |fs| == |payloads|
    requires forall j :: 0 <= j < |fs| ==> fs[j] == Field(number, BytesValue(payloads[j]))
    ensures Select(fs, number) == payloads
  {
    if |fs| > 0 {
      SelectAll(fs[1..], number, payloads[1..]);
      assert [payloads[0]] + payloads[1..] == payloads;
    }
  }

  /** A message descriptor made of its name followed by its fields lists exactly those fields. */
  lemma MessageFields(bs: seq<byte>, fs: seq<Field>, fields: seq<seq<byte>>)
    requires DecodeFields(bs) == Some(fs)
    requires |fs| == |fields| + 1 && fs[0].number == NameNumber
    requires forall j :: 0 <= j < |fields| ==> fs[j + 1] == Field(FieldNumber, BytesValue(fields[j]))
    ensures Entries(bs, FieldNumber) == Some(fields)
  {
    SelectAll(fs[1..], FieldNumber, fields);
    assert Select(fs, FieldNumber) == Select(fs[1..], FieldNumber);
  }

  /** A message none of whose fields has options gives no options for any field name. */
  lemma NoFieldHasOptions(message: seq<byte>, fields: seq<seq<byte>>, field: string)
    requires Entries(message, FieldNumber) == Some(fields)
    requires forall i :: 0 <= i < |fields| ==> LookupBytes(fields[i], OptionsNumber).None?
    ensures OptionsInMessage(message, field).None?
  {
  }

  // ---------------------------------------------------------------------------
  // The descriptor bytes, one constant per encoded field, with their decodings.

  /** The ASCII bytes of the names the descriptor spells out: messages, then fields. */
  const UserReqText: seq<byte> := [0x55, 0x73, 0x65, 0x72, 0x52, 0x65, 0x71]  // "UserReq"
  const UserResText: seq<byte> := [0x55, 0x73, 0x65, 0x72, 0x52, 0x65, 0x73]  // "UserRes"
  const HelloRequestText: seq<byte> := [0x48, 0x65, 0x6c, 0x6c, 0x6f, 0x52, 0x65, 0x71, 0x75, 0x65, 0x73, 0x74]  // "HelloRequest"
  const HelloReplyText: seq<byte> := [0x48, 0x65, 0x6c, 0x6c, 0x6f, 0x52, 0x65, 0x70, 0x6c, 0x79]  // "HelloReply"
  const IdText: seq<byte> := [0x69, 0x64]  // "id"
  const NameText: seq<byte> := [0x6e, 0x61, 0x6d, 0x65]  // "name"
  const EmailText: seq<byte> := [0x65, 0x6d, 0x61, 0x69, 0x6c]  // "email"
  const PhoneText: seq<byte> := [0x70, 0x68, 0x6f, 0x6e, 0x65]  // "phone"
  const MessageText: seq<byte> := [0x6d, 0x65, 0x73, 0x73, 0x61, 0x67, 0x65]  // "message"
  const DataText: seq<byte> := [0x64, 0x61, 0x74, 0x61]  // "data"
  const ObjText: seq<byte> := [0x6f, 0x62, 0x6a]  // "obj"

  /** The two message-typed fields of `HelloReply` name their types in full. */
  const ListValueTypeName: seq<byte> := [
    0x2e, 0x67, 0x6f, 0x6f, 0x67, 0x6c, 0x65, 0x2e, 0x70, 0x72, 0x6f, 0x74, 0x6f,
    0x62, 0x75, 0x66, 0x2e, 0x4c, 0x69, 0x73, 0x74, 0x56, 0x61, 0x6c, 0x75, 0x65]
  const StructTypeName: seq<byte> := [
    0x2e, 0x67, 0x6f, 0x6f, 0x67, 0x6c, 0x65, 0x2e, 0x70, 0x72, 0x6f, 0x74, 0x6f,
    0x62, 0x75, 0x66, 0x2e, 0x53, 0x74, 0x72, 0x75, 0x63, 0x74]

  /** `UserReq.id`. */
  const UserReqIdFieldPieces: seq<seq<byte>> := [
    [0x0a, 0x02] + IdText,
    [0x18, 0x01],
    [0x20, 0x01],
    [0x28, 0x04],
    [0x52, 0x02] + IdText]
  const UserReqIdField: seq<byte> := Concat(UserReqIdFieldPieces)
  const UserReqIdFieldFields: seq<Field> := [
    Field(NameNumber, BytesValue(IdText)),
    Field(3, VarintValue(1)),
    Field(4, VarintValue(1)),
    Field(5, VarintValue(4)),
    Field(10, BytesValue(IdText))]

  /** The `DescriptorProto` of message `UserReq`. */
  const UserReqDescriptorPieces: seq<seq<byte>> := [
    [0x0a, 0x07] + UserReqText,
    [0x12, 0x0e] + UserReqIdField]
  const UserReqDescriptor: seq<byte> := Concat(UserReqDescriptorPieces)
  const UserReqDescriptorFields: seq<Field> := [
    Field(NameNumber, BytesValue(UserReqText)),
    Field(FieldNumber, BytesValue(UserReqIdField))]

  /** `UserRes.id`. */
  const UserResIdFieldPieces: seq<seq<byte>> := [
    [0x0a, 0x02] + IdText,
    [0x18, 0x01],
    [0x20, 0x01],
    [0x28, 0x04],
    [0x52, 0x02] + IdText]
  const UserResIdField: seq<byte> := Concat(UserResIdFieldPieces)
  const UserResIdFieldFields: seq<Field> := [
    Field(NameNumber, BytesValue(IdText)),
    Field(3, VarintValue(1)),
    Field(4, VarintValue(1)),
    Field(5, VarintValue(4)),
    Field(10, BytesValue(IdText))]

  /** `UserRes.name`. */
  const UserResNameFieldPieces: seq<seq<byte>> := [
    [0x0a, 0x04] + NameText,
    [0x18, 0x02],
    [0x20, 0x01],
    [0x28, 0x09],
    [0x52, 0x04] + NameText]
  const UserResNameField: seq<byte> := Concat(UserResNameFieldPieces)
  const UserResNameFieldFields: seq<Field> := [
    Field(NameNumber, BytesValue(NameText)),
    Field(3, VarintValue(2)),
    Field(4, VarintValue(1)),
    Field(5, VarintValue(9)),
    Field(10, BytesValue(NameText))]

  /** `UserRes.email`. */
  const UserResEmailFieldPieces: seq<seq<byte>> := [
    [0x0a, 0x05] + EmailText,
    [0x18, 0x03],
    [0x20, 0x01],
    [0x28, 0x09],
    [0x52, 0x05] + EmailText]
  const UserResEmailField: seq<byte> := Concat(UserResEmailFieldPieces)
  const UserResEmailFieldFields: seq<Field> := [
    Field(NameNumber, BytesValue(EmailText)),
    Field(3, VarintValue(3)),
    Field(4, VarintValue(1)),
    Field(5, VarintValue(9)),
    Field(10, BytesValue(EmailText))]

  /** `UserRes.phone`. */
  const UserResPhoneFieldPieces: seq<seq<byte>> := [
    [0x0a, 0x05] + PhoneText,
    [0x18, 0x04],
    [0x20, 0x01],
    [0x28, 0x09],
    [0x52, 0x05] + PhoneText]
  const UserResPhoneField: seq<byte> := Concat(UserResPhoneFieldPieces)
  const UserResPhoneFieldFields: seq<Field> := [
    Field(NameNumber, BytesValue(PhoneText)),
    Field(3, VarintValue(4)),
    Field(4, VarintValue(1)),
    Field(5, VarintValue(9)),
    Field(10, BytesValue(PhoneText))]

  /** The `DescriptorProto` of message `UserRes`. */
  const UserResDescriptorPieces: seq<seq<byte>> := [
    [0x0a, 0x07] + UserResText,
    [0x12, 0x0e] + UserResIdField,
    [0x12, 0x12] + UserResNameField,
    [0x12, 0x14] + UserResEmailField,
    [0x12, 0x14] + UserResPhoneField]
  const UserResDescriptor: seq<byte> := Concat(UserResDescriptorPieces)
  const UserResDescriptorFields: seq<Field> := [
    Field(NameNumber, BytesValue(UserResText)),
    Field(FieldNumber, BytesValue(UserResIdField)),
    Field(FieldNumber, BytesValue(UserResNameField)),
    Field(FieldNumber, BytesValue(UserResEmailField)),
    Field(FieldNumber, BytesValue(UserResPhoneField))]

  /** `HelloRequest.name`. */
  const HelloRequestNameFieldPieces: seq<seq<byte>> := [
    [0x0a, 0x04] + NameText,
    [0x18, 0x01],
    [0x20, 0x01],
    [0x28, 0x09],
    [0x42, 0x1a] + NameFieldOptions,
    [0x52, 0x04] + NameText]
  const HelloRequestNameField: seq<byte> := Concat(HelloRequestNameFieldPieces)
  const HelloRequestNameFieldFields: seq<Field> := [
    Field(NameNumber, BytesValue(NameText)),
    Field(3, VarintValue(1)),
    Field(4, VarintValue(1)),
    Field(5, VarintValue(9)),
    Field(OptionsNumber, BytesValue(NameFieldOptions)),
    Field(10, BytesValue(NameText))]

  /** The `DescriptorProto` of message `HelloRequest`. */
  const HelloRequestDescriptorPieces: seq<seq<byte>> := [
    [0x0a, 0x0c] + HelloRequestText,
    [0x12, 0x2e] + HelloRequestNameField]
  const HelloRequestDescriptor: seq<byte> := Concat(HelloRequestDescriptorPieces)
  const HelloRequestDescriptorFields: seq<Field> := [
    Field(NameNumber, BytesValue(HelloRequestText)),
    Field(FieldNumber, BytesValue(HelloRequestNameField))]

  /** `HelloReply.message`. */
  const HelloReplyMessageFieldPieces: seq<seq<byte>> := [
    [0x0a, 0x07] + MessageText,
    [0x18, 0x01],
    [0x20, 0x01],
    [0x28, 0x09],
    [0x52, 0x07] + MessageText]
  const HelloReplyMessageField: seq<byte> := Concat(HelloReplyMessageFieldPieces)
  const HelloReplyMessageFieldFields: seq<Field> := [
    Field(NameNumber, BytesValue(MessageText)),
    Field(3, VarintValue(1)),
    Field(4, VarintValue(1)),
    Field(5, VarintValue(9)),
    Field(10, BytesValue(MessageText))]

  /** `HelloReply.data`. */
  const HelloReplyDataFieldPieces: seq<seq<byte>> := [
    [0x0a, 0x04] + DataText,
    [0x18, 0x02],
    [0x20, 0x01],
    [0x28, 0x0b],
    [0x32, 0x1a] + ListValueTypeName,
    [0x52, 0x04] + DataText]
  const HelloReplyDataField: seq<byte> := Concat(HelloReplyDataFieldPieces)
  const HelloReplyDataFieldFields: seq<Field> := [
    Field(NameNumber, BytesValue(DataText)),
    Field(3, VarintValue(2)),
    Field(4, VarintValue(1)),
    Field(5, VarintValue(11)),
    Field(6, BytesValue(ListValueTypeName)),
    Field(10, BytesValue(DataText))]

  /** `HelloReply.obj`. */
  const HelloReplyObjFieldPieces: seq<seq<byte>> := [
    [0x0a, 0x03] + ObjText,
    [0x18, 0x03],
    [0x20, 0x01],
    [0x28, 0x0b],
    [0x32, 0x17] + StructTypeName,
    [0x52, 0x03] + ObjText]
  const HelloReplyObjField: seq<byte> := Concat(HelloReplyObjFieldPieces)
  const HelloReplyObjFieldFields: seq<Field> := [
    Field(NameNumber, BytesValue(ObjText)),
    Field(3, VarintValue(3)),
    Field(4, VarintValue(1)),
    Field(5, VarintValue(11)),
    Field(6, BytesValue(StructTypeName)),
    Field(10, BytesValue(ObjText))]

  /** The `DescriptorProto` of message `HelloReply`. */
  const HelloReplyDescriptorPieces: seq<seq<byte>> := [
    [0x0a, 0x0a] + HelloReplyText,
    [0x12, 0x18] + HelloReplyMessageField,
    [0x12, 0x2e] + HelloReplyDataField,
    [0x12, 0x29] + HelloReplyObjField]
  const HelloReplyDescriptor: seq<byte> := Concat(HelloReplyDescriptorPieces)
  const HelloReplyDescriptorFields: seq<Field> := [
    Field(NameNumber, BytesValue(HelloReplyText)),
    Field(FieldNumber, BytesValue(HelloReplyMessageField)),
    Field(FieldNumber, BytesValue(HelloReplyDataField)),
    Field(FieldNumber, BytesValue(HelloReplyObjField))]

  /** The `message_type` entries of the file descriptor, in the order of the raw descriptor. */
  const MessageTypesPieces: seq<seq<byte>> := [
    [0x22, 0x19] + UserReqDescriptor,
    [0x22, 0x59] + UserResDescriptor,
    [0x22, 0x3e] + HelloRequestDescriptor,
    [0x22, 0x81, 0x01] + HelloReplyDescriptor]
  const MessageTypes: seq<byte> := Concat(MessageTypesPieces)
  const MessageTypesFields: seq<Field> := [
    Field(MessageTypeNumber, BytesValue(UserReqDescriptor)),
    Field(MessageTypeNumber, BytesValue(UserResDescriptor)),
    Field(MessageTypeNumber, BytesValue(HelloRequestDescriptor)),
    Field(MessageTypeNumber, BytesValue(HelloReplyDescriptor))]

  lemma UserReqIdFieldLength()
    ensures |UserReqIdField| == 14
  {
    var p := UserReqIdFieldPieces;
    assert |p[0]| == 4 && |p[1]| == 2 && |p[2]| == 2 && |p[3]| == 2 && |p[4]| == 4;
    assert Total(p[4..]) == 4;
    assert Total(p[3..]) == 2 + 4;
    assert Total(p[2..]) == 2 + 2 + 4;
    assert Total(p[1..]) == 2 + 2 + 2 + 4;
    ConcatLength(p);
  }

  lemma UserReqIdFieldEncodes()
    ensures |UserReqIdFieldFields| == |UserReqIdFieldPieces|
    ensures forall i :: 0 <= i < |UserReqIdFieldFields| ==> EncodeField(UserReqIdFieldFields[i]) == UserReqIdFieldPieces[i]
  {
    var fs := UserReqIdFieldFields;
    var p := UserReqIdFieldPieces;
    forall i | 0 <= i < |fs|
      ensures EncodeField(fs[i]) == p[i]
    {
      if i == 0 {
        EncodeBytesField(NameNumber, IdText);
      } else if i == 1 {
        EncodeVarintField(3, 1);
      } else if i == 2 {
        EncodeVarintField(4, 1);
      } else if i == 3 {
        EncodeVarintField(5, 4);
      } else {
        EncodeBytesField(10, IdText);
      }
    }
  }

  lemma UserReqIdFieldDecodes()
    ensures DecodeFields(UserReqIdField) == Some(UserReqIdFieldFields)
  {
    UserReqIdFieldEncodes();
    EncodedPieces(UserReqIdFieldFields, UserReqIdFieldPieces);
    FieldsRoundTrip(UserReqIdFieldFields);
  }

  lemma UserReqDescriptorLength()
    ensures |UserReqDescriptor| == 25
  {
    UserReqIdFieldLength();
    var p := UserReqDescriptorPieces;
    assert |p[0]| == 9 && |p[1]| == 16;
    assert Total(p[1..]) == 16;
    ConcatLength(p);
  }

  lemma UserReqDescriptorEncodes()
    ensures |UserReqDescriptorFields| == |UserReqDescriptorPieces|
    ensures forall i :: 0 <= i < |UserReqDescriptorFields| ==> EncodeField(UserReqDescriptorFields[i]) == UserReqDescriptorPieces[i]
  {
    UserReqIdFieldLength();
    var fs := UserReqDescriptorFields;
    var p := UserReqDescriptorPieces;
    forall i | 0 <= i < |fs|
      ensures EncodeField(fs[i]) == p[i]
    {
      if i == 0 {
        EncodeBytesField(NameNumber, UserReqText);
      } else {
        EncodeBytesField(FieldNumber, UserReqIdField);
      }
    }
  }

  lemma UserReqDescriptorDecodes()
    ensures DecodeFields(UserReqDescriptor) == Some(UserReqDescriptorFields)
  {
    UserReqDescriptorEncodes();
    EncodedPieces(UserReqDescriptorFields, UserReqDescriptorPieces);
    FieldsRoundTrip(UserReqDescriptorFields);
  }

  lemma UserResIdFieldLength()
    ensures |UserResIdField| == 14
  {
    var p := UserResIdFieldPieces;
    assert |p[0]| == 4 && |p[1]| == 2 && |p[2]| == 2 && |p[3]| == 2 && |p[4]| == 4;
    assert Total(p[4..]) == 4;
    assert Total(p[3..]) == 2 + 4;
    assert Total(p[2..]) == 2 + 2 + 4;
    assert Total(p[1..]) == 2 + 2 + 2 + 4;
    ConcatLength(p);
  }

  lemma UserResIdFieldEncodes()
    ensures |UserResIdFieldFields| == |UserResIdFieldPieces|
    ensures forall i :: 0 <= i < |UserResIdFieldFields| ==> EncodeField(UserResIdFieldFields[i]) == UserResIdFieldPieces[i]
  {
    var fs := UserResIdFieldFields;
    var p := UserResIdFieldPieces;
    forall i | 0 <= i < |fs|
      ensures EncodeField(fs[i]) == p[i]
    {
      if i == 0 {
        EncodeBytesField(NameNumber, IdText);
      } else if i == 1 {
        EncodeVarintField(3, 1);
      } else if i == 2 {
        EncodeVarintField(4, 1);
      } else if i == 3 {
        EncodeVarintField(5, 4);
      } else {
        EncodeBytesField(10, IdText);
      }
    }
  }

  lemma UserResIdFieldDecodes()
    ensures DecodeFields(UserResIdField) == Some(UserResIdFieldFields)
  {
    UserResIdFieldEncodes();
    EncodedPieces(UserResIdFieldFields, UserResIdFieldPieces);
    FieldsRoundTrip(UserResIdFieldFields);
  }

  lemma UserResNameFieldLength()
    ensures |UserResNameField| == 18
  {
    var p := UserResNameFieldPieces;
    assert |p[0]| == 6 && |p[1]| == 2 && |p[2]| == 2 && |p[3]| == 2 && |p[4]| == 6;
    assert Total(p[4..]) == 6;
    assert Total(p[3..]) == 2 + 6;
    assert Total(p[2..]) == 2 + 2 + 6;
    assert Total(p[1..]) == 2 + 2 + 2 + 6;
    ConcatLength(p);
  }

  lemma UserResNameFieldEncodes()
    ensures |UserResNameFieldFields| == |UserResNameFieldPieces|
    ensures forall i :: 0 <= i < |UserResNameFieldFields| ==> EncodeField(UserResNameFieldFields[i]) == UserResNameFieldPieces[i]
  {
    var fs := UserResNameFieldFields;
    var p := UserResNameFieldPieces;
    forall i | 0 <= i < |fs|
      ensures EncodeField(fs[i]) == p[i]
    {
      if i == 0 {
        EncodeBytesField(NameNumber, NameText);
      } else if i == 1 {
        EncodeVarintField(3, 2);
      } else if i == 2 {
        EncodeVarintField(4, 1);
      } else if i == 3 {
        EncodeVarintField(5, 9);
      } else {
        EncodeBytesField(10, NameText);
      }
    }
  }

  lemma UserResNameFieldDecodes()
    ensures DecodeFields(UserResNameField) == Some(UserResNameFieldFields)
  {
    UserResNameFieldEncodes();
    EncodedPieces(UserResNameFieldFields, UserResNameFieldPieces);
    FieldsRoundTrip(UserResNameFieldFields);
  }

  lemma UserResEmailFieldLength()
    ensures |UserResEmailField| == 20
  {
    var p := UserResEmailFieldPieces;
    assert |p[0]| == 7 && |p[1]| == 2 && |p[2]| == 2 && |p[3]| == 2 && |p[4]| == 7;
    assert Total(p[4..]) == 7;
    assert Total(p[3..]) == 2 + 7;
    assert Total(p[2..]) == 2 + 2 + 7;
    assert Total(p[1..]) == 2 + 2 + 2 + 7;
    ConcatLength(p);
  }

  lemma UserResEmailFieldEncodes()
    ensures |UserResEmailFieldFields| == |UserResEmailFieldPieces|
    ensures forall i :: 0 <= i < |UserResEmailFieldFields| ==> EncodeField(UserResEmailFieldFields[i]) == UserResEmailFieldPieces[i]
  {
    var fs := UserResEmailFieldFields;
    var p := UserResEmailFieldPieces;
    forall i | 0 <= i < |fs|
      ensures EncodeField(fs[i]) == p[i]
    {
      if i == 0 {
        EncodeBytesField(NameNumber, EmailText);
      } else if i == 1 {
        EncodeVarintField(3, 3);
      } else if i == 2 {
        EncodeVarintField(4, 1);
      } else if i == 3 {
        EncodeVarintField(5, 9);
      } else {
        EncodeBytesField(10, EmailText);
      }
    }
  }

  lemma UserResEmailFieldDecodes()
    ensures DecodeFields(UserResEmailField) == Some(UserResEmailFieldFields)
  {
    UserResEmailFieldEncodes();
    EncodedPieces(UserResEmailFieldFields, UserResEmailFieldPieces);
    FieldsRoundTrip(UserResEmailFieldFields);
  }

  lemma UserResPhoneFieldLength()
    ensures |UserResPhoneField| == 20
  {
    var p := UserResPhoneFieldPieces;
    assert |p[0]| == 7 && |p[1]| == 2 && |p[2]| == 2 && |p[3]| == 2 && |p[4]| == 7;
    assert Total(p[4..]) == 7;
    assert Total(p[3..]) == 2 + 7;
    assert Total(p[2..]) == 2 + 2 + 7;
    assert Total(p[1..]) == 2 + 2 + 2 + 7;
    ConcatLength(p);
  }

  lemma UserResPhoneFieldEncodes()
    ensures |UserResPhoneFieldFields| == |UserResPhoneFieldPieces|
    ensures forall i :: 0 <= i < |UserResPhoneFieldFields| ==> EncodeField(UserResPhoneFieldFields[i]) == UserResPhoneFieldPieces[i]
  {
    var fs := UserResPhoneFieldFields;
    var p := UserResPhoneFieldPieces;
    forall i | 0 <= i < |fs|
      ensures EncodeField(fs[i]) == p[i]
    {
      if i == 0 {
        EncodeBytesField(NameNumber, PhoneText);
      } else if i == 1 {
        EncodeVarintField(3, 4);
      } else if i == 2 {
        EncodeVarintField(4, 1);
      } else if i == 3 {
        EncodeVarintField(5, 9);
      } else {
        EncodeBytesField(10, PhoneText);
      }
    }
  }

  lemma UserResPhoneFieldDecodes()
    ensures DecodeFields(UserResPhoneField) == Some(UserResPhoneFieldFields)
  {
    UserResPhoneFieldEncodes();
    EncodedPieces(UserResPhoneFieldFields, UserResPhoneFieldPieces);
    FieldsRoundTrip(UserResPhoneFieldFields);
  }

  lemma UserResDescriptorLength()
    ensures |UserResDescriptor| == 89
  {
    UserResIdFieldLength();
    UserResNameFieldLength();
    UserResEmailFieldLength();
    UserResPhoneFieldLength();
    var p := UserResDescriptorPieces;
    assert |p[0]| == 9 && |p[1]| == 16 && |p[2]| == 20 && |p[3]| == 22 && |p[4]| == 22;
    assert Total(p[4..]) == 22;
    assert Total(p[3..]) == 22 + 22;
    assert Total(p[2..]) == 20 + 22 + 22;
    assert Total(p[1..]) == 16 + 20 + 22 + 22;
    ConcatLength(p);
  }

  lemma UserResDescriptorEncodes()
    ensures |UserResDescriptorFields| == |UserResDescriptorPieces|
    ensures forall i :: 0 <= i < |UserResDescriptorFields| ==> EncodeField(UserResDescriptorFields[i]) == UserResDescriptorPieces[i]
  {
    UserResIdFieldLength();
    UserResNameFieldLength();
    UserResEmailFieldLength();
    UserResPhoneFieldLength();
    var fs := UserResDescriptorFields;
    var p := UserResDescriptorPieces;
    forall i | 0 <= i < |fs|
      ensures EncodeField(fs[i]) == p[i]
    {
      if i == 0 {
        EncodeBytesField(NameNumber, UserResText);
      } else if i == 1 {
        EncodeBytesField(FieldNumber, UserResIdField);
      } else if i == 2 {
        EncodeBytesField(FieldNumber, UserResNameField);
      } else if i == 3 {
        EncodeBytesField(FieldNumber, UserResEmailField);
      } else {
        EncodeBytesField(FieldNumber, UserResPhoneField);
      }
    }
  }

  lemma UserResDescriptorDecodes()
    ensures DecodeFields(UserResDescriptor) == Some(UserResDescriptorFields)
  {
    UserResDescriptorEncodes();
    EncodedPieces(UserResDescriptorFields, UserResDescriptorPieces);
    FieldsRoundTrip(UserResDescriptorFields);
  }

  lemma HelloRequestNameFieldLength()
    ensures |HelloRequestNameField| == 46
  {
    var p := HelloRequestNameFieldPieces;
    assert |p[0]| == 6 && |p[1]| == 2 && |p[2]| == 2 && |p[3]| == 2 && |p[4]| == 28 && |p[5]| == 6;
    assert Total(p[5..]) == 6;
    assert Total(p[4..]) == 28 + 6;
    assert Total(p[3..]) == 2 + 28 + 6;
    assert Total(p[2..]) == 2 + 2 + 28 + 6;
    assert Total(p[1..]) == 2 + 2 + 2 + 28 + 6;
    ConcatLength(p);
  }

  lemma HelloRequestNameFieldEncodes()
    ensures |HelloRequestNameFieldFields| == |HelloRequestNameFieldPieces|
    ensures forall i :: 0 <= i < |HelloRequestNameFieldFields| ==> EncodeField(HelloRequestNameFieldFields[i]) == HelloRequestNameFieldPieces[i]
  {
    var fs := HelloRequestNameFieldFields;
    var p := HelloRequestNameFieldPieces;
    forall i | 0 <= i < |fs|
      ensures EncodeField(fs[i]) == p[i]
    {
      if i == 0 {
        EncodeBytesField(NameNumber, NameText);
      } else if i == 1 {
        EncodeVarintField(3, 1);
      } else if i == 2 {
        EncodeVarintField(4, 1);
      } else if i == 3 {
        EncodeVarintField(5, 9);
      } else if i == 4 {
        EncodeBytesField(OptionsNumber, NameFieldOptions);
      } else {
        EncodeBytesField(10, NameText);
      }
    }
  }

  lemma HelloRequestNameFieldDecodes()
    ensures DecodeFields(HelloRequestNameField) == Some(HelloRequestNameFieldFields)
  {
    HelloRequestNameFieldEncodes();
    EncodedPieces(HelloRequestNameFieldFields, HelloRequestNameFieldPieces);
    FieldsRoundTrip(HelloRequestNameFieldFields);
  }

  lemma HelloRequestDescriptorLength()
    ensures |HelloRequestDescriptor| == 62
  {
    HelloRequestNameFieldLength();
    var p := HelloRequestDescriptorPieces;
    assert |p[0]| == 14 && |p[1]| == 48;
    assert Total(p[1..]) == 48;
    ConcatLength(p);
  }

  lemma HelloRequestDescriptorEncodes()
    ensures |HelloRequestDescriptorFields| == |HelloRequestDescriptorPieces|
    ensures forall i :: 0 <= i < |HelloRequestDescriptorFields| ==> EncodeField(HelloRequestDescriptorFields[i]) == HelloRequestDescriptorPieces[i]
  {
    HelloRequestNameFieldLength();
    var fs := HelloRequestDescriptorFields;
    var p := HelloRequestDescriptorPieces;
    forall i | 0 <= i < |fs|
      ensures EncodeField(fs[i]) == p[i]
    {
      if i == 0 {
        EncodeBytesField(NameNumber, HelloRequestText);
      } else {
        EncodeBytesField(FieldNumber, HelloRequestNameField);
      }
    }
  }

  lemma HelloRequestDescriptorDecodes()
    ensures DecodeFields(HelloRequestDescriptor) == Some(HelloRequestDescriptorFields)
  {
    HelloRequestDescriptorEncodes();
    EncodedPieces(HelloRequestDescriptorFields, HelloRequestDescriptorPieces);
    FieldsRoundTrip(HelloRequestDescriptorFields);
  }

  lemma HelloReplyMessageFieldLength()
    ensures |HelloReplyMessageField| == 24
  {
    var p := HelloReplyMessageFieldPieces;
    assert |p[0]| == 9 && |p[1]| == 2 && |p[2]| == 2 && |p[3]| == 2 && |p[4]| == 9;
    assert Total(p[4..]) == 9;
    assert Total(p[3..]) == 2 + 9;
    assert Total(p[2..]) == 2 + 2 + 9;
    assert Total(p[1..]) == 2 + 2 + 2 + 9;
    ConcatLength(p);
  }

  lemma HelloReplyMessageFieldEncodes()
    ensures |HelloReplyMessageFieldFields| == |HelloReplyMessageFieldPieces|
    ensures forall i :: 0 <= i < |HelloReplyMessageFieldFields| ==> EncodeField(HelloReplyMessageFieldFields[i]) == HelloReplyMessageFieldPieces[i]
  {
    var fs := HelloReplyMessageFieldFields;
    var p := HelloReplyMessageFieldPieces;
    forall i | 0 <= i < |fs|
      ensures EncodeField(fs[i]) == p[i]
    {
      if i == 0 {
        EncodeBytesField(NameNumber, MessageText);
      } else if i == 1 {
        EncodeVarintField(3, 1);
      } else if i == 2 {
        EncodeVarintField(4, 1);
      } else if i == 3 {
        EncodeVarintField(5, 9);
      } else {
        EncodeBytesField(10, MessageText);
      }
    }
  }

  lemma HelloReplyMessageFieldDecodes()
    ensures DecodeFields(HelloReplyMessageField) == Some(HelloReplyMessageFieldFields)
  {
    HelloReplyMessageFieldEncodes();
    EncodedPieces(HelloReplyMessageFieldFields, HelloReplyMessageFieldPieces);
    FieldsRoundTrip(HelloReplyMessageFieldFields);
  }

  lemma HelloReplyDataFieldLength()
    ensures |HelloReplyDataField| == 46
  {
    var p := HelloReplyDataFieldPieces;
    assert |p[0]| == 6 && |p[1]| == 2 && |p[2]| == 2 && |p[3]| == 2 && |p[4]| == 28 && |p[5]| == 6;
    assert Total(p[5..]) == 6;
    assert Total(p[4..]) == 28 + 6;
    assert Total(p[3..]) == 2 + 28 + 6;
    assert Total(p[2..]) == 2 + 2 + 28 + 6;
    assert Total(p[1..]) == 2 + 2 + 2 + 28 + 6;
    ConcatLength(p);
  }

  lemma HelloReplyDataFieldEncodes()
    ensures |HelloReplyDataFieldFields| == |HelloReplyDataFieldPieces|
    ensures forall i :: 0 <= i < |HelloReplyDataFieldFields| ==> EncodeField(HelloReplyDataFieldFields[i]) == HelloReplyDataFieldPieces[i]
  {
    var fs := HelloReplyDataFieldFields;
    var p := HelloReplyDataFieldPieces;
    forall i | 0 <= i < |fs|
      ensures EncodeField(fs[i]) == p[i]
    {
      if i == 0 {
        EncodeBytesField(NameNumber, DataText);
      } else if i == 1 {
        EncodeVarintField(3, 2);
      } else if i == 2 {
        EncodeVarintField(4, 1);
      } else if i == 3 {
        EncodeVarintField(5, 11);
      } else if i == 4 {
        EncodeBytesField(6, ListValueTypeName);
      } else {
        EncodeBytesField(10, DataText);
      }
    }
  }

  lemma HelloReplyDataFieldDecodes()
    ensures DecodeFields(HelloReplyDataField) == Some(HelloReplyDataFieldFields)
  {
    HelloReplyDataFieldEncodes();
    EncodedPieces(HelloReplyDataFieldFields, HelloReplyDataFieldPieces);
    FieldsRoundTrip(HelloReplyDataFieldFields);
  }

  lemma HelloReplyObjFieldLength()
    ensures |HelloReplyObjField| == 41
  {
    var p := HelloReplyObjFieldPieces;
    assert |p[0]| == 5 && |p[1]| == 2 && |p[2]| == 2 && |p[3]| == 2 && |p[4]| == 25 && |p[5]| == 5;
    assert Total(p[5..]) == 5;
    assert Total(p[4..]) == 25 + 5;
    assert Total(p[3..]) == 2 + 25 + 5;
    assert Total(p[2..]) == 2 + 2 + 25 + 5;
    assert Total(p[1..]) == 2 + 2 + 2 + 25 + 5;
    ConcatLength(p);
  }

  lemma HelloReplyObjFieldEncodes()
    ensures |HelloReplyObjFieldFields| == |HelloReplyObjFieldPieces|
    ensures forall i :: 0 <= i < |HelloReplyObjFieldFields| ==> EncodeField(HelloReplyObjFieldFields[i]) == HelloReplyObjFieldPieces[i]
  {
    var fs := HelloReplyObjFieldFields;
    var p := HelloReplyObjFieldPieces;
    forall i | 0 <= i < |fs|
      ensures EncodeField(fs[i]) == p[i]
    {
      if i == 0 {
        EncodeBytesField(NameNumber, ObjText);
      } else if i == 1 {
        EncodeVarintField(3, 3);
      } else if i == 2 {
        EncodeVarintField(4, 1);
      } else if i == 3 {
        EncodeVarintField(5, 11);
      } else if i == 4 {
        EncodeBytesField(6, StructTypeName);
      } else {
        EncodeBytesField(10, ObjText);
      }
    }
  }

  lemma HelloReplyObjFieldDecodes()
    ensures DecodeFields(HelloReplyObjField) == Some(HelloReplyObjFieldFields)
  {
    HelloReplyObjFieldEncodes();
    EncodedPieces(HelloReplyObjFieldFields, HelloReplyObjFieldPieces);
    FieldsRoundTrip(HelloReplyObjFieldFields);
  }

  lemma HelloReplyDescriptorLength()
    ensures |HelloReplyDescriptor| == 129
  {
    HelloReplyMessageFieldLength();
    HelloReplyDataFieldLength();
    HelloReplyObjFieldLength();
    var p := HelloReplyDescriptorPieces;
    assert |p[0]| == 12 && |p[1]| == 26 && |p[2]| == 48 && |p[3]| == 43;
    assert Total(p[3..]) == 43;
    assert Total(p[2..]) == 48 + 43;
    assert Total(p[1..]) == 26 + 48 + 43;
    ConcatLength(p);
  }

  lemma HelloReplyDescriptorEncodes()
    ensures |HelloReplyDescriptorFields| == |HelloReplyDescriptorPieces|
    ensures forall i :: 0 <= i < |HelloReplyDescriptorFields| ==> EncodeField(HelloReplyDescriptorFields[i]) == HelloReplyDescriptorPieces[i]
  {
    HelloReplyMessageFieldLength();
    HelloReplyDataFieldLength();
    HelloReplyObjFieldLength();
    var fs := HelloReplyDescriptorFields;
    var p := HelloReplyDescriptorPieces;
    forall i | 0 <= i < |fs|
      ensures EncodeField(fs[i]) == p[i]
    {
      if i == 0 {
        EncodeBytesField(NameNumber, HelloReplyText);
      } else if i == 1 {
        EncodeBytesField(FieldNumber, HelloReplyMessageField);
      } else if i == 2 {
        EncodeBytesField(FieldNumber, HelloReplyDataField);
      } else {
        EncodeBytesField(FieldNumber, HelloReplyObjField);
      }
    }
  }

  lemma HelloReplyDescriptorDecodes()
    ensures DecodeFields(HelloReplyDescriptor) == Some(HelloReplyDescriptorFields)
  {
    HelloReplyDescriptorEncodes();
    EncodedPieces(HelloReplyDescriptorFields, HelloReplyDescriptorPieces);
    FieldsRoundTrip(HelloReplyDescriptorFields);
  }

  lemma MessageTypesLength()
    ensures |MessageTypes| == 314
  {
    UserReqDescriptorLength();
    UserResDescriptorLength();
    HelloRequestDescriptorLength();
    HelloReplyDescriptorLength();
    var p := MessageTypesPieces;
    assert |p[0]| == 27 && |p[1]| == 91 && |p[2]| == 64 && |p[3]| == 132;
    assert Total(p[3..]) == 132;
    assert Total(p[2..]) == 64 + 132;
    assert Total(p[1..]) == 91 + 64 + 132;
    ConcatLength(p);
  }

  lemma MessageTypesEncodes()
    ensures |MessageTypesFields| == |MessageTypesPieces|
    ensures forall i :: 0 <= i < |MessageTypesFields| ==> EncodeField(MessageTypesFields[i]) == MessageTypesPieces[i]
  {
    UserReqDescriptorLength();
    UserResDescriptorLength();
    HelloRequestDescriptorLength();
    HelloReplyDescriptorLength();
    var fs := MessageTypesFields;
    var p := MessageTypesPieces;
    forall i | 0 <= i < |fs|
      ensures EncodeField(fs[i]) == p[i]
    {
      if i == 0 {
        EncodeBytesField(MessageTypeNumber, UserReqDescriptor);
      } else if i == 1 {
        EncodeBytesField(MessageTypeNumber, UserResDescriptor);
      } else if i == 2 {
        EncodeBytesField(MessageTypeNumber, HelloRequestDescriptor);
      } else {
        EncodeLongBytesField(MessageTypeNumber, HelloReplyDescriptor);
      }
    }
  }

  lemma MessageTypesDecodes()
    ensures DecodeFields(MessageTypes) == Some(MessageTypesFields)
  {
    MessageTypesEncodes();
    EncodedPieces(MessageTypesFields, MessageTypesPieces);
    FieldsRoundTrip(MessageTypesFields);
  }

  // ---------------------------------------------------------------------------
  // Which fields carry options.

  lemma UserReqIdFieldHasNoOptions()
    ensures LookupBytes(UserReqIdField, OptionsNumber).None?
  {
    UserReqIdFieldDecodes();
    NoOptions(UserReqIdField, UserReqIdFieldFields);
  }

  lemma UserResIdFieldHasNoOptions()
    ensures LookupBytes(UserResIdField, OptionsNumber).None?
  {
    UserResIdFieldDecodes();
    NoOptions(UserResIdField, UserResIdFieldFields);
  }

  lemma UserResNameFieldHasNoOptions()
    ensures LookupBytes(UserResNameField, OptionsNumber).None?
  {
    UserResNameFieldDecodes();
    NoOptions(UserResNameField, UserResNameFieldFields);
  }

  lemma UserResEmailFieldHasNoOptions()
    ensures LookupBytes(UserResEmailField, OptionsNumber).None?
  {
    UserResEmailFieldDecodes();
    NoOptions(UserResEmailField, UserResEmailFieldFields);
  }

  lemma UserResPhoneFieldHasNoOptions()
    ensures LookupBytes(UserResPhoneField, OptionsNumber).None?
  {
    UserResPhoneFieldDecodes();
    NoOptions(UserResPhoneField, UserResPhoneFieldFields);
  }

  lemma HelloReplyMessageFieldHasNoOptions()
    ensures LookupBytes(HelloReplyMessageField, OptionsNumber).None?
  {
    HelloReplyMessageFieldDecodes();
    NoOptions(HelloReplyMessageField, HelloReplyMessageFieldFields);
  }

  lemma HelloReplyDataFieldHasNoOptions()
    ensures LookupBytes(HelloReplyDataField, OptionsNumber).None?
  {
    HelloReplyDataFieldDecodes();
    NoOptions(HelloReplyDataField, HelloReplyDataFieldFields);
  }

  lemma HelloReplyObjFieldHasNoOptions()
    ensures LookupBytes(HelloReplyObjField, OptionsNumber).None?
  {
    HelloReplyObjFieldDecodes();
    NoOptions(HelloReplyObjField, HelloReplyObjFieldFields);
  }

  lemma UserReqTextReads()
    ensures Ascii(UserReqText) == "UserReq"
  {
    AsciiLiteral(UserReqText, "UserReq");
  }

  /** The `UserReq` descriptor names itself `UserReq`. */
  lemma UserReqNamed()
    ensures StringField(UserReqDescriptor, NameNumber) == Some("UserReq")
  {
    UserReqDescriptorDecodes();
    UserReqTextReads();
    NameOf(UserReqDescriptor, UserReqDescriptorFields, "UserReq");
  }

  /** The fields of the `UserReq` descriptor, in order. */
  lemma UserReqEntries()
    ensures Entries(UserReqDescriptor, FieldNumber) == Some([UserReqIdField])
  {
    UserReqDescriptorDecodes();
    MessageFields(UserReqDescriptor, UserReqDescriptorFields, [UserReqIdField]);
  }

  /** The `UserReq` descriptor: its name and its fields. */
  lemma UserReqShape()
    ensures StringField(UserReqDescriptor, NameNumber) == Some("UserReq")
    ensures Entries(UserReqDescriptor, FieldNumber) == Some([UserReqIdField])
  {
    UserReqNamed();
    UserReqEntries();
  }

  lemma UserReqHasNoOptions(field: string)
    ensures OptionsInMessage(UserReqDescriptor, field).None?
  {
    UserReqEntries();
    UserReqIdFieldHasNoOptions();
    NoFieldHasOptions(UserReqDescriptor, [UserReqIdField], field);
  }

  lemma UserResTextReads()
    ensures Ascii(UserResText) == "UserRes"
  {
    AsciiLiteral(UserResText, "UserRes");
  }

  /** The `UserRes` descriptor names itself `UserRes`. */
  lemma UserResNamed()
    ensures StringField(UserResDescriptor, NameNumber) == Some("UserRes")
  {
    UserResDescriptorDecodes();
    UserResTextReads();
    NameOf(UserResDescriptor, UserResDescriptorFields, "UserRes");
  }

  /** The fields of the `UserRes` descriptor, in order. */
  lemma UserResEntries()
    ensures Entries(UserResDescriptor, FieldNumber) == Some([UserResIdField, UserResNameField, UserResEmailField, UserResPhoneField])
  {
    UserResDescriptorDecodes();
    MessageFields(UserResDescriptor, UserResDescriptorFields, [UserResIdField, UserResNameField, UserResEmailField, UserResPhoneField]);
  }

  /** The `UserRes` descriptor: its name and its fields. */
  lemma UserResShape()
    ensures StringField(UserResDescriptor, NameNumber) == Some("UserRes")
    ensures Entries(UserResDescriptor, FieldNumber) == Some([UserResIdField, UserResNameField, UserResEmailField, UserResPhoneField])
  {
    UserResNamed();
    UserResEntries();
  }

  lemma UserResHasNoOptions(field: string)
    ensures OptionsInMessage(UserResDescriptor, field).None?
  {
    UserResEntries();
    UserResIdFieldHasNoOptions();
    UserResNameFieldHasNoOptions();
    UserResEmailFieldHasNoOptions();
    UserResPhoneFieldHasNoOptions();
    NoFieldHasOptions(UserResDescriptor, [UserResIdField, UserResNameField, UserResEmailField, UserResPhoneField], field);
  }

  lemma HelloRequestTextReads()
    ensures Ascii(HelloRequestText) == "HelloRequest"
  {
    AsciiLiteral(HelloRequestText, "HelloRequest");
  }

  /** The `HelloRequest` descriptor names itself `HelloRequest`. */
  lemma HelloRequestNamed()
    ensures StringField(HelloRequestDescriptor, NameNumber) == Some("HelloRequest")
  {
    HelloRequestDescriptorDecodes();
    HelloRequestTextReads();
    NameOf(HelloRequestDescriptor, HelloRequestDescriptorFields, "HelloRequest");
  }

  /** The fields of the `HelloRequest` descriptor, in order. */
  lemma HelloRequestEntries()
    ensures Entries(HelloRequestDescriptor, FieldNumber) == Some([HelloRequestNameField])
  {
    HelloRequestDescriptorDecodes();
    MessageFields(HelloRequestDescriptor, HelloRequestDescriptorFields, [HelloRequestNameField]);
  }

  /** The `HelloRequest` descriptor: its name and its fields. */
  lemma HelloRequestShape()
    ensures StringField(HelloRequestDescriptor, NameNumber) == Some("HelloRequest")
    ensures Entries(HelloRequestDescriptor, FieldNumber) == Some([HelloRequestNameField])
  {
    HelloRequestNamed();
    HelloRequestEntries();
  }

  lemma HelloReplyTextReads()
    ensures Ascii(HelloReplyText) == "HelloReply"
  {
    AsciiLiteral(HelloReplyText, "HelloReply");
  }

  /** The `HelloReply` descriptor names itself `HelloReply`. */
  lemma HelloReplyNamed()
    ensures StringField(HelloReplyDescriptor, NameNumber) == Some("HelloReply")
  {
    HelloReplyDescriptorDecodes();
    HelloReplyTextReads();
    NameOf(HelloReplyDescriptor, HelloReplyDescriptorFields, "HelloReply");
  }

  /** The fields of the `HelloReply` descriptor, in order. */
  lemma HelloReplyEntries()
    ensures Entries(HelloReplyDescriptor, FieldNumber) == Some([HelloReplyMessageField, HelloReplyDataField, HelloReplyObjField])
  {
    HelloReplyDescriptorDecodes();
    MessageFields(HelloReplyDescriptor, HelloReplyDescriptorFields, [HelloReplyMessageField, HelloReplyDataField, HelloReplyObjField]);
  }

  /** The `HelloReply` descriptor: its name and its fields. */
  lemma HelloReplyShape()
    ensures StringField(HelloReplyDescriptor, NameNumber) == Some("HelloReply")
    ensures Entries(HelloReplyDescriptor, FieldNumber) == Some([HelloReplyMessageField, HelloReplyDataField, HelloReplyObjField])
  {
    HelloReplyNamed();
    HelloReplyEntries();
  }

  lemma HelloReplyHasNoOptions(field: string)
    ensures OptionsInMessage(HelloReplyDescriptor, field).None?
  {
    HelloReplyEntries();
    HelloReplyMessageFieldHasNoOptions();
    HelloReplyDataFieldHasNoOptions();
    HelloReplyObjFieldHasNoOptions();
    NoFieldHasOptions(HelloReplyDescriptor, [HelloReplyMessageField, HelloReplyDataField, HelloReplyObjField], field);
  }

  /** The one field of `HelloRequest` is named `name`. */
  lemma HelloRequestNameFieldNamed()
    ensures StringField(HelloRequestNameField, NameNumber) == Some("name")
  {
    HelloRequestNameFieldDecodes();
    AsciiLiteral(NameText, "name");
    NameOf(HelloRequestNameField, HelloRequestNameFieldFields, "name");
  }

  /** The options of `HelloRequest.name` are the encoded validation rule. */
  lemma HelloRequestNameFieldOptions()
    ensures LookupBytes(HelloRequestNameField, OptionsNumber) == Some(NameFieldOptions)
  {
    HelloRequestNameFieldDecodes();
    LookupOnce(HelloRequestNameFieldFields, 4);
  }

  /** `HelloRequest` has one field, `name`, and its options are the validation rule. */
  lemma HelloRequestOptions(field: string)
    ensures OptionsInMessage(HelloRequestDescriptor, field).Some? <==> field == "name"
    ensures OptionsInMessage(HelloRequestDescriptor, "name") == Some(NameFieldOptions)
  {
    HelloRequestEntries();
    HelloRequestNameFieldNamed();
    HelloRequestNameFieldOptions();
  }

  /** The message descriptors of the file, in order. */
  const MessageDescriptors: seq<seq<byte>> := [UserReqDescriptor, UserResDescriptor, HelloRequestDescriptor, HelloReplyDescriptor]

  lemma MessageTypesEntries()
    ensures Entries(MessageTypes, MessageTypeNumber) == Some(MessageDescriptors)
  {
    MessageTypesDecodes();
    SelectAll(MessageTypesFields, MessageTypeNumber, MessageDescriptors);
  }

  /** Among entries with distinct names, a lookup by name finds the entry of that name, or nothing. */
  lemma {:induction false} FindAmong(entries: seq<seq<byte>>, names: seq<string>, name: string)
    requires |entries| == |names|
    requires forall i :: 0 <= i < |entries| ==> StringField(entries[i], NameNumber) == Some(names[i])
    requires forall i, j :: 0 <= i < j < |names| ==> names[i] != names[j]
    ensures FindNamed(entries, name).Some? <==> name in names
    ensures forall i :: 0 <= i < |names| && names[i] == name ==> FindNamed(entries, name) == Some(entries[i])
  {
    if |entries| > 0 && StringField(entries[0], NameNumber) != Some(name) {
      FindAmong(entries[1..], names[1..], name);
      assert forall i :: 1 <= i < |names| ==> names[i] == names[1..][i - 1];
    }
  }

  /** The names of the messages of the file, in order. */
  const MessageNames: seq<string> := ["UserReq", "UserRes", "HelloRequest", "HelloReply"]

  lemma MessageNamesRead()
    ensures forall i :: 0 <= i < |MessageDescriptors| ==> StringField(MessageDescriptors[i], NameNumber) == Some(MessageNames[i])
  {
    UserReqNamed();
    UserResNamed();
    HelloRequestNamed();
    HelloReplyNamed();
  }

  /** No two messages share a name: `UserReq` and `UserRes` differ in their last letter, the others in length. */
  lemma MessageNamesDistinct()
    ensures forall i, j :: 0 <= i < j < |MessageNames| ==> MessageNames[i] != MessageNames[j]
  {
    assert MessageNames[0][6] != MessageNames[1][6];
  }

  /** Looking a message up by name finds the descriptor of that name, and nothing for any other name. */
  lemma FindMessage(message: string)
    ensures FindNamed(MessageDescriptors, message).Some? <==> message in MessageNames
    ensures forall i :: 0 <= i < |MessageNames| && MessageNames[i] == message ==>
              FindNamed(MessageDescriptors, message) == Some(MessageDescriptors[i])
  {
    MessageNamesRead();
    MessageNamesDistinct();
    FindAmong(MessageDescriptors, MessageNames, message);
  }

  /** The fields of the i-th declared message are looked up in its descriptor. */
  lemma OptionsOfDeclaredMessage(i: nat, field: string)
    requires i < |MessageNames|
    ensures FieldOptions(MessageTypes, MessageNames[i], field) == OptionsInMessage(MessageDescriptors[i], field)
  {
    MessageTypesEntries();
    FindMessage(MessageNames[i]);
    OptionsOfFoundMessage(MessageTypes, MessageDescriptors, MessageNames[i], MessageDescriptors[i], field);
  }

  /** A message the file does not declare has no fields, so none with options. */
  lemma OptionsOfUndeclaredMessage(message: string, field: string)
    requires message !in MessageNames
    ensures FieldOptions(MessageTypes, message, field).None?
  {
    MessageTypesEntries();
    FindMessage(message);
    OptionsOfMissingMessage(MessageTypes, MessageDescriptors, message, field);
  }

  /**
   * Of all fields of all messages of hello_world.proto, `HelloRequest.name`
   * is the only one with options, and its options are the validation rule.
   */
  lemma OnlyNameFieldHasOptions(message: string, field: string)
    ensures FieldOptions(MessageTypes, message, field).Some? <==> message == "HelloRequest" && field == "name"
    ensures FieldOptions(MessageTypes, "HelloRequest", "name") == Some(NameFieldOptions)
  {
    OptionsOfDeclaredMessage(2, "name");
    HelloRequestOptions("name");
    if message == MessageNames[0] {
      OptionsOfDeclaredMessage(0, field);
      UserReqHasNoOptions(field);
    } else if message == MessageNames[1] {
      OptionsOfDeclaredMessage(1, field);
      UserResHasNoOptions(field);
    } else if message == MessageNames[2] {
      OptionsOfDeclaredMessage(2, field);
      HelloRequestOptions(field);
    } else if message == MessageNames[3] {
      OptionsOfDeclaredMessage(3, field);
      HelloReplyHasNoOptions(field);
    } else {
      OptionsOfUndeclaredMessage(message, field);
    }
  }
}
