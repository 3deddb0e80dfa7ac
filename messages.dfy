/**
 * grpc/greeter/helloworld/hello_world.pb.go: the four generated message
 * structs, their nil-safe getters and `Reset`, and the type tables of the
 * file descriptor.
 */
module Messages {

  import opened Wrappers

  newtype u64 = x: int | 0 <= x < 0x1_0000_0000_0000_0000

  /** `structpb.ListValue` and `structpb.Struct`, carried opaquely as their encoded form. */
  datatype ListValue = ListValue(encoded: seq<int>)
  datatype StructValue = StructValue(encoded: seq<int>)

  /** The message types the service uses (`emptypb.Empty` included). */
  datatype Kind = UserReqKind | UserResKind | HelloRequestKind | HelloReplyKind | EmptyKind

  /** The field values of one message, as a value. */
  datatype Msg =
    | UserReqMsg(id: u64)
    | UserResMsg(id: u64, name: string, email: string, phone: string)
    | HelloRequestMsg(name: string)
    | HelloReplyMsg(message: string, data: Option<ListValue>, obj: Option<StructValue>)
    | EmptyMsg

  function KindOf(m: Msg): Kind {
    match m
    case UserReqMsg(_) => UserReqKind
    case UserResMsg(_, _, _, _) => UserResKind
    case HelloRequestMsg(_) => HelloRequestKind
    case HelloReplyMsg(_, _, _) => HelloReplyKind
    case EmptyMsg => EmptyKind
  }

  /** The zero value of a message type: what `new(T)` and `*x = T{}` produce. */
  function Zero(k: Kind): (m: Msg)
    ensures KindOf(m) == k
  {
    match k
    case UserReqKind => UserReqMsg(0)
    case UserResKind => UserResMsg(0, "", "", "")
    case HelloRequestKind => HelloRequestMsg("")
    case HelloReplyKind => HelloReplyMsg("", None, None)
    case EmptyKind => EmptyMsg
  }

  /** The fully qualified protobuf name of a message type. */
  function ProtoName(k: Kind): string {
    match k
    case UserReqKind => "grpc.greeter.helloworld.UserReq"
    case UserResKind => "grpc.greeter.helloworld.UserRes"
    case HelloRequestKind => "grpc.greeter.helloworld.HelloRequest"
    case HelloReplyKind => "grpc.greeter.helloworld.HelloReply"
    case EmptyKind => "google.protobuf.Empty"
  }

  // ---------------------------------------------------------------------------
  // The generated structs. A Go `*T` that may be nil is a `T?`.

  class UserReq {
    var id: u64

    /** `new(UserReq)`. */
    constructor ()
      ensures Value() == Zero(UserReqKind)
    {
      id := 0;
    }

    function Value(): Msg
      reads this
    {
      UserReqMsg(id)
    }

    /** `(*UserReq).Reset`: overwrites the message with its zero value. */
    method Reset()
      modifies this
      ensures Value() == Zero(UserReqKind)
      ensures GetId(this) == 0
    {
      id := 0;
    }

    /** `GetId`: a nil receiver reads as the zero message. */
    static function GetId(x: UserReq?): (r: u64)
      reads x
      ensures r == (if x == null then Zero(UserReqKind) else x.Value()).id
    {
      if x != null then x.id else 0
    }
  }

  class UserRes {
    var id: u64
    var name: string
    var email: string
    var phone: string

    constructor ()
      ensures Value() == Zero(UserResKind)
    {
      id, name, email, phone := 0, "", "", "";
    }

    function Value(): Msg
      reads this
    {
      UserResMsg(id, name, email, phone)
    }

    method Reset()
      modifies this
      ensures Value() == Zero(UserResKind)
      ensures GetId(this) == 0 && GetName(this) == "" && GetEmail(this) == "" && GetPhone(this) == ""
    {
      id, name, email, phone := 0, "", "", "";
    }

    static function GetId(x: UserRes?): (r: u64)
      reads x
      ensures r == (if x == null then Zero(UserResKind) else x.Value()).id
    {
      if x != null then x.id else 0
    }

    static function GetName(x: UserRes?): (r: string)
      reads x
      ensures r == (if x == null then Zero(UserResKind) else x.Value()).name
    {
      if x != null then x.name else ""
    }

    static function GetEmail(x: UserRes?): (r: string)
      reads x
      ensures r == (if x == null then Zero(UserResKind) else x.Value()).email
    {
      if x != null then x.email else ""
    }

    static function GetPhone(x: UserRes?): (r: string)
      reads x
      ensures r == (if x == null then Zero(UserResKind) else x.Value()).phone
    {
      if x != null then x.phone else ""
    }
  }

  class HelloRequest {
    var name: string

    constructor ()
      ensures Value() == Zero(HelloRequestKind)
    {
      name := "";
    }

    function Value(): Msg
      reads this
    {
      HelloRequestMsg(name)
    }

    method Reset()
      modifies this
      ensures Value() == Zero(HelloRequestKind)
      ensures GetName(this) == ""
    {
      name := "";
    }

    static function GetName(x: HelloRequest?): (r: string)
      reads x
      ensures r == (if x == null then Zero(HelloRequestKind) else x.Value()).name
    {
      if x != null then x.name else ""
    }
  }

  class HelloReply {
    var message: string
    var data: Option<ListValue>
    var obj: Option<StructValue>

    constructor ()
      ensures Value() == Zero(HelloReplyKind)
    {
      message, data, obj := "", None, None;
    }

    function Value(): Msg
      reads this
    {
      HelloReplyMsg(message, data, obj)
    }

    method Reset()
      modifies this
      ensures Value() == Zero(HelloReplyKind)
      ensures GetMessage(this) == "" && GetData(this) == None && GetObj(this) == None
    {
      message, data, obj := "", None, None;
    }

    static function GetMessage(x: HelloReply?): (r: string)
      reads x
      ensures r == (if x == null then Zero(HelloReplyKind) else x.Value()).message
    {
      if x != null then x.message else ""
    }

    /** `GetData`: `None` stands for a nil `*structpb.ListValue`. */
    static function GetData(x: HelloReply?): (r: Option<ListValue>)
      reads x
      ensures r == (if x == null then Zero(HelloReplyKind) else x.Value()).data
    {
      if x != null then x.data else None
    }

    static function GetObj(x: HelloReply?): (r: Option<StructValue>)
      reads x
      ensures r == (if x == null then Zero(HelloReplyKind) else x.Value()).obj
    {
      if x != null then x.obj else None
    }
  }

  // ---------------------------------------------------------------------------
  // Type tables of the file descriptor

  /** `file_helloworld_hello_world_proto_goTypes`, by protobuf name. */
  const GoTypes: seq<string> := [
    "grpc.greeter.helloworld.UserReq",
    "grpc.greeter.helloworld.UserRes",
    "grpc.greeter.helloworld.HelloRequest",
    "grpc.greeter.helloworld.HelloReply",
    "google.protobuf.ListValue",
    "google.protobuf.Struct",
    "google.protobuf.Empty"
  ]

  /**
   * `file_helloworld_hello_world_proto_depIdxs`: indices into `GoTypes`,
   * followed by five start markers read from the end (field type names,
   * extendees, extension type names, method inputs, method outputs).
   */
  const DepIdxs: seq<nat> := [4, 5, 2, 6, 0, 3, 6, 1, 5, 2, 2, 2, 0]

  /** The slice of `DepIdxs` between two start markers, as type names. */
  function DepTypes(from: nat, to: nat): (r: Option<seq<string>>)
    ensures r.Some? <==> from <= to <= |DepIdxs| - 5 && forall i :: from <= i < to ==> DepIdxs[i] < |GoTypes|
    ensures r.Some? ==> |r.value| == to - from
    ensures r.Some? ==> forall k :: 0 <= k < to - from ==> r.value[k] == GoTypes[DepIdxs[from + k]]
  {
    if from <= to <= |DepIdxs| - 5 && forall i :: from <= i < to ==> DepIdxs[i] < |GoTypes| then
      Some(seq(to - from, k requires 0 <= k < to - from => GoTypes[DepIdxs[from + k]]))
    else None
  }

  /** The type names of the message fields that refer to other messages. */
  function FieldTypeNames(): Option<seq<string>> {
    var n := |DepIdxs|;
    DepTypes(DepIdxs[n - 1], DepIdxs[n - 2])
  }

  /** The messages that the file's extensions extend. */
  function ExtendeeTypes(): Option<seq<string>> {
    var n := |DepIdxs|;
    DepTypes(DepIdxs[n - 2], DepIdxs[n - 3])
  }

  /** The type names of the file's extensions. */
  function ExtensionTypeNames(): Option<seq<string>> {
    var n := |DepIdxs|;
    DepTypes(DepIdxs[n - 3], DepIdxs[n - 4])
  }

  /** The input types of the service's methods, in declaration order. */
  function MethodInputTypes(): Option<seq<string>> {
    var n := |DepIdxs|;
    DepTypes(DepIdxs[n - 4], DepIdxs[n - 5])
  }

  /** The output types of the service's methods, in declaration order. */
  function MethodOutputTypes(): Option<seq<string>> {
    var n := |DepIdxs|;
    DepTypes(DepIdxs[n - 5], n - 5)
  }

  /**
   * The five trailing markers of `DepIdxs` cut the entries before them into
   * contiguous sections that cover them all, in the order field type names,
   * extendees, extension type names, method inputs, method outputs; the file
   * declares no extensions, and its two message-typed fields refer to
   * `ListValue` (`HelloReply.data`) and `Struct` (`HelloReply.obj`).
   */
  lemma DepIdxsSections()
    ensures var n := |DepIdxs|;
      DepIdxs[n - 1] == 0 <= DepIdxs[n - 2] <= DepIdxs[n - 3] <= DepIdxs[n - 4] <= DepIdxs[n - 5] <= n - 5
    ensures FieldTypeNames().Some? && ExtendeeTypes().Some? && ExtensionTypeNames().Some?
    ensures MethodInputTypes().Some? && MethodOutputTypes().Some?
    ensures FieldTypeNames().value + ExtendeeTypes().value + ExtensionTypeNames().value
      + MethodInputTypes().value + MethodOutputTypes().value == DepTypes(0, |DepIdxs| - 5).value
    ensures FieldTypeNames().value == ["google.protobuf.ListValue", "google.protobuf.Struct"]
    ensures ExtendeeTypes().value == [] && ExtensionTypeNames().value == []
  {
    DepTypesConcat(0, 2, 5);
    DepTypesConcat(0, 5, 8);
  }

  /** Two adjacent slices of `DepIdxs` join into the slice that spans both. */
  lemma DepTypesConcat(a: nat, b: nat, c: nat)
    requires DepTypes(a, b).Some? && DepTypes(b, c).Some?
    ensures DepTypes(a, c).Some?
    ensures DepTypes(a, c).value == DepTypes(a, b).value + DepTypes(b, c).value
  {
  }
}
