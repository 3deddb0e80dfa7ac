/**
 * The one validation rule of hello_world.proto: protoc-gen-validate's
 * `(validate.rules).string` option on `HelloRequest.name`, read from the
 * option bytes of the raw file descriptor, and the `ValidateAll` check it
 * generates.
 */
module Validation {

  import opened Wrappers
  import opened Messages
  import opened ProtoWire
  import opened Descriptor

  // ---------------------------------------------------------------------------
  // validate.rules

  /** `FieldOptions` extension number of protoc-gen-validate's `(validate.rules)`. */
  const RulesExtension: nat := 1071
  /** `FieldRules.string`. */
  const StringRulesField: nat := 14
  /** `StringRules.min_len`, `max_len` and `pattern`. */
  const MinLenField: nat := 2
  const MaxLenField: nat := 3
  const PatternField: nat := 6

  datatype StringRules = StringRules(minLen: Option<nat>, maxLen: Option<nat>, pattern: Option<string>)

  function DecodeStringRules(bs: seq<byte>): Option<StringRules> {
    match DecodeFields(bs)
    case None => None
    case Some(fs) =>
      var pattern := match Lookup(fs, PatternField)
                     case Some(BytesValue(b)) => Some(Ascii(b))
                     case _ => None;
      Some(StringRules(LookupVarint(fs, MinLenField), LookupVarint(fs, MaxLenField), pattern))
  }

  /** The string rules carried by a field's encoded `FieldOptions`, if any. */
  function StringRulesOf(options: seq<byte>): Option<StringRules> {
    match LookupBytes(options, RulesExtension)
    case None => None
    case Some(fieldRules) =>
      match LookupBytes(fieldRules, StringRulesField)
      case None => None
      case Some(stringRules) => DecodeStringRules(stringRules)
  }

  const NamePattern := "^[a-zA-Z0-9_]*$"

  /** The `StringRules` part of the option bytes. */
  function NameStringRules(): seq<Field> {
    [Field(MinLenField, VarintValue(6)), Field(MaxLenField, VarintValue(16)),
     Field(PatternField, BytesValue(NameFieldOptions[11..]))]
  }

  lemma EncodedNameStringRules()
    ensures EncodeFields(NameStringRules()) == NameFieldOptions[5..]
  {
    var rules := NameStringRules();
    var patternBytes := NameFieldOptions[11..];
    EncodeVarintField(MinLenField, 6);
    EncodeVarintField(MaxLenField, 16);
    EncodeBytesField(PatternField, patternBytes);
    assert rules[1..][1..] == [rules[2]];
    assert EncodeFields([rules[2]]) == [0x32, 0x0f] + patternBytes;
    assert EncodeFields(rules[1..]) == [0x18, 0x10] + EncodeFields([rules[2]]);
    assert EncodeFields(rules) == [0x10, 0x06] + EncodeFields(rules[1..]);
    assert NameFieldOptions[5..] == [0x10, 0x06] + ([0x18, 0x10] + ([0x32, 0x0f] + patternBytes));
  }

  lemma SliceAt(bs: seq<byte>, i: nat, j: nat)
    requires i <= j <= |bs|
    ensures bs[i..] == bs[i..j] + bs[j..]
  {
  }

  lemma EncodedNameFieldRules()
    ensures EncodeFields([Field(StringRulesField, BytesValue(NameFieldOptions[5..]))]) == NameFieldOptions[3..]
  {
    var f := Field(StringRulesField, BytesValue(NameFieldOptions[5..]));
    var payload := NameFieldOptions[5..];
    assert |payload| == 21;
    EncodeBytesField(StringRulesField, payload);
    assert EncodeFields([f]) == [0x72, 0x15] + payload;
    assert NameFieldOptions[3] == 0x72 && NameFieldOptions[4] == 0x15;
    assert NameFieldOptions[3..5] == [0x72, 0x15];
    SliceAt(NameFieldOptions, 3, 5);
  }

  lemma EncodeRulesField(payload: seq<byte>)
    requires |payload| < 128
    ensures EncodeField(Field(RulesExtension, BytesValue(payload))) == [0xfa, 0x42, |payload| as byte] + payload
  {
    assert EncodeVarint(66) == [0x42];
    assert EncodeVarint(RulesExtension * 8 + 2) == [0xfa] + EncodeVarint(66);
    assert EncodeVarint(|payload|) == [|payload| as byte];
  }

  lemma EncodedNameOptions()
    ensures EncodeFields([Field(RulesExtension, BytesValue(NameFieldOptions[3..]))]) == NameFieldOptions
  {
    var f := Field(RulesExtension, BytesValue(NameFieldOptions[3..]));
    EncodeRulesField(NameFieldOptions[3..]);
    assert EncodeFields([f]) == EncodeField(f) + EncodeFields([]);
    assert NameFieldOptions[..3] == [0xfa, 0x42, 0x17];
    assert NameFieldOptions == NameFieldOptions[..3] + NameFieldOptions[3..];
  }

  lemma LookupSingle(b: seq<byte>, number: nat)
    ensures LookupBytes(EncodeFields([Field(number, BytesValue(b))]), number) == Some(b)
  {
    FieldsRoundTrip([Field(number, BytesValue(b))]);
  }

  lemma PatternText()
    ensures Ascii(NameFieldOptions[11..]) == NamePattern
  {
  }

  lemma NameStringRulesLookups()
    ensures Lookup(NameStringRules(), PatternField) == Some(BytesValue(NameFieldOptions[11..]))
    ensures LookupVarint(NameStringRules(), MinLenField) == Some(6)
    ensures LookupVarint(NameStringRules(), MaxLenField) == Some(16)
  {
    var rules := NameStringRules();
    assert rules[..2][..1] == [rules[0]] && rules[..2] == [rules[0], rules[1]];
  }

  lemma DecodedStringRules(bs: seq<byte>, fs: seq<Field>)
    requires DecodeFields(bs) == Some(fs)
    requires Lookup(fs, PatternField) == Some(BytesValue(NameFieldOptions[11..]))
    requires LookupVarint(fs, MinLenField) == Some(6) && LookupVarint(fs, MaxLenField) == Some(16)
    ensures DecodeStringRules(bs) == Some(StringRules(Some(6), Some(16), Some(NamePattern)))
  {
    PatternText();
  }

  lemma DecodedNameStringRules()
    ensures DecodeStringRules(NameFieldOptions[5..]) == Some(StringRules(Some(6), Some(16), Some(NamePattern)))
  {
    EncodedNameStringRules();
    FieldsRoundTrip(NameStringRules());
    NameStringRulesLookups();
    DecodedStringRules(NameFieldOptions[5..], NameStringRules());
  }

  /**
   * The options decode to `min_len: 6`, `max_len: 16` and the pattern
   * `^[a-zA-Z0-9_]*$`: the rules `ValidateAll` checks are the descriptor's.
   */
  lemma NameRulesFromDescriptor()
    ensures StringRulesOf(NameFieldOptions) == Some(NameRules())
    ensures NameRules() == StringRules(Some(6), Some(16), Some(NamePattern))
  {
    EncodedNameOptions();
    LookupSingle(NameFieldOptions[3..], RulesExtension);
    EncodedNameFieldRules();
    LookupSingle(NameFieldOptions[5..], StringRulesField);
    DecodedNameStringRules();
  }

  /** The string rules the descriptor gives field `field` of message `message`, if any. */
  function FieldRules(message: string, field: string): Option<StringRules> {
    match FieldOptions(MessageTypes, message, field)
    case None => None
    case Some(options) => StringRulesOf(options)
  }

  /** The only field of hello_world.proto with string rules is `HelloRequest.name`, and its rules are `NameRules`. */
  lemma DescriptorRules(message: string, field: string)
    ensures FieldRules(message, field) == if message == "HelloRequest" && field == "name" then Some(NameRules()) else None
  {
    OnlyNameFieldHasOptions(message, field);
    NameRulesFromDescriptor();
  }

  // ---------------------------------------------------------------------------
  // The pattern: an anchored, repeated character class

  datatype ClassItem = Range(lo: char, hi: char) | Single(c: char)

  predicate ItemMatches(item: ClassItem, c: char) {
    match item
    case Range(lo, hi) => lo <= c <= hi
    case Single(x) => c == x
  }

  predicate InClass(c: char, items: seq<ClassItem>) {
    exists i :: 0 <= i < |items| && ItemMatches(items[i], c)
  }

  /** Characters with a meaning of their own inside a class. */
  predicate IsClassMeta(c: char) {
    c == '[' || c == ']' || c == '^' || c == '\\' || c == '-'
  }

  /** The items between the brackets of a class: single characters and `x-y` ranges. */
  function ParseItems(s: string): Option<seq<ClassItem>>
    decreases |s|
  {
    if |s| == 0 then Some([])
    else if IsClassMeta(s[0]) then None
    else if |s| >= 3 && s[1] == '-' then
      if IsClassMeta(s[2]) || s[2] < s[0] then None
      else
        match ParseItems(s[3..])
        case None => None
        case Some(rest) => Some([Range(s[0], s[2])] + rest)
    else
      match ParseItems(s[1..])
      case None => None
      case Some(rest) => Some([Single(s[0])] + rest)
  }

  /**
   * A pattern of the form `^[...]*$`, as RE2 reads it: the whole string is a
   * (possibly empty) run of characters of the class. `None` for any other form.
   */
  function ParseClassStar(p: string): Option<seq<ClassItem>> {
    if |p| >= 5 && p[..2] == "^[" && p[|p| - 3..] == "]*$" then ParseItems(p[2..|p| - 3])
    else None
  }

  predicate MatchesPattern(pattern: string, s: string) {
    match ParseClassStar(pattern)
    case Some(items) => forall k :: 0 <= k < |s| ==> InClass(s[k], items)
    case None => false
  }

  /** `[a-zA-Z0-9_]`. */
  predicate IsWordChar(c: char) {
    'a' <= c <= 'z' || 'A' <= c <= 'Z' || '0' <= c <= '9' || c == '_'
  }

  const WordClass := [Range('a', 'z'), Range('A', 'Z'), Range('0', '9'), Single('_')]

  lemma ParseRangeThen(lo: char, hi: char, rest: string, items: seq<ClassItem>)
    requires !IsClassMeta(lo) && !IsClassMeta(hi) && lo <= hi
    requires ParseItems(rest) == Some(items)
    ensures ParseItems([lo, '-', hi] + rest) == Some([Range(lo, hi)] + items)
  {
    var s := [lo, '-', hi] + rest;
    assert s[0] == lo && s[1] == '-' && s[2] == hi && s[3..] == rest;
  }

  lemma ParseSingleThen(c: char, rest: string, items: seq<ClassItem>)
    requires !IsClassMeta(c) && (|rest| == 0 || rest[0] != '-')
    requires ParseItems(rest) == Some(items)
    ensures ParseItems([c] + rest) == Some([Single(c)] + items)
  {
    var s := [c] + rest;
    assert s[0] == c && s[1..] == rest;
  }

  /** The class body `a-zA-Z0-9_` parses to three ranges and a single character. */
  lemma WordClassBodyParses()
    ensures ParseItems("a-zA-Z0-9_") == Some(WordClass)
  {
    var s0: string := [];
    var s1: string := ['_'];
    var s2: string := ['0', '-', '9'] + s1;
    var s3: string := ['A', '-', 'Z'] + s2;
    var s4: string := ['a', '-', 'z'] + s3;
    assert ParseItems(s0) == Some([]);
    var i0: seq<ClassItem> := [];
    var i1 := [Single('_')] + i0;
    var i2 := [Range('0', '9')] + i1;
    var i3 := [Range('A', 'Z')] + i2;
    var i4 := [Range('a', 'z')] + i3;
    ParseSingleThen('_', s0, i0);
    assert ['_'] + s0 == s1;
    ParseRangeThen('0', '9', s1, i1);
    ParseRangeThen('A', 'Z', s2, i2);
    ParseRangeThen('a', 'z', s3, i3);
    assert i4 == WordClass;
    assert s4 == "a-zA-Z0-9_";
  }

  /** The name pattern is `^[`, the class body, then `]*$`. */
  lemma NamePatternPieces()
    ensures |NamePattern| >= 5 && NamePattern[..2] == "^[" && NamePattern[|NamePattern| - 3..] == "]*$"
    ensures NamePattern[2..|NamePattern| - 3] == "a-zA-Z0-9_"
  {
    var body := NamePattern[2..|NamePattern| - 3];
    assert NamePattern[..2] == "^[" && NamePattern[|NamePattern| - 3..] == "]*$";
    assert |body| == 10;
    assert forall k :: 0 <= k < 10 ==> body[k] == NamePattern[k + 2];
  }

  lemma NamePatternParses()
    ensures ParseClassStar(NamePattern) == Some(WordClass)
  {
    NamePatternPieces();
    WordClassBodyParses();
  }

  lemma WordClassIsWordChar(c: char)
    ensures InClass(c, WordClass) <==> IsWordChar(c)
  {
    if IsWordChar(c) {
      if 'a' <= c <= 'z' { assert ItemMatches(WordClass[0], c); }
      else if 'A' <= c <= 'Z' { assert ItemMatches(WordClass[1], c); }
      else if '0' <= c <= '9' { assert ItemMatches(WordClass[2], c); }
      else { assert ItemMatches(WordClass[3], c); }
    }
  }

  predicate AllWordChars(s: string) {
    forall k :: 0 <= k < |s| ==> IsWordChar(s[k])
  }

  /** The name pattern matches exactly the strings of `[A-Za-z0-9_]` characters. */
  lemma NamePatternMeaning(s: string)
    ensures MatchesPattern(NamePattern, s) <==> AllWordChars(s)
  {
    NamePatternParses();
    forall k | 0 <= k < |s| ensures InClass(s[k], WordClass) <==> IsWordChar(s[k]) {
      WordClassIsWordChar(s[k]);
    }
  }

  // ---------------------------------------------------------------------------
  // ValidateAll

  /** One failed rule, named after the Go field it concerns. */
  datatype Violation =
    | LengthBetween(field: string, min: nat, max: nat)
    | MinLength(field: string, min: nat)
    | MaxLength(field: string, max: nat)
    | PatternMismatch(field: string, pattern: string)

  /** The error `ValidateAll` returns: every violation found, for one message type. */
  datatype ValidationError = MultiError(kind: Kind, violations: seq<Violation>)

  /**
   * The string rules applied to one value, in the order protoc-gen-validate
   * checks them (length first, then pattern); lengths count characters.
   */
  function CheckString(field: string, rules: StringRules, value: string): seq<Violation> {
    var n := |value|;
    var lengthPart :=
      match (rules.minLen, rules.maxLen)
      case (Some(lo), Some(hi)) => if n < lo || n > hi then [LengthBetween(field, lo, hi)] else []
      case (Some(lo), None) => if n < lo then [MinLength(field, lo)] else []
      case (None, Some(hi)) => if n > hi then [MaxLength(field, hi)] else []
      case (None, None) => [];
    var patternPart :=
      match rules.pattern
      case Some(p) => if MatchesPattern(p, value) then [] else [PatternMismatch(field, p)]
      case None => [];
    lengthPart + patternPart
  }

  /**
   * The rules of `HelloRequest.name` as protoc-gen-validate compiles them into
   * `ValidateAll`; `NameRulesFromDescriptor` shows they are the descriptor's.
   */
  function NameRules(): StringRules {
    StringRules(Some(6), Some(16), Some(NamePattern))
  }

  /**
   * Whether a message has a `ValidateAll` method (the `Validator` interface):
   * the generated messages do, `emptypb.Empty` does not.
   */
  predicate IsValidator(m: Msg) {
    !m.EmptyMsg?
  }

  /** `ValidateAll`: only `HelloRequest.name` carries rules. */
  function ValidateAll(m: Msg): Option<ValidationError>
    requires IsValidator(m)
  {
    match m
    case HelloRequestMsg(name) =>
      var vs := CheckString("Name", NameRules(), name);
      if vs == [] then None else Some(MultiError(HelloRequestKind, vs))
    case _ => None
  }

  predicate ValidName(name: string) {
    6 <= |name| <= 16 && AllWordChars(name)
  }

  /** The violations the rules of `HelloRequest.name` find in a name: length first, then pattern. */
  lemma NameViolations(name: string)
    ensures CheckString("Name", NameRules(), name) ==
      (if 6 <= |name| <= 16 then [] else [LengthBetween("Name", 6, 16)]) +
      (if AllWordChars(name) then [] else [PatternMismatch("Name", NamePattern)])
  {
    NamePatternMeaning(name);
  }

  /** A `HelloRequest` passes validation iff its name has 6 to 16 characters of `[A-Za-z0-9_]`. */
  lemma HelloRequestValid(name: string)
    ensures ValidateAll(HelloRequestMsg(name)).None? <==> ValidName(name)
  {
    NameViolations(name);
  }

  /** A name of word characters that is too short or too long fails on length alone. */
  lemma LengthOnlyViolation(name: string)
    requires |name| < 6 || |name| > 16
    requires AllWordChars(name)
    ensures ValidateAll(HelloRequestMsg(name)) == Some(MultiError(HelloRequestKind, [LengthBetween("Name", 6, 16)]))
  {
    NameViolations(name);
    assert [LengthBetween("Name", 6, 16)] + [] == [LengthBetween("Name", 6, 16)];
  }

  /** A name of the right length with a character outside `[A-Za-z0-9_]` fails on the pattern alone. */
  lemma PatternOnlyViolation(name: string, k: nat)
    requires 6 <= |name| <= 16
    requires k < |name| && !IsWordChar(name[k])
    ensures ValidateAll(HelloRequestMsg(name)) == Some(MultiError(HelloRequestKind, [PatternMismatch("Name", NamePattern)]))
  {
    NameViolations(name);
    assert !AllWordChars(name);
    assert [] + [PatternMismatch("Name", NamePattern)] == [PatternMismatch("Name", NamePattern)];
  }

  lemma ShortNameExample()
    ensures ValidateAll(HelloRequestMsg("Ada")) == Some(MultiError(HelloRequestKind, [LengthBetween("Name", 6, 16)]))
  {
    var name := "Ada";
    assert AllWordChars(name);
    LengthOnlyViolation(name);
  }

  /** A name of the right length with a space in it fails on the pattern alone. */
  lemma SpaceInNameExample()
    ensures ValidateAll(HelloRequestMsg("hello world")) == Some(MultiError(HelloRequestKind, [PatternMismatch("Name", NamePattern)]))
  {
    PatternOnlyViolation("hello world", 5);
  }

  lemma ValidNameExample()
    ensures ValidateAll(HelloRequestMsg("hello_world")) == None
  {
    var name := "hello_world";
    assert AllWordChars(name);
    HelloRequestValid(name);
  }
}
