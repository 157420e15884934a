/**
 utils/metaplex.py: the struct declarations, `create_metadata_instruction_data` and the parse in
 `get_metadata`. Strings are their UTF-8 bytes; an Enum member is its number.
 */
module Metaplex {
  import opened Wrappers
  import opened Construct

  const MAX_NAME_LEN := 32
  const MAX_SYMBOL_LEN := 10
  const MAX_URI_LEN := 200

  const UTF8_STRING := PascalString(4)
  const ADDRESS := Raw(32)
  const ENUM := UInt(1)

  const CREATOR :=
    Field("address", ADDRESS,
    Field("verified", Flag,
    Field("share", UInt(1), End)))

  const COLLECTION :=
    Field("verified", Flag,
    Field("key", ADDRESS, End))

  const USES :=
    Field("use_method", ENUM,
    Field("remaining", UInt(8),
    Field("total", UInt(8), End)))

  const COLLECTION_DETAILS :=
    Field("ver", Const([0]),
    Field("size", UInt(8), End))

  const CREATORS := Optional(PrefixedArray(4, CREATOR))

  const ASSET_DATA :=
    Field("name", UTF8_STRING,
    Field("symbol", UTF8_STRING,
    Field("uri", UTF8_STRING,
    Field("seller_fee_basis_points", UInt(2),
    Field("creators", CREATORS,
    Field("primary_sale_happened", Flag,
    Field("is_mutable", Flag,
    Field("token_standard", ENUM,
    Field("collection", Optional(COLLECTION),
    Field("uses", Optional(USES),
    Field("collection_details", Optional(COLLECTION_DETAILS),
    Field("rule_set", Optional(UTF8_STRING), End))))))))))))

  const PROGRAMMABLE_CONFIG :=
    Field("ver", Const([0]),
    Field("rule_set", Optional(UTF8_STRING), End))

  const DATA_TAIL :=
    Field("symbol", UTF8_STRING,
    Field("uri", UTF8_STRING,
    Field("seller_fee_basis_points", UInt(2),
    Field("creators", CREATORS, End))))

  const DATA := Field("name", UTF8_STRING, DATA_TAIL)

  const DATA_V2_NUMBERS :=
    Field("seller_fee_basis_points", UInt(2),
    Field("creators", CREATORS,
    Field("collection", Optional(COLLECTION),
    Field("uses", Optional(USES), End))))

  const DATA_V2 :=
    Field("name", UTF8_STRING,
    Field("symbol", UTF8_STRING,
    Field("uri", UTF8_STRING, DATA_V2_NUMBERS)))

  const METADATA_ACCOUNT_TAIL :=
    Field("primary_sale_happened", Flag,
    Field("is_mutable", Flag,
    Field("edition_nonce", Optional(UInt(1)),
    Field("token_standard", Optional(ENUM),
    Field("collection", Optional(COLLECTION),
    Field("uses", Optional(USES),
    Field("collection_details", Optional(COLLECTION_DETAILS),
    Field("programmable_config", Optional(PROGRAMMABLE_CONFIG), End))))))))

  const METADATA_ACCOUNT :=
    Field("key", ENUM,
    Field("update_authority", ADDRESS,
    Field("mint", ADDRESS,
    Field("data", DATA, METADATA_ACCOUNT_TAIL))))

  const CREATE_METADATA_V3_ARGS :=
    Field("data", DATA_V2,
    Field("is_mutable", Flag,
    Field("collection_details", Optional(COLLECTION_DETAILS), End)))

  const CREATE_METADATA_V3_INSTRUCTION :=
    Field("instruction", Const([0x21]),
    Field("args", CREATE_METADATA_V3_ARGS, End))

  const CREATE_ARGS :=
    Field("ver", Const([0]),
    Field("asset_data", ASSET_DATA,
    Field("decimals", Optional(UInt(1)),
    Field("print_supply", Optional(ENUM), End))))

  const CREATE_INSTRUCTION :=
    Field("instruction", Const([0x2a]),
    Field("args", CREATE_ARGS, End))

  datatype TopLevel = CreateMetadataV3Instruction | CreateInstruction | MetadataAccount

  function Declaration(struct: TopLevel): Format {
    match struct
    case CreateMetadataV3Instruction => CREATE_METADATA_V3_INSTRUCTION
    case CreateInstruction => CREATE_INSTRUCTION
    case MetadataAccount => METADATA_ACCOUNT
  }

  /** The three top-level structs: parsing undoes building before any trailing bytes, and no two
      values, even followed by different bytes, share an encoding. */
  lemma StructsRoundTrip(struct: TopLevel, v: Value, v': Value, s: bytes, s': bytes)
    requires Fits(Declaration(struct), v) && Fits(Declaration(struct), v')
    ensures Parse(Declaration(struct), Build(Declaration(struct), v) + s) == Some((v, s))
    ensures Build(Declaration(struct), v) + s == Build(Declaration(struct), v') + s' ==> v == v' && s == s'
  {
    var f := Declaration(struct);
    RoundTrip(f, v, s);
    if Build(f, v) + s == Build(f, v') + s' {
      PrefixFree(f, v, v', s, s');
    }
  }

  /** The library reads any non-zero flag byte as True, so a parse is not injective on bytes. */
  lemma FlagByteTwo()
    ensures Parse(Flag, [2]) == Parse(Flag, [1]) == Some((Bool(true), []))
    ensures Build(Flag, Bool(true)) != [2]
  {
    var one: bytes, two: bytes := [1], [2];
    assert one[1..] == [] && two[1..] == [];
  }

  // ---------------------------------------------------------------- building the instruction

  function DataV2Value(name: bytes, symbol: bytes, uri: bytes, fee: nat): Value {
    Cons(Blob(name), Cons(Blob(symbol), Cons(Blob(uri),
      Cons(Num(fee), Cons(Absent, Cons(Absent, Cons(Absent, Unit)))))))
  }

  function InstructionValue(name: bytes, symbol: bytes, uri: bytes, fee: nat): Value {
    Cons(Unit, Cons(
      Cons(DataV2Value(name, symbol, uri, fee), Cons(Bool(true), Cons(Absent, Unit))), Unit))
  }

  predicate WithinLimits(name: bytes, symbol: bytes, uri: bytes, fee: int) {
    |name| <= MAX_NAME_LEN && |symbol| <= MAX_SYMBOL_LEN && |uri| <= MAX_URI_LEN && 0 <= fee < 0x1_0000
  }

  lemma InstructionValueFits(name: bytes, symbol: bytes, uri: bytes, fee: nat)
    requires WithinLimits(name, symbol, uri, fee)
    ensures Fits(DATA_V2, DataV2Value(name, symbol, uri, fee))
    ensures Fits(CREATE_METADATA_V3_INSTRUCTION, InstructionValue(name, symbol, uri, fee))
  {
    Pow256Values();
    var numbers := Cons(Num(fee), Cons(Absent, Cons(Absent, Cons(Absent, Unit))));
    assert Fits(DATA_V2_NUMBERS.rest, numbers.tail);
    assert Fits(DATA_V2_NUMBERS, numbers);
    assert Fits(DATA_V2.rest.rest, Cons(Blob(uri), numbers));
    assert Fits(DATA_V2.rest, Cons(Blob(symbol), Cons(Blob(uri), numbers)));
    assert Fits(DATA_V2, DataV2Value(name, symbol, uri, fee));
    var args := Cons(DataV2Value(name, symbol, uri, fee), Cons(Bool(true), Cons(Absent, Unit)));
    assert Fits(CREATE_METADATA_V3_ARGS.rest, args.tail);
    assert Fits(CREATE_METADATA_V3_ARGS, args);
  }

  /** None stands for a failed assertion, or for the library's refusal of a fee outside 16 bits. */
  function CreateMetadataInstructionData(name: bytes, symbol: bytes, uri: bytes, fee: int): Option<bytes> {
    if WithinLimits(name, symbol, uri, fee) then
      InstructionValueFits(name, symbol, uri, fee);
      Some(Build(CREATE_METADATA_V3_INSTRUCTION, InstructionValue(name, symbol, uri, fee)))
    else None
  }

  /** The call succeeds exactly within the limits, and what it builds parses back to the very arguments. */
  lemma CreateMetadataRoundTrip(name: bytes, symbol: bytes, uri: bytes, fee: int, suffix: bytes)
    ensures var built := CreateMetadataInstructionData(name, symbol, uri, fee);
            && (built.Some? <==> |name| <= 32 && |symbol| <= 10 && |uri| <= 200 && 0 <= fee <= 0xFFFF)
            && (built.Some? ==>
                 Parse(CREATE_METADATA_V3_INSTRUCTION, built.value + suffix)
                 == Some((InstructionValue(name, symbol, uri, fee), suffix)))
  {
    if WithinLimits(name, symbol, uri, fee) {
      InstructionValueFits(name, symbol, uri, fee);
      RoundTrip(CREATE_METADATA_V3_INSTRUCTION, InstructionValue(name, symbol, uri, fee), suffix);
    }
  }

  // ---------------------------------------------------------------- reading the account

  /** str.strip("\x00"). */
  function StripNul(s: bytes): bytes {
    StripRight(StripLeft(s))
  }

  function StripLeft(s: bytes): bytes {
    if s != [] && s[0] == 0 then StripLeft(s[1..]) else s
  }

  function StripRight(s: bytes): bytes {
    if s != [] && s[|s| - 1] == 0 then StripRight(s[..|s| - 1]) else s
  }

  function Zeros(n: nat): (z: bytes)
    ensures |z| == n
  {
    seq(n, _ => 0)
  }

  /** NUL padding on either side of a string is undone exactly when the string has none of its own. */
  lemma StripPadding(s: bytes, before: nat, after: nat)
    ensures StripNul(Zeros(before) + s + Zeros(after)) == s
       <==> Unpadded(s)
  {
    var padded := Zeros(before) + s + Zeros(after);
    assert padded == Zeros(before) + (s + Zeros(after));
    StripLeftZeros(s + Zeros(after), before);
    if s == [] {
      assert s + Zeros(after) == Zeros(after) + [];
      StripLeftZeros([], after);
    } else if s[0] != 0 {
      assert StripLeft(s + Zeros(after)) == s + Zeros(after);
      StripRightZeros(s, after);
      StripRightEnds(s);
    } else {
      StripLeftEnds(s + Zeros(after));
      var t := StripLeft(s + Zeros(after));
      StripRightEnds(t);
    }
  }

  lemma {:induction false} StripLeftZeros(s: bytes, n: nat)
    ensures StripLeft(Zeros(n) + s) == StripLeft(s)
  {
    if n == 0 {
      assert Zeros(n) + s == s;
    } else {
      assert (Zeros(n) + s)[1..] == Zeros(n - 1) + s;
      StripLeftZeros(s, n - 1);
    }
  }

  lemma {:induction false} StripRightZeros(s: bytes, n: nat)
    ensures StripRight(s + Zeros(n)) == StripRight(s)
  {
    var t := s + Zeros(n);
    if n == 0 {
      assert t == s;
    } else {
      assert t[..|t| - 1] == s + Zeros(n - 1);
      StripRightZeros(s, n - 1);
    }
  }

  lemma StripLeftEnds(s: bytes)
    ensures var t := StripLeft(s); t == [] || t[0] != 0
  {
  }

  lemma StripRightEnds(s: bytes)
    ensures StripRight(s) <= s
    ensures var t := StripRight(s); t == [] || t[|t| - 1] != 0
  {
  }

  datatype Names = Names(name: bytes, symbol: bytes, uri: bytes)

  /** The stored strings of an account value. */
  function NamesOf(v: Value): Names
    requires Fits(METADATA_ACCOUNT, v)
  {
    DataFields(v);
    var d := v.tail.tail.tail.head;
    Names(d.head.bs, d.tail.head.bs, d.tail.tail.head.bs)
  }

  lemma DataFields(v: Value)
    requires Fits(METADATA_ACCOUNT, v)
    ensures v.Cons? && v.tail.Cons? && v.tail.tail.Cons? && v.tail.tail.tail.Cons?
    ensures var d := v.tail.tail.tail.head;
            && d.Cons? && d.tail.Cons? && d.tail.tail.Cons?
            && d.head.Blob? && d.tail.head.Blob? && d.tail.tail.head.Blob?
    ensures v.tail.tail.head.Blob?
  {
    assert Fits(METADATA_ACCOUNT.rest, v.tail);
    assert Fits(METADATA_ACCOUNT.rest.rest, v.tail.tail);
    assert Fits(METADATA_ACCOUNT.rest.rest.rest, v.tail.tail.tail);
    assert Fits(ADDRESS, v.tail.tail.head);
    var d := v.tail.tail.tail.head;
    assert Fits(DATA, d);
    assert Fits(DATA_TAIL, d.tail);
    assert Fits(DATA_TAIL.rest, d.tail.tail);
    assert Fits(UTF8_STRING, d.head) && Fits(UTF8_STRING, d.tail.head) && Fits(UTF8_STRING, d.tail.tail.head);
  }

  /** The account with the four fields that `get_metadata` replaces put into it. */
  function Replaced(v: Value, mint: bytes, names: Names): Value
    requires Fits(METADATA_ACCOUNT, v)
  {
    DataFields(v);
    var d := v.tail.tail.tail.head;
    var strings := Cons(Blob(names.name), Cons(Blob(names.symbol), Cons(Blob(names.uri), d.tail.tail.tail)));
    Cons(v.head, Cons(v.tail.head, Cons(Blob(mint), Cons(strings, v.tail.tail.tail.tail))))
  }

  /** `text` is the base58 text of a public key. */
  function GetMetadata(data: bytes, text: bytes -> bytes): Option<Value> {
    match Parse(METADATA_ACCOUNT, data)
    case None => None
    case Some((v, _)) =>
      ParseSound(METADATA_ACCOUNT, data);
      DataFields(v);
      var n := NamesOf(v);
      Some(Replaced(v, text(v.tail.tail.head.bs), Names(StripNul(n.name), StripNul(n.symbol), StripNul(n.uri))))
  }

  predicate Unpadded(s: bytes) {
    s == [] || (s[0] != 0 && s[|s| - 1] != 0)
  }

  /** An account whose strings are NUL-padded, followed by any further bytes, is read back: every field as stored,
      but the mint as text and the strings stripped. The padding alone is removed exactly if none of the strings
      has an outer NUL of its own. */
  lemma GetMetadataReadsBack(v: Value, names: Names, i: nat, j: nat, k: nat, suffix: bytes, text: bytes -> bytes)
    requires Fits(METADATA_ACCOUNT, v)
    requires NamesOf(v) == Names(names.name + Zeros(i), names.symbol + Zeros(j), names.uri + Zeros(k))
    ensures v.tail.Cons? && v.tail.tail.Cons? && v.tail.tail.head.Blob?
    ensures var mint := text(v.tail.tail.head.bs);
            && (GetMetadata(Build(METADATA_ACCOUNT, v) + suffix, text) == Some(Replaced(v, mint, names))
                <==> Unpadded(names.name) && Unpadded(names.symbol) && Unpadded(names.uri))
  {
    RoundTrip(METADATA_ACCOUNT, v, suffix);
    DataFields(v);
    StripPadding(names.name, 0, i);
    StripPadding(names.symbol, 0, j);
    StripPadding(names.uri, 0, k);
    assert Zeros(0) + names.name == names.name;
    assert Zeros(0) + names.symbol == names.symbol;
    assert Zeros(0) + names.uri == names.uri;
  }
}
