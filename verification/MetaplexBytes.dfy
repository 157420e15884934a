/**
 The wire form of the structs of utils/metaplex.py, written out as the Borsh encoding of typed records and proved
 equal to what the declarations build; and `get_metadata` on such bytes.
 */
module MetaplexBytes {
  import opened Wrappers
  import opened Construct
  import opened Metaplex

  // ---------------------------------------------------------------- records

  datatype Creator = Creator(address: bytes, verified: bool, share: byte)
  datatype Collection = Collection(verified: bool, key: bytes)
  datatype Uses = Uses(useMethod: byte, remaining: nat, total: nat)

  datatype TokenData = TokenData(name: bytes, symbol: bytes, uri: bytes, fee: nat, creators: Option<seq<Creator>>)

  datatype Account = Account(
    key: byte, updateAuthority: bytes, mint: bytes, data: TokenData,
    primarySaleHappened: bool, isMutable: bool, editionNonce: Option<byte>, tokenStandard: Option<byte>,
    collection: Option<Collection>, uses: Option<Uses>, collectionSize: Option<nat>,
    programmableConfig: Option<Option<bytes>>)

  datatype Asset = Asset(
    data: TokenData, primarySaleHappened: bool, isMutable: bool, tokenStandard: byte, collection: Option<Collection>,
    uses: Option<Uses>, collectionSize: Option<nat>, ruleSet: Option<bytes>)

  datatype Create = Create(asset: Asset, decimals: Option<byte>, printSupply: Option<byte>)

  datatype CreateV3 = CreateV3(
    data: TokenData, collection: Option<Collection>, uses: Option<Uses>, isMutable: bool, collectionSize: Option<nat>)

  // ---------------------------------------------------------------- their bytes

  function BoolBytes(b: bool): bytes {
    [if b then 1 else 0]
  }

  function TextBytes(s: bytes): bytes {
    FourBytes(|s|) + s
  }

  function OptionBytes<T>(o: Option<T>, encoded: T -> bytes): bytes {
    match o
    case None => [0]
    case Some(x) => [1] + encoded(x)
  }

  function Concat<T>(list: seq<T>, encoded: T -> bytes): bytes {
    if list == [] then [] else encoded(list[0]) + Concat(list[1..], encoded)
  }

  function CreatorBytes(c: Creator): bytes {
    c.address + BoolBytes(c.verified) + [c.share]
  }

  function CreatorsBytes(list: seq<Creator>): bytes {
    FourBytes(|list|) + Concat(list, CreatorBytes)
  }

  function CollectionBytes(c: Collection): bytes {
    BoolBytes(c.verified) + c.key
  }

  function UsesBytes(u: Uses): bytes {
    [u.useMethod] + EightBytes(u.remaining) + EightBytes(u.total)
  }

  function DetailsBytes(size: nat): bytes {
    [0] + EightBytes(size)
  }

  function ConfigBytes(ruleSet: Option<bytes>): bytes {
    [0] + OptionBytes(ruleSet, TextBytes)
  }

  function ByteAlone(b: byte): bytes {
    [b]
  }

  function TokenBytes(d: TokenData): bytes {
    TextBytes(d.name) + TextBytes(d.symbol) + TextBytes(d.uri) + [d.fee % 256, d.fee / 256 % 256]
    + OptionBytes(d.creators, CreatorsBytes)
  }

  function OriginBytes(c: Option<Collection>, u: Option<Uses>): bytes {
    OptionBytes(c, CollectionBytes) + OptionBytes(u, UsesBytes)
  }

  function AccountBytes(a: Account): bytes {
    [a.key] + a.updateAuthority + (a.mint + TokenBytes(a.data) + AccountTailBytes(a))
  }

  function AccountTailBytes(a: Account): bytes {
    BoolBytes(a.primarySaleHappened) + BoolBytes(a.isMutable)
    + (OptionBytes(a.editionNonce, ByteAlone) + OptionBytes(a.tokenStandard, ByteAlone)
    + (OriginBytes(a.collection, a.uses)
    + (OptionBytes(a.collectionSize, DetailsBytes) + OptionBytes(a.programmableConfig, ConfigBytes))))
  }

  function AssetBytes(a: Asset): bytes {
    TokenBytes(a.data) + (BoolBytes(a.primarySaleHappened) + BoolBytes(a.isMutable) + ([a.tokenStandard]
    + (OriginBytes(a.collection, a.uses)
    + (OptionBytes(a.collectionSize, DetailsBytes) + OptionBytes(a.ruleSet, TextBytes)))))
  }

  function CreateBytes(c: Create): bytes {
    [0x2a] + ([0] + AssetBytes(c.asset)
    + (OptionBytes(c.decimals, ByteAlone) + OptionBytes(c.printSupply, ByteAlone)))
  }

  function CreateV3Bytes(c: CreateV3): bytes {
    [0x21] + (TokenBytes(c.data) + OriginBytes(c.collection, c.uses)
    + BoolBytes(c.isMutable) + OptionBytes(c.collectionSize, DetailsBytes))
  }

  // ---------------------------------------------------------------- which records are well-formed

  predicate SmallText(s: bytes) {
    |s| < 0x1_0000_0000
  }

  predicate IsUInt64(n: nat) {
    n < 0x1_0000_0000_0000_0000
  }

  predicate GoodToken(d: TokenData) {
    && SmallText(d.name) && SmallText(d.symbol) && SmallText(d.uri) && d.fee < 0x1_0000
    && (d.creators.Some? ==> |d.creators.value| < 0x1_0000_0000 &&
                             forall i | 0 <= i < |d.creators.value| :: |d.creators.value[i].address| == 32)
  }

  predicate GoodCollection(c: Option<Collection>) {
    c.Some? ==> |c.value.key| == 32
  }

  predicate GoodUses(u: Option<Uses>) {
    u.Some? ==> IsUInt64(u.value.remaining) && IsUInt64(u.value.total)
  }

  predicate GoodAccount(a: Account) {
    && |a.updateAuthority| == 32 && |a.mint| == 32 && GoodToken(a.data)
    && GoodCollection(a.collection) && GoodUses(a.uses) && (a.collectionSize.Some? ==> IsUInt64(a.collectionSize.value))
    && (a.programmableConfig.Some? && a.programmableConfig.value.Some? ==> SmallText(a.programmableConfig.value.value))
  }

  predicate GoodCreate(c: Create) {
    && GoodToken(c.asset.data) && GoodCollection(c.asset.collection) && GoodUses(c.asset.uses)
    && (c.asset.collectionSize.Some? ==> IsUInt64(c.asset.collectionSize.value))
    && (c.asset.ruleSet.Some? ==> SmallText(c.asset.ruleSet.value))
  }

  predicate GoodCreateV3(c: CreateV3) {
    && GoodToken(c.data) && GoodCollection(c.collection) && GoodUses(c.uses)
    && (c.collectionSize.Some? ==> IsUInt64(c.collectionSize.value))
  }

  // ---------------------------------------------------------------- the library's values

  function OptionValue<T>(o: Option<T>, value: T -> Value): Value {
    match o
    case None => Absent
    case Some(x) => Present(value(x))
  }

  function TextValue(s: bytes): Value {
    Blob(s)
  }

  function ByteValue(b: byte): Value {
    Num(b)
  }

  function CreatorValue(c: Creator): Value {
    Cons(Blob(c.address), Cons(Bool(c.verified), Cons(Num(c.share), Unit)))
  }

  function CreatorsValue(list: seq<Creator>): Value {
    if list == [] then Unit else Cons(CreatorValue(list[0]), CreatorsValue(list[1..]))
  }

  function CollectionValue(c: Collection): Value {
    Cons(Bool(c.verified), Cons(Blob(c.key), Unit))
  }

  function UsesValue(u: Uses): Value {
    Cons(Num(u.useMethod), Cons(Num(u.remaining), Cons(Num(u.total), Unit)))
  }

  function DetailsValue(size: nat): Value {
    Cons(Unit, Cons(Num(size), Unit))
  }

  function ConfigValue(ruleSet: Option<bytes>): Value {
    Cons(Unit, Cons(OptionValue(ruleSet, TextValue), Unit))
  }

  /** The token's fields, followed by those of the struct they stand in. */
  function TokenValue(d: TokenData, rest: Value): Value {
    Cons(Blob(d.name), Cons(Blob(d.symbol), Cons(Blob(d.uri), Cons(Num(d.fee),
      Cons(OptionValue(d.creators, CreatorsValue), rest)))))
  }

  function OriginValue(c: Option<Collection>, u: Option<Uses>, rest: Value): Value {
    Cons(OptionValue(c, CollectionValue), Cons(OptionValue(u, UsesValue), rest))
  }

  function AccountValue(a: Account): Value {
    Cons(Num(a.key), Cons(Blob(a.updateAuthority), Cons(Blob(a.mint),
      Cons(TokenValue(a.data, Unit), AccountTail(a)))))
  }

  function AccountTail(a: Account): Value {
    Cons(Bool(a.primarySaleHappened), Cons(Bool(a.isMutable),
      Cons(OptionValue(a.editionNonce, ByteValue), Cons(OptionValue(a.tokenStandard, ByteValue),
      OriginValue(a.collection, a.uses, Cons(OptionValue(a.collectionSize, DetailsValue),
      Cons(OptionValue(a.programmableConfig, ConfigValue), Unit)))))))
  }

  function AssetValue(a: Asset): Value {
    TokenValue(a.data, Cons(Bool(a.primarySaleHappened), Cons(Bool(a.isMutable), Cons(Num(a.tokenStandard),
      OriginValue(a.collection, a.uses, Cons(OptionValue(a.collectionSize, DetailsValue),
      Cons(OptionValue(a.ruleSet, TextValue), Unit)))))))
  }

  function CreateValue(c: Create): Value {
    Cons(Unit, Cons(Cons(Unit, Cons(AssetValue(c.asset), Cons(OptionValue(c.decimals, ByteValue),
      Cons(OptionValue(c.printSupply, ByteValue), Unit)))), Unit))
  }

  function CreateV3Value(c: CreateV3): Value {
    Cons(Unit, Cons(Cons(TokenValue(c.data, OriginValue(c.collection, c.uses, Unit)),
      Cons(Bool(c.isMutable), Cons(OptionValue(c.collectionSize, DetailsValue), Unit))), Unit))
  }

  // ---------------------------------------------------------------- composing encodings

  /** The format builds these bytes from the value. */
  ghost predicate Encodes(f: Format, v: Value, bs: bytes) {
    Fits(f, v) && Build(f, v) == bs
  }

  lemma FieldEncodes(f: Format, v: Value, vs: Value, a: bytes, b: bytes)
    requires f.Field? && Encodes(f.head, v, a) && Encodes(f.rest, vs, b)
    ensures Encodes(f, Cons(v, vs), a + b)
  {
    MoreFields(f.name, f.head, f.rest, v, vs);
  }

  lemma BasicsEncode()
    ensures Encodes(End, Unit, [])
    ensures forall b :: Encodes(Flag, Bool(b), BoolBytes(b))
    ensures forall s: bytes, n: nat | |s| == n :: Encodes(Raw(n), Blob(s), s)
    ensures forall s: bytes :: Encodes(Const(s), Unit, s)
  {
  }

  lemma ByteEncodes(b: byte)
    ensures Encodes(UInt(1), Num(b), [b])
  {
    Pow256Values();
    assert ToLE(0, 0) == [];
  }

  lemma UInt16Encodes(n: nat)
    requires n < 0x1_0000
    ensures Encodes(UInt(2), Num(n), [n % 256, n / 256 % 256])
  {
    Pow256Values();
    TwoFrom(n, 2);
    assert ToLE(0, 0) == [];
  }

  lemma UInt64Encodes(n: nat)
    requires IsUInt64(n)
    ensures Encodes(UInt(8), Num(n), EightBytes(n))
  {
    UInt64Bytes(n);
  }

  lemma TextEncodes(s: bytes)
    requires SmallText(s)
    ensures Encodes(UTF8_STRING, TextValue(s), TextBytes(s))
  {
    UInt32Bytes(|s|);
  }

  lemma OptionEncodes<T>(inner: Format, o: Option<T>, value: T -> Value, encoded: T -> bytes)
    requires o.Some? ==> Encodes(inner, value(o.value), encoded(o.value))
    ensures Encodes(Optional(inner), OptionValue(o, value), OptionBytes(o, encoded))
  {
  }

  // ---------------------------------------------------------------- the structs

  lemma CreatorEncodes(c: Creator)
    requires |c.address| == 32
    ensures Encodes(CREATOR, CreatorValue(c), CreatorBytes(c))
  {
    BasicsEncode();
    ByteEncodes(c.share);
    FieldEncodes(CREATOR.rest.rest, Num(c.share), Unit, [c.share], []);
    FieldEncodes(CREATOR.rest, Bool(c.verified), Cons(Num(c.share), Unit), BoolBytes(c.verified), [c.share] + []);
    FieldEncodes(CREATOR, Blob(c.address), CreatorValue(c).tail, c.address, BoolBytes(c.verified) + ([c.share] + []));
    assert c.address + (BoolBytes(c.verified) + ([c.share] + [])) == CreatorBytes(c);
  }

  lemma {:induction false} CreatorsEncode(list: seq<Creator>)
    requires forall i | 0 <= i < |list| :: |list[i].address| == 32
    ensures AllFit(CREATOR, CreatorsValue(list)) && Count(CreatorsValue(list)) == |list|
    ensures BuildAll(CREATOR, CreatorsValue(list)) == Concat(list, CreatorBytes)
  {
    if list != [] {
      CreatorEncodes(list[0]);
      CreatorsEncode(list[1..]);
    }
  }

  lemma OptionalCreatorsEncode(o: Option<seq<Creator>>)
    requires o.Some? ==> |o.value| < 0x1_0000_0000 && forall i | 0 <= i < |o.value| :: |o.value[i].address| == 32
    ensures Encodes(CREATORS, OptionValue(o, CreatorsValue), OptionBytes(o, CreatorsBytes))
  {
    if o.Some? {
      CreatorsEncode(o.value);
      UInt32Bytes(|o.value|);
      assert Encodes(PrefixedArray(4, CREATOR), CreatorsValue(o.value), CreatorsBytes(o.value));
    }
    OptionEncodes(PrefixedArray(4, CREATOR), o, CreatorsValue, CreatorsBytes);
  }

  lemma CollectionEncodes(o: Option<Collection>)
    requires GoodCollection(o)
    ensures Encodes(Optional(COLLECTION), OptionValue(o, CollectionValue), OptionBytes(o, CollectionBytes))
  {
    if o.Some? {
      var c := o.value;
      BasicsEncode();
      FieldEncodes(COLLECTION.rest, Blob(c.key), Unit, c.key, []);
      FieldEncodes(COLLECTION, Bool(c.verified), Cons(Blob(c.key), Unit), BoolBytes(c.verified), c.key + []);
      assert BoolBytes(c.verified) + (c.key + []) == CollectionBytes(c);
    }
    OptionEncodes(COLLECTION, o, CollectionValue, CollectionBytes);
  }

  lemma UsesEncode(o: Option<Uses>)
    requires GoodUses(o)
    ensures Encodes(Optional(USES), OptionValue(o, UsesValue), OptionBytes(o, UsesBytes))
  {
    if o.Some? {
      var u := o.value;
      var (remaining, total) := (EightBytes(u.remaining), EightBytes(u.total));
      BasicsEncode();
      ByteEncodes(u.useMethod);
      UInt64Encodes(u.remaining);
      UInt64Encodes(u.total);
      FieldEncodes(USES.rest.rest, Num(u.total), Unit, total, []);
      FieldEncodes(USES.rest, Num(u.remaining), Cons(Num(u.total), Unit), remaining, total + []);
      FieldEncodes(USES, Num(u.useMethod), UsesValue(u).tail, [u.useMethod], remaining + (total + []));
      assert [u.useMethod] + (remaining + (total + [])) == UsesBytes(u);
    }
    OptionEncodes(USES, o, UsesValue, UsesBytes);
  }

  lemma DetailsEncode(o: Option<nat>)
    requires o.Some? ==> IsUInt64(o.value)
    ensures Encodes(Optional(COLLECTION_DETAILS), OptionValue(o, DetailsValue), OptionBytes(o, DetailsBytes))
  {
    if o.Some? {
      BasicsEncode();
      UInt64Encodes(o.value);
      FieldEncodes(COLLECTION_DETAILS.rest, Num(o.value), Unit, EightBytes(o.value), []);
      FieldEncodes(COLLECTION_DETAILS, Unit, Cons(Num(o.value), Unit), [0], EightBytes(o.value) + []);
      assert [0] + (EightBytes(o.value) + []) == DetailsBytes(o.value);
    }
    OptionEncodes(COLLECTION_DETAILS, o, DetailsValue, DetailsBytes);
  }

  lemma OptionalTextEncodes(o: Option<bytes>)
    requires o.Some? ==> SmallText(o.value)
    ensures Encodes(Optional(UTF8_STRING), OptionValue(o, TextValue), OptionBytes(o, TextBytes))
  {
    if o.Some? {
      TextEncodes(o.value);
    }
    OptionEncodes(UTF8_STRING, o, TextValue, TextBytes);
  }

  lemma OptionalByteEncodes(o: Option<byte>)
    ensures Encodes(Optional(UInt(1)), OptionValue(o, ByteValue), OptionBytes(o, ByteAlone))
  {
    if o.Some? {
      ByteEncodes(o.value);
    }
    OptionEncodes(UInt(1), o, ByteValue, ByteAlone);
  }

  lemma ConfigEncodes(o: Option<Option<bytes>>)
    requires o.Some? && o.value.Some? ==> SmallText(o.value.value)
    ensures Encodes(Optional(PROGRAMMABLE_CONFIG), OptionValue(o, ConfigValue), OptionBytes(o, ConfigBytes))
  {
    if o.Some? {
      var ruleSet := OptionBytes(o.value, TextBytes);
      BasicsEncode();
      OptionalTextEncodes(o.value);
      FieldEncodes(PROGRAMMABLE_CONFIG.rest, OptionValue(o.value, TextValue), Unit, ruleSet, []);
      FieldEncodes(PROGRAMMABLE_CONFIG, Unit, ConfigValue(o.value).tail, [0], ruleSet + []);
      assert [0] + (ruleSet + []) == ConfigBytes(o.value);
    }
    OptionEncodes(PROGRAMMABLE_CONFIG, o, ConfigValue, ConfigBytes);
  }

  /** The last two fields, and two fields before others. */
  lemma LastTwoEncode(f: Format, v: Value, w: Value, a: bytes, b: bytes)
    requires f.Field? && f.rest.Field? && f.rest.rest == End && Encodes(f.head, v, a) && Encodes(f.rest.head, w, b)
    ensures Encodes(f, Cons(v, Cons(w, Unit)), a + b)
  {
    LastEncodes(f.rest, w, b);
    FieldEncodes(f, v, Cons(w, Unit), a, b);
  }

  lemma LastEncodes(f: Format, v: Value, a: bytes)
    requires f.Field? && f.rest == End && Encodes(f.head, v, a)
    ensures Encodes(f, Cons(v, Unit), a)
  {
    BasicsEncode();
    FieldEncodes(f, v, Unit, a, []);
    assert a + [] == a;
  }

  lemma TwoEncode(f: Format, v: Value, w: Value, vs: Value, a: bytes, b: bytes, bs: bytes)
    requires f.Field? && f.rest.Field?
    requires Encodes(f.head, v, a) && Encodes(f.rest.head, w, b) && Encodes(f.rest.rest, vs, bs)
    ensures Encodes(f, Cons(v, Cons(w, vs)), a + b + bs)
  {
    FieldEncodes(f.rest, w, vs, b, bs);
    FieldEncodes(f, v, Cons(w, vs), a, b + bs);
    assert a + (b + bs) == a + b + bs;
  }

  ghost predicate HasTokenFields(f: Format) {
    && f.Field? && f.rest.Field? && f.rest.rest.Field?
    && f.rest.rest.rest.Field? && f.rest.rest.rest.rest.Field?
    && f.head == f.rest.head == f.rest.rest.head == UTF8_STRING
    && f.rest.rest.rest.head == UInt(2) && f.rest.rest.rest.rest.head == CREATORS
  }

  lemma TokenEncodes(f: Format, d: TokenData, vs: Value, bs: bytes)
    requires GoodToken(d) && HasTokenFields(f) && Encodes(f.rest.rest.rest.rest.rest, vs, bs)
    ensures Encodes(f, TokenValue(d, vs), TokenBytes(d) + bs)
  {
    var v := TokenValue(d, vs);
    var (fee, creators) := ([d.fee % 256, d.fee / 256 % 256], OptionBytes(d.creators, CreatorsBytes));
    var (name, symbol, uri) := (TextBytes(d.name), TextBytes(d.symbol), TextBytes(d.uri));
    TextEncodes(d.name);
    TextEncodes(d.symbol);
    TextEncodes(d.uri);
    UInt16Encodes(d.fee);
    OptionalCreatorsEncode(d.creators);
    TwoEncode(f.rest.rest.rest, Num(d.fee), v.tail.tail.tail.tail.head, vs, fee, creators, bs);
    FieldEncodes(f.rest.rest, TextValue(d.uri), v.tail.tail.tail, uri, fee + creators + bs);
    TwoEncode(f, TextValue(d.name), TextValue(d.symbol), v.tail.tail, name, symbol, uri + (fee + creators + bs));
    Regroup(name + symbol, uri, fee, creators, bs);
  }

  lemma Regroup(a: bytes, b: bytes, c: bytes, d: bytes, e: bytes)
    ensures a + (b + (c + d + e)) == a + b + c + d + e
  {
    assert b + (c + d + e) == b + c + d + e;
  }

  lemma TokenAlone(f: Format, d: TokenData)
    requires GoodToken(d) && HasTokenFields(f) && f.rest.rest.rest.rest.rest == End
    ensures Encodes(f, TokenValue(d, Unit), TokenBytes(d))
  {
    BasicsEncode();
    TokenEncodes(f, d, Unit, []);
    assert TokenBytes(d) + [] == TokenBytes(d);
  }

  lemma OriginEncodes(f: Format, c: Option<Collection>, u: Option<Uses>, vs: Value, bs: bytes)
    requires GoodCollection(c) && GoodUses(u) && f.Field? && f.rest.Field?
    requires f.head == Optional(COLLECTION) && f.rest.head == Optional(USES) && Encodes(f.rest.rest, vs, bs)
    ensures Encodes(f, OriginValue(c, u, vs), OriginBytes(c, u) + bs)
  {
    CollectionEncodes(c);
    UsesEncode(u);
    TwoEncode(f, OptionValue(c, CollectionValue), OptionValue(u, UsesValue), vs,
              OptionBytes(c, CollectionBytes), OptionBytes(u, UsesBytes), bs);
  }

  lemma OriginAlone(f: Format, c: Option<Collection>, u: Option<Uses>)
    requires GoodCollection(c) && GoodUses(u) && f.Field? && f.rest.Field?
    requires f.head == Optional(COLLECTION) && f.rest.head == Optional(USES) && f.rest.rest == End
    ensures Encodes(f, OriginValue(c, u, Unit), OriginBytes(c, u))
  {
    BasicsEncode();
    OriginEncodes(f, c, u, Unit, []);
    assert OriginBytes(c, u) + [] == OriginBytes(c, u);
  }

  lemma AccountTailEncodes(a: Account)
    requires GoodAccount(a)
    ensures Encodes(METADATA_ACCOUNT_TAIL, AccountTail(a), AccountTailBytes(a))
  {
    var f := METADATA_ACCOUNT_TAIL;
    var (f2, f4) := (f.rest.rest, f.rest.rest.rest.rest);
    var v2 := AccountTail(a).tail.tail;
    var (vs, ws) := (OptionValue(a.collectionSize, DetailsValue), OptionValue(a.programmableConfig, ConfigValue));
    var (size, config) := (OptionBytes(a.collectionSize, DetailsBytes), OptionBytes(a.programmableConfig, ConfigBytes));
    var (nonce, standard) := (OptionBytes(a.editionNonce, ByteAlone), OptionBytes(a.tokenStandard, ByteAlone));
    var origin := OriginBytes(a.collection, a.uses);
    BasicsEncode();
    DetailsEncode(a.collectionSize);
    ConfigEncodes(a.programmableConfig);
    OptionalByteEncodes(a.editionNonce);
    OptionalByteEncodes(a.tokenStandard);
    LastTwoEncode(f4.rest.rest, vs, ws, size, config);
    OriginEncodes(f4, a.collection, a.uses, Cons(vs, Cons(ws, Unit)), size + config);
    TwoEncode(f2, OptionValue(a.editionNonce, ByteValue), OptionValue(a.tokenStandard, ByteValue), v2.tail.tail,
              nonce, standard, origin + (size + config));
    TwoEncode(f, Bool(a.primarySaleHappened), Bool(a.isMutable), v2, BoolBytes(a.primarySaleHappened),
              BoolBytes(a.isMutable), nonce + standard + (origin + (size + config)));
  }

  /** MetadataAccount is the Borsh encoding of the record. */
  lemma AccountEncodes(a: Account)
    requires GoodAccount(a)
    ensures Encodes(METADATA_ACCOUNT, AccountValue(a), AccountBytes(a))
  {
    var f := METADATA_ACCOUNT;
    BasicsEncode();
    ByteEncodes(a.key);
    AccountTailEncodes(a);
    TokenAlone(DATA, a.data);
    TwoEncode(f.rest.rest, Blob(a.mint), TokenValue(a.data, Unit), AccountTail(a),
              a.mint, TokenBytes(a.data), AccountTailBytes(a));
    TwoEncode(f, Num(a.key), Blob(a.updateAuthority), AccountValue(a).tail.tail,
              [a.key], a.updateAuthority, a.mint + TokenBytes(a.data) + AccountTailBytes(a));
  }

  lemma AssetEncodes(a: Asset)
    requires GoodCreate(Create(a, None, None))
    ensures Encodes(ASSET_DATA, AssetValue(a), AssetBytes(a))
  {
    var f5 := ASSET_DATA.rest.rest.rest.rest.rest;
    var f8 := f5.rest.rest.rest;
    var v5 := AssetValue(a).tail.tail.tail.tail.tail;
    var (vs, ws) := (OptionValue(a.collectionSize, DetailsValue), OptionValue(a.ruleSet, TextValue));
    var (size, ruleSet) := (OptionBytes(a.collectionSize, DetailsBytes), OptionBytes(a.ruleSet, TextBytes));
    var (sale, isMutable) := (BoolBytes(a.primarySaleHappened), BoolBytes(a.isMutable));
    var bs := OriginBytes(a.collection, a.uses) + (size + ruleSet);
    BasicsEncode();
    DetailsEncode(a.collectionSize);
    OptionalTextEncodes(a.ruleSet);
    ByteEncodes(a.tokenStandard);
    LastTwoEncode(f8.rest.rest, vs, ws, size, ruleSet);
    OriginEncodes(f8, a.collection, a.uses, Cons(vs, Cons(ws, Unit)), size + ruleSet);
    FieldEncodes(f5.rest.rest, Num(a.tokenStandard), v5.tail.tail.tail, [a.tokenStandard], bs);
    TwoEncode(f5, Bool(a.primarySaleHappened), Bool(a.isMutable), v5.tail.tail, sale, isMutable,
              [a.tokenStandard] + bs);
    TokenEncodes(ASSET_DATA, a.data, v5, sale + isMutable + ([a.tokenStandard] + bs));
  }

  /** CreateInstruction is the Borsh encoding of the record, behind its two constants. */
  lemma CreateEncodes(c: Create)
    requires GoodCreate(c)
    ensures Encodes(CREATE_INSTRUCTION, CreateValue(c), CreateBytes(c))
  {
    var f := CREATE_ARGS;
    var args := CreateValue(c).tail.head;
    var (decimals, supply) := (OptionBytes(c.decimals, ByteAlone), OptionBytes(c.printSupply, ByteAlone));
    BasicsEncode();
    AssetEncodes(c.asset);
    OptionalByteEncodes(c.decimals);
    OptionalByteEncodes(c.printSupply);
    LastTwoEncode(f.rest.rest, OptionValue(c.decimals, ByteValue), OptionValue(c.printSupply, ByteValue),
                  decimals, supply);
    TwoEncode(f, Unit, AssetValue(c.asset), args.tail.tail, [0], AssetBytes(c.asset), decimals + supply);
    LastTwoEncode(CREATE_INSTRUCTION, Unit, args, [0x2a], [0] + AssetBytes(c.asset) + (decimals + supply));
  }

  /** CreateMetadataV3Instruction is the Borsh encoding of the record, behind its constant. */
  lemma CreateV3Encodes(c: CreateV3)
    requires GoodCreateV3(c)
    ensures Encodes(CREATE_METADATA_V3_INSTRUCTION, CreateV3Value(c), CreateV3Bytes(c))
  {
    var f := CREATE_METADATA_V3_ARGS;
    var args := CreateV3Value(c).tail.head;
    var (isMutable, size) := (BoolBytes(c.isMutable), OptionBytes(c.collectionSize, DetailsBytes));
    var token := TokenBytes(c.data) + OriginBytes(c.collection, c.uses);
    BasicsEncode();
    OriginAlone(DATA_V2.rest.rest.rest.rest.rest, c.collection, c.uses);
    TokenEncodes(DATA_V2, c.data, OriginValue(c.collection, c.uses, Unit), OriginBytes(c.collection, c.uses));
    DetailsEncode(c.collectionSize);
    LastEncodes(f.rest.rest, OptionValue(c.collectionSize, DetailsValue), size);
    TwoEncode(f, args.head, Bool(c.isMutable), args.tail.tail, token, isMutable, size);
    LastTwoEncode(CREATE_METADATA_V3_INSTRUCTION, Unit, args, [0x21], token + isMutable + size);
  }

  /** The Borsh encoding of a string shorter than 256 bytes. */
  function BorshString(s: bytes): bytes
    requires |s| < 256
  {
    [|s|, 0, 0, 0] + s
  }

  /** The built instruction, written out byte by byte: the instruction number 33, the three strings with 32-bit
      lengths, the 16-bit fee, three absent options, True, one absent option. */
  lemma InstructionBytes(name: bytes, symbol: bytes, uri: bytes, fee: int)
    requires WithinLimits(name, symbol, uri, fee)
    ensures CreateMetadataInstructionData(name, symbol, uri, fee) ==
            Some([0x21] + BorshString(name) + BorshString(symbol) + BorshString(uri)
                 + [fee % 256, fee / 256, 0, 0, 0, 1, 0])
  {
    var c := CreateV3(TokenData(name, symbol, uri, fee, None), None, None, true, None);
    var strings := TextBytes(name) + TextBytes(symbol) + TextBytes(uri);
    CreateV3Encodes(c);
    assert CreateV3Value(c) == InstructionValue(name, symbol, uri, fee);
    assert TextBytes(name) == BorshString(name) && TextBytes(symbol) == BorshString(symbol);
    assert TextBytes(uri) == BorshString(uri);
    assert TokenBytes(c.data) == strings + [fee % 256, fee / 256, 0];
    assert OriginBytes(None, None) == [0, 0];
    assert CreateV3Bytes(c) == [0x21] + strings + [fee % 256, fee / 256, 0, 0, 0, 1, 0];
    assert [0x21] + strings == [0x21] + BorshString(name) + BorshString(symbol) + BorshString(uri);
  }

  lemma {:induction false} CreatorsInjective(a: seq<Creator>, b: seq<Creator>)
    requires CreatorsValue(a) == CreatorsValue(b)
    ensures a == b
  {
    if a != [] && b != [] {
      CreatorsInjective(a[1..], b[1..]);
      assert a == [a[0]] + a[1..] && b == [b[0]] + b[1..];
    }
  }

  lemma TokenInjective(a: TokenData, b: TokenData, v: Value, w: Value)
    requires TokenValue(a, v) == TokenValue(b, w)
    ensures a == b && v == w
  {
    if a.creators.Some? && b.creators.Some? {
      CreatorsInjective(a.creators.value, b.creators.value);
    }
  }

  /** The bytes of an account, followed by anything, determine the account. */
  lemma AccountBytesUnique(a: Account, b: Account, s: bytes, t: bytes)
    requires GoodAccount(a) && GoodAccount(b) && AccountBytes(a) + s == AccountBytes(b) + t
    ensures a == b && s == t
  {
    AccountEncodes(a);
    AccountEncodes(b);
    PrefixFree(METADATA_ACCOUNT, AccountValue(a), AccountValue(b), s, t);
    TokenInjective(a.data, b.data, Unit, Unit);
    TailInjective(a, b);
  }

  lemma TailInjective(a: Account, b: Account)
    requires AccountTail(a) == AccountTail(b)
    ensures a == b.(key := a.key, updateAuthority := a.updateAuthority, mint := a.mint, data := a.data)
  {
    OptionInjective(a.editionNonce, b.editionNonce, ByteValue);
    OptionInjective(a.tokenStandard, b.tokenStandard, ByteValue);
    OptionInjective(a.collection, b.collection, CollectionValue);
    OptionInjective(a.uses, b.uses, UsesValue);
    OptionInjective(a.collectionSize, b.collectionSize, DetailsValue);
    if a.programmableConfig.Some? && b.programmableConfig.Some? {
      OptionInjective(a.programmableConfig.value, b.programmableConfig.value, TextValue);
    }
  }

  lemma OptionInjective<T(!new)>(a: Option<T>, b: Option<T>, value: T -> Value)
    requires OptionValue(a, value) == OptionValue(b, value)
    requires forall x, y | value(x) == value(y) :: x == y
    ensures a == b
  {
  }

  // ---------------------------------------------------------------- get_metadata on the bytes

  function WithNames(d: TokenData, name: bytes, symbol: bytes, uri: bytes): TokenData {
    d.(name := name, symbol := symbol, uri := uri)
  }

  /** Reading the bytes of an account whose strings are NUL-padded gives the account back, with its mint as text and
      without the padding, exactly if none of the strings has an outer NUL of its own; whatever bytes follow. */
  lemma GetMetadataOfBytes(a: Account, i: nat, j: nat, k: nat, suffix: bytes, text: bytes -> bytes)
    requires var d := a.data;
             GoodAccount(a.(data := WithNames(d, d.name + Zeros(i), d.symbol + Zeros(j), d.uri + Zeros(k))))
    ensures var d := a.data;
            var stored := a.(data := WithNames(d, d.name + Zeros(i), d.symbol + Zeros(j), d.uri + Zeros(k)));
            GetMetadata(AccountBytes(stored) + suffix, text) == Some(AccountValue(a.(mint := text(a.mint))))
            <==> Unpadded(d.name) && Unpadded(d.symbol) && Unpadded(d.uri)
  {
    var d := a.data;
    var stored := a.(data := WithNames(d, d.name + Zeros(i), d.symbol + Zeros(j), d.uri + Zeros(k)));
    AccountEncodes(stored);
    var v := AccountValue(stored);
    GetMetadataReadsBack(v, Names(d.name, d.symbol, d.uri), i, j, k, suffix, text);
    assert Replaced(v, text(a.mint), Names(d.name, d.symbol, d.uri)) == AccountValue(a.(mint := text(a.mint)));
  }
}
