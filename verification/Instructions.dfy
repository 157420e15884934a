/**
 `serialize_instruction` (utils/helpers.py) and the instruction builders of utils/instructions.py whose data
 carries numbers. Public keys, hashes and addresses are opaque byte strings.
 */
module Instructions {
  import opened Wrappers
  import opened Construct

  datatype AccountMeta = AccountMeta(pubkey: bytes, isSigner: bool, isWritable: bool)
  datatype Instruction = Instruction(programId: bytes, accounts: seq<AccountMeta>, data: bytes)
  {
    /** Public keys have 32 bytes and lengths fit in 64 bits. */
    predicate Valid() {
      && |programId| == 32
      && (forall i | 0 <= i < |accounts| :: |accounts[i].pubkey| == 32)
      && |accounts| < Pow256(8) && |data| < Pow256(8)
    }
  }

  // ---------------------------------------------------------------- serialize_instruction

  const ACCOUNT_META :=
    Field("pubkey", Raw(32),
    Field("is_signer", Flag,
    Field("is_writable", Flag, End)))

  /** The wire form of a serialized instruction, as a declaration. */
  const SERIALIZED :=
    Field("program_id", Raw(32),
    Field("accounts", PrefixedArray(8, ACCOUNT_META),
    Field("data", PascalString(8), End)))

  function MetaValue(m: AccountMeta): Value {
    Cons(Blob(m.pubkey), Cons(Bool(m.isSigner), Cons(Bool(m.isWritable), Unit)))
  }

  function MetaValues(ms: seq<AccountMeta>): (v: Value)
    ensures Count(v) == |ms|
  {
    if ms == [] then Unit else Cons(MetaValue(ms[0]), MetaValues(ms[1..]))
  }

  function InstructionValue(i: Instruction): Value {
    Cons(Blob(i.programId), Cons(MetaValues(i.accounts), Cons(Blob(i.data), Unit)))
  }

  lemma {:induction false} MetaValuesInjective(a: seq<AccountMeta>, b: seq<AccountMeta>)
    requires MetaValues(a) == MetaValues(b)
    ensures a == b
  {
    if a != [] && b != [] {
      MetaValuesInjective(a[1..], b[1..]);
      assert a == [a[0]] + a[1..] && b == [b[0]] + b[1..];
    }
  }

  /** The bytes the loop of `serialize_instruction` appends for one account. */
  function MetaBytes(m: AccountMeta): bytes {
    m.pubkey + [if m.isSigner then 1 else 0] + [if m.isWritable then 1 else 0]
  }

  lemma MetaFits(m: AccountMeta)
    requires |m.pubkey| == 32
    ensures Fits(ACCOUNT_META, MetaValue(m)) && Build(ACCOUNT_META, MetaValue(m)) == MetaBytes(m)
  {
    LastField("is_writable", Flag, Bool(m.isWritable));
    assert Build(ACCOUNT_META.rest, MetaValue(m).tail)
        == [if m.isSigner then 1 else 0] + [if m.isWritable then 1 else 0];
  }

  function MetasBytes(ms: seq<AccountMeta>): bytes {
    if ms == [] then [] else MetaBytes(ms[0]) + MetasBytes(ms[1..])
  }

  lemma {:induction false} MetasBuild(ms: seq<AccountMeta>)
    requires forall i | 0 <= i < |ms| :: |ms[i].pubkey| == 32
    ensures AllFit(ACCOUNT_META, MetaValues(ms)) && BuildAll(ACCOUNT_META, MetaValues(ms)) == MetasBytes(ms)
  {
    if ms != [] {
      MetaFits(ms[0]);
      MetasBuild(ms[1..]);
    }
  }

  lemma InstructionFits(i: Instruction)
    requires i.Valid()
    ensures Fits(SERIALIZED, InstructionValue(i))
  {
    MetasBuild(i.accounts);
    var (accounts, data) := (MetaValues(i.accounts), Cons(Blob(i.data), Unit));
    LastField("data", PascalString(8), Blob(i.data));
    assert Fits(PrefixedArray(8, ACCOUNT_META), accounts);
    MoreFields("accounts", PrefixedArray(8, ACCOUNT_META), SERIALIZED.rest.rest, accounts, data);
    MoreFields("program_id", Raw(32), SERIALIZED.rest, Blob(i.programId), Cons(accounts, data));
  }

  function Serialized(i: Instruction): bytes
    requires i.Valid()
  {
    InstructionFits(i);
    Build(SERIALIZED, InstructionValue(i))
  }

  lemma {:induction false} MetasBytesAppend(ms: seq<AccountMeta>, m: AccountMeta)
    ensures MetasBytes(ms + [m]) == MetasBytes(ms) + MetaBytes(m)
  {
    if ms == [] {
      assert ms + [m] == [m] && [m][1..] == [];
    } else {
      assert (ms + [m])[1..] == ms[1..] + [m];
      MetasBytesAppend(ms[1..], m);
    }
  }

  /** The accumulating loop writes exactly the declared wire form, for the program given beside the instruction. */
  method SerializeInstruction(programId: bytes, instruction: Instruction) returns (serialized: bytes)
    requires instruction.(programId := programId).Valid()
    ensures serialized == Serialized(instruction.(programId := programId))
  {
    ghost var i := instruction.(programId := programId);
    serialized := programId + ToLE(|instruction.accounts|, 8);
    ghost var head := serialized;
    for k := 0 to |instruction.accounts|
      invariant serialized == head + MetasBytes(i.accounts[..k])
    {
      var key := instruction.accounts[k];
      assert i.accounts[..k + 1] == i.accounts[..k] + [key];
      MetasBytesAppend(i.accounts[..k], key);
      ghost var before := serialized;
      serialized := serialized + key.pubkey;
      serialized := serialized + [if key.isSigner then 1 else 0];
      serialized := serialized + [if key.isWritable then 1 else 0];
      assert serialized == before + MetaBytes(key);
    }
    assert i.accounts[..|i.accounts|] == i.accounts;
    serialized := serialized + (ToLE(|instruction.data|, 8) + instruction.data);
    SerializedParts(i);
  }

  lemma SerializedParts(i: Instruction)
    requires i.Valid()
    ensures Serialized(i) == i.programId + ToLE(|i.accounts|, 8) + MetasBytes(i.accounts)
                           + (ToLE(|i.data|, 8) + i.data)
  {
    InstructionFits(i);
    MetasBuild(i.accounts);
    var last := Cons(Blob(i.data), Unit);
    LastField("data", PascalString(8), Blob(i.data));
    assert Build(SERIALIZED.rest.rest, last) == ToLE(|i.data|, 8) + i.data;
    var metas := MetaValues(i.accounts);
    assert Build(SERIALIZED.rest, Cons(metas, last))
        == Build(PrefixedArray(8, ACCOUNT_META), metas) + (ToLE(|i.data|, 8) + i.data);
    assert InstructionValue(i) == Cons(Blob(i.programId), Cons(metas, last));
    assert Build(Raw(32), Blob(i.programId)) == i.programId;
    assert Serialized(i) == i.programId + (Build(PrefixedArray(8, ACCOUNT_META), metas) + (ToLE(|i.data|, 8) + i.data));
    assert Build(PrefixedArray(8, ACCOUNT_META), metas) == ToLE(|i.accounts|, 8) + BuildAll(ACCOUNT_META, metas);
  }

  /** A serialized instruction is found again in front of any bytes, with nothing else consumed. */
  lemma SerializedDecodes(i: Instruction, suffix: bytes)
    requires i.Valid()
    ensures Parse(SERIALIZED, Serialized(i) + suffix) == Some((InstructionValue(i), suffix))
  {
    InstructionFits(i);
    RoundTrip(SERIALIZED, InstructionValue(i), suffix);
  }

  function Concatenated(list: seq<Instruction>): bytes
    requires forall k | 0 <= k < |list| :: list[k].Valid()
  {
    if list == [] then [] else Serialized(list[0]) + Concatenated(list[1..])
  }

  /** A concatenation of serialized instructions determines the instructions, and how many there are. */
  lemma {:induction false} ConcatenationUnique(a: seq<Instruction>, b: seq<Instruction>)
    requires forall k | 0 <= k < |a| :: a[k].Valid()
    requires forall k | 0 <= k < |b| :: b[k].Valid()
    requires Concatenated(a) == Concatenated(b)
    ensures a == b
  {
    if a != [] {
      NotEmpty(a[0], Concatenated(a[1..]));
    }
    if b != [] {
      NotEmpty(b[0], Concatenated(b[1..]));
    }
    if a != [] && b != [] {
      FirstUnique(a[0], b[0], Concatenated(a[1..]), Concatenated(b[1..]));
      ConcatenationUnique(a[1..], b[1..]);
      assert a == [a[0]] + a[1..] && b == [b[0]] + b[1..];
    }
  }

  lemma NotEmpty(i: Instruction, suffix: bytes)
    requires i.Valid()
    ensures Serialized(i) + suffix != []
  {
    SerializedParts(i);
    assert |Serialized(i)| >= 32;
  }

  lemma FirstUnique(i: Instruction, j: Instruction, s: bytes, t: bytes)
    requires i.Valid() && j.Valid() && Serialized(i) + s == Serialized(j) + t
    ensures i == j && s == t
  {
    SerializedDecodes(i, s);
    SerializedDecodes(j, t);
    MetaValuesInjective(i.accounts, j.accounts);
  }

  // ---------------------------------------------------------------- transaction steps

  const STEP :=
    Field("tag", UInt(1),
    Field("treasury_buffer", Raw(4),
    Field("step_count", UInt(4),
    Field("index", UInt(4), End))))

  const CANCEL := Field("tag", Const([0x37]), Field("hash", Raw(32), End))

  const DEPOSIT :=
    Field("tag", Const([0x31]),
    Field("ether_address", Raw(20),
    Field("chain_id", UInt(8), End)))

  const CREATE_HOLDER := Field("tag", Const([0x24]), Field("seed", PascalString(8), End))

  datatype TreasuryPool = TreasuryPool(account: bytes, buffer: bytes)

  /** None stands for the OverflowError of `to_bytes(4, "little")`. */
  function StepData(tag: byte, buffer: bytes, stepCount: int, index: int, payload: bytes): Option<bytes> {
    if 0 <= stepCount < Pow256(4) && 0 <= index < Pow256(4) then
      Some([tag] + buffer + ToLE(stepCount, 4) + ToLE(index, 4) + payload)
    else None
  }

  /** The data is built exactly for 32-bit counts, and splits back into tag, buffer, count, index and payload.
      Without a payload it is the data of a step from an account. */
  lemma StepDataDecodes(tag: byte, buffer: bytes, stepCount: int, index: int, payload: bytes)
    requires |buffer| == 4
    ensures var data := StepData(tag, buffer, stepCount, index, payload);
            && (data.Some? <==> 0 <= stepCount < 0x1_0000_0000 && 0 <= index < 0x1_0000_0000)
            && (data.Some? ==>
                 |data.value| == 13 + |payload| &&
                 Parse(STEP, data.value) ==
                 Some((Cons(Num(tag), Cons(Blob(buffer), Cons(Num(stepCount), Cons(Num(index), Unit)))), payload)))
  {
    Pow256Values();
    var data := StepData(tag, buffer, stepCount, index, payload);
    if data.Some? {
      var v := Cons(Num(tag), Cons(Blob(buffer), Cons(Num(stepCount), Cons(Num(index), Unit))));
      var (f3, v3) := (STEP.rest.rest.rest, v.tail.tail.tail);
      LastField("index", UInt(4), Num(index));
      assert Fits(f3, v3) && Build(f3, v3) == ToLE(index, 4);
      assert Fits(STEP.rest.rest, v.tail.tail);
      assert Build(STEP.rest.rest, v.tail.tail) == ToLE(stepCount, 4) + ToLE(index, 4);
      assert Fits(STEP.rest, v.tail);
      assert ToLE(tag, 1) == [tag] by { assert ToLE(0, 0) == []; }
      assert Build(STEP.rest, v.tail) == buffer + (ToLE(stepCount, 4) + ToLE(index, 4));
      assert Build(STEP, v) == [tag] + (buffer + (ToLE(stepCount, 4) + ToLE(index, 4)));
      assert Build(STEP, v) + payload == data.value;
      RoundTrip(STEP, v, payload);
    }
  }

  /** The other builders: each data is what its declaration builds, so it splits back uniquely. */
  lemma OtherDataDecodes(hash: bytes, address: bytes, chainId: nat, seed: bytes, suffix: bytes)
    requires |hash| == 32 && |address| == 20 && chainId < Pow256(8) && |seed| < Pow256(8)
    ensures Parse(CANCEL, [0x37] + hash + suffix) == Some((Cons(Unit, Cons(Blob(hash), Unit)), suffix))
    ensures Parse(DEPOSIT, [0x31] + address + ToLE(chainId, 8) + suffix)
         == Some((Cons(Unit, Cons(Blob(address), Cons(Num(chainId), Unit))), suffix))
    ensures Parse(CREATE_HOLDER, [0x24] + ToLE(|seed|, 8) + seed + suffix)
         == Some((Cons(Unit, Cons(Blob(seed), Unit)), suffix))
  {
    var cancel := Cons(Unit, Cons(Blob(hash), Unit));
    LastField("hash", Raw(32), Blob(hash));
    assert Build(CANCEL, cancel) + suffix == [0x37] + hash + suffix;
    RoundTrip(CANCEL, cancel, suffix);
    var deposit := Cons(Unit, Cons(Blob(address), Cons(Num(chainId), Unit)));
    LastField("chain_id", UInt(8), Num(chainId));
    assert Fits(DEPOSIT.rest, deposit.tail);
    assert Build(DEPOSIT.rest, deposit.tail) == address + ToLE(chainId, 8);
    assert Build(DEPOSIT, deposit) + suffix == [0x31] + address + ToLE(chainId, 8) + suffix;
    RoundTrip(DEPOSIT, deposit, suffix);
    var holder := Cons(Unit, Cons(Blob(seed), Unit));
    LastField("seed", PascalString(8), Blob(seed));
    assert Build(CREATE_HOLDER, holder) + suffix == [0x24] + ToLE(|seed|, 8) + seed + suffix;
    RoundTrip(CREATE_HOLDER, holder, suffix);
  }

  /** `make_PartialCallOrContinueFromRawEthereumTX`; with an empty payload and tag 0x35 or 0x36 it is
      `make_ExecuteTrxFromAccountDataIterativeOrContinue`, which builds the same accounts. */
  method MakeStep(tag: byte, index: int, stepCount: int, payload: bytes, operator: bytes, operatorBalance: bytes,
                  loader: bytes, holder: bytes, treasury: TreasuryPool, additional: seq<bytes>, systemProgram: bytes)
    returns (instruction: Option<Instruction>)
    ensures var data := StepData(tag, treasury.buffer, stepCount, index, payload);
            instruction.Some? == data.Some? && (data.Some? ==> instruction.value.data == data.value)
    ensures instruction.Some? ==>
              var metas := instruction.value.accounts;
              && instruction.value.programId == loader
              && |metas| == 5 + |additional|
              && metas[0].pubkey == holder && metas[1].pubkey == operator && metas[2].pubkey == treasury.account
              && metas[3].pubkey == operatorBalance && metas[4].pubkey == systemProgram
              && (forall k | 0 <= k < |additional| :: metas[5 + k].pubkey == additional[k])
              && (forall k | 0 <= k < |metas| :: metas[k].isWritable && (metas[k].isSigner <==> k == 1))
  {
    var data := StepData(tag, treasury.buffer, stepCount, index, payload);
    if data.None? {
      return None;
    }
    var accounts := [
      AccountMeta(holder, false, true),
      AccountMeta(operator, true, true),
      AccountMeta(treasury.account, false, true),
      AccountMeta(operatorBalance, false, true),
      AccountMeta(systemProgram, false, true)
    ];
    ghost var fixedAccounts := accounts;
    for k := 0 to |additional|
      invariant |accounts| == 5 + k && accounts[..5] == fixedAccounts
      invariant forall j | 0 <= j < k :: accounts[5 + j] == AccountMeta(additional[j], false, true)
    {
      accounts := accounts + [AccountMeta(additional[k], false, true)];
    }
    forall k | 0 <= k < |accounts|
      ensures accounts[k].isWritable && (accounts[k].isSigner <==> k == 1)
    {
      if k < 5 {
        assert accounts[k] == accounts[..5][k];
      } else {
        var j := k - 5;
        assert accounts[5 + j] == AccountMeta(additional[j], false, true);
      }
    }
    assert forall k | 0 <= k < 5 :: accounts[k] == accounts[..5][k];
    instruction := Some(Instruction(loader, accounts, data.value));
  }
}
