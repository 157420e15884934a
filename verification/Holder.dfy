/**
 The holder upload: `write_transaction_to_holder_account` (utils/evm_loader.py), `make_WriteHolder`
 (utils/instructions.py), the header layout (utils/layouts.py) and the reader `transaction_from_holder`
 (integration/tests/neon_evm/test_holder_account.py).

 The on-chain program is an environment contract, `Execute`: WriteHolder copies the payload at its offset,
 moves `len` up to the largest end written, forgets the old `len` when the hash changes, and refuses a write
 whose end overflows 64 bits or passes the end of the account.
 */
module Holder {
  import opened Wrappers
  import opened Construct

  const HOLDER_ACCOUNT_INFO_LAYOUT :=
    Field("tag", UInt(1),
    Field("header_version", UInt(1),
    Field("owner", Raw(32),
    Field("hash", Raw(32),
    Field("len", UInt(8),
    Field("heap_offset", UInt(8), End))))))

  const HEADER_SIZE := 82

  /** Data of a WriteHolder instruction; the payload is what follows these fields. */
  const WRITE_HOLDER :=
    Field("tag", Const([0x26]),
    Field("hash", Raw(32),
    Field("offset", UInt(8), End)))

  const PART_SIZE := 920
  const U64_LIMIT := 0x1_0000_0000_0000_0000
  /** Python's largest bytes object is shorter than this. */
  const BYTES_LIMIT := 0x8000_0000_0000_0000

  // ---------------------------------------------------------------- instruction data

  function WriteHolderValue(hash: bytes, offset: nat): Value {
    Cons(Unit, Cons(Blob(hash), Cons(Num(offset), Unit)))
  }

  lemma WriteHolderFits(hash: bytes, offset: nat)
    requires |hash| == 32 && offset < U64_LIMIT
    ensures Fits(WRITE_HOLDER, WriteHolderValue(hash, offset))
  {
    Pow256Values();
    assert Fits(WRITE_HOLDER.rest.rest.rest, Unit);
    assert Fits(WRITE_HOLDER.rest.rest, Cons(Num(offset), Unit));
    assert Fits(WRITE_HOLDER.rest, Cons(Blob(hash), Cons(Num(offset), Unit)));
  }

  function MakeWriteHolder(hash: bytes, offset: nat, payload: bytes): bytes
    requires |hash| == 32 && offset < U64_LIMIT
  {
    WriteHolderFits(hash, offset);
    Build(WRITE_HOLDER, WriteHolderValue(hash, offset)) + payload
  }

  /** The data written out: the tag 0x26, the hash, eight bytes of offset, and the payload. */
  lemma WriteHolderBytes(hash: bytes, offset: nat, payload: bytes)
    requires |hash| == 32 && offset < 0x1_0000_0000_0000_0000
    ensures MakeWriteHolder(hash, offset, payload) == [0x26] + hash + EightBytes(offset) + payload
  {
    WriteHolderFits(hash, offset);
    UInt64Bytes(offset);
    var last := Cons(Num(offset), Unit);
    LastField("offset", UInt(8), Num(offset));
    MoreFields("hash", Raw(32), WRITE_HOLDER.rest.rest, Blob(hash), last);
    assert Build(WRITE_HOLDER.rest.rest, last) == EightBytes(offset);
    assert Build(WRITE_HOLDER.rest, Cons(Blob(hash), last)) == hash + EightBytes(offset);
    assert Build(WRITE_HOLDER, WriteHolderValue(hash, offset)) == [0x26] + (hash + EightBytes(offset));
  }

  // ---------------------------------------------------------------- the account and the program

  datatype Account = Account(
    tag: byte, version: byte, owner: bytes, hash: bytes, len: nat, heapOffset: nat, data: bytes)
  {
    predicate Valid() {
      |owner| == 32 && |hash| == 32 && len <= |data| < U64_LIMIT && heapOffset < U64_LIMIT
    }
  }

  function HeaderValue(a: Account): Value {
    Cons(Num(a.tag), Cons(Num(a.version), Cons(Blob(a.owner), Cons(Blob(a.hash),
      Cons(Num(a.len), Cons(Num(a.heapOffset), Unit))))))
  }

  lemma HeaderFits(a: Account)
    requires a.Valid()
    ensures Fits(HOLDER_ACCOUNT_INFO_LAYOUT, HeaderValue(a))
    ensures |Build(HOLDER_ACCOUNT_INFO_LAYOUT, HeaderValue(a))| == HEADER_SIZE
  {
    Pow256Values();
    var (f, v) := (HOLDER_ACCOUNT_INFO_LAYOUT, HeaderValue(a));
    var (f4, v4) := (f.rest.rest.rest.rest, v.tail.tail.tail.tail);
    assert Fits(f4.rest.rest, Unit);
    assert Fits(f4.rest, v4.tail);
    assert |Build(f4.rest, v4.tail)| == 8;
    assert Fits(f4, v4);
    assert |Build(f4, v4)| == 16;
    assert Fits(f.rest.rest.rest, v.tail.tail.tail);
    assert |Build(f.rest.rest.rest, v.tail.tail.tail)| == 48;
    assert Fits(f.rest.rest, v.tail.tail);
    assert |Build(f.rest.rest, v.tail.tail)| == 80;
    assert Fits(f.rest, v.tail);
    assert |Build(f.rest, v.tail)| == 81;
  }

  /** The account's bytes as the chain stores them. */
  function AccountBytes(a: Account): bytes
    requires a.Valid()
  {
    HeaderFits(a);
    Build(HOLDER_ACCOUNT_INFO_LAYOUT, HeaderValue(a)) + a.data
  }

  /** The account's bytes written out. */
  lemma AccountBytesWritten(a: Account)
    requires a.Valid()
    ensures AccountBytes(a)
         == [a.tag, a.version] + a.owner + a.hash + EightBytes(a.len) + EightBytes(a.heapOffset) + a.data
  {
    HeaderFits(a);
    UInt64Bytes(a.len);
    UInt64Bytes(a.heapOffset);
    var (f, v) := (HOLDER_ACCOUNT_INFO_LAYOUT, HeaderValue(a));
    var (f3, v3) := (f.rest.rest.rest, v.tail.tail.tail);
    var (f4, v4) := (f3.rest, v3.tail);
    LastField("heap_offset", UInt(8), Num(a.heapOffset));
    MoreFields("len", UInt(8), f4.rest, Num(a.len), v4.tail);
    assert Build(f4, v4) == EightBytes(a.len) + EightBytes(a.heapOffset);
    MoreFields("hash", Raw(32), f4, Blob(a.hash), v4);
    assert Build(f3, v3) == a.hash + (EightBytes(a.len) + EightBytes(a.heapOffset));
    MoreFields("owner", Raw(32), f3, Blob(a.owner), v3);
    assert Build(f.rest.rest, v.tail.tail) == a.owner + Build(f3, v3);
    OneByte(a.tag);
    OneByte(a.version);
    MoreFields("header_version", UInt(1), f.rest.rest, Num(a.version), v.tail.tail);
    assert Build(f.rest, v.tail) == [a.version] + Build(f.rest.rest, v.tail.tail);
    assert Build(f, v) == [a.tag] + Build(f.rest, v.tail);
  }

  lemma OneByte(b: byte)
    ensures Fits(UInt(1), Num(b)) && Build(UInt(1), Num(b)) == [b]
  {
    Pow256Values();
    assert ToLE(0, 0) == [];
  }

  datatype WriteError = BadInstruction | HolderOverflow | HolderInsufficientSize

  function Execute(a: Account, instruction: bytes): Result<Account, WriteError> {
    match Parse(WRITE_HOLDER, instruction)
    case None => Failure(BadInstruction)
    case Some((v, payload)) =>
      ParseSound(WRITE_HOLDER, instruction);
      assert Fits(WRITE_HOLDER.rest, v.tail);
      assert Fits(WRITE_HOLDER.rest.rest, v.tail.tail);
      var hash, offset := v.tail.head.bs, v.tail.tail.head.n;
      var end := offset + |payload|;
      if end >= U64_LIMIT then Failure(HolderOverflow)
      else if end > |a.data| then Failure(HolderInsufficientSize)
      else
        var len := if hash == a.hash then a.len else 0;
        Success(a.(hash := hash,
                   len := if len < end then end else len,
                   data := a.data[..offset] + payload + a.data[end..]))
  }

  /** A refused instruction leaves the account as it was. */
  function Deliver(a: Account, instruction: bytes): Account {
    match Execute(a, instruction)
    case Success(a') => a'
    case Failure(_) => a
  }

  predicate Indices(order: seq<nat>, n: nat) {
    forall i | 0 <= i < |order| :: order[i] < n
  }

  /** The network applies `instructions[order[0]]`, then `instructions[order[1]]`, and so on. */
  function DeliverAll(a: Account, instructions: seq<bytes>, order: seq<nat>): Account
    requires Indices(order, |instructions|)
  {
    if order == [] then a
    else Deliver(DeliverAll(a, instructions, order[..|order| - 1]), instructions[order[|order| - 1]])
  }

  /** `data[HEADER_SIZE:][:header.len]` after parsing the header. */
  function TransactionFromHolder(data: bytes): Option<bytes> {
    match Parse(HOLDER_ACCOUNT_INFO_LAYOUT, data)
    case None => None
    case Some((v, _)) =>
      ParseSound(HOLDER_ACCOUNT_INFO_LAYOUT, data);
      LenField(v);
      var len := v.tail.tail.tail.tail.head.n;
      var rest := if |data| < HEADER_SIZE then [] else data[HEADER_SIZE..];
      Some(if len < |rest| then rest[..len] else rest)
  }

  lemma LenField(v: Value)
    requires Fits(HOLDER_ACCOUNT_INFO_LAYOUT, v)
    ensures v.Cons? && v.tail.Cons? && v.tail.tail.Cons? && v.tail.tail.tail.Cons? && v.tail.tail.tail.tail.Cons?
    ensures v.tail.tail.tail.tail.head.Num?
  {
    var f := HOLDER_ACCOUNT_INFO_LAYOUT;
    assert Fits(f.rest, v.tail);
    assert Fits(f.rest.rest, v.tail.tail);
    assert Fits(f.rest.rest.rest, v.tail.tail.tail);
    assert Fits(f.rest.rest.rest.rest, v.tail.tail.tail.tail);
    assert Fits(UInt(8), v.tail.tail.tail.tail.head);
  }

  /** The reader returns the first `len` bytes after the header. */
  lemma ReaderReadsLen(a: Account)
    requires a.Valid()
    ensures TransactionFromHolder(AccountBytes(a)) == Some(a.data[..a.len])
  {
    HeaderFits(a);
    RoundTrip(HOLDER_ACCOUNT_INFO_LAYOUT, HeaderValue(a), a.data);
    assert AccountBytes(a)[HEADER_SIZE..] == a.data;
    assert a.data[..|a.data|] == a.data;
    assert HeaderValue(a).tail.tail.tail.tail.head == Num(a.len);
  }

  /** What one well-formed instruction does, read off its arguments. */
  lemma ExecuteWrite(a: Account, hash: bytes, offset: nat, payload: bytes)
    requires |hash| == 32 && offset < U64_LIMIT
    ensures Execute(a, MakeWriteHolder(hash, offset, payload)) ==
            var end := offset + |payload|;
            if end >= U64_LIMIT then Failure(HolderOverflow)
            else if end > |a.data| then Failure(HolderInsufficientSize)
            else var len := if hash == a.hash then a.len else 0;
                 Success(a.(hash := hash, len := if len < end then end else len,
                            data := a.data[..offset] + payload + a.data[end..]))
  {
    WriteHolderFits(hash, offset);
    RoundTrip(WRITE_HOLDER, WriteHolderValue(hash, offset), payload);
  }

  /** The two refusals the tests expect, for every account of at most 128 KiB. */
  lemma WriteRefusals(a: Account, hash: bytes)
    requires |hash| == 32 && |a.data| <= 128 * 1024
    ensures Execute(a, MakeWriteHolder(hash, 0xFFFF_FFFF_FFFF_FFFF, [0])) == Failure(HolderOverflow)
    ensures Execute(a, MakeWriteHolder(hash, 0xFFFF_FFFF, [0])) == Failure(HolderInsufficientSize)
  {
    ExecuteWrite(a, hash, 0xFFFF_FFFF_FFFF_FFFF, [0]);
    ExecuteWrite(a, hash, 0xFFFF_FFFF, [0]);
  }

  // ---------------------------------------------------------------- the upload

  /** The bytes of part k: 920 of them, or what is left. */
  function Part(raw: bytes, k: nat): (part: bytes)
    requires PART_SIZE * k < |raw|
    ensures |part| == if |raw| - 920 * k < 920 then |raw| - 920 * k else 920
  {
    var start := PART_SIZE * k;
    if |raw| - start <= PART_SIZE then raw[start..] else raw[start..start + PART_SIZE]
  }

  function PartCount(raw: bytes): nat {
    (|raw| + PART_SIZE - 1) / PART_SIZE
  }

  /** The instructions of an upload: one per part, at the part's own offset. */
  function Writes(raw: bytes, hash: bytes): (w: seq<bytes>)
    requires |hash| == 32 && |raw| < BYTES_LIMIT
  {
    seq(PartCount(raw), k requires 0 <= k < PartCount(raw) =>
      MakeWriteHolder(hash, PART_SIZE * k, Part(raw, k)))
  }

  /** The parts tile the transaction: position p lies in part p / 920 and in no other. */
  lemma PartsTile(raw: bytes, p: nat)
    requires p < |raw|
    ensures p / 920 < PartCount(raw)
    ensures forall k | 0 <= k < PartCount(raw) ::
              920 * k < |raw| && (920 * k <= p < 920 * k + |Part(raw, k)| <==> k == p / 920)
    ensures var k := p / 920; Part(raw, k)[p - 920 * k] == raw[p]
  {
  }

  /** The upload written out: as many instructions as 920-byte parts are needed, each with tag, hash, the offset
      of its part and the bytes of its part. */
  lemma WritesBytes(raw: bytes, hash: bytes)
    requires |hash| == 32 && |raw| < BYTES_LIMIT
    ensures |raw| <= 920 * |Writes(raw, hash)| < |raw| + 920
    ensures forall k | 0 <= k < |Writes(raw, hash)| ::
              var end := if 920 * k + 920 < |raw| then 920 * k + 920 else |raw|;
              920 * k < end && Writes(raw, hash)[k] == [0x26] + hash + EightBytes(920 * k) + raw[920 * k..end]
  {
    forall k | 0 <= k < |Writes(raw, hash)|
      ensures var end := if 920 * k + 920 < |raw| then 920 * k + 920 else |raw|;
              920 * k < end && Writes(raw, hash)[k] == [0x26] + hash + EightBytes(920 * k) + raw[920 * k..end]
    {
      WriteHolderBytes(hash, PART_SIZE * k, Part(raw, k));
    }
  }

  /** The operator's connection: transactions sent so far and receipts confirmed so far.
      A receipt is the index of the transaction it belongs to. */
  class Connection {
    var sent: seq<bytes>
    var confirmed: seq<nat>

    constructor ()
      ensures sent == [] && confirmed == []
    {
      sent, confirmed := [], [];
    }

    method SendTransaction(instruction: bytes) returns (receipt: nat)
      modifies this`sent
      ensures sent == old(sent) + [instruction] && receipt == |old(sent)|
    {
      receipt := |sent|;
      sent := sent + [instruction];
    }

    method ConfirmTransaction(receipt: nat)
      modifies this`confirmed
      ensures confirmed == old(confirmed) + [receipt]
    {
      confirmed := confirmed + [receipt];
    }

    /** Sends exactly the writes of the upload, in order and each once, and then confirms each once. */
    method WriteTransactionToHolderAccount(raw: bytes, hash: bytes)
      requires |hash| == 32 && |raw| < BYTES_LIMIT
      modifies this
      ensures sent == old(sent) + Writes(raw, hash)
      ensures confirmed == old(confirmed) + seq(|Writes(raw, hash)|, k => |old(sent)| + k)
      ensures forall k | 0 <= k < |sent| - |old(sent)| ::
                var end := if 920 * k + 920 < |raw| then 920 * k + 920 else |raw|;
                920 * k < end && sent[|old(sent)| + k] == [0x26] + hash + EightBytes(920 * k) + raw[920 * k..end]
    {
      var offset := 0;
      var receipts: seq<nat> := [];
      var rest := raw;
      ghost var writes := Writes(raw, hash);
      while |rest| != 0
        invariant offset + |rest| == |raw| && rest == raw[offset..]
        invariant |receipts| <= |writes|
        invariant if rest == [] then |receipts| == |writes| else offset == PART_SIZE * |receipts|
        invariant sent == old(sent) + writes[..|receipts|]
        invariant receipts == seq(|receipts|, k => |old(sent)| + k)
        invariant confirmed == old(confirmed)
      {
        var size := if |rest| < PART_SIZE then |rest| else PART_SIZE;
        var part := rest[..size];
        rest := rest[size..];
        assert part == Part(raw, |receipts|);
        var receipt := SendTransaction(MakeWriteHolder(hash, offset, part));
        receipts := receipts + [receipt];
        offset := offset + |part|;
      }
      for i := 0 to |receipts|
        invariant sent == old(sent) + writes
        invariant confirmed == old(confirmed) + receipts[..i]
      {
        ConfirmTransaction(receipts[i]);
      }
      WritesBytes(raw, hash);
    }
  }

  // ---------------------------------------------------------------- delivery in any order

  /** Every write is applied at least once; nothing is said of the order or of repetition. */
  ghost predicate Complete(order: seq<nat>, n: nat) {
    Indices(order, n) && (forall k | 0 <= k < n :: k in order)
  }

  function PartEnd(raw: bytes, k: nat): nat
    requires PART_SIZE * k < |raw|
  {
    PART_SIZE * k + |Part(raw, k)|
  }

  /** `end` is the largest end among the parts applied. */
  ghost predicate LargestEnd(raw: bytes, order: seq<nat>, end: nat)
    requires Indices(order, PartCount(raw))
  {
    (exists k | k in order :: PartEnd(raw, k) == end) && (forall k | k in order :: PartEnd(raw, k) <= end)
  }

  /** The parts applied are in place. */
  ghost predicate Copied(data: bytes, raw: bytes, order: seq<nat>) {
    |raw| <= |data| && forall p | 0 <= p < |raw| && p / PART_SIZE in order :: data[p] == raw[p]
  }

  /** Writing one more part disturbs no other part. */
  lemma CopyOne(data: bytes, raw: bytes, order: seq<nat>, k: nat)
    requires Copied(data, raw, order) && k < PartCount(raw)
    ensures Copied(data[..PART_SIZE * k] + Part(raw, k) + data[PartEnd(raw, k)..], raw, order + [k])
  {
    var data' := data[..PART_SIZE * k] + Part(raw, k) + data[PartEnd(raw, k)..];
    forall p | 0 <= p < |raw| && p / PART_SIZE in order + [k]
      ensures data'[p] == raw[p]
    {
      PartsTile(raw, p);
    }
  }

  lemma LargestEndOne(raw: bytes, order: seq<nat>, k: nat, end: nat)
    requires Indices(order, PartCount(raw)) && k < PartCount(raw) && LargestEnd(raw, order, end)
    ensures var here := PartEnd(raw, k);
            LargestEnd(raw, order + [k], if end < here then here else end)
  {
    var here := PartEnd(raw, k);
    var j :| j in order && PartEnd(raw, j) == end;
    assert j in order + [k] && k in order + [k];
  }

  function LenAfter(a: Account, hash: bytes, end: nat): nat {
    if a.hash == hash && a.len > end then a.len else end
  }

  lemma DeliverPart(a: Account, raw: bytes, hash: bytes, k: nat)
    requires a.Valid() && |hash| == 32 && |raw| <= |a.data| && |raw| < BYTES_LIMIT && k < PartCount(raw)
    ensures var end := PartEnd(raw, k);
            Deliver(a, Writes(raw, hash)[k]) ==
            a.(hash := hash, len := LenAfter(a, hash, end),
               data := a.data[..PART_SIZE * k] + Part(raw, k) + a.data[end..])
  {
    ExecuteWrite(a, hash, PART_SIZE * k, Part(raw, k));
  }

  /** The data after any prefix of any delivery into a large enough account. */
  lemma {:induction false} DeliveredData(a: Account, raw: bytes, hash: bytes, order: seq<nat>)
    requires a.Valid() && |hash| == 32 && |raw| <= |a.data| && |raw| < BYTES_LIMIT
    requires Indices(order, PartCount(raw))
    ensures var a' := DeliverAll(a, Writes(raw, hash), order);
            a'.Valid() && |a'.data| == |a.data| && Copied(a'.data, raw, order)
  {
    if order != [] {
      var (before, k) := (order[..|order| - 1], order[|order| - 1]);
      assert order == before + [k];
      DeliveredData(a, raw, hash, before);
      var a0 := DeliverAll(a, Writes(raw, hash), before);
      DeliverPart(a0, raw, hash, k);
      CopyOne(a0.data, raw, before, k);
    }
  }

  /** The header after any prefix of any delivery: `len` is the largest end, or an older and longer `len`
      under the same hash. */
  lemma {:induction false} DeliveredLen(a: Account, raw: bytes, hash: bytes, order: seq<nat>) returns (end: nat)
    requires a.Valid() && |hash| == 32 && |raw| <= |a.data| && |raw| < BYTES_LIMIT
    requires order != [] && Indices(order, PartCount(raw))
    ensures LargestEnd(raw, order, end)
    ensures var a' := DeliverAll(a, Writes(raw, hash), order);
            a'.hash == hash && a'.len == LenAfter(a, hash, end)
  {
    var (before, k) := (order[..|order| - 1], order[|order| - 1]);
    assert order == before + [k];
    DeliveredData(a, raw, hash, before);
    DeliverPart(DeliverAll(a, Writes(raw, hash), before), raw, hash, k);
    end := PartEnd(raw, k);
    if before != [] {
      var end0 := DeliveredLen(a, raw, hash, before);
      LargestEndOne(raw, before, k, end0);
      end := if end0 < end then end else end0;
    }
  }

  /** Every delivery, even one that is refused in part, keeps the account valid and its size; and where the hash was
      the upload's own from the beginning, `len` does not shrink. */
  lemma {:induction false} DeliveryFrame(a: Account, raw: bytes, hash: bytes, order: seq<nat>)
    requires a.Valid() && |hash| == 32 && |raw| < BYTES_LIMIT
    requires Indices(order, PartCount(raw))
    ensures var a' := DeliverAll(a, Writes(raw, hash), order);
            && a'.Valid() && |a'.data| == |a.data|
            && (a.hash == hash ==> a'.hash == hash && a'.len >= a.len)
  {
    if order != [] {
      var (before, k) := (order[..|order| - 1], order[|order| - 1]);
      DeliveryFrame(a, raw, hash, before);
      ExecuteWrite(DeliverAll(a, Writes(raw, hash), before), hash, PART_SIZE * k, Part(raw, k));
    }
  }

  /** For every account, transaction and complete delivery, in any order and with any repetition, the reader
      returns the raw transaction exactly when it fits the account and the account holds no longer text
      under the same hash (an empty transaction sends nothing, so then the account must read empty). */
  lemma UploadReadsBack(a: Account, raw: bytes, hash: bytes, order: seq<nat>)
    requires a.Valid() && |hash| == 32 && |raw| < BYTES_LIMIT
    requires Complete(order, PartCount(raw))
    ensures var a' := DeliverAll(a, Writes(raw, hash), order);
            && a'.Valid()
            && (TransactionFromHolder(AccountBytes(a')) == Some(raw)
                <==> |raw| <= |a.data| && if raw == [] then a.len == 0 else a.hash != hash || a.len <= |raw|)
  {
    if order != [] {
      assert order[0] < PartCount(raw);
    }
    DeliveryFrame(a, raw, hash, order);
    var a' := DeliverAll(a, Writes(raw, hash), order);
    ReaderReadsLen(a');
    if |raw| <= |a.data| {
      DeliveredData(a, raw, hash, order);
      if raw != [] {
        var last := PartCount(raw) - 1;
        assert last in order;
        assert PartEnd(raw, last) == |raw|;
        var end := DeliveredLen(a, raw, hash, order);
        assert end == |raw|;
        forall p | 0 <= p < |raw|
          ensures a'.data[p] == raw[p]
        {
          PartsTile(raw, p);
        }
        assert a'.data[..|raw|] == raw;
      }
    }
  }

  /** The other case does occur: an account holding two bytes under the same hash keeps the second one. */
  lemma LongerTextStays(a: Account, raw: bytes, hash: bytes)
    requires |hash| == 32 && a == Account(1, 0, hash, hash, 2, 0, [5, 6]) && raw == [7]
    ensures PartCount(raw) == 1 && Complete([0], 1)
    ensures var a' := DeliverAll(a, Writes(raw, hash), [0]);
            a.Valid() && a'.Valid() && TransactionFromHolder(AccountBytes(a')) != Some(raw)
  {
    assert [0][0] == 0;
    UploadReadsBack(a, raw, hash, [0]);
  }
}
