/**
 EIP-1559 transaction parameters of utils/web3client.py: `make_raw_tx_eip_1559`, `gas_price_to_eip1559_params`
 and the EIP-1559 branch of `make_raw_tx`. What the node answers is an input; accounts are their
 addresses; the multiplier and the numbers are exact.
 */
module RawTx {
  import opened Wrappers
  import opened Lists
  import opened CamelCase

  datatype Value = Number(n: real) | Text(s: string) | Bytes(b: seq<bv8>) | Entries(ids: seq<int>)

  datatype Error = KeyError | TypeError | AssertionError

  datatype Parameter =
    | ChainId | From | To | Amount | Nonce | Data | AccessList | Gas | MaxPriorityFeePerGas | MaxFeePerGas

  const AUTO := Some(Text("auto"))
  const EIP_1559 := Number(2.0)
  const GAS_PARAMETERS := [Gas, MaxPriorityFeePerGas, MaxFeePerGas]

  /** The answers of the node; an estimate may depend on every parameter known so far. */
  datatype Node = Node(
    chainId: int,
    getNonce: Option<Value> -> int,
    estimateGas: map<string, Value> -> int,
    maxPriorityFee: int,
    baseFeePerGas: int)

  /** The arguments of a call, and the key under which each parameter is stored. */
  datatype Call = Call(
    node: Node,
    given: Parameter -> Option<Value>,
    baseFeeMultiplier: real,
    key: Parameter -> string)

  /** The parameter's name is these words with an underscore between them. */
  function Words(p: Parameter): seq<string> {
    match p
    case ChainId => ["chain", "id"]
    case From => ["from", ""]
    case To => ["to"]
    case Amount => ["value"]
    case Nonce => ["nonce"]
    case Data => ["data"]
    case AccessList => ["access", "list"]
    case Gas => ["gas"]
    case MaxPriorityFeePerGas => ["max", "priority", "fee", "per", "gas"]
    case MaxFeePerGas => ["max", "fee", "per", "gas"]
  }

  function Key(p: Parameter): string {
    CaseSnakeToCamel(Snake(Words(p)))
  }

  // ---------------------------------------------------------------- keys

  /** The name web3 gives the parameter. */
  function Web3Name(p: Parameter): string {
    match p
    case ChainId => "chainId"
    case From => "from"
    case To => "to"
    case Amount => "value"
    case Nonce => "nonce"
    case Data => "data"
    case AccessList => "accessList"
    case Gas => "gas"
    case MaxPriorityFeePerGas => "maxPriorityFeePerGas"
    case MaxFeePerGas => "maxFeePerGas"
  }

  lemma WordsAreWords(p: Parameter)
    ensures AreWords(Words(p))
  {
  }

  lemma FeePerGas()
    ensures Capitals(["fee", "per", "gas"]) == "FeePerGas"
  {
    assert Capital("fee") == "Fee" && Capital("per") == "Per" && Capital("gas") == "Gas";
    assert ["per", "gas"][1..] == ["gas"] && Capitals(["per", "gas"]) == "PerGas";
    assert ["fee", "per", "gas"][1..] == ["per", "gas"];
  }

  lemma PriorityFeePerGas()
    ensures Capitals(["priority", "fee", "per", "gas"]) == "PriorityFeePerGas"
  {
    FeePerGas();
    assert ["priority", "fee", "per", "gas"][1..] == ["fee", "per", "gas"];
    assert Capital("priority") == "Priority";
    assert "Priority" + "FeePerGas" == "PriorityFeePerGas";
  }

  lemma FeeNames(p: Parameter)
    requires p == MaxPriorityFeePerGas || p == MaxFeePerGas
    ensures Words(p)[0] + Capitals(Words(p)[1..]) == Web3Name(p)
  {
    FeePerGas();
    PriorityFeePerGas();
    assert Words(MaxPriorityFeePerGas)[1..] == ["priority", "fee", "per", "gas"];
    assert Words(MaxFeePerGas)[1..] == ["fee", "per", "gas"];
    assert "max" + "PriorityFeePerGas" == "maxPriorityFeePerGas" && "max" + "FeePerGas" == "maxFeePerGas";
  }

  lemma TwoWordNames(p: Parameter)
    requires p == ChainId || p == AccessList
    ensures Words(p)[0] + Capitals(Words(p)[1..]) == Web3Name(p)
  {
    assert Capital("id") == "Id" && Capital("list") == "List";
    assert Words(ChainId)[1..] == ["id"] && Words(AccessList)[1..] == ["list"];
  }

  lemma OneWordNames(p: Parameter)
    requires p in {From, To, Amount, Nonce, Data, Gas}
    ensures Words(p)[0] + Capitals(Words(p)[1..]) == Web3Name(p)
  {
    assert Capitals(Words(p)[1..]) == "";
    assert Words(p)[0] == Web3Name(p);
  }

  lemma JoinedWords(p: Parameter)
    ensures Words(p)[0] + Capitals(Words(p)[1..]) == Web3Name(p)
  {
    if p == MaxPriorityFeePerGas || p == MaxFeePerGas {
      FeeNames(p);
    } else if p == ChainId || p == AccessList {
      TwoWordNames(p);
    } else {
      OneWordNames(p);
    }
  }

  lemma KeyNames(p: Parameter)
    ensures Key(p) == Web3Name(p)
  {
    WordsAreWords(p);
    CamelOfWords(Words(p));
    JoinedWords(p);
  }

  /** No two parameters share a key, and none is called "type". */
  lemma KeysDistinct(p: Parameter, q: Parameter)
    ensures Key(p) == Key(q) ==> p == q
    ensures Key(p) != "type"
  {
    KeyNames(p);
    KeyNames(q);
  }

  // ---------------------------------------------------------------- the parameters

  /** int(x): the fraction is dropped, toward zero. */
  function Truncated(x: real): int {
    if x >= 0.0 then x.Floor else -(-x).Floor
  }

  function AutoMaxFee(baseFee: int, maxPriorityFee: real, multiplier: real): int {
    Truncated(baseFee as real * multiplier + maxPriorityFee)
  }

  /** The entry of `auto_map`; the maximum fee needs a priority fee among the parameters. */
  function AutoValue(c: Call, baseFee: int, p: Parameter, params: map<string, Value>): Result<Value, Error> {
    match p
    case ChainId => Success(Number(c.node.chainId as real))
    case Nonce => Success(Number(c.node.getNonce(c.given(From)) as real))
    case Gas => Success(Number(c.node.estimateGas(params) as real))
    case MaxPriorityFeePerGas => Success(Number(c.node.maxPriorityFee as real))
    case MaxFeePerGas =>
      var priorityFee := c.key(MaxPriorityFeePerGas);
      if priorityFee !in params then Failure(KeyError)
      else if !params[priorityFee].Number? then Failure(TypeError)
      else
        Success(Number(AutoMaxFee(baseFee, params[priorityFee].n, c.baseFeeMultiplier) as real))
    case _ => Failure(KeyError)
  }

  predicate HasAuto(p: Parameter) {
    p.ChainId? || p.Nonce? || p.Gas? || p.MaxPriorityFeePerGas? || p.MaxFeePerGas?
  }

  /** Why an automatic parameter has no value. */
  function Refusal(c: Call, p: Parameter): Option<Error> {
    if c.given(p) != AUTO then None
    else if !HasAuto(p) then Some(KeyError)
    else if p != MaxFeePerGas then None
    else if c.given(MaxPriorityFeePerGas) == None then Some(KeyError)
    else if c.given(MaxPriorityFeePerGas) == AUTO || c.given(MaxPriorityFeePerGas).value.Number? then None
    else Some(TypeError)
  }

  /** The parameters without gas and fees, which the node sees when it estimates gas. */
  function BeforeGas(c: Call, params: map<string, Value>): map<string, Value> {
    map k | k in params && k != c.key(Gas) && k != c.key(MaxPriorityFeePerGas) && k != c.key(MaxFeePerGas) :: params[k]
  }

  ghost function Keys(c: Call, done: set<Parameter>): set<string> {
    {"type"} + (set p | p in done && c.given(p).Some? :: c.key(p))
  }

  /** What the transaction holds for the given parameters: its keys, and for each key what was given or what the
      node says; gas is estimated on the parameters without gas and fees. */
  ghost predicate Filled(c: Call, done: set<Parameter>, params: map<string, Value>) {
    && params.Keys == Keys(c, done)
    && params["type"] == EIP_1559
    && (forall p | p in done && c.given(p).Some? && c.given(p) != AUTO :: params[c.key(p)] == c.given(p).value)
    && (forall p | p in done && c.given(p) == AUTO ::
          AutoValue(c, c.node.baseFeePerGas, p, if p == Gas then BeforeGas(c, params) else params)
          == Success(params[c.key(p)]))
  }

  function Rank(p: Parameter): nat {
    match p
    case Gas => 1
    case MaxPriorityFeePerGas => 2
    case MaxFeePerGas => 3
    case _ => 0
  }

  ghost predicate KeysDiffer(c: Call) {
    && (forall p, q :: c.key(p) == c.key(q) ==> p == q)
    && (forall p :: c.key(p) != "type")
  }

  /** The keys made from the parameters' names differ. */
  lemma KeysDifferByName(node: Node, given: Parameter -> Option<Value>, multiplier: real)
    ensures KeysDiffer(Call(node, given, multiplier, Key))
  {
    forall p, q
      ensures (Key(p) == Key(q) ==> p == q) && Key(p) != "type"
    {
      KeysDistinct(p, q);
    }
  }

  /** Apart from the gas estimate, an automatic value depends on the priority fee alone. */
  lemma AutoValueSame(c: Call, p: Parameter, a: map<string, Value>, b: map<string, Value>)
    requires p != Gas
    requires p == MaxFeePerGas ==> var fee := c.key(MaxPriorityFeePerGas);
                                   (fee in a <==> fee in b) && (fee in a && fee in b ==> a[fee] == b[fee])
    ensures AutoValue(c, c.node.baseFeePerGas, p, a) == AutoValue(c, c.node.baseFeePerGas, p, b)
  {
  }

  lemma BeforeGasSame(c: Call, p: Parameter, params: map<string, Value>, value: Value)
    requires Rank(p) > 0
    ensures BeforeGas(c, params[c.key(p) := value]) == BeforeGas(c, params)
  {
  }

  lemma EstimateNext(c: Call, done: set<Parameter>, params: map<string, Value>, p: Parameter, value: Value)
    requires KeysDiffer(c) && Filled(c, done, params) && p !in done && forall q | q in done :: Rank(q) <= Rank(p)
    requires c.given(p) == AUTO ==> AutoValue(c, c.node.baseFeePerGas, p, params) == Success(value)
    requires Gas in done + {p} && c.given(Gas) == AUTO
    ensures var next := params[c.key(p) := value];
            AutoValue(c, c.node.baseFeePerGas, Gas, BeforeGas(c, next)) == Success(next[c.key(Gas)])
  {
    BeforeGasSame(c, p, params, value);
    assert p == Gas ==> BeforeGas(c, params) == params;
  }

  lemma OtherNext(c: Call, done: set<Parameter>, params: map<string, Value>, p: Parameter, value: Value, q: Parameter)
    requires KeysDiffer(c) && Filled(c, done, params) && p !in done && forall q | q in done :: Rank(q) <= Rank(p)
    requires c.given(p) == AUTO ==> AutoValue(c, c.node.baseFeePerGas, p, params) == Success(value)
    requires q in done + {p} && c.given(q) == AUTO && q != Gas
    ensures var next := params[c.key(p) := value];
            AutoValue(c, c.node.baseFeePerGas, q, next) == Success(next[c.key(q)])
  {
    assert q == MaxFeePerGas ==> p == q;
    assert c.key(MaxPriorityFeePerGas) == c.key(p) ==> p == MaxPriorityFeePerGas;
    AutoValueSame(c, q, params, params[c.key(p) := value]);
  }

  lemma FilledNext(c: Call, done: set<Parameter>, params: map<string, Value>, p: Parameter, value: Value)
    requires KeysDiffer(c) && Filled(c, done, params) && p !in done && forall q | q in done :: Rank(q) <= Rank(p)
    requires c.given(p).Some?
    requires if c.given(p) == AUTO then AutoValue(c, c.node.baseFeePerGas, p, params) == Success(value)
             else value == c.given(p).value
    ensures Filled(c, done + {p}, params[c.key(p) := value])
  {
    var next := params[c.key(p) := value];
    forall q | q in done + {p} && c.given(q) == AUTO
      ensures AutoValue(c, c.node.baseFeePerGas, q, if q == Gas then BeforeGas(c, next) else next)
           == Success(next[c.key(q)])
    {
      if q == Gas {
        EstimateNext(c, done, params, p, value);
      } else {
        OtherNext(c, done, params, p, value, q);
      }
    }
  }

  /** `auto_map` refuses exactly as said above. */
  lemma RefusedAlike(c: Call, done: set<Parameter>, params: map<string, Value>, p: Parameter)
    requires KeysDiffer(c) && Filled(c, done, params) && c.given(p) == AUTO
    requires p == MaxFeePerGas ==> MaxPriorityFeePerGas in done
    ensures match AutoValue(c, c.node.baseFeePerGas, p, params)
            case Success(_) => Refusal(c, p) == None
            case Failure(e) => Refusal(c, p) == Some(e)
  {
    var fee := MaxPriorityFeePerGas;
    assert c.key(fee) in params <==> fee in done && c.given(fee).Some?;
    if fee in done && c.given(fee) == AUTO {
      assert AutoValue(c, c.node.baseFeePerGas, fee, params) == Success(params[c.key(fee)]);
    }
  }

  // ---------------------------------------------------------------- make_raw_tx_eip_1559

  ghost predicate IsOrder(order: seq<Parameter>) {
    Distinct(order) && forall p: Parameter :: p in order
  }

  function Except(names: seq<Parameter>): Parameter -> bool {
    (p: Parameter) => p !in names
  }

  /** The order after the first `k` of the names have been moved to the end. */
  ghost function Moved(order: seq<Parameter>, names: seq<Parameter>, k: nat): seq<Parameter>
    requires k <= |names|
  {
    Filter(Except(names[..k]), order) + names[..k]
  }

  lemma NoneMoved(order: seq<Parameter>, names: seq<Parameter>)
    ensures Moved(order, names, 0) == order
  {
    FilterTrivial(Except(names[..0]), order);
  }

  lemma MoveOne(order: seq<Parameter>, before: seq<Parameter>, name: Parameter)
    requires name !in before
    ensures Filter(Except([name]), Filter(Except(before), order) + before)
         == Filter(Except(before + [name]), order) + before
  {
    var others := Filter(Except(before), order);
    FilterAppend(Except([name]), others, before);
    FilterTrivial(Except([name]), before);
    FilterSelects(Except(before), order);
    FilterAgree(Except([name]), Except(before + [name]), others);
    FilterFilter(Except(before + [name]), Except(before), order);
  }

  lemma MovedOnce(order: seq<Parameter>, names: seq<Parameter>, k: nat)
    requires k < |names| && Distinct(names)
    ensures Moved(order, names, k + 1) == Filter(Except([names[k]]), Moved(order, names, k)) + [names[k]]
  {
    var before := names[..k];
    assert names[..k + 1] == before + [names[k]];
    assert names[k] !in before;
    MoveOne(order, before, names[k]);
  }

  /** The named parameters come last, in this order; the others keep theirs. */
  method MoveToEnd(order: seq<Parameter>, names: seq<Parameter>) returns (moved: seq<Parameter>)
    requires Distinct(names)
    ensures moved == Filter(Except(names), order) + names
  {
    moved := order;
    NoneMoved(order, names);
    for k := 0 to |names|
      invariant moved == Moved(order, names, k)
    {
      MovedOnce(order, names, k);
      moved := Filter(Except([names[k]]), moved) + [names[k]];
    }
    assert names[..|names|] == names;
  }

  ghost predicate GasLast(order: seq<Parameter>) {
    forall i, j | 0 <= i < j < |order| :: Rank(order[i]) <= Rank(order[j])
  }

  lemma MovedByRank(order: seq<Parameter>)
    requires IsOrder(order)
    ensures var moved := Filter(Except(GAS_PARAMETERS), order) + GAS_PARAMETERS;
            IsOrder(moved) && GasLast(moved)
  {
    FilterSelects(Except(GAS_PARAMETERS), order);
    var others := Filter(Except(GAS_PARAMETERS), order);
    assert forall i | 0 <= i < |others| :: others[i] in others && Rank(others[i]) == 0;
  }

  ghost function Done(order: seq<Parameter>, k: nat): set<Parameter>
    requires k <= |order|
  {
    set p | p in order[..k]
  }

  lemma DoneNext(order: seq<Parameter>, k: nat)
    requires IsOrder(order) && GasLast(order) && k < |order|
    ensures Done(order, k + 1) == Done(order, k) + {order[k]} && order[k] !in Done(order, k)
    ensures forall q | q in Done(order, k) :: Rank(q) <= Rank(order[k])
    ensures order[k] == MaxFeePerGas ==> forall q | q != MaxFeePerGas :: q in Done(order, k)
  {
    assert order[..k + 1] == order[..k] + [order[k]];
    forall q: Parameter | q != MaxFeePerGas && order[k] == MaxFeePerGas
      ensures q in Done(order, k)
    {
      assert q in order;
      var i :| 0 <= i < |order| && order[i] == q;
      assert i < k;
      assert order[..k][i] == q;
    }
  }

  ghost predicate Progress(c: Call, order: seq<Parameter>, k: nat, params: map<string, Value>)
    requires k <= |order|
  {
    Filled(c, Done(order, k), params) && forall p | p in Done(order, k) :: Refusal(c, p) == None
  }

  /** One turn of the loop over the parameters. */
  lemma Turn(c: Call, order: seq<Parameter>, k: nat, params: map<string, Value>)
    requires IsOrder(order) && GasLast(order) && k < |order| && KeysDiffer(c) && Progress(c, order, k, params)
    ensures var p := order[k];
            match c.given(p)
            case None => Progress(c, order, k + 1, params)
            case Some(value) =>
              if c.given(p) != AUTO then Progress(c, order, k + 1, params[c.key(p) := value])
              else match AutoValue(c, c.node.baseFeePerGas, p, params)
                   case Failure(e) => Refusal(c, p) == Some(e) && (e == TypeError ==> OnlyMaxFeeRefused(c))
                   case Success(auto) => Progress(c, order, k + 1, params[c.key(p) := auto])
  {
    var p := order[k];
    DoneNext(order, k);
    if c.given(p) == AUTO {
      RefusedAlike(c, Done(order, k), params, p);
      var auto := AutoValue(c, c.node.baseFeePerGas, p, params);
      if auto.Success? {
        FilledNext(c, Done(order, k), params, p, auto.value);
      }
    } else if c.given(p).Some? {
      FilledNext(c, Done(order, k), params, p, c.given(p).value);
    }
  }

  ghost predicate OnlyMaxFeeRefused(c: Call) {
    forall p | p != MaxFeePerGas :: Refusal(c, p) == None
  }

  lemma Begun(c: Call, order: seq<Parameter>)
    ensures Progress(c, order, 0, map["type" := EIP_1559])
  {
  }

  lemma BaseFeeKnown(c: Call, baseFee: int, p: Parameter, params: map<string, Value>)
    requires p == MaxFeePerGas ==> baseFee == c.node.baseFeePerGas
    ensures AutoValue(c, baseFee, p, params) == AutoValue(c, c.node.baseFeePerGas, p, params)
  {
  }

  /** The loops, for any distinct keys. */
  method FillParams(c: Call, kwargs: seq<Parameter>) returns (r: Result<map<string, Value>, Error>)
    requires IsOrder(kwargs) && KeysDiffer(c)
    ensures r.Success? <==> forall p :: Refusal(c, p) == None
    ensures r.Failure? ==> exists p :: Refusal(c, p) == Some(r.error)
    ensures r == Failure(TypeError) ==> OnlyMaxFeeRefused(c)
    ensures r.Success? ==> Filled(c, (set p | p in kwargs), r.value)
  {
    var order := MoveToEnd(kwargs, GAS_PARAMETERS);
    MovedByRank(kwargs);
    var params: map<string, Value> := map["type" := EIP_1559];
    Begun(c, order);
    var baseFeePerGas := 10;
    if c.given(MaxPriorityFeePerGas) == AUTO || c.given(MaxFeePerGas) == AUTO {
      baseFeePerGas := c.node.baseFeePerGas;
    }
    for k := 0 to |order|
      invariant Progress(c, order, k, params)
    {
      var p := order[k];
      Turn(c, order, k, params);
      if c.given(p).Some? {
        var value := c.given(p).value;
        if c.given(p) == AUTO {
          BaseFeeKnown(c, baseFeePerGas, p, params);
          var auto := AutoValue(c, baseFeePerGas, p, params);
          if auto.Failure? {
            return Failure(auto.error);
          }
          value := auto.value;
        }
        params := params[c.key(p) := value];
      }
    }
    AllDone(kwargs, order);
    r := Success(params);
  }

  /** The parameters, whatever the order of the keyword arguments; or the first refusal. */
  method MakeRawTxEip1559(node: Node, given: Parameter -> Option<Value>, baseFeeMultiplier: real,
                          kwargs: seq<Parameter>)
    returns (r: Result<map<string, Value>, Error>)
    requires IsOrder(kwargs)
    ensures var c := Call(node, given, baseFeeMultiplier, Key);
            && (r.Success? <==> forall p :: Refusal(c, p) == None)
            && (r.Failure? ==> exists p :: Refusal(c, p) == Some(r.error))
            && (r == Failure(TypeError) ==> OnlyMaxFeeRefused(c))
            && (r.Success? ==> Filled(c, (set p | p in kwargs), r.value))
  {
    KeysDifferByName(node, given, baseFeeMultiplier);
    r := FillParams(Call(node, given, baseFeeMultiplier, Key), kwargs);
  }

  /** The keys of a filled map, by name. */
  lemma KeysByName(node: Node, given: Parameter -> Option<Value>, multiplier: real, done: set<Parameter>)
    ensures Keys(Call(node, given, multiplier, Key), done) ==
            {"type"} + (set p | p in done && given(p).Some? :: Web3Name(p))
  {
    forall p
      ensures Key(p) == Web3Name(p)
    {
      KeyNames(p);
    }
  }

  lemma AllDone(kwargs: seq<Parameter>, order: seq<Parameter>)
    requires IsOrder(kwargs) && IsOrder(order)
    ensures Done(order, |order|) == (set p | p in kwargs)
    ensures forall p :: p in Done(order, |order|)
  {
    assert order[..|order|] == order;
    assert forall p: Parameter :: p in order && p in kwargs;
  }

  /** When fees are given as numbers, the call is refused exactly for "auto" where nothing can be looked up, and
      for an automatic maximum fee without a priority fee. */
  lemma RefusedExactly(c: Call)
    requires forall p | p == MaxPriorityFeePerGas || p == MaxFeePerGas ::
               c.given(p) == None || c.given(p) == AUTO || c.given(p).value.Number?
    ensures (exists p :: Refusal(c, p).Some?) <==>
              || (exists p | !HasAuto(p) :: c.given(p) == AUTO)
              || (c.given(MaxFeePerGas) == AUTO && c.given(MaxPriorityFeePerGas) == None)
  {
    forall p | !HasAuto(p) && c.given(p) == AUTO
      ensures Refusal(c, p).Some?
    {
    }
    assert c.given(MaxFeePerGas) == AUTO && c.given(MaxPriorityFeePerGas) == None ==> Refusal(c, MaxFeePerGas).Some?;
  }

  /** It does happen: only the maximum fee is automatic, and there is no priority fee. */
  lemma NoPriorityFee(node: Node, given: Parameter -> Option<Value>)
    requires forall p :: given(p) == if p == MaxFeePerGas then Some(Text("auto")) else None
    ensures Refusal(Call(node, given, 1.1, Key), MaxFeePerGas) == Some(KeyError)
    ensures forall p | p != MaxFeePerGas :: Refusal(Call(node, given, 1.1, Key), p) == None
  {
  }

  // ---------------------------------------------------------------- prices

  /** gas_price_to_eip1559_params: the maximum priority fee and the maximum fee. */
  function GasPriceToEip1559Params(gasPrice: int, baseFeePerGas: int): Result<(int, int), Error> {
    if gasPrice < baseFeePerGas then Failure(AssertionError) else Success((gasPrice - baseFeePerGas, gasPrice))
  }

  /** The price per gas that a transaction pays in a block, section "Specification" of EIP-1559. */
  function EffectivePrice(baseFee: int, maxPriorityFee: int, maxFee: int): int {
    baseFee + if maxPriorityFee < maxFee - baseFee then maxPriorityFee else maxFee - baseFee
  }

  /** A converted price is paid exactly, and still is while the base fee rises up to it; after a fall of the base
      fee the transaction pays exactly that much less. */
  lemma ConvertedPrice(gasPrice: int, baseFee: int)
    ensures GasPriceToEip1559Params(gasPrice, baseFee).Success? <==> baseFee <= gasPrice
    ensures match GasPriceToEip1559Params(gasPrice, baseFee)
            case Failure(e) => e == AssertionError
            case Success((maxPriorityFee, maxFee)) =>
              && 0 <= maxPriorityFee
              && EffectivePrice(baseFee, maxPriorityFee, maxFee) == gasPrice
              && (forall b | baseFee <= b <= gasPrice :: EffectivePrice(b, maxPriorityFee, maxFee) == gasPrice)
              && (forall b | b <= baseFee :: EffectivePrice(b, maxPriorityFee, maxFee) == gasPrice - (baseFee - b))
  {
  }

  /** The default multiplier covers the base fee and the priority fee, and lets the base fee rise by a tenth, no
      more, before the priority fee is cut. */
  lemma AutoMaxFeeCovers(baseFee: int, maxPriorityFee: int)
    requires 0 <= baseFee && 0 <= maxPriorityFee
    ensures var maxFee := AutoMaxFee(baseFee, maxPriorityFee as real, 1.1);
            && maxFee >= baseFee + maxPriorityFee
            && EffectivePrice(baseFee, maxPriorityFee, maxFee) == baseFee + maxPriorityFee
            && forall b: int ::
                 EffectivePrice(b, maxPriorityFee, maxFee) == b + maxPriorityFee <==> 10 * b <= 11 * baseFee
  {
    var fee := baseFee as real * 1.1 + maxPriorityFee as real;
    var maxFee := AutoMaxFee(baseFee, maxPriorityFee as real, 1.1);
    assert maxFee as real <= fee < maxFee as real + 1.0;
    assert 10 * (maxFee - maxPriorityFee) <= 11 * baseFee < 10 * (maxFee - maxPriorityFee) + 10;
    forall b: int
      ensures EffectivePrice(b, maxPriorityFee, maxFee) == b + maxPriorityFee <==> 10 * b <= 11 * baseFee
    {
      assert EffectivePrice(b, maxPriorityFee, maxFee) == b + maxPriorityFee <==> b <= maxFee - maxPriorityFee;
    }
  }

  // ---------------------------------------------------------------- make_raw_tx, EIP-1559 branch

  function NumberOf(n: Option<int>): Option<Value> {
    match n
    case None => None
    case Some(i) => Some(Number(i as real))
  }

  function NumberOrAuto(n: Option<int>): Option<Value> {
    if n == None then AUTO else NumberOf(n)
  }

  ghost predicate HasNumber(params: map<string, Value>, key: string, n: int) {
    key in params && params[key] == Number(n as real)
  }

  ghost predicate HasFees(c: Call, params: map<string, Value>, maxPriorityFee: int, maxFee: int) {
    HasNumber(params, c.key(MaxPriorityFeePerGas), maxPriorityFee) && HasNumber(params, c.key(MaxFeePerGas), maxFee)
  }

  /** The arguments of `make_raw_tx` for an EIP-1559 transaction. */
  datatype Request = Request(
    from: Option<Value>, to: Option<Value>, amount: Option<Value>, gas: Option<int>, gasPrice: Option<int>,
    nonce: Option<int>, chainId: Option<int>, data: Option<Value>, estimateGas: bool)

  function ChosenFees(node: Node, q: Request): Result<(Option<Value>, Option<Value>), Error> {
    if q.gasPrice == None || q.gas == None then Success((AUTO, AUTO))
    else
      match GasPriceToEip1559Params(q.gasPrice.value, node.baseFeePerGas)
      case Failure(e) => Failure(e)
      case Success((maxPriorityFee, maxFee)) => Success((NumberOf(Some(maxPriorityFee)), NumberOf(Some(maxFee))))
  }

  function Arguments(q: Request, fees: (Option<Value>, Option<Value>)): Parameter -> Option<Value> {
    (p: Parameter) =>
      match p
      case ChainId => NumberOrAuto(q.chainId)
      case From => q.from
      case To => q.to
      case Amount => q.amount
      case Nonce => NumberOrAuto(q.nonce)
      case Data => q.data
      case AccessList => None
      case Gas => if q.estimateGas then AUTO else NumberOf(q.gas)
      case MaxPriorityFeePerGas => fees.0
      case MaxFeePerGas => fees.1
  }

  function TransactionCall(node: Node, q: Request): Call
    requires ChosenFees(node, q).Success?
  {
    Call(node, Arguments(q, ChosenFees(node, q).value), 1.1, Key)
  }

  /** With a gas price and a gas limit, the fees are converted from the price; otherwise they are the node's. */
  ghost predicate FeesChosen(c: Call, q: Request, params: map<string, Value>) {
    if q.gasPrice.Some? && q.gas.Some?
    then HasFees(c, params, q.gasPrice.value - c.node.baseFeePerGas, q.gasPrice.value)
    else HasFees(c, params, c.node.maxPriorityFee,
                 AutoMaxFee(c.node.baseFeePerGas, c.node.maxPriorityFee as real, c.baseFeeMultiplier))
  }

  /** An estimate is made on the transaction without gas and fees. */
  ghost predicate GasChosen(c: Call, q: Request, params: map<string, Value>) {
    if q.estimateGas then HasNumber(params, c.key(Gas), c.node.estimateGas(BeforeGas(c, params)))
    else if q.gas.Some? then HasNumber(params, c.key(Gas), q.gas.value)
    else c.key(Gas) !in params
  }

  predicate PriceCoversBaseFee(node: Node, q: Request) {
    q.gasPrice.Some? && q.gas.Some? ==> node.baseFeePerGas <= q.gasPrice.value
  }

  predicate NoText(q: Request) {
    q.from != AUTO && q.to != AUTO && q.amount != AUTO && q.data != AUTO
  }

  const PARAMETERS := [ChainId, From, To, Amount, Nonce, Data, AccessList, Gas, MaxPriorityFeePerGas, MaxFeePerGas]

  function Position(p: Parameter): nat {
    match p
    case ChainId => 0
    case From => 1
    case To => 2
    case Amount => 3
    case Nonce => 4
    case Data => 5
    case AccessList => 6
    case Gas => 7
    case MaxPriorityFeePerGas => 8
    case MaxFeePerGas => 9
  }

  /** The keyword arguments in the order of their declaration. */
  lemma AllParameters()
    ensures IsOrder(PARAMETERS)
  {
    forall p: Parameter
      ensures p in PARAMETERS
    {
      assert PARAMETERS[Position(p)] == p;
    }
    assert forall i | 0 <= i < |PARAMETERS| :: Position(PARAMETERS[i]) == i;
  }

  /** The key is present exactly if there is a value, and then with it. */
  ghost predicate Holds(params: map<string, Value>, key: string, value: Option<Value>) {
    if value.Some? then key in params && params[key] == value.value else key !in params
  }

  /** Sender, receiver, amount and data are those of the request; nonce and chain id too, or the node's. */
  ghost predicate PassedOn(c: Call, q: Request, params: map<string, Value>) {
    && Holds(params, c.key(From), q.from) && Holds(params, c.key(To), q.to)
    && Holds(params, c.key(Amount), q.amount) && Holds(params, c.key(Data), q.data)
    && HasNumber(params, c.key(Nonce), if q.nonce.Some? then q.nonce.value else c.node.getNonce(q.from))
    && HasNumber(params, c.key(ChainId), if q.chainId.Some? then q.chainId.value else c.node.chainId)
    && c.key(AccessList) !in params
  }

  /** The price paid while the base fee is the node's. */
  ghost predicate Pays(c: Call, params: map<string, Value>, price: int) {
    exists maxPriorityFee, maxFee ::
      && HasFees(c, params, maxPriorityFee, maxFee)
      && EffectivePrice(c.node.baseFeePerGas, maxPriorityFee, maxFee) == price
  }

  /** A gas price is used when a gas limit comes with it, and then it is the price paid; otherwise both fees are
      automatic. Everything else is passed on, or looked up when missing. */
  method MakeRawTx(node: Node, q: Request) returns (r: Result<map<string, Value>, Error>)
    ensures r.Success? <==> PriceCoversBaseFee(node, q) && NoText(q)
    ensures !PriceCoversBaseFee(node, q) ==> r == Failure(AssertionError)
    ensures r.Success? ==>
              var c := TransactionCall(node, q);
              FeesChosen(c, q, r.value) && GasChosen(c, q, r.value) && PassedOn(c, q, r.value)
    ensures r.Success? ==> "type" in r.value && r.value["type"] == Number(2.0)
    ensures r.Success? && q.gasPrice.Some? && q.gas.Some? ==> Pays(TransactionCall(node, q), r.value, q.gasPrice.value)
  {
    var fees := ChosenFees(node, q);
    if fees.Failure? {
      return Failure(fees.error);
    }
    var c := TransactionCall(node, q);
    CallOfRequest(node, q);
    AllParameters();
    r := RequestParams(c, node, q, PARAMETERS);
    if r.Success? && q.gasPrice.Some? && q.gas.Some? {
      PricePaid(c, q, r.value);
    }
  }

  method RequestParams(c: Call, node: Node, q: Request, kwargs: seq<Parameter>)
    returns (r: Result<map<string, Value>, Error>)
    requires IsOrder(kwargs) && IsCallOf(c, node, q) && c == Call(node, c.given, 1.1, Key)
    ensures r.Success? <==> NoText(q)
    ensures r.Success? ==> FeesChosen(c, q, r.value) && GasChosen(c, q, r.value) && PassedOn(c, q, r.value)
    ensures r.Success? ==> "type" in r.value && r.value["type"] == Number(2.0)
  {
    CallRefused(c, node, q);
    r := MakeRawTxEip1559(node, c.given, 1.1, kwargs);
    if r.Success? {
      ghost var done := set p | p in kwargs;
      FilledFees(c, node, q, done, r.value);
      FilledGas(c, node, q, done, r.value);
      FilledRest(c, node, q, done, r.value);
    }
  }

  lemma PricePaid(c: Call, q: Request, params: map<string, Value>)
    requires FeesChosen(c, q, params) && q.gasPrice.Some? && q.gas.Some?
    ensures Pays(c, params, q.gasPrice.value)
  {
    var maxPriorityFee := q.gasPrice.value - c.node.baseFeePerGas;
    assert EffectivePrice(c.node.baseFeePerGas, maxPriorityFee, q.gasPrice.value) == q.gasPrice.value;
  }

  lemma FilledRest(c: Call, node: Node, q: Request, done: set<Parameter>, params: map<string, Value>)
    requires IsCallOf(c, node, q) && Filled(c, done, params) && NoText(q)
    requires From in done && To in done && Amount in done && Data in done && Nonce in done && ChainId in done
    ensures PassedOn(c, q, params)
  {
    FilledGiven(c, done, params, From);
    FilledGiven(c, done, params, To);
    FilledGiven(c, done, params, Amount);
    FilledGiven(c, done, params, Data);
    FilledLookup(c, done, params, Nonce, q.nonce);
    FilledLookup(c, done, params, ChainId, q.chainId);
    FilledAbsent(c, done, params, AccessList);
  }

  lemma FilledGiven(c: Call, done: set<Parameter>, params: map<string, Value>, p: Parameter)
    requires KeysDiffer(c) && Filled(c, done, params) && p in done && c.given(p) != AUTO
    ensures Holds(params, c.key(p), c.given(p))
  {
  }

  lemma FilledAbsent(c: Call, done: set<Parameter>, params: map<string, Value>, p: Parameter)
    requires KeysDiffer(c) && Filled(c, done, params) && c.given(p) == None
    ensures c.key(p) !in params
  {
  }

  lemma FilledLookup(c: Call, done: set<Parameter>, params: map<string, Value>, p: Parameter, n: Option<int>)
    requires Filled(c, done, params) && p in done && c.given(p) == NumberOrAuto(n)
    ensures n.Some? ==> HasNumber(params, c.key(p), n.value)
    ensures n.None? && p == Nonce ==> HasNumber(params, c.key(p), c.node.getNonce(c.given(From)))
    ensures n.None? && p == ChainId ==> HasNumber(params, c.key(p), c.node.chainId)
  {
  }

  /** The call passes the request on, with the chosen fees. */
  ghost predicate IsCallOf(c: Call, node: Node, q: Request) {
    && KeysDiffer(c) && c.node == node
    && c.given(From) == q.from && c.given(To) == q.to && c.given(Amount) == q.amount && c.given(Data) == q.data
    && c.given(Nonce) == NumberOrAuto(q.nonce) && c.given(ChainId) == NumberOrAuto(q.chainId)
    && c.given(AccessList) == None && c.given(Gas) == (if q.estimateGas then AUTO else NumberOf(q.gas))
    && (if q.gasPrice.Some? && q.gas.Some?
        then c.given(MaxPriorityFeePerGas) == Some(Number((q.gasPrice.value - node.baseFeePerGas) as real)) &&
             c.given(MaxFeePerGas) == Some(Number(q.gasPrice.value as real))
        else c.given(MaxPriorityFeePerGas) == AUTO && c.given(MaxFeePerGas) == AUTO)
  }

  lemma CallOfRequest(node: Node, q: Request)
    requires ChosenFees(node, q).Success?
    ensures IsCallOf(TransactionCall(node, q), node, q)
  {
    KeysDifferByName(node, Arguments(q, ChosenFees(node, q).value), 1.1);
  }

  lemma FilledFees(c: Call, node: Node, q: Request, done: set<Parameter>, params: map<string, Value>)
    requires IsCallOf(c, node, q) && Filled(c, done, params)
    requires MaxFeePerGas in done && MaxPriorityFeePerGas in done
    ensures FeesChosen(c, q, params)
  {
    if q.gasPrice.Some? && q.gas.Some? {
      GivenFees(c, done, params, q.gasPrice.value - node.baseFeePerGas, q.gasPrice.value);
    } else {
      AutoFees(c, done, params);
    }
  }

  lemma GivenFees(c: Call, done: set<Parameter>, params: map<string, Value>, maxPriorityFee: int, maxFee: int)
    requires Filled(c, done, params) && MaxFeePerGas in done && MaxPriorityFeePerGas in done
    requires c.given(MaxPriorityFeePerGas) == Some(Number(maxPriorityFee as real))
    requires c.given(MaxFeePerGas) == Some(Number(maxFee as real))
    ensures HasFees(c, params, maxPriorityFee, maxFee)
  {
    GivenNumber(c, done, params, MaxPriorityFeePerGas, maxPriorityFee);
    GivenNumber(c, done, params, MaxFeePerGas, maxFee);
  }

  lemma FilledGas(c: Call, node: Node, q: Request, done: set<Parameter>, params: map<string, Value>)
    requires IsCallOf(c, node, q) && Filled(c, done, params) && Gas in done
    ensures GasChosen(c, q, params)
  {
    if q.estimateGas {
      assert AutoValue(c, node.baseFeePerGas, Gas, BeforeGas(c, params)) == Success(params[c.key(Gas)]);
    } else if q.gas.Some? {
      GivenNumber(c, done, params, Gas, q.gas.value);
    }
  }

  lemma CallRefused(c: Call, node: Node, q: Request)
    requires IsCallOf(c, node, q)
    ensures (forall p :: Refusal(c, p) == None) <==> NoText(q)
  {
    SimplyRefused(c);
  }

  lemma SimplyRefused(c: Call)
    requires c.given(AccessList) == None
    requires forall p | p == MaxPriorityFeePerGas || p == MaxFeePerGas ::
               c.given(p) == AUTO || (c.given(p).Some? && c.given(p).value.Number?)
    ensures (forall p :: Refusal(c, p) == None) <==>
              c.given(From) != AUTO && c.given(To) != AUTO && c.given(Amount) != AUTO && c.given(Data) != AUTO
  {
    RefusedExactly(c);
  }

  lemma AutoFees(c: Call, done: set<Parameter>, params: map<string, Value>)
    requires KeysDiffer(c) && Filled(c, done, params) && MaxFeePerGas in done && MaxPriorityFeePerGas in done
    requires c.given(MaxPriorityFeePerGas) == AUTO && c.given(MaxFeePerGas) == AUTO
    ensures HasFees(c, params, c.node.maxPriorityFee,
                    AutoMaxFee(c.node.baseFeePerGas, c.node.maxPriorityFee as real, c.baseFeeMultiplier))
  {
    var fee := AutoMaxFee(c.node.baseFeePerGas, c.node.maxPriorityFee as real, c.baseFeeMultiplier);
    assert params[c.key(MaxPriorityFeePerGas)] == Number(c.node.maxPriorityFee as real);
    assert AutoValue(c, c.node.baseFeePerGas, MaxFeePerGas, params) == Success(Number(fee as real));
  }

  lemma GivenNumber(c: Call, done: set<Parameter>, params: map<string, Value>, p: Parameter, n: int)
    requires Filled(c, done, params) && p in done && c.given(p) == Some(Number(n as real))
    ensures HasNumber(params, c.key(p), n)
  {
  }
}
