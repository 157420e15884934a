/**
 The part of the `construct` library that utils/metaplex.py and utils/layouts.py use, as data:
 a `Format` is a declaration, `Build` writes a value in that format and `Parse` reads one back,
 returning the bytes that follow it. `Option` is the hand-written combinator of utils/metaplex.py.
 */
module Construct {
  import opened Wrappers

  type byte = x: int | 0 <= x < 256
  type bytes = seq<byte>

  /** Declarations. A struct is a chain of `Field`s closed by `End`. */
  datatype Format =
    | UInt(width: nat)                          // Byte, Int16ul, Int32ul, Int64ul, Enum(Byte, ..)
    | Flag
    | Raw(length: nat)                          // Bytes(n)
    | Const(expected: bytes)
    | PascalString(prefix: nat)
    | PrefixedArray(prefix: nat, item: Format)
    | Optional(inner: Format)
    | End
    | Field(name: string, head: Format, rest: Format)

  /** Values. Structs and arrays are both `Cons` lists closed by `Unit`. */
  datatype Value =
    | Unit
    | Num(n: nat)
    | Bool(b: bool)
    | Blob(bs: bytes)
    | Absent
    | Present(v: Value)
    | Cons(head: Value, tail: Value)

  // ---------------------------------------------------------------- little-endian integers

  function Pow256(width: nat): (p: nat)
    ensures p >= 1
  {
    if width == 0 then 1 else 256 * Pow256(width - 1)
  }

  function ToLE(n: nat, width: nat): (bs: bytes)
    requires n < Pow256(width)
    ensures |bs| == width
  {
    if width == 0 then [] else [n % 256] + ToLE(n / 256, width - 1)
  }

  function FromLE(bs: bytes): (n: nat)
    ensures n < Pow256(|bs|)
  {
    if bs == [] then 0 else bs[0] + 256 * FromLE(bs[1..])
  }

  lemma {:induction false} FromToLE(n: nat, width: nat)
    requires n < Pow256(width)
    ensures FromLE(ToLE(n, width)) == n
  {
    if width > 0 {
      FromToLE(n / 256, width - 1);
      assert ToLE(n, width)[1..] == ToLE(n / 256, width - 1);
    }
  }

  lemma Digits(first: nat, rest: nat)
    requires first < 256
    ensures (first + 256 * rest) % 256 == first && (first + 256 * rest) / 256 == rest
  {
  }

  lemma {:induction false} ToFromLE(bs: bytes)
    ensures ToLE(FromLE(bs), |bs|) == bs
  {
    if bs != [] {
      ToFromLE(bs[1..]);
      var (first, rest) := (bs[0], FromLE(bs[1..]));
      Digits(first, rest);
      assert ToLE(first + 256 * rest, |bs|) == [first] + ToLE(rest, |bs| - 1);
      assert bs == [first] + bs[1..];
    }
  }

  /** The eight bytes of a 64-bit integer, least significant first, written out. */
  function EightBytes(n: nat): (bs: bytes)
    ensures |bs| == 8
  {
    [n % 256, n / 0x100 % 256, n / 0x1_0000 % 256, n / 0x100_0000 % 256, n / 0x1_0000_0000 % 256,
     n / 0x100_0000_0000 % 256, n / 0x1_0000_0000_0000 % 256, n / 0x100_0000_0000_0000 % 256]
  }

  /** The four lowest bytes. */
  function FourBytes(n: nat): (bs: bytes)
    ensures |bs| == 4
  {
    [n % 256, n / 0x100 % 256, n / 0x1_0000 % 256, n / 0x100_0000 % 256]
  }

  lemma BytesFrom(n: nat, width: nat)
    requires 0 < width && n < Pow256(width)
    ensures n / 256 < Pow256(width - 1) && ToLE(n, width) == [n % 256] + ToLE(n / 256, width - 1)
  {
  }

  lemma TwoFrom(n: nat, width: nat)
    requires 2 <= width && n < Pow256(width)
    ensures n / 0x1_0000 < Pow256(width - 2)
    ensures ToLE(n, width) == [n % 256, n / 0x100 % 256] + ToLE(n / 0x1_0000, width - 2)
  {
    BytesFrom(n, width);
    BytesFrom(n / 0x100, width - 1);
    assert n / 0x100 / 0x100 == n / 0x1_0000;
  }

  lemma FourFrom(n: nat, width: nat)
    requires 4 <= width && n < Pow256(width)
    ensures n / 0x1_0000_0000 < Pow256(width - 4)
    ensures ToLE(n, width) == FourBytes(n) + ToLE(n / 0x1_0000_0000, width - 4)
  {
    var half := n / 0x1_0000;
    TwoFrom(n, width);
    TwoFrom(half, width - 2);
    assert half / 0x100 == n / 0x100_0000 && half / 0x1_0000 == n / 0x1_0000_0000;
  }

  lemma UInt32Bytes(n: nat)
    requires n < 0x1_0000_0000
    ensures n < Pow256(4) && ToLE(n, 4) == FourBytes(n)
  {
    Pow256Values();
    FourFrom(n, 4);
    assert ToLE(0, 0) == [];
  }

  lemma UInt64Bytes(n: nat)
    requires n < 0x1_0000_0000_0000_0000
    ensures n < Pow256(8) && ToLE(n, 8) == EightBytes(n)
  {
    Pow256Values();
    var high := n / 0x1_0000_0000;
    FourFrom(n, 8);
    UInt32Bytes(high);
    assert high / 0x100 == n / 0x100_0000_0000 && high / 0x1_0000 == n / 0x1_0000_0000_0000;
    assert high / 0x100_0000 == n / 0x100_0000_0000_0000;
  }

  /** Widths up to a 64-bit integer, written out. */
  lemma Pow256Values()
    ensures Pow256(1) == 0x100 && Pow256(2) == 0x1_0000
    ensures Pow256(4) == 0x1_0000_0000 && Pow256(8) == 0x1_0000_0000_0000_0000
  {
    assert Pow256(0) == 1;
    assert Pow256(1) == 0x100;
    assert Pow256(2) == 0x1_0000;
    assert Pow256(3) == 0x100_0000;
    assert Pow256(4) == 0x1_0000_0000;
    assert Pow256(5) == 0x100_0000_0000;
    assert Pow256(6) == 0x1_0000_0000_0000;
    assert Pow256(7) == 0x100_0000_0000_0000;
  }

  // ---------------------------------------------------------------- values of a format

  /** The number of elements of a list value. */
  function Count(v: Value): nat {
    if v.Cons? then 1 + Count(v.tail) else 0
  }

  /** `Build` succeeds on exactly these values; on the others the library raises. */
  predicate Fits(f: Format, v: Value)
    decreases f, v
  {
    match f
    case UInt(width) => v.Num? && v.n < Pow256(width)
    case Flag => v.Bool?
    case Raw(length) => v.Blob? && |v.bs| == length
    case Const(_) => v == Unit
    case PascalString(prefix) => v.Blob? && |v.bs| < Pow256(prefix)
    case PrefixedArray(prefix, item) => Count(v) < Pow256(prefix) && AllFit(item, v)
    case Optional(inner) => v.Absent? || (v.Present? && Fits(inner, v.v))
    case End => v == Unit
    case Field(_, head, rest) => v.Cons? && Fits(head, v.head) && Fits(rest, v.tail)
  }

  predicate AllFit(item: Format, v: Value)
    decreases item, v
  {
    v == Unit || (v.Cons? && Fits(item, v.head) && AllFit(item, v.tail))
  }

  function Build(f: Format, v: Value): bytes
    requires Fits(f, v)
    decreases f, v
  {
    match f
    case UInt(width) => ToLE(v.n, width)
    case Flag => [if v.b then 1 else 0]
    case Raw(_) => v.bs
    case Const(expected) => expected
    case PascalString(prefix) => ToLE(|v.bs|, prefix) + v.bs
    case PrefixedArray(prefix, item) => ToLE(Count(v), prefix) + BuildAll(item, v)
    case Optional(inner) => if v.Absent? then [0] else [1] + Build(inner, v.v)
    case End => []
    case Field(_, head, rest) => Build(head, v.head) + Build(rest, v.tail)
  }

  function BuildAll(item: Format, v: Value): bytes
    requires AllFit(item, v)
    decreases item, v
  {
    if v == Unit then [] else Build(item, v.head) + BuildAll(item, v.tail)
  }

  /** None stands for every parse error: a short stream or a wrong constant. */
  function Parse(f: Format, bs: bytes): Option<(Value, bytes)>
    decreases f, 0
  {
    match f
    case UInt(width) =>
      if |bs| < width then None else Some((Num(FromLE(bs[..width])), bs[width..]))
    case Flag =>
      if bs == [] then None else Some((Bool(bs[0] != 0), bs[1..]))
    case Raw(length) =>
      if |bs| < length then None else Some((Blob(bs[..length]), bs[length..]))
    case Const(expected) =>
      if expected <= bs then Some((Unit, bs[|expected|..])) else None
    case PascalString(prefix) =>
      if |bs| < prefix then None else
      var n := FromLE(bs[..prefix]);
      var rest := bs[prefix..];
      if |rest| < n then None else Some((Blob(rest[..n]), rest[n..]))
    case PrefixedArray(prefix, item) =>
      if |bs| < prefix then None else ParseAll(item, FromLE(bs[..prefix]), bs[prefix..])
    case Optional(inner) =>
      if bs == [] then None
      else if bs[0] == 0 then Some((Absent, bs[1..]))
      else
        (match Parse(inner, bs[1..])
         case None => None
         case Some((v, rest)) => Some((Present(v), rest)))
    case End => Some((Unit, bs))
    case Field(_, head, tail) =>
      (match Parse(head, bs)
       case None => None
       case Some((v, rest)) =>
         match Parse(tail, rest)
         case None => None
         case Some((vs, rest')) => Some((Cons(v, vs), rest')))
  }

  function ParseAll(item: Format, n: nat, bs: bytes): Option<(Value, bytes)>
    decreases item, n + 1
  {
    if n == 0 then Some((Unit, bs)) else
    match Parse(item, bs)
    case None => None
    case Some((v, rest)) =>
      match ParseAll(item, n - 1, rest)
      case None => None
      case Some((vs, rest')) => Some((Cons(v, vs), rest'))
  }

  /** A struct of one field: the step that unfolds the last link of a chain. */
  lemma LastField(name: string, head: Format, v: Value)
    requires Fits(head, v)
    ensures var (f, vs) := (Field(name, head, End), Cons(v, Unit));
            Fits(f, vs) && Build(f, vs) == Build(head, v)
  {
    assert Fits(End, Unit) && Build(End, Unit) == [];
  }

  lemma MoreFields(name: string, head: Format, rest: Format, v: Value, vs: Value)
    requires Fits(head, v) && Fits(rest, vs)
    ensures Fits(Field(name, head, rest), Cons(v, vs))
    ensures Build(Field(name, head, rest), Cons(v, vs)) == Build(head, v) + Build(rest, vs)
  {
  }

  // ---------------------------------------------------------------- round trip

  /** Whatever follows, parsing built bytes gives the value back and consumes exactly those bytes. */
  lemma {:induction false} RoundTrip(f: Format, v: Value, suffix: bytes)
    requires Fits(f, v)
    ensures Parse(f, Build(f, v) + suffix) == Some((v, suffix))
    decreases f, v
  {
    match f
    case PrefixedArray(_, item) =>
      RoundTripAll(item, v, suffix);
      ArrayParses(f, v, suffix);
    case Optional(inner) =>
      if v.Present? {
        RoundTrip(inner, v.v, suffix);
      }
      OptionalParses(f, v, suffix);
    case Field(_, head, rest) =>
      RoundTrip(head, v.head, Build(rest, v.tail) + suffix);
      RoundTrip(rest, v.tail, suffix);
      FieldParses(f, v, suffix);
    case _ =>
      RoundTripSimple(f, v, suffix);
  }

  lemma ArrayParses(f: Format, v: Value, suffix: bytes)
    requires f.PrefixedArray? && Fits(f, v)
    requires ParseAll(f.item, Count(v), BuildAll(f.item, v) + suffix) == Some((v, suffix))
    ensures Parse(f, Build(f, v) + suffix) == Some((v, suffix))
  {
    var bs := Build(f, v) + suffix;
    FromToLE(Count(v), f.prefix);
    assert bs[..f.prefix] == ToLE(Count(v), f.prefix);
    assert bs[f.prefix..] == BuildAll(f.item, v) + suffix;
  }

  lemma OptionalParses(f: Format, v: Value, suffix: bytes)
    requires f.Optional? && Fits(f, v)
    requires v.Present? ==> Parse(f.inner, Build(f.inner, v.v) + suffix) == Some((v.v, suffix))
    ensures Parse(f, Build(f, v) + suffix) == Some((v, suffix))
  {
    var bs := Build(f, v) + suffix;
    if v.Present? {
      var inner := Build(f.inner, v.v) + suffix;
      assert bs == [1] + inner;
      assert bs[0] == 1 && bs[1..] == inner;
    } else {
      assert bs == [0] + suffix;
      assert bs[0] == 0 && bs[1..] == suffix;
    }
  }

  lemma FieldParses(f: Format, v: Value, suffix: bytes)
    requires f.Field? && Fits(f, v)
    requires var rest := Build(f.rest, v.tail) + suffix;
             Parse(f.head, Build(f.head, v.head) + rest) == Some((v.head, rest))
    requires Parse(f.rest, Build(f.rest, v.tail) + suffix) == Some((v.tail, suffix))
    ensures Parse(f, Build(f, v) + suffix) == Some((v, suffix))
  {
    assert Build(f, v) + suffix == Build(f.head, v.head) + (Build(f.rest, v.tail) + suffix);
  }

  lemma RoundTripSimple(f: Format, v: Value, suffix: bytes)
    requires Fits(f, v) && !f.PrefixedArray? && !f.Optional? && !f.Field?
    ensures Parse(f, Build(f, v) + suffix) == Some((v, suffix))
  {
    var bs := Build(f, v) + suffix;
    match f
    case UInt(width) =>
      FromToLE(v.n, width);
      assert bs[..width] == ToLE(v.n, width) && bs[width..] == suffix;
    case Flag =>
      assert bs[1..] == suffix;
    case Raw(length) =>
      assert bs[..length] == v.bs && bs[length..] == suffix;
    case Const(expected) =>
      assert bs[|expected|..] == suffix;
    case PascalString(prefix) =>
      FromToLE(|v.bs|, prefix);
      assert bs[..prefix] == ToLE(|v.bs|, prefix);
      assert bs[prefix..] == v.bs + suffix;
    case End =>
      assert bs == suffix;
  }

  lemma {:induction false} RoundTripAll(item: Format, v: Value, suffix: bytes)
    requires AllFit(item, v)
    ensures ParseAll(item, Count(v), BuildAll(item, v) + suffix) == Some((v, suffix))
    decreases item, v
  {
    if v == Unit {
      assert BuildAll(item, v) + suffix == suffix;
    } else {
      assert BuildAll(item, v) + suffix == Build(item, v.head) + (BuildAll(item, v.tail) + suffix);
      RoundTrip(item, v.head, BuildAll(item, v.tail) + suffix);
      RoundTripAll(item, v.tail, suffix);
    }
  }

  /** No encoding is a prefix of another one, and equal encodings come from equal values. */
  lemma PrefixFree(f: Format, v: Value, v': Value, s: bytes, s': bytes)
    requires Fits(f, v) && Fits(f, v')
    requires Build(f, v) + s == Build(f, v') + s'
    ensures v == v' && s == s'
  {
    RoundTrip(f, v, s);
    RoundTrip(f, v', s');
  }

  // ---------------------------------------------------------------- the converse

  /** Every flag byte met while parsing is 0 or 1. (The library reads any non-zero byte as True.) */
  predicate CanonicalFlags(f: Format, bs: bytes)
    requires Parse(f, bs).Some?
    decreases f, 0
  {
    match f
    case Flag => bs[0] <= 1
    case PrefixedArray(prefix, item) =>
      CanonicalAll(item, FromLE(bs[..prefix]), bs[prefix..])
    case Optional(inner) => bs[0] == 0 || (bs[0] == 1 && CanonicalFlags(inner, bs[1..]))
    case Field(_, head, tail) =>
      CanonicalFlags(head, bs) && CanonicalFlags(tail, Parse(head, bs).value.1)
    case _ => true
  }

  predicate CanonicalAll(item: Format, n: nat, bs: bytes)
    requires ParseAll(item, n, bs).Some?
    decreases item, n + 1
  {
    n == 0 || (CanonicalFlags(item, bs) && CanonicalAll(item, n - 1, Parse(item, bs).value.1))
  }

  /** `built` is as long as what a parse consumed from `bs`, and equal to it exactly if `canonical`. */
  ghost predicate Rebuilt(built: bytes, rest: bytes, bs: bytes, canonical: bool) {
    && |built| + |rest| == |bs|
    && rest == bs[|built|..]
    && (built == bs[..|built|] <==> canonical)
  }

  lemma RebuiltAppend(b1: bytes, r1: bytes, b2: bytes, r2: bytes, bs: bytes, c1: bool, c2: bool)
    requires Rebuilt(b1, r1, bs, c1) && Rebuilt(b2, r2, r1, c2)
    ensures Rebuilt(b1 + b2, r2, bs, c1 && c2)
  {
    assert bs[..|b1|] + r1[..|b2|] == bs[..|b1 + b2|];
    assert (b1 + b2)[..|b1|] == b1 && (b1 + b2)[|b1|..] == b2;
    assert bs[..|b1 + b2|][..|b1|] == bs[..|b1|] && bs[..|b1 + b2|][|b1|..] == r1[..|b2|];
  }

  /** What a parse returns can be built again, to as many bytes as the parse consumed; and to the very
      same bytes exactly when no flag byte was greater than 1. */
  lemma {:induction false} ParseSound(f: Format, bs: bytes)
    requires Parse(f, bs).Some?
    ensures var (v, rest) := Parse(f, bs).value;
            Fits(f, v) && Rebuilt(Build(f, v), rest, bs, CanonicalFlags(f, bs))
    decreases f, 0
  {
    var (v, rest) := Parse(f, bs).value;
    match f
    case UInt(width) =>
      ToFromLE(bs[..width]);
    case Flag =>
    case Raw(length) =>
    case Const(expected) =>
    case PascalString(prefix) =>
      ToFromLE(bs[..prefix]);
      RebuiltAppend(bs[..prefix], bs[prefix..], v.bs, rest, bs, true, true);
    case PrefixedArray(prefix, item) =>
      var n := FromLE(bs[..prefix]);
      ToFromLE(bs[..prefix]);
      ParseAllSound(item, n, bs[prefix..]);
      RebuiltAppend(bs[..prefix], bs[prefix..], BuildAll(item, v), rest, bs,
                    true, CanonicalAll(item, n, bs[prefix..]));
    case Optional(inner) =>
      if bs[0] != 0 {
        ParseSound(inner, bs[1..]);
        RebuiltAppend([1], bs[1..], Build(inner, v.v), rest, bs, bs[0] == 1, CanonicalFlags(inner, bs[1..]));
      }
    case End =>
    case Field(_, head, tail) =>
      var rest1 := Parse(head, bs).value.1;
      ParseSound(head, bs);
      ParseSound(tail, rest1);
      RebuiltAppend(Build(head, v.head), rest1, Build(tail, v.tail), rest, bs,
                    CanonicalFlags(head, bs), CanonicalFlags(tail, rest1));
  }

  lemma {:induction false} ParseAllSound(item: Format, n: nat, bs: bytes)
    requires ParseAll(item, n, bs).Some?
    ensures var (v, rest) := ParseAll(item, n, bs).value;
            && AllFit(item, v) && Count(v) == n
            && Rebuilt(BuildAll(item, v), rest, bs, CanonicalAll(item, n, bs))
    decreases item, n + 1
  {
    if n > 0 {
      var (v, rest) := ParseAll(item, n, bs).value;
      var rest1 := Parse(item, bs).value.1;
      ParseSound(item, bs);
      ParseAllSound(item, n - 1, rest1);
      RebuiltAppend(Build(item, v.head), rest1, BuildAll(item, v.tail), rest, bs,
                    CanonicalFlags(item, bs), CanonicalAll(item, n - 1, rest1));
    }
  }
}
