/** The parser as it runs: a reader that advances over the bytes of the file. */
module GgufReader {
  import opened Wrappers
  import opened Integers
  import opened GgufFormat
  import opened GgufParser

  /** A call that read from where `parsed` starts gave the same answer, and left the same bytes. */
  ghost predicate Follows<T>(r: Result<T, Error>, parsed: Outcome<T>, rest: seq<u8>) {
    match parsed
    case Success(p) => r == Success(p.value) && rest == p.rest
    case Failure(e) => r == Failure(e)
  }

  /** What is read when `xs` has been read already and `more` follows. */
  ghost function Prepend<T>(xs: seq<T>, more: Outcome<seq<T>>): Outcome<seq<T>> {
    match more
    case Success(p) => Success(Parsed(xs + p.value, p.rest))
    case Failure(e) => Failure(e)
  }

  lemma PrependEnds<T>(xs: seq<T>, more: Outcome<seq<T>>, rest: seq<u8>)
    ensures Prepend([], more) == more
    ensures Prepend(xs, Success(Parsed([], rest))) == Success(Parsed(xs, rest))
  {
    assert xs + [] == xs;
    if more.Success? {
      assert [] + more.value.value == more.value.value;
    }
  }

  lemma ManyStep<T>(xs: seq<T>, bs: seq<u8>, n: nat, parse: seq<u8> -> Outcome<T>)
    requires n > 0
    ensures match parse(bs)
            case Success(p) =>
              Prepend(xs, ParseMany(bs, n, parse)) == Prepend(xs + [p.value], ParseMany(p.rest, n - 1, parse))
            case Failure(e) => Prepend(xs, ParseMany(bs, n, parse)) == Failure(e)
  {
    if parse(bs).Success? && ParseMany(parse(bs).value.rest, n - 1, parse).Success? {
      var x, more := parse(bs).value.value, ParseMany(parse(bs).value.rest, n - 1, parse).value.value;
      assert xs + ([x] + more) == (xs + [x]) + more;
    }
  }

  lemma ElementsStep(xs: seq<Value>, bs: seq<u8>, tag: u32, n: nat)
    requires n > 0
    ensures match ParseValue(bs, tag)
            case Success(p) =>
              Prepend(xs, ParseElements(bs, tag, n)) == Prepend(xs + [p.value], ParseElements(p.rest, tag, n - 1))
            case Failure(e) => Prepend(xs, ParseElements(bs, tag, n)) == Failure(e)
  {
    if ParseValue(bs, tag).Success? && ParseElements(ParseValue(bs, tag).value.rest, tag, n - 1).Success? {
      var x := ParseValue(bs, tag).value.value;
      var more := ParseElements(ParseValue(bs, tag).value.rest, tag, n - 1).value.value;
      assert xs + ([x] + more) == (xs + [x]) + more;
    }
  }

  class Reader {
    const data: seq<u8>
    var pos: nat

    ghost predicate Valid()
      reads this
    {
      pos <= |data|
    }

    ghost function Rest(): seq<u8>
      requires Valid()
      reads this
    {
      data[pos..]
    }

    constructor (bytes: seq<u8>)
      ensures Valid() && Rest() == bytes
    {
      data, pos := bytes, 0;
    }

    method ReadExact(k: nat) returns (r: Result<seq<u8>, Error>)
      requires Valid()
      modifies this
      ensures Valid() && Follows(r, ParseBytes(old(Rest()), k), Rest())
      ensures pos >= old(pos)
    {
      if |data| - pos < k {
        return Failure(UnexpectedEof);
      }
      assert Rest()[..k] == data[pos..pos + k] && Rest()[k..] == data[pos + k..];
      r := Success(data[pos..pos + k]);
      pos := pos + k;
    }

    method ReadUint(k: nat) returns (r: Result<nat, Error>)
      requires Valid()
      modifies this
      ensures Valid() && Follows(r, ParseUint(old(Rest()), k), Rest())
      ensures r.Success? ==> r.value < Pow256(k) && pos == old(pos) + k
    {
      var bytes :- ReadExact(k);
      return Success(LeValue(bytes));
    }

    method ReadU32() returns (r: Result<u32, Error>)
      requires Valid()
      modifies this
      ensures Valid() && Follows(r, ParseU32(old(Rest())), Rest())
      ensures r.Success? ==> pos == old(pos) + 4
    {
      Widths();
      var n :- ReadUint(4);
      return Success(n);
    }

    method ReadU64() returns (r: Result<u64, Error>)
      requires Valid()
      modifies this
      ensures Valid() && Follows(r, ParseU64(old(Rest())), Rest())
      ensures r.Success? ==> pos == old(pos) + 8
    {
      Widths();
      var n :- ReadUint(8);
      return Success(n);
    }

    method ReadString() returns (r: Result<Text, Error>)
      requires Valid()
      modifies this
      ensures Valid() && Follows(r, ParseString(old(Rest())), Rest())
      ensures r.Success? ==> pos > old(pos)
    {
      var length :- ReadU64();
      var bytes :- ReadExact(length);
      return if IsUtf8(bytes) then Success(bytes) else Failure(InvalidUtf8);
    }

    method ReadScalar(valueType: u32) returns (r: Result<Value, Error>)
      requires Valid() && IsScalarTag(valueType)
      modifies this
      ensures Valid() && Follows(r, ParseScalar(old(Rest()), valueType), Rest())
    {
      hide ParseUint;
      Widths();
      match valueType
      case 0 => var n :- ReadUint(1); return Success(Uint8(n));
      case 1 => var n :- ReadUint(1); return Success(Int8(Signed(n, 0x100)));
      case 2 => var n :- ReadUint(2); return Success(Uint16(n));
      case 3 => var n :- ReadUint(2); return Success(Int16(Signed(n, 0x1_0000)));
      case 4 => var n :- ReadUint(4); return Success(Uint32(n));
      case 5 => var n :- ReadUint(4); return Success(Int32(Signed(n, 0x1_0000_0000)));
      case 6 => var n :- ReadUint(4); return Success(Float32(n));
      case 7 => var n :- ReadUint(1); return Success(Bool(n != 0));
      case 10 => var n :- ReadUint(8); return Success(Uint64(n));
      case 11 => var n :- ReadUint(8); return Success(Int64(Signed(n, 0x1_0000_0000_0000_0000)));
      case 12 => var n :- ReadUint(8); return Success(Float64(n));
    }

    method ReadValue(valueType: u32) returns (r: Result<Value, Error>)
      requires Valid()
      modifies this
      ensures Valid() && Follows(r, ParseValue(old(Rest()), valueType), Rest())
      ensures r.Success? ==> pos > old(pos)
      decreases |data| - pos, 1
    {
      if valueType == STRING {
        var s :- ReadString();
        return Success(String(s));
      } else if valueType == ARRAY {
        var vs :- ReadArray();
        return Success(Array(vs));
      } else if IsScalarTag(valueType) {
        r := ReadScalar(valueType);
      } else {
        return Failure(UnknownValueType(valueType));
      }
    }

    method ReadArray() returns (r: Result<seq<Value>, Error>)
      requires Valid()
      modifies this
      ensures Valid() && Follows(r, ParseArray(old(Rest())), Rest())
      decreases |data| - pos, 0
    {
      hide ParseUint;
      ghost var parsed := ParseArray(Rest());
      var elementType :- ReadU32();
      var length :- ReadU64();
      PrependEnds([], parsed, Rest());
      var values: seq<Value> := [];
      for i := 0 to length
        invariant Valid() && pos >= old(pos) + 12
        invariant parsed == Prepend(values, ParseElements(Rest(), elementType, length - i))
      {
        ElementsStep(values, Rest(), elementType, length - i);
        var v :- ReadValue(elementType);
        values := values + [v];
      }
      PrependEnds(values, parsed, Rest());
      return Success(values);
    }

    method ReadKvPair() returns (r: Result<Pair, Error>)
      requires Valid()
      modifies this
      ensures Valid() && Follows(r, ParsePair(old(Rest())), Rest())
    {
      var key :- ReadString();
      var valueType :- ReadU32();
      var value :- ReadValue(valueType);
      return Success(Pair(key, value));
    }

    method ReadTensorInfo() returns (r: Result<Tensor, Error>)
      requires Valid()
      modifies this
      ensures Valid() && Follows(r, ParseTensor(old(Rest())), Rest())
    {
      var name :- ReadString();
      var dims :- ReadU32();
      var shape :- ReadShape(dims);
      var typeId :- ReadU32();
      var offset :- ReadU64();
      var dtype :- Dtype(typeId);
      return Success(Tensor(name, shape, dtype, offset));
    }

    method ReadShape(dims: nat) returns (r: Result<seq<u64>, Error>)
      requires Valid()
      modifies this
      ensures Valid() && Follows(r, ParseMany(old(Rest()), dims, ParseU64), Rest())
    {
      hide ParseU64;
      ghost var parsed := ParseMany(Rest(), dims, ParseU64);
      PrependEnds([], parsed, Rest());
      var shape: seq<u64> := [];
      for i := 0 to dims
        invariant Valid() && parsed == Prepend(shape, ParseMany(Rest(), dims - i, ParseU64))
      {
        ManyStep(shape, Rest(), dims - i, ParseU64);
        var d :- ReadU64();
        shape := shape + [d];
      }
      PrependEnds(shape, parsed, Rest());
      return Success(shape);
    }

    method ReadMetadata(count: nat) returns (r: Result<map<Text, Value>, Error>, ghost pairs: seq<Pair>)
      requires Valid()
      modifies this
      ensures Valid()
      ensures match ParseMany(old(Rest()), count, ParsePair)
              case Success(p) => pairs == p.value && Rest() == p.rest && r == Success(Metadata(pairs))
              case Failure(e) => r == Failure(e)
    {
      hide ParsePair;
      ghost var parsed := ParseMany(Rest(), count, ParsePair);
      PrependEnds([], parsed, Rest());
      var metadata: map<Text, Value> := map[];
      pairs := [];
      for i := 0 to count
        invariant Valid() && parsed == Prepend(pairs, ParseMany(Rest(), count - i, ParsePair))
        invariant metadata == Metadata(pairs)
      {
        ManyStep(pairs, Rest(), count - i, ParsePair);
        var p :- ReadKvPair();
        assert (pairs + [p])[..|pairs|] == pairs;
        pairs := pairs + [p];
        metadata := metadata[p.key := p.value];
      }
      PrependEnds(pairs, parsed, Rest());
      r := Success(metadata);
    }

    method ReadTensors(count: nat) returns (r: Result<seq<Tensor>, Error>)
      requires Valid()
      modifies this
      ensures Valid() && Follows(r, ParseMany(old(Rest()), count, ParseTensor), Rest())
    {
      hide ParseTensor;
      ghost var parsed := ParseMany(Rest(), count, ParseTensor);
      PrependEnds([], parsed, Rest());
      var tensors: seq<Tensor> := [];
      for i := 0 to count
        invariant Valid() && parsed == Prepend(tensors, ParseMany(Rest(), count - i, ParseTensor))
      {
        ManyStep(tensors, Rest(), count - i, ParseTensor);
        var t :- ReadTensorInfo();
        tensors := tensors + [t];
      }
      PrependEnds(tensors, parsed, Rest());
      return Success(tensors);
    }

    /** Reads a whole file, keeping the last value of every metadata key. */
    method ReadModel() returns (r: Result<Model, Error>)
      requires Valid()
      modifies this
      ensures Valid() && r == Parse(old(Rest()))
    {
      var magic :- ReadU32();
      if magic != MAGIC {
        return Failure(InvalidMagic);
      }
      var version :- ReadU32();
      var tensorCount :- ReadU64();
      var metadataCount :- ReadU64();
      var read, pairs := ReadMetadata(metadataCount);
      var metadata :- read;
      var tensors :- ReadTensors(tensorCount);
      return Success(Model(version, metadata, tensors));
    }
  }
}
