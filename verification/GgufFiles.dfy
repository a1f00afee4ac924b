/** The same for pairs, tensors and whole files, and what follows for the parser. */
module GgufFiles {
  import opened Wrappers
  import opened Integers
  import opened GgufFormat
  import opened GgufParser
  import opened GgufProofs

  // ----- sequences of pieces -----

  /** When `bs` is pieces followed by `rest`, the bytes before `rest` are the pieces. */
  lemma UsedIs(bs: seq<u8>, pieces: seq<u8>, rest: seq<u8>)
    requires bs == pieces + rest
    ensures Split(bs, rest) && Used(bs, rest) == pieces
  {
  }

  lemma RegroupFive(a: seq<u8>, b: seq<u8>, c: seq<u8>, d: seq<u8>, e: seq<u8>, rest: seq<u8>)
    ensures (a + b + c + d + e) + rest == a + (b + (c + (d + (e + rest))))
  {
    Regroup(a + b + c + d, e, rest);
    Regroup(a + b + c, d, e + rest);
    Regroup(a + b, c, d + (e + rest));
    Regroup(a, b, c + (d + (e + rest)));
  }

  lemma RegroupSix(a: seq<u8>, b: seq<u8>, c: seq<u8>, d: seq<u8>, e: seq<u8>, f: seq<u8>, rest: seq<u8>)
    ensures (a + b + c + d + e + f) + rest == a + (b + (c + (d + (e + (f + rest)))))
  {
    Regroup(a + b + c + d + e, f, rest);
    RegroupFive(a, b, c, d, e, f + rest);
  }

  lemma StringExtends(bs: seq<u8>, more: seq<u8>)
    requires ParseString(bs).Success?
    ensures ParseString(bs + more) == Success(Parsed(ParseString(bs).value.value, ParseString(bs).value.rest + more))
  {
    StringReads();
    Extends(ParseString, IsString, bs, more);
  }

  lemma ManyExtends<T(!new)>(bs: seq<u8>, n: nat, parse: seq<u8> -> Outcome<T>,
                               layout: (seq<u8>, T) -> bool, more: seq<u8>)
    requires Reads(parse, layout) && ParseMany(bs, n, parse).Success?
    ensures ParseMany(bs + more, n, parse)
            == Success(Parsed(ParseMany(bs, n, parse).value.value, ParseMany(bs, n, parse).value.rest + more))
  {
    hide Reads, ParseMany, IsMany;
    var xs := ParseMany(bs, n, parse).value;
    ManyMeant(bs, n, parse, layout);
    ManyAccepted(Used(bs, xs.rest), xs.value, parse, layout, xs.rest + more);
    Regroup(Used(bs, xs.rest), xs.rest, more);
  }

  // ----- pairs -----

  lemma PairAccepted(used: seq<u8>, p: Pair, rest: seq<u8>)
    requires IsPair(used, p)
    ensures ParsePair(used + rest) == Success(Parsed(p, rest))
  {
    hide ParseString, ParseUint, ParseValue, IsString, IsValue, Le;
    var key: seq<u8>, tag: u32, value: seq<u8> :|
      used == key + Le(tag, 4) + value && IsString(key, p.key) && IsValue(value, tag, p.value);
    Widths();
    StringAccepted(key, p.key, Le(tag, 4) + (value + rest));
    UintAccepted(tag, 4, value + rest);
    ValueAccepted(value, tag, p.value, rest);
    assert used + rest == key + (Le(tag, 4) + (value + rest));
  }

  lemma PairMeant(bs: seq<u8>)
    ensures MeansAt(ParsePair(bs), IsPair, bs)
  {
    hide ParseString, ParseUint, ParseValue, IsString, IsValue, Le;
    if ParsePair(bs).Success? {
      var key := ParseString(bs).value;
      var tag := ParseU32(key.rest).value;
      var value := ParseValue(tag.rest, tag.value).value;
      StringMeant(bs);
      UintMeant(key.rest, 4);
      ValueMeant(tag.rest, tag.value);
      var k, v := Used(bs, key.rest), Used(tag.rest, value.rest);
      assert bs == k + (Le(tag.value, 4) + (v + value.rest));
      UsedIs(bs, k + Le(tag.value, 4) + v, value.rest);
    }
  }

  lemma PairFinal(bs: seq<u8>, more: seq<u8>)
    requires IsFinal(ParsePair(bs))
    ensures ParsePair(bs + more) == ParsePair(bs)
  {
    hide ParseString, ParseUint, ParseValue;
    if ParseString(bs).Failure? {
      StringFinal(bs, more);
    } else {
      StringExtends(bs, more);
      var key := ParseString(bs).value;
      NumbersExtend(key.rest, more);
      var tag := ParseU32(key.rest).value;
      ValueFinal(tag.rest, tag.value, more);
    }
  }

  lemma PairReads()
    ensures Reads(ParsePair, IsPair)
  {
    forall used, p, rest | IsPair(used, p) ensures ParsePair(used + rest) == Success(Parsed(p, rest)) {
      PairAccepted(used, p, rest);
    }
    forall bs ensures MeansAt(ParsePair(bs), IsPair, bs) {
      PairMeant(bs);
    }
    forall bs, more | IsFinal(ParsePair(bs)) ensures ParsePair(bs + more) == ParsePair(bs) {
      PairFinal(bs, more);
    }
  }

  // ----- tensors -----

  /** The two directions of the table of tensor types are inverse. */
  lemma DtypeTable(dtype: string, id: u32)
    ensures DtypeId(dtype) == id <==> Dtype(id) == Success(dtype)
  {
  }

  /** The eleven tensor types, and no other number is one. */
  lemma DtypesAre(id: u32)
    ensures Dtype(0) == Success("f32") && Dtype(1) == Success("f16")
    ensures Dtype(2) == Success("q4_0") && Dtype(3) == Success("q4_1")
    ensures Dtype(6) == Success("q5_0") && Dtype(7) == Success("q5_1")
    ensures Dtype(8) == Success("q8_0") && Dtype(9) == Success("q8_1")
    ensures Dtype(10) == Success("i8") && Dtype(11) == Success("i16") && Dtype(12) == Success("i32")
    ensures Dtype(id) == Failure(UnknownTypeId(id)) <==> id == 4 || id == 5 || id > 12
  {
  }

  lemma TensorAccepted(used: seq<u8>, t: Tensor, rest: seq<u8>)
    requires IsTensor(used, t)
    ensures ParseTensor(used + rest) == Success(Parsed(t, rest))
  {
    hide Reads, ParseString, ParseUint, ParseMany, IsString, IsMany, Le, DtypeId, Dtype;
    var n, id := |t.shape|, DtypeId(t.dtype);
    DtypeBound(t.dtype);
    DtypeTable(t.dtype, id);
    var name: seq<u8>, dims: seq<u8> :|
      && used == name + Le(n, 4) + dims + Le(id, 4) + Le(t.offset, 8)
      && IsString(name, t.name) && IsMany(dims, t.shape, IsU64);
    Widths();
    U64Reads();
    var r4 := Le(t.offset, 8) + rest;
    var r3 := Le(id, 4) + r4;
    var r2 := dims + r3;
    var r1 := Le(n, 4) + r2;
    StringAccepted(name, t.name, r1);
    UintAccepted(n, 4, r2);
    ManyAccepted(dims, t.shape, ParseU64, IsU64, r3);
    UintAccepted(id, 4, r4);
    UintAccepted(t.offset, 8, rest);
    RegroupFive(name, Le(n, 4), dims, Le(id, 4), Le(t.offset, 8), rest);
  }

  lemma DtypeBound(dtype: string)
    ensures DtypeId(dtype) <= 12
  {
  }

  lemma TensorMeant(bs: seq<u8>)
    ensures MeansAt(ParseTensor(bs), IsTensor, bs)
  {
    hide Reads, ParseString, ParseUint, ParseMany, IsString, IsMany, Le, DtypeId, Dtype;
    if ParseTensor(bs).Success? {
      U64Reads();
      var name := ParseString(bs).value;
      var dims := ParseU32(name.rest).value;
      var shape := ParseMany(dims.rest, dims.value, ParseU64).value;
      var id := ParseU32(shape.rest).value;
      var offset := ParseU64(id.rest).value;
      StringMeant(bs);
      UintMeant(name.rest, 4);
      ManyMeant(dims.rest, dims.value, ParseU64, IsU64);
      UintMeant(shape.rest, 4);
      UintMeant(id.rest, 8);
      DtypeTable(ParseTensor(bs).value.value.dtype, id.value);
      var s, d := Used(bs, name.rest), Used(dims.rest, shape.rest);
      RegroupFive(s, Le(dims.value, 4), d, Le(id.value, 4), Le(offset.value, 8), offset.rest);
      UsedIs(bs, s + Le(dims.value, 4) + d + Le(id.value, 4) + Le(offset.value, 8), offset.rest);
    }
  }

  lemma TensorFinal(bs: seq<u8>, more: seq<u8>)
    requires IsFinal(ParseTensor(bs))
    ensures ParseTensor(bs + more) == ParseTensor(bs)
  {
    hide Reads, ParseString, ParseUint, ParseMany, Dtype;
    U64Reads();
    if ParseString(bs).Failure? {
      StringFinal(bs, more);
    } else {
      StringExtends(bs, more);
      var name := ParseString(bs).value;
      NumbersExtend(name.rest, more);
      var dims := ParseU32(name.rest).value;
      if ParseMany(dims.rest, dims.value, ParseU64).Failure? {
        ManyFinal(dims.rest, dims.value, ParseU64, IsU64, more);
      } else {
        ManyExtends(dims.rest, dims.value, ParseU64, IsU64, more);
        var shape := ParseMany(dims.rest, dims.value, ParseU64).value;
        NumbersExtend(shape.rest, more);
        NumbersExtend(ParseU32(shape.rest).value.rest, more);
      }
    }
  }

  lemma TensorReads()
    ensures Reads(ParseTensor, IsTensor)
  {
    forall used, t, rest | IsTensor(used, t) ensures ParseTensor(used + rest) == Success(Parsed(t, rest)) {
      TensorAccepted(used, t, rest);
    }
    forall bs ensures MeansAt(ParseTensor(bs), IsTensor, bs) {
      TensorMeant(bs);
    }
    forall bs, more | IsFinal(ParseTensor(bs)) ensures ParseTensor(bs + more) == ParseTensor(bs) {
      TensorFinal(bs, more);
    }
  }

  // ----- files -----

  lemma FileAccepted(used: seq<u8>, f: File, rest: seq<u8>)
    requires IsFile(used, f)
    ensures ParseFile(used + rest) == Success(Parsed(f, rest))
  {
    hide Reads, ParseUint, ParseMany, IsMany, Le;
    var pairs: seq<u8>, tensors: seq<u8> :|
      && used == Le(MAGIC, 4) + Le(f.version, 4) + Le(|f.tensors|, 8) + Le(|f.pairs|, 8) + pairs + tensors
      && IsMany(pairs, f.pairs, IsPair) && IsMany(tensors, f.tensors, IsTensor);
    Widths();
    PairReads();
    TensorReads();
    var r5 := tensors + rest;
    var r4 := pairs + r5;
    var r3 := Le(|f.pairs|, 8) + r4;
    var r2 := Le(|f.tensors|, 8) + r3;
    var r1 := Le(f.version, 4) + r2;
    UintAccepted(MAGIC, 4, r1);
    UintAccepted(f.version, 4, r2);
    UintAccepted(|f.tensors|, 8, r3);
    UintAccepted(|f.pairs|, 8, r4);
    ManyAccepted(pairs, f.pairs, ParsePair, IsPair, r5);
    ManyAccepted(tensors, f.tensors, ParseTensor, IsTensor, rest);
    RegroupSix(Le(MAGIC, 4), Le(f.version, 4), Le(|f.tensors|, 8), Le(|f.pairs|, 8), pairs, tensors, rest);
  }

  lemma FileMeant(bs: seq<u8>)
    ensures MeansAt(ParseFile(bs), IsFile, bs)
  {
    hide Reads, ParseUint, ParseMany, IsMany, Le;
    if ParseFile(bs).Success? {
      PairReads();
      TensorReads();
      var magic := ParseU32(bs).value;
      var version := ParseU32(magic.rest).value;
      var tensorCount := ParseU64(version.rest).value;
      var pairCount := ParseU64(tensorCount.rest).value;
      var pairs := ParseMany(pairCount.rest, pairCount.value, ParsePair).value;
      var tensors := ParseMany(pairs.rest, tensorCount.value, ParseTensor).value;
      UintMeant(bs, 4);
      UintMeant(magic.rest, 4);
      UintMeant(version.rest, 8);
      UintMeant(tensorCount.rest, 8);
      ManyMeant(pairCount.rest, pairCount.value, ParsePair, IsPair);
      ManyMeant(pairs.rest, tensorCount.value, ParseTensor, IsTensor);
      var ps, ts := Used(pairCount.rest, pairs.rest), Used(pairs.rest, tensors.rest);
      RegroupSix(Le(MAGIC, 4), Le(version.value, 4), Le(tensorCount.value, 8),
                 Le(pairCount.value, 8), ps, ts, tensors.rest);
      UsedIs(bs, Le(MAGIC, 4) + Le(version.value, 4) + Le(tensorCount.value, 8) + Le(pairCount.value, 8) + ps + ts,
             tensors.rest);
    }
  }

  lemma FileFinal(bs: seq<u8>, more: seq<u8>)
    requires IsFinal(ParseFile(bs))
    ensures ParseFile(bs + more) == ParseFile(bs)
  {
    hide Reads, ParseUint, ParseMany;
    PairReads();
    TensorReads();
    NumbersExtend(bs, more);
    var magic := ParseU32(bs).value;
    if magic.value == MAGIC {
      NumbersExtend(magic.rest, more);
      var version := ParseU32(magic.rest).value;
      NumbersExtend(version.rest, more);
      var tensorCount := ParseU64(version.rest).value;
      NumbersExtend(tensorCount.rest, more);
      var pairCount := ParseU64(tensorCount.rest).value;
      if ParseMany(pairCount.rest, pairCount.value, ParsePair).Failure? {
        ManyFinal(pairCount.rest, pairCount.value, ParsePair, IsPair, more);
      } else {
        ManyExtends(pairCount.rest, pairCount.value, ParsePair, IsPair, more);
        var pairs := ParseMany(pairCount.rest, pairCount.value, ParsePair).value;
        ManyFinal(pairs.rest, tensorCount.value, ParseTensor, IsTensor, more);
      }
    }
  }

  lemma FileReads()
    ensures Reads(ParseFile, IsFile)
  {
    forall used, f, rest | IsFile(used, f) ensures ParseFile(used + rest) == Success(Parsed(f, rest)) {
      FileAccepted(used, f, rest);
    }
    forall bs ensures MeansAt(ParseFile(bs), IsFile, bs) {
      FileMeant(bs);
    }
    forall bs, more | IsFinal(ParseFile(bs)) ensures ParseFile(bs + more) == ParseFile(bs) {
      FileFinal(bs, more);
    }
  }

  // ----- the parser -----

  /** A file is accepted exactly if it starts with a layout, and the result is that layout's model. */
  lemma ParseIff(bs: seq<u8>, m: Model)
    ensures Parse(bs) == Success(m) <==>
              exists f, k :: 0 <= k <= |bs| && IsFile(bs[..k], f) && IsModelOf(m, f)
  {
    hide ParseFile, IsFile, ModelOf, IsModelOf;
    if Parse(bs) == Success(m) {
      var p := ParseFile(bs).value;
      FileMeant(bs);
      ModelIff(m, p.value);
      assert IsFile(bs[..|bs| - |p.rest|], p.value);
    }
    if exists f, k :: 0 <= k <= |bs| && IsFile(bs[..k], f) && IsModelOf(m, f) {
      var f, k :| 0 <= k <= |bs| && IsFile(bs[..k], f) && IsModelOf(m, f);
      FileAccepted(bs[..k], f, bs[k..]);
      ModelIff(m, f);
      assert bs == bs[..k] + bs[k..];
    }
  }

  /** Parsing undoes encoding, whatever follows the encoded file. */
  lemma ParseUndoesEncode(f: File, rest: seq<u8>)
    requires EncodableFile(f)
    ensures Parse(EncodeFile(f) + rest).Success? && IsModelOf(Parse(EncodeFile(f) + rest).value, f)
  {
    hide IsModelOf;
    FileIsEncoded(f);
    FileAccepted(EncodeFile(f), f, rest);
    ModelIff(ModelOf(f), f);
  }

  /** The version, the tensors and the keys that the parser returns are those of the file. */
  lemma ParseKeepsTheFields(used: seq<u8>, f: File, rest: seq<u8>)
    requires IsFile(used, f)
    ensures Parse(used + rest).Success?
    ensures var m := Parse(used + rest).value;
            && m.version == f.version && m.tensors == f.tensors
            && forall key :: key in m.metadata <==> exists i :: 0 <= i < |f.pairs| && f.pairs[i].key == key
  {
    FileAccepted(used, f, rest);
    ModelIff(ModelOf(f), f);
  }

  /** A file cut short anywhere is rejected, with the error for a premature end. */
  lemma PrefixesAreRejected(used: seq<u8>, f: File, k: nat)
    requires IsFile(used, f) && k < |used|
    ensures Parse(used[..k]) == Failure(UnexpectedEof)
  {
    FileReads();
    PrefixIsCutOff(ParseFile, IsFile, used, f, k);
  }

  /** The contents of a file, and where they end, are determined by its bytes. */
  lemma FilesAreUnambiguous(used: seq<u8>, f: File, rest: seq<u8>, used': seq<u8>, f': File, rest': seq<u8>)
    requires IsFile(used, f) && IsFile(used', f') && used + rest == used' + rest'
    ensures f == f' && used == used' && rest == rest'
  {
    FileReads();
    LayoutsAreUnambiguous(ParseFile, IsFile, used, f, rest, used', f', rest');
  }

  /** The value the parser keeps for a key is that of the last pair with the key. */
  lemma ParseKeepsTheLastPair(used: seq<u8>, f: File, rest: seq<u8>, i: nat)
    requires IsFile(used, f) && i < |f.pairs|
    requires forall j :: i < j < |f.pairs| ==> f.pairs[j].key != f.pairs[i].key
    ensures Parse(used + rest).Success?
    ensures f.pairs[i].key in Parse(used + rest).value.metadata
    ensures Parse(used + rest).value.metadata[f.pairs[i].key] == f.pairs[i].value
  {
    FileAccepted(used, f, rest);
    LastPairWins(f.pairs, f.pairs[i].key);
  }

  // ----- errors -----

  /** A string is cut off if its length or its bytes are missing, and otherwise refused only if it is not UTF-8. */
  lemma StringReplies(bs: seq<u8>)
    ensures var r, missing := ParseString(bs), |bs| < 8 || |bs| - 8 < LeValue(bs[..8]);
            && (r == Failure(UnexpectedEof) <==> missing)
            && (r == Failure(InvalidUtf8) <==> !missing && !IsUtf8(bs[8..8 + LeValue(bs[..8])]))
            && (r.Success? ==> r.value.value == bs[8..8 + LeValue(bs[..8])])
  {
    hide IsUtf8, LeValue;
    Widths();
    if |bs| >= 8 && LeValue(bs[..8]) <= |bs| - 8 {
      assert bs[8..][..LeValue(bs[..8])] == bs[8..8 + LeValue(bs[..8])];
    }
  }

  /** The type number of every kind of value. */
  lemma TagsAre(bs: seq<u8>, tag: u32)
    requires ParseValue(bs, tag).Success?
    ensures match ParseValue(bs, tag).value.value
            case Uint8(_) => tag == 0
            case Int8(_) => tag == 1
            case Uint16(_) => tag == 2
            case Int16(_) => tag == 3
            case Uint32(_) => tag == 4
            case Int32(_) => tag == 5
            case Float32(_) => tag == 6
            case Bool(_) => tag == 7
            case String(_) => tag == 8
            case Array(_) => tag == 9
            case Uint64(_) => tag == 10
            case Int64(_) => tag == 11
            case Float64(_) => tag == 12
  {
    hide IsUtf8, LeValue, ParseArray;
  }

  /** What an error in a value can be. */
  predicate IsValueError(e: Error) {
    e == UnexpectedEof || e == InvalidUtf8 || (e.UnknownValueType? && e.valueType > 12)
  }

  lemma {:induction false} ValueErrors(bs: seq<u8>, tag: u32)
    ensures ParseValue(bs, tag).Failure? ==> IsValueError(ParseValue(bs, tag).error)
    ensures tag > 12 ==> ParseValue(bs, tag) == Failure(UnknownValueType(tag))
    decreases |bs|, 1
  {
    hide IsUtf8, LeValue;
    if tag == ARRAY && ParseU32(bs).Success? && ParseU64(ParseU32(bs).value.rest).Success? {
      var t := ParseU32(bs).value;
      var length := ParseU64(t.rest).value;
      ElementErrors(length.rest, t.value, length.value);
    }
  }

  lemma {:induction false} ElementErrors(bs: seq<u8>, tag: u32, n: nat)
    ensures ParseElements(bs, tag, n).Failure? ==> IsValueError(ParseElements(bs, tag, n).error)
    decreases |bs|, n + 2
  {
    hide ParseValue;
    if n > 0 {
      ValueErrors(bs, tag);
      if ParseValue(bs, tag).Success? {
        ElementErrors(ParseValue(bs, tag).value.rest, tag, n - 1);
      }
    }
  }

  lemma {:induction false} ManyErrors<T(!new)>(bs: seq<u8>, n: nat, parse: seq<u8> -> Outcome<T>,
                                               allowed: Error -> bool)
    requires forall b :: parse(b).Failure? ==> allowed(parse(b).error)
    ensures ParseMany(bs, n, parse).Failure? ==> allowed(ParseMany(bs, n, parse).error)
    decreases n
  {
    if n > 0 && parse(bs).Success? {
      ManyErrors(parse(bs).value.rest, n - 1, parse, allowed);
    }
  }

  lemma PairErrors(bs: seq<u8>)
    ensures ParsePair(bs).Failure? ==> IsValueError(ParsePair(bs).error)
  {
    hide ParseValue, IsUtf8, LeValue;
    if ParseString(bs).Success? && ParseU32(ParseString(bs).value.rest).Success? {
      var tag := ParseU32(ParseString(bs).value.rest).value;
      ValueErrors(tag.rest, tag.value);
    }
  }

  /** What an error in a tensor can be. */
  predicate IsTensorError(e: Error) {
    e == UnexpectedEof || e == InvalidUtf8 || (e.UnknownTypeId? && (e.typeId == 4 || e.typeId == 5 || e.typeId > 12))
  }

  lemma TensorErrors(bs: seq<u8>)
    ensures ParseTensor(bs).Failure? ==> IsTensorError(ParseTensor(bs).error)
  {
    hide ParseMany, IsUtf8, LeValue;
    if ParseString(bs).Success? && ParseU32(ParseString(bs).value.rest).Success? {
      var dims := ParseU32(ParseString(bs).value.rest).value;
      ManyErrors(dims.rest, dims.value, ParseU64, e => e == UnexpectedEof);
    }
  }

  /** The errors of a file with the right first four bytes. */
  lemma FileErrors(bs: seq<u8>)
    requires |bs| >= 4 && LeValue(bs[..4]) == MAGIC
    ensures Parse(bs).Failure? ==> IsValueError(Parse(bs).error) || IsTensorError(Parse(bs).error)
  {
    hide ParseMany, ParsePair, ParseTensor, ModelOf, LeValue;
    var version := ParseU32(bs[4..]);
    if version.Success? && ParseU64(version.value.rest).Success? {
      var tensorCount := ParseU64(version.value.rest).value;
      if ParseU64(tensorCount.rest).Success? {
        var pairCount := ParseU64(tensorCount.rest).value;
        PartErrors(pairCount.rest, pairCount.value, tensorCount.value);
      }
    }
  }

  lemma PartErrors(bs: seq<u8>, pairCount: nat, tensorCount: nat)
    ensures var pairs := ParseMany(bs, pairCount, ParsePair);
            if pairs.Failure? then IsValueError(pairs.error)
            else
              var tensors := ParseMany(pairs.value.rest, tensorCount, ParseTensor);
              tensors.Failure? ==> IsTensorError(tensors.error)
  {
    hide ParseMany, ParsePair, ParseTensor;
    forall b { PairErrors(b); }
    forall b { TensorErrors(b); }
    ManyErrors(bs, pairCount, ParsePair, IsValueError);
    var pairs := ParseMany(bs, pairCount, ParsePair);
    if pairs.Success? {
      ManyErrors(pairs.value.rest, tensorCount, ParseTensor, IsTensorError);
    }
  }

  /** The complaint about the first four bytes is made exactly if they are there and are not "GGUF". */
  lemma InvalidMagicIff(bs: seq<u8>)
    ensures Parse(bs) == Failure(InvalidMagic) <==> |bs| >= 4 && bs[..4] != [0x47, 0x47, 0x55, 0x46]
  {
    hide Parse, Le, LeValue;
    MagicIs();
    Widths();
    LeValueOfLe(MAGIC, 4);
    if |bs| >= 4 {
      LeOfLeValue(bs[..4]);
      if LeValue(bs[..4]) == MAGIC {
        FileErrors(bs);
      } else {
        WrongMagic(bs);
      }
    } else {
      TooShort(bs);
    }
  }

  lemma WrongMagic(bs: seq<u8>)
    requires |bs| >= 4 && LeValue(bs[..4]) != MAGIC
    ensures Parse(bs) == Failure(InvalidMagic)
  {
    hide LeValue;
  }

  lemma TooShort(bs: seq<u8>)
    requires |bs| < 4
    ensures Parse(bs) == Failure(UnexpectedEof)
  {
  }
}
