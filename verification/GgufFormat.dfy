/**
 The GGUF file format ("File Structure" of the GGUF specification in the ggml repository),
 with the tensor types of this parser: values, the byte layout each of them may have, and
 an encoder that chooses one layout. Floats are their bit patterns.
 */
module GgufFormat {
  import opened Integers

  /** A string is its UTF-8 bytes. */
  type Text = seq<u8>

  datatype Value =
    | Uint8(n8: u8)
    | Int8(i8: i8)
    | Uint16(n16: u16)
    | Int16(i16: i16)
    | Uint32(n32: u32)
    | Int32(i32: i32)
    | Float32(f32: u32)
    | Bool(b: bool)
    | String(s: Text)
    | Array(elements: seq<Value>)
    | Uint64(n64: u64)
    | Int64(i64: i64)
    | Float64(f64: u64)

  datatype Tensor = Tensor(name: Text, shape: seq<u64>, dtype: string, offset: u64)

  datatype Pair = Pair(key: Text, value: Value)

  /** A file as written, with its key-value pairs in order. */
  datatype File = File(version: u32, pairs: seq<Pair>, tensors: seq<Tensor>)

  /** What the parser keeps of a file. */
  datatype Model = Model(version: u32, metadata: map<Text, Value>, tensors: seq<Tensor>)

  const MAGIC: u32 := 0x46554747
  const STRING: u32 := 8
  const ARRAY: u32 := 9

  // ----- little-endian integers -----

  function Pow256(k: nat): (p: nat)
    ensures p > 0
  {
    if k == 0 then 1 else 256 * Pow256(k - 1)
  }

  /** The `k` low bytes of `n`, lowest first. */
  function Le(n: nat, k: nat): (bs: seq<u8>)
    ensures |bs| == k
  {
    if k == 0 then [] else [n % 256] + Le(n / 256, k - 1)
  }

  function LeValue(bs: seq<u8>): (n: nat)
    ensures n < Pow256(|bs|)
  {
    if bs == [] then 0 else bs[0] + 256 * LeValue(bs[1..])
  }

  lemma {:induction false} LeValueOfLe(n: nat, k: nat)
    requires n < Pow256(k)
    ensures LeValue(Le(n, k)) == n
  {
    if k > 0 {
      LeValueOfLe(n / 256, k - 1);
      assert Le(n, k)[1..] == Le(n / 256, k - 1);
    }
  }

  lemma {:induction false} LeOfLeValue(bs: seq<u8>)
    ensures Le(LeValue(bs), |bs|) == bs
  {
    if bs != [] {
      LeOfLeValue(bs[1..]);
      assert LeValue(bs) % 256 == bs[0] && LeValue(bs) / 256 == LeValue(bs[1..]);
    }
  }

  lemma Widths()
    ensures Pow256(1) == 0x100 && Pow256(2) == 0x1_0000 && Pow256(4) == 0x1_0000_0000
    ensures Pow256(8) == 0x1_0000_0000_0000_0000
  {
    assert Pow256(5) == 256 * Pow256(4) && Pow256(6) == 256 * Pow256(5);
    assert Pow256(7) == 256 * Pow256(6) && Pow256(8) == 256 * Pow256(7);
  }

  /** Two's complement. */
  function Unsigned(i: int, range: nat): nat
    requires 0 <= i + range
  {
    if i < 0 then i + range else i
  }

  function Signed(n: nat, range: nat): int {
    if n < range / 2 then n else n - range
  }

  // ----- UTF-8 (section 4 of RFC 3629) -----

  predicate Continues(bs: seq<u8>, i: nat) {
    i < |bs| && 0x80 <= bs[i] <= 0xBF
  }

  /** The length of the character that starts `bs`, or 0 if none does. */
  function CharLength(bs: seq<u8>): (n: nat)
    ensures n <= |bs|
  {
    if bs == [] then 0
    else if bs[0] <= 0x7F then 1
    else if 0xC2 <= bs[0] <= 0xDF && Continues(bs, 1) then 2
    else if 0xE0 <= bs[0] <= 0xEF && Continues(bs, 1) && Continues(bs, 2)
            && (bs[0] == 0xE0 ==> bs[1] >= 0xA0) && (bs[0] == 0xED ==> bs[1] <= 0x9F) then 3
    else if 0xF0 <= bs[0] <= 0xF4 && Continues(bs, 1) && Continues(bs, 2) && Continues(bs, 3)
            && (bs[0] == 0xF0 ==> bs[1] >= 0x90) && (bs[0] == 0xF4 ==> bs[1] <= 0x8F) then 4
    else 0
  }

  predicate IsUtf8(bs: seq<u8>) {
    bs == [] || (CharLength(bs) > 0 && IsUtf8(bs[CharLength(bs)..]))
  }

  // ----- layouts -----

  ghost predicate IsString(bs: seq<u8>, s: Text) {
    IsUtf8(s) && |s| < 0x1_0000_0000_0000_0000 && bs == Le(|s|, 8) + s
  }

  /** Fixed-width values. Any non-zero byte is true. */
  ghost predicate IsScalar(bs: seq<u8>, tag: u32, v: Value) {
    match v
    case Uint8(n) => tag == 0 && bs == Le(n, 1)
    case Int8(i) => tag == 1 && bs == Le(Unsigned(i, 0x100), 1)
    case Uint16(n) => tag == 2 && bs == Le(n, 2)
    case Int16(i) => tag == 3 && bs == Le(Unsigned(i, 0x1_0000), 2)
    case Uint32(n) => tag == 4 && bs == Le(n, 4)
    case Int32(i) => tag == 5 && bs == Le(Unsigned(i, 0x1_0000_0000), 4)
    case Float32(bits) => tag == 6 && bs == Le(bits, 4)
    case Bool(b) => tag == 7 && |bs| == 1 && (bs[0] != 0 <==> b)
    case Uint64(n) => tag == 10 && bs == Le(n, 8)
    case Int64(i) => tag == 11 && bs == Le(Unsigned(i, 0x1_0000_0000_0000_0000), 8)
    case Float64(bits) => tag == 12 && bs == Le(bits, 8)
    case _ => false
  }

  /** `bs` is a layout of `v` where a value of type `tag` is expected. */
  ghost predicate IsValue(bs: seq<u8>, tag: u32, v: Value)
    decreases v
  {
    match v
    case String(s) => tag == STRING && IsString(bs, s)
    case Array(vs) =>
      && tag == ARRAY && |vs| < 0x1_0000_0000_0000_0000
      && exists t: u32, body: seq<u8> :: bs == ArrayHeader(t, |vs|) + body && IsElements(body, t, vs)
    case _ => IsScalar(bs, tag, v)
  }

  function ArrayHeader(elementType: u32, length: nat): (bs: seq<u8>)
    ensures |bs| == 12
  {
    Le(elementType, 4) + Le(length, 8)
  }

  /** The elements follow one another, all of type `t`; an empty array may name any type. */
  ghost predicate IsElements(bs: seq<u8>, t: u32, vs: seq<Value>)
    decreases vs
  {
    if vs == [] then bs == []
    else exists k :: 0 <= k <= |bs| && IsValue(bs[..k], t, vs[0]) && IsElements(bs[k..], t, vs[1..])
  }

  /** `bs` is the layouts of `xs`, one after another. */
  ghost predicate IsMany<T>(bs: seq<u8>, xs: seq<T>, one: (seq<u8>, T) -> bool) {
    if xs == [] then bs == []
    else exists k :: 0 <= k <= |bs| && one(bs[..k], xs[0]) && IsMany(bs[k..], xs[1..], one)
  }

  ghost predicate IsPair(bs: seq<u8>, p: Pair) {
    exists key: seq<u8>, tag: u32, value: seq<u8> ::
      bs == key + Le(tag, 4) + value && IsString(key, p.key) && IsValue(value, tag, p.value)
  }

  ghost predicate IsU64(bs: seq<u8>, n: u64) {
    bs == Le(n, 8)
  }

  /** The parser's own table of tensor types; 10 to 12 differ from the public specification. */
  function DtypeId(dtype: string): int {
    match dtype
    case "f32" => 0
    case "f16" => 1
    case "q4_0" => 2
    case "q4_1" => 3
    case "q5_0" => 6
    case "q5_1" => 7
    case "q8_0" => 8
    case "q8_1" => 9
    case "i8" => 10
    case "i16" => 11
    case "i32" => 12
    case _ => -1
  }

  ghost predicate IsTensor(bs: seq<u8>, t: Tensor) {
    && |t.shape| < 0x1_0000_0000 && DtypeId(t.dtype) >= 0
    && exists name: seq<u8>, dims: seq<u8> ::
         && bs == name + Le(|t.shape|, 4) + dims + Le(DtypeId(t.dtype), 4) + Le(t.offset, 8)
         && IsString(name, t.name) && IsMany(dims, t.shape, IsU64)
  }

  ghost predicate IsFile(bs: seq<u8>, f: File) {
    && |f.pairs| < 0x1_0000_0000_0000_0000 && |f.tensors| < 0x1_0000_0000_0000_0000
    && exists pairs: seq<u8>, tensors: seq<u8> ::
         && bs == Le(MAGIC, 4) + Le(f.version, 4) + Le(|f.tensors|, 8) + Le(|f.pairs|, 8) + pairs + tensors
         && IsMany(pairs, f.pairs, IsPair) && IsMany(tensors, f.tensors, IsTensor)
  }

  /** The metadata of a list of pairs: a later pair replaces an earlier one with the same key. */
  function Metadata(pairs: seq<Pair>): map<Text, Value> {
    if pairs == [] then map[]
    else Metadata(pairs[..|pairs| - 1])[pairs[|pairs| - 1].key := pairs[|pairs| - 1].value]
  }

  function ModelOf(f: File): Model {
    Model(f.version, Metadata(f.pairs), f.tensors)
  }

  /** The model field by field: a key is there if some pair has it, with the value of the last one that does. */
  ghost predicate IsModelOf(m: Model, f: File) {
    && m.version == f.version && m.tensors == f.tensors
    && (forall key :: key in m.metadata <==> exists i :: 0 <= i < |f.pairs| && f.pairs[i].key == key)
    && forall i :: 0 <= i < |f.pairs| && IsLastPair(f.pairs, i) ==>
         f.pairs[i].key in m.metadata && m.metadata[f.pairs[i].key] == f.pairs[i].value
  }

  /** No later pair has the same key. */
  ghost predicate IsLastPair(pairs: seq<Pair>, i: int)
    requires 0 <= i < |pairs|
  {
    forall j :: i < j < |pairs| ==> pairs[j].key != pairs[i].key
  }

  // ----- the encoder -----

  function Tag(v: Value): u32 {
    match v
    case Uint8(_) => 0
    case Int8(_) => 1
    case Uint16(_) => 2
    case Int16(_) => 3
    case Uint32(_) => 4
    case Int32(_) => 5
    case Float32(_) => 6
    case Bool(_) => 7
    case String(_) => STRING
    case Array(_) => ARRAY
    case Uint64(_) => 10
    case Int64(_) => 11
    case Float64(_) => 12
  }

  ghost predicate EncodableString(s: Text) {
    IsUtf8(s) && |s| < 0x1_0000_0000_0000_0000
  }

  /** What has an encoding: strings are UTF-8, arrays are homogeneous, lengths fit their fields. */
  ghost predicate Encodable(v: Value) {
    match v
    case String(s) => EncodableString(s)
    case Array(vs) =>
      && |vs| < 0x1_0000_0000_0000_0000
      && forall i :: 0 <= i < |vs| ==> Encodable(vs[i]) && Tag(vs[i]) == Tag(vs[0])
    case _ => true
  }

  ghost predicate EncodableFile(f: File) {
    && |f.pairs| < 0x1_0000_0000_0000_0000 && |f.tensors| < 0x1_0000_0000_0000_0000
    && (forall i :: 0 <= i < |f.pairs| ==> EncodableString(f.pairs[i].key) && Encodable(f.pairs[i].value))
    && (forall i :: 0 <= i < |f.tensors| ==> EncodableTensor(f.tensors[i]))
  }

  ghost predicate EncodableTensor(t: Tensor) {
    EncodableString(t.name) && |t.shape| < 0x1_0000_0000 && DtypeId(t.dtype) >= 0
  }

  function EncodeString(s: Text): seq<u8> {
    Le(|s|, 8) + s
  }

  function EncodeValue(v: Value): seq<u8> {
    match v
    case Uint8(n) => Le(n, 1)
    case Int8(i) => Le(Unsigned(i, 0x100), 1)
    case Uint16(n) => Le(n, 2)
    case Int16(i) => Le(Unsigned(i, 0x1_0000), 2)
    case Uint32(n) => Le(n, 4)
    case Int32(i) => Le(Unsigned(i, 0x1_0000_0000), 4)
    case Float32(bits) => Le(bits, 4)
    case Bool(b) => [if b then 1 else 0]
    case String(s) => EncodeString(s)
    case Array(vs) => ArrayHeader(if vs == [] then 0 else Tag(vs[0]), |vs|) + EncodeElements(vs)
    case Uint64(n) => Le(n, 8)
    case Int64(i) => Le(Unsigned(i, 0x1_0000_0000_0000_0000), 8)
    case Float64(bits) => Le(bits, 8)
  }

  function EncodeElements(vs: seq<Value>): seq<u8> {
    if vs == [] then [] else EncodeValue(vs[0]) + EncodeElements(vs[1..])
  }

  function EncodeMany<T>(xs: seq<T>, one: T -> seq<u8>): seq<u8> {
    if xs == [] then [] else one(xs[0]) + EncodeMany(xs[1..], one)
  }

  function EncodePair(p: Pair): seq<u8> {
    EncodeString(p.key) + Le(Tag(p.value), 4) + EncodeValue(p.value)
  }

  function EncodeTensor(t: Tensor): seq<u8> {
    EncodeString(t.name) + Le(|t.shape|, 4) + EncodeMany(t.shape, (n: u64) => Le(n, 8))
    + Le(if DtypeId(t.dtype) >= 0 then DtypeId(t.dtype) else 0, 4) + Le(t.offset, 8)
  }

  function EncodeFile(f: File): seq<u8> {
    Le(MAGIC, 4) + Le(f.version, 4) + Le(|f.tensors|, 8) + Le(|f.pairs|, 8)
    + EncodeMany(f.pairs, EncodePair) + EncodeMany(f.tensors, EncodeTensor)
  }

  // ----- every encoding is a layout -----

  lemma {:induction false} ValueIsEncoded(v: Value)
    requires Encodable(v)
    ensures IsValue(EncodeValue(v), Tag(v), v)
    decreases v
  {
    if v.Array? {
      var vs := v.elements;
      var t := if vs == [] then 0 else Tag(vs[0]);
      ElementsAreEncoded(vs, t);
      assert EncodeValue(v) == ArrayHeader(t, |vs|) + EncodeElements(vs);
    }
  }

  lemma {:induction false} ElementsAreEncoded(vs: seq<Value>, t: u32)
    requires forall i :: 0 <= i < |vs| ==> Encodable(vs[i]) && Tag(vs[i]) == t
    ensures IsElements(EncodeElements(vs), t, vs)
    decreases vs
  {
    if vs != [] {
      var bs, k := EncodeElements(vs), |EncodeValue(vs[0])|;
      ValueIsEncoded(vs[0]);
      ElementsAreEncoded(vs[1..], t);
      assert bs[..k] == EncodeValue(vs[0]) && bs[k..] == EncodeElements(vs[1..]);
    }
  }

  lemma {:induction false} ManyAreEncoded<T>(xs: seq<T>, encode: T -> seq<u8>, one: (seq<u8>, T) -> bool)
    requires forall i :: 0 <= i < |xs| ==> one(encode(xs[i]), xs[i])
    ensures IsMany(EncodeMany(xs, encode), xs, one)
  {
    if xs != [] {
      var bs, k := EncodeMany(xs, encode), |encode(xs[0])|;
      ManyAreEncoded(xs[1..], encode, one);
      assert bs[..k] == encode(xs[0]) && bs[k..] == EncodeMany(xs[1..], encode);
    }
  }

  lemma PairIsEncoded(p: Pair)
    requires EncodableString(p.key) && Encodable(p.value)
    ensures IsPair(EncodePair(p), p)
  {
    ValueIsEncoded(p.value);
    assert IsString(EncodeString(p.key), p.key);
  }

  lemma TensorIsEncoded(t: Tensor)
    requires EncodableTensor(t)
    ensures IsTensor(EncodeTensor(t), t)
  {
    var encode := (n: u64) => Le(n, 8);
    ManyAreEncoded(t.shape, encode, IsU64);
    assert IsString(EncodeString(t.name), t.name);
  }

  /** The encoder follows the layout. */
  lemma FileIsEncoded(f: File)
    requires EncodableFile(f)
    ensures IsFile(EncodeFile(f), f)
  {
    forall i | 0 <= i < |f.pairs| ensures IsPair(EncodePair(f.pairs[i]), f.pairs[i]) {
      PairIsEncoded(f.pairs[i]);
    }
    forall i | 0 <= i < |f.tensors| ensures IsTensor(EncodeTensor(f.tensors[i]), f.tensors[i]) {
      TensorIsEncoded(f.tensors[i]);
    }
    ManyAreEncoded(f.pairs, EncodePair, IsPair);
    ManyAreEncoded(f.tensors, EncodeTensor, IsTensor);
  }

  // ----- metadata -----

  /** A key is present if some pair has it, and then the last such pair gives its value. */
  lemma {:induction false} LastPairWins(pairs: seq<Pair>, key: Text)
    ensures key in Metadata(pairs) <==> exists i :: 0 <= i < |pairs| && pairs[i].key == key
    ensures forall i :: 0 <= i < |pairs| && pairs[i].key == key ==>
              (forall j :: i < j < |pairs| ==> pairs[j].key != key) ==>
                key in Metadata(pairs) && Metadata(pairs)[key] == pairs[i].value
  {
    if pairs != [] {
      var front, last := pairs[..|pairs| - 1], pairs[|pairs| - 1];
      LastPairWins(front, key);
      assert forall i :: 0 <= i < |front| ==> front[i] == pairs[i];
      if exists i :: 0 <= i < |front| && front[i].key == key {
        var i :| 0 <= i < |front| && front[i].key == key;
        assert pairs[i].key == key;
      }
    }
  }

  lemma {:induction false} HasLastPair(pairs: seq<Pair>, key: Text) returns (i: int)
    requires exists j :: 0 <= j < |pairs| && pairs[j].key == key
    ensures 0 <= i < |pairs| && pairs[i].key == key && IsLastPair(pairs, i)
  {
    if pairs[|pairs| - 1].key == key {
      i := |pairs| - 1;
    } else {
      i := HasLastPair(pairs[..|pairs| - 1], key);
    }
  }

  lemma ModelOfIs(f: File)
    ensures IsModelOf(ModelOf(f), f)
  {
    hide Metadata;
    forall key { LastPairWins(f.pairs, key); }
  }

  lemma MetadataIsOnly(m: Model, f: File)
    requires IsModelOf(m, f)
    ensures m.metadata == Metadata(f.pairs)
  {
    hide Metadata;
    forall key ensures key in m.metadata <==> key in Metadata(f.pairs) {
      LastPairWins(f.pairs, key);
    }
    forall key | key in m.metadata ensures m.metadata[key] == Metadata(f.pairs)[key] {
      LastPairWins(f.pairs, key);
      var i := HasLastPair(f.pairs, key);
    }
    assert m.metadata.Keys == Metadata(f.pairs).Keys;
  }

  /** These fields determine the model. */
  lemma ModelIff(m: Model, f: File)
    ensures m == ModelOf(f) <==> IsModelOf(m, f)
  {
    hide Metadata, IsModelOf;
    ModelOfIs(f);
    if IsModelOf(m, f) {
      MetadataIsOnly(m, f);
      SameFields(m, f);
    }
  }

  lemma SameFields(m: Model, f: File)
    requires IsModelOf(m, f)
    ensures m.version == f.version && m.tensors == f.tensors
  {
  }

  // ----- bytes and numbers -----

  /** The lowest byte comes first, in every width. */
  lemma LittleEndian(bs: seq<u8>)
    ensures |bs| == 1 ==> LeValue(bs) == bs[0]
    ensures |bs| == 2 ==> LeValue(bs) == bs[0] as int + 0x100 * bs[1] as int
    ensures |bs| == 4 ==>
              LeValue(bs)
              == bs[0] as int + 0x100 * bs[1] as int + 0x1_0000 * bs[2] as int + 0x100_0000 * bs[3] as int
    ensures |bs| == 8 ==>
              LeValue(bs) == LeValue(bs[..4]) + 0x1_0000_0000 * LeValue(bs[4..])
  {
    if |bs| == 8 {
      LowAndHigh(bs[..4], bs[4..]);
      assert bs == bs[..4] + bs[4..];
    }
  }

  lemma {:induction false} LowAndHigh(low: seq<u8>, high: seq<u8>)
    ensures LeValue(low + high) == LeValue(low) + Pow256(|low|) * LeValue(high)
  {
    if low == [] {
      assert low + high == high;
    } else {
      LowAndHigh(low[1..], high);
      assert (low + high)[1..] == low[1..] + high;
      Regrouped(Pow256(|low| - 1), LeValue(high));
    }
  }

  lemma Regrouped(p: nat, n: nat)
    ensures 256 * (p * n) == (256 * p) * n
  {
  }

  /** Two's complement: the value in the signed range that differs from the number by a multiple of the range. */
  lemma SignedIs(n: nat, range: nat)
    requires n < range && range % 2 == 0
    ensures -(range / 2) <= Signed(n, range) < range / 2 && (Signed(n, range) == n || Signed(n, range) == n - range)
    ensures Unsigned(Signed(n, range), range) == n
  {
  }

  /** The first four bytes of every file are "GGUF". */
  lemma MagicIs()
    ensures Le(MAGIC, 4) == [0x47, 0x47, 0x55, 0x46]
  {
    assert Le(0x46, 1) == [0x46];
    assert Le(0x4655, 2) == [0x55, 0x46];
    assert Le(0x465547, 3) == [0x47, 0x55, 0x46];
  }
}
