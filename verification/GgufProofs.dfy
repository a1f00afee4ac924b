/**
 The parser accepts exactly the layouts, undoes the encoder whatever bytes follow, and
 answers a cut-off file with "unexpected end of file" and nothing else.
 */
module GgufProofs {
  import opened Wrappers
  import opened Integers
  import opened GgufFormat
  import opened GgufParser

  // ----- what it is for a parser to read a layout -----

  /** The bytes of `bs` before its suffix `rest`. */
  function Used(bs: seq<u8>, rest: seq<u8>): seq<u8>
    requires |rest| <= |bs|
  {
    bs[..|bs| - |rest|]
  }

  ghost predicate Split(bs: seq<u8>, rest: seq<u8>) {
    |rest| <= |bs| && bs == Used(bs, rest) + rest
  }

  /** Every layout is accepted, whatever follows it. */
  ghost predicate Accepts<T(!new)>(parse: seq<u8> -> Outcome<T>, layout: (seq<u8>, T) -> bool) {
    forall used, x, rest :: layout(used, x) ==> parse(used + rest) == Success(Parsed(x, rest))
  }

  ghost predicate MeansAt<T>(r: Outcome<T>, layout: (seq<u8>, T) -> bool, bs: seq<u8>) {
    r.Success? ==> Split(bs, r.value.rest) && layout(Used(bs, r.value.rest), r.value.value)
  }

  /** What is accepted is a layout of the result. */
  ghost predicate Means<T>(parse: seq<u8> -> Outcome<T>, layout: (seq<u8>, T) -> bool) {
    forall bs :: MeansAt(parse(bs), layout, bs)
  }

  ghost predicate IsFinal<T>(r: Outcome<T>) {
    r.Failure? && r.error != UnexpectedEof
  }

  /** Any other error than the end of the file stays, however the file goes on. */
  ghost predicate Final<T>(parse: seq<u8> -> Outcome<T>) {
    forall bs, more :: IsFinal(parse(bs)) ==> parse(bs + more) == parse(bs)
  }

  ghost predicate Reads<T(!new)>(parse: seq<u8> -> Outcome<T>, layout: (seq<u8>, T) -> bool) {
    Accepts(parse, layout) && Means(parse, layout) && Final(parse)
  }

  lemma Extends<T(!new)>(parse: seq<u8> -> Outcome<T>, layout: (seq<u8>, T) -> bool, bs: seq<u8>, more: seq<u8>)
    requires Reads(parse, layout) && parse(bs).Success?
    ensures parse(bs + more) == Success(Parsed(parse(bs).value.value, parse(bs).value.rest + more))
  {
    var p := parse(bs).value;
    assert MeansAt(parse(bs), layout, bs);
    assert bs + more == Used(bs, p.rest) + (p.rest + more);
  }

  lemma AcceptsOne<T(!new)>(parse: seq<u8> -> Outcome<T>, layout: (seq<u8>, T) -> bool,
                            used: seq<u8>, x: T, rest: seq<u8>)
    requires Reads(parse, layout) && layout(used, x)
    ensures parse(used + rest) == Success(Parsed(x, rest))
  {
  }

  /** A strict prefix of a layout is rejected as cut off. */
  lemma PrefixIsCutOff<T(!new)>(parse: seq<u8> -> Outcome<T>, layout: (seq<u8>, T) -> bool, used: seq<u8>, x: T, k: nat)
    requires Reads(parse, layout) && layout(used, x) && k < |used|
    ensures parse(used[..k]) == Failure(UnexpectedEof)
  {
    assert used[..k] + used[k..] == used == used + [];
    if parse(used[..k]).Success? {
      Extends(parse, layout, used[..k], used[k..]);
    }
  }

  /** No layout of one value starts a layout of another. */
  lemma LayoutsAreUnambiguous<T(!new)>(parse: seq<u8> -> Outcome<T>, layout: (seq<u8>, T) -> bool,
                                       used: seq<u8>, x: T, rest: seq<u8>, used': seq<u8>, x': T, rest': seq<u8>)
    requires Reads(parse, layout) && layout(used, x) && layout(used', x') && used + rest == used' + rest'
    ensures x == x' && used == used' && rest == rest'
  {
    assert parse(used + rest) == parse(used' + rest');
    assert |used| == |used'|;
    assert used == (used + rest)[..|used|] == used';
  }

  // ----- fixed pieces -----

  lemma Regroup(a: seq<u8>, b: seq<u8>, c: seq<u8>)
    ensures (a + b) + c == a + (b + c)
  {
  }

  lemma SplitAt(used: seq<u8>, k: nat, rest: seq<u8>)
    requires k <= |used|
    ensures used + rest == used[..k] + (used[k..] + rest)
  {
  }

  lemma UintAccepted(n: nat, k: nat, rest: seq<u8>)
    requires n < Pow256(k)
    ensures ParseUint(Le(n, k) + rest, k) == Success(Parsed(n, rest))
  {
    LeValueOfLe(n, k);
    assert (Le(n, k) + rest)[..k] == Le(n, k) && (Le(n, k) + rest)[k..] == rest;
  }

  lemma UintMeant(bs: seq<u8>, k: nat)
    requires ParseUint(bs, k).Success?
    ensures Split(bs, ParseUint(bs, k).value.rest)
    ensures Used(bs, ParseUint(bs, k).value.rest) == Le(ParseUint(bs, k).value.value, k)
  {
    LeOfLeValue(bs[..k]);
  }

  lemma U64Reads()
    ensures Reads(ParseU64, IsU64)
  {
    Widths();
    forall used, x: u64, rest | IsU64(used, x) ensures ParseU64(used + rest) == Success(Parsed(x, rest)) {
      UintAccepted(x, 8, rest);
    }
    forall bs ensures MeansAt(ParseU64(bs), IsU64, bs) {
      if ParseU64(bs).Success? {
        UintMeant(bs, 8);
      }
    }
  }

  /** A number is either read whole, or cut off. */
  lemma NumbersExtend(bs: seq<u8>, more: seq<u8>)
    ensures !IsFinal(ParseU32(bs)) && !IsFinal(ParseU64(bs))
    ensures ParseU32(bs).Success? ==>
              ParseU32(bs + more) == Success(Parsed(ParseU32(bs).value.value, ParseU32(bs).value.rest + more))
    ensures ParseU64(bs).Success? ==>
              ParseU64(bs + more) == Success(Parsed(ParseU64(bs).value.value, ParseU64(bs).value.rest + more))
  {
    if |bs| >= 4 {
      UintExtends(bs, 4, more);
    }
    if |bs| >= 8 {
      UintExtends(bs, 8, more);
    }
  }

  lemma UintExtends(bs: seq<u8>, k: nat, more: seq<u8>)
    requires |bs| >= k
    ensures ParseUint(bs + more, k) == Success(Parsed(ParseUint(bs, k).value.value, ParseUint(bs, k).value.rest + more))
  {
    assert (bs + more)[..k] == bs[..k] && (bs + more)[k..] == bs[k..] + more;
  }

  lemma StringAccepted(used: seq<u8>, s: Text, rest: seq<u8>)
    requires IsString(used, s)
    ensures ParseString(used + rest) == Success(Parsed(s, rest))
  {
    hide Le, ParseUint, IsUtf8;
    Widths();
    UintAccepted(|s|, 8, s + rest);
    Regroup(Le(|s|, 8), s, rest);
    assert (s + rest)[..|s|] == s && (s + rest)[|s|..] == rest;
  }

  lemma StringMeant(bs: seq<u8>)
    ensures MeansAt(ParseString(bs), IsString, bs)
  {
    hide Le, LeValue, IsUtf8;
    if ParseString(bs).Success? {
      UintMeant(bs, 8);
      var p := ParseString(bs).value;
      assert bs == Le(|p.value|, 8) + p.value + p.rest;
      assert Used(bs, p.rest) == Le(|p.value|, 8) + p.value;
    }
  }

  lemma StringFinal(bs: seq<u8>, more: seq<u8>)
    requires IsFinal(ParseString(bs))
    ensures ParseString(bs + more) == ParseString(bs)
  {
    NumbersExtend(bs, more);
    var length := ParseU64(bs).value;
    assert (length.rest + more)[..length.value] == length.rest[..length.value];
  }

  lemma StringReads()
    ensures Reads(ParseString, IsString)
  {
    forall used, x, rest | IsString(used, x) ensures ParseString(used + rest) == Success(Parsed(x, rest)) {
      StringAccepted(used, x, rest);
    }
    forall bs ensures MeansAt(ParseString(bs), IsString, bs) {
      StringMeant(bs);
    }
    forall bs, more | IsFinal(ParseString(bs)) ensures ParseString(bs + more) == ParseString(bs) {
      StringFinal(bs, more);
    }
  }

  // ----- values -----

  /** What two parsers use, one after the other. */
  lemma UsedInTurn(bs: seq<u8>, mid: seq<u8>, rest: seq<u8>)
    requires Split(bs, mid) && Split(mid, rest)
    ensures Split(bs, rest) && |bs| - |mid| <= |Used(bs, rest)|
    ensures Used(bs, rest)[..|bs| - |mid|] == Used(bs, mid)
    ensures Used(bs, rest)[|bs| - |mid|..] == Used(mid, rest)
  {
    assert bs == Used(bs, mid) + (Used(mid, rest) + rest);
  }

  lemma UnsignedOfSigned(n: nat, range: nat)
    requires n < range && range % 2 == 0
    ensures -(range / 2) <= Signed(n, range) < range / 2 && Unsigned(Signed(n, range), range) == n
  {
  }

  lemma SignedOfUnsigned(i: int, range: nat)
    requires -(range / 2) <= i < range / 2 && range % 2 == 0
    ensures Unsigned(i, range) < range && Signed(Unsigned(i, range), range) == i
  {
  }

  lemma OneByte(bs: seq<u8>)
    requires |bs| == 1
    ensures LeValue(bs) == bs[0]
  {
    assert LeValue(bs) == bs[0] + 256 * LeValue(bs[1..]);
  }

  lemma ScalarIsLaidOut(bs: seq<u8>, tag: u32)
    requires IsScalarTag(tag) && |bs| == Width(tag)
    ensures IsScalar(bs, tag, Scalar(tag, LeValue(bs)))
  {
    hide Le, LeValue, Pow256, Signed, Unsigned;
    Widths();
    LeOfLeValue(bs);
    var n := LeValue(bs);
    match tag
    case 1 => UnsignedOfSigned(n, 0x100);
    case 3 => UnsignedOfSigned(n, 0x1_0000);
    case 5 => UnsignedOfSigned(n, 0x1_0000_0000);
    case 11 => UnsignedOfSigned(n, 0x1_0000_0000_0000_0000);
    case 7 => OneByte(bs);
    case _ =>
  }

  lemma LaidOutIsScalar(bs: seq<u8>, tag: u32, v: Value)
    requires IsScalar(bs, tag, v)
    ensures IsScalarTag(tag) && |bs| == Width(tag) && v == Scalar(tag, LeValue(bs))
  {
    hide Le, LeValue, Pow256, Signed, Unsigned;
    Widths();
    match v
    case Uint8(n) => LeValueOfLe(n, 1);
    case Int8(i) => SignedLaidOut(i, 0x100, 1);
    case Uint16(n) => LeValueOfLe(n, 2);
    case Int16(i) => SignedLaidOut(i, 0x1_0000, 2);
    case Uint32(n) => LeValueOfLe(n, 4);
    case Int32(i) => SignedLaidOut(i, 0x1_0000_0000, 4);
    case Float32(bits) => LeValueOfLe(bits, 4);
    case Bool(b) => OneByte(bs);
    case Uint64(n) => LeValueOfLe(n, 8);
    case Int64(i) => SignedLaidOut(i, 0x1_0000_0000_0000_0000, 8);
    case Float64(bits) => LeValueOfLe(bits, 8);
    case _ => assert false;
  }

  lemma SignedLaidOut(i: int, range: nat, k: nat)
    requires -(range / 2) <= i < range / 2 && range % 2 == 0 && Pow256(k) == range
    ensures Signed(LeValue(Le(Unsigned(i, range), k)), range) == i
  {
    SignedOfUnsigned(i, range);
    LeValueOfLe(Unsigned(i, range), k);
  }

  lemma ScalarAccepted(used: seq<u8>, tag: u32, v: Value, rest: seq<u8>)
    requires IsScalar(used, tag, v)
    ensures IsScalarTag(tag) && ParseScalar(used + rest, tag) == Success(Parsed(v, rest))
  {
    LaidOutIsScalar(used, tag, v);
    LeOfLeValue(used);
    UintAccepted(LeValue(used), Width(tag), rest);
  }

  lemma ScalarMeant(bs: seq<u8>, tag: u32)
    requires IsScalarTag(tag) && ParseScalar(bs, tag).Success?
    ensures Split(bs, ParseScalar(bs, tag).value.rest)
    ensures IsScalar(Used(bs, ParseScalar(bs, tag).value.rest), tag, ParseScalar(bs, tag).value.value)
  {
    UintMeant(bs, Width(tag));
    ScalarIsLaidOut(bs[..Width(tag)], tag);
  }

  lemma ArrayAccepted(t: u32, vs: seq<Value>, body: seq<u8>, rest: seq<u8>)
    requires |vs| < 0x1_0000_0000_0000_0000 && ParseElements(body + rest, t, |vs|) == Success(Parsed(vs, rest))
    ensures ParseArray((ArrayHeader(t, |vs|) + body) + rest) == Success(Parsed(vs, rest))
  {
    hide ParseElements, Le, ParseUint;
    var bs := (ArrayHeader(t, |vs|) + body) + rest;
    Widths();
    UintAccepted(t, 4, Le(|vs|, 8) + (body + rest));
    UintAccepted(|vs|, 8, body + rest);
    assert bs == Le(t, 4) + (Le(|vs|, 8) + (body + rest));
  }

  lemma {:induction false} ValueAccepted(used: seq<u8>, tag: u32, v: Value, rest: seq<u8>)
    requires IsValue(used, tag, v)
    ensures ParseValue(used + rest, tag) == Success(Parsed(v, rest))
    decreases v
  {
    hide ParseString, ParseArray, ParseElements, ParseScalar, IsString, IsElements, ArrayHeader;
    match v
    case String(s) => StringAccepted(used, s, rest);
    case Array(vs) =>
      var t: u32, body: seq<u8> :| used == ArrayHeader(t, |vs|) + body && IsElements(body, t, vs);
      ElementsAccepted(body, t, vs, rest);
      ArrayAccepted(t, vs, body, rest);
    case _ => ScalarAccepted(used, tag, v, rest);
  }

  lemma {:induction false} ElementsAccepted(used: seq<u8>, tag: u32, vs: seq<Value>, rest: seq<u8>)
    requires IsElements(used, tag, vs)
    ensures ParseElements(used + rest, tag, |vs|) == Success(Parsed(vs, rest))
    decreases vs
  {
    hide ParseValue, IsValue;
    if vs == [] {
      assert used + rest == rest;
    } else {
      var k :| 0 <= k <= |used| && IsValue(used[..k], tag, vs[0]) && IsElements(used[k..], tag, vs[1..]);
      SplitAt(used, k, rest);
      ValueAccepted(used[..k], tag, vs[0], used[k..] + rest);
      ElementsAccepted(used[k..], tag, vs[1..], rest);
      assert vs == [vs[0]] + vs[1..];
    }
  }

  lemma ArrayIsLaidOut(bs: seq<u8>, t: u32, n: u64, body: seq<u8>, vs: seq<Value>, rest: seq<u8>)
    requires bs == Le(t, 4) + (Le(n, 8) + (body + rest)) && |vs| == n && IsElements(body, t, vs)
    ensures Split(bs, rest) && IsValue(Used(bs, rest), ARRAY, Array(vs))
  {
    hide Le, IsElements;
    var header, count := Le(t, 4), Le(n, 8);
    Regroup(header, count, body + rest);
    Regroup(header + count, body, rest);
    assert bs == (ArrayHeader(t, |vs|) + body) + rest;
    assert Used(bs, rest) == ArrayHeader(t, |vs|) + body;
  }

  lemma {:induction false} ValueMeant(bs: seq<u8>, tag: u32)
    requires ParseValue(bs, tag).Success?
    ensures Split(bs, ParseValue(bs, tag).value.rest)
    ensures IsValue(Used(bs, ParseValue(bs, tag).value.rest), tag, ParseValue(bs, tag).value.value)
    decreases |bs|, 1
  {
    hide ParseString, ParseArray, ParseElements, ParseScalar;
    if tag == STRING {
      StringMeant(bs);
    } else if tag == ARRAY {
      ArrayMeant(bs);
    } else {
      ScalarMeant(bs, tag);
    }
  }

  lemma {:induction false} ArrayMeant(bs: seq<u8>)
    requires ParseArray(bs).Success?
    ensures Split(bs, ParseArray(bs).value.rest)
    ensures IsValue(Used(bs, ParseArray(bs).value.rest), ARRAY, Array(ParseArray(bs).value.value))
    decreases |bs|, 0
  {
    hide ParseElements, ParseUint;
    var t := ParseU32(bs).value;
    var n := ParseU64(t.rest).value;
    UintMeant(bs, 4);
    UintMeant(t.rest, 8);
    ElementsMeant(n.rest, t.value, n.value);
    var vs := ParseElements(n.rest, t.value, n.value).value;
    ArrayIsLaidOut(bs, t.value, n.value, Used(n.rest, vs.rest), vs.value, vs.rest);
  }

  lemma {:induction false} ElementsMeant(bs: seq<u8>, tag: u32, n: nat)
    requires ParseElements(bs, tag, n).Success?
    ensures Split(bs, ParseElements(bs, tag, n).value.rest) && |ParseElements(bs, tag, n).value.value| == n
    ensures IsElements(Used(bs, ParseElements(bs, tag, n).value.rest), tag, ParseElements(bs, tag, n).value.value)
    decreases |bs|, n + 2
  {
    hide ParseValue, IsValue;
    if n > 0 {
      var v := ParseValue(bs, tag).value;
      ValueMeant(bs, tag);
      ElementsMeant(v.rest, tag, n - 1);
      var vs := ParseElements(v.rest, tag, n - 1).value;
      UsedInTurn(bs, v.rest, vs.rest);
      assert ([v.value] + vs.value)[1..] == vs.value;
    }
  }

  lemma ValueExtends(bs: seq<u8>, tag: u32, more: seq<u8>)
    requires ParseValue(bs, tag).Success?
    ensures ParseValue(bs + more, tag)
            == Success(Parsed(ParseValue(bs, tag).value.value, ParseValue(bs, tag).value.rest + more))
  {
    hide ParseValue, IsValue;
    var p := ParseValue(bs, tag).value;
    ValueMeant(bs, tag);
    ValueAccepted(Used(bs, p.rest), tag, p.value, p.rest + more);
    assert bs + more == Used(bs, p.rest) + (p.rest + more);
  }

  lemma {:induction false} ValueFinal(bs: seq<u8>, tag: u32, more: seq<u8>)
    requires IsFinal(ParseValue(bs, tag))
    ensures ParseValue(bs + more, tag) == ParseValue(bs, tag)
    decreases |bs|, 1
  {
    if tag == STRING {
      StringFinal(bs, more);
    } else if tag == ARRAY {
      ArrayFinal(bs, more);
    }
  }

  lemma {:induction false} ArrayFinal(bs: seq<u8>, more: seq<u8>)
    requires IsFinal(ParseArray(bs))
    ensures ParseArray(bs + more) == ParseArray(bs)
    decreases |bs|, 0
  {
    hide ParseElements, ParseUint;
    NumbersExtend(bs, more);
    var t := ParseU32(bs).value;
    NumbersExtend(t.rest, more);
    var n := ParseU64(t.rest).value;
    ElementsFinal(n.rest, t.value, n.value, more);
  }

  lemma {:induction false} ElementsFinal(bs: seq<u8>, tag: u32, n: nat, more: seq<u8>)
    requires IsFinal(ParseElements(bs, tag, n))
    ensures ParseElements(bs + more, tag, n) == ParseElements(bs, tag, n)
    decreases |bs|, n + 2
  {
    if ParseValue(bs, tag).Failure? {
      ValueFinal(bs, tag, more);
    } else {
      ValueExtends(bs, tag, more);
      ElementsFinal(ParseValue(bs, tag).value.rest, tag, n - 1, more);
    }
  }

  // ----- repeated pieces -----

  lemma {:induction false} ManyAccepted<T(!new)>(used: seq<u8>, xs: seq<T>, parse: seq<u8> -> Outcome<T>,
                                                 layout: (seq<u8>, T) -> bool, rest: seq<u8>)
    requires Reads(parse, layout) && IsMany(used, xs, layout)
    ensures ParseMany(used + rest, |xs|, parse) == Success(Parsed(xs, rest))
  {
    hide Reads;
    if xs == [] {
      assert used + rest == rest;
    } else {
      var k :| 0 <= k <= |used| && layout(used[..k], xs[0]) && IsMany(used[k..], xs[1..], layout);
      SplitAt(used, k, rest);
      AcceptsOne(parse, layout, used[..k], xs[0], used[k..] + rest);
      ManyAccepted(used[k..], xs[1..], parse, layout, rest);
      assert xs == [xs[0]] + xs[1..];
    }
  }

  lemma {:induction false} ManyMeant<T(!new)>(bs: seq<u8>, n: nat, parse: seq<u8> -> Outcome<T>,
                                              layout: (seq<u8>, T) -> bool)
    requires Reads(parse, layout) && ParseMany(bs, n, parse).Success?
    ensures Split(bs, ParseMany(bs, n, parse).value.rest) && |ParseMany(bs, n, parse).value.value| == n
    ensures IsMany(Used(bs, ParseMany(bs, n, parse).value.rest), ParseMany(bs, n, parse).value.value, layout)
    decreases n
  {
    if n > 0 {
      var x := parse(bs).value;
      assert MeansAt(parse(bs), layout, bs);
      ManyMeant(x.rest, n - 1, parse, layout);
      var xs := ParseMany(x.rest, n - 1, parse).value;
      UsedInTurn(bs, x.rest, xs.rest);
      assert ([x.value] + xs.value)[1..] == xs.value;
    }
  }

  lemma {:induction false} ManyFinal<T(!new)>(bs: seq<u8>, n: nat, parse: seq<u8> -> Outcome<T>,
                                              layout: (seq<u8>, T) -> bool, more: seq<u8>)
    requires Reads(parse, layout) && IsFinal(ParseMany(bs, n, parse))
    ensures ParseMany(bs + more, n, parse) == ParseMany(bs, n, parse)
    decreases n
  {
    if parse(bs).Success? {
      Extends(parse, layout, bs, more);
      ManyFinal(parse(bs).value.rest, n - 1, parse, layout, more);
    }
  }
}
