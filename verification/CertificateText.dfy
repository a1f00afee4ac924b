/**
 The texts the pairing manager builds: the identifier of a challenge and the data of a
 certificate, which the coordinator hashes and signs. Different fields give different texts.
 */
module CertificateText {
  import opened Integers

  type Bytes = seq<u8>

  /** The 128 bits of a UUID. */
  type Uuid = s: seq<u8> | |s| == 16 witness seq(16, _ => 0)

  const DIGITS := "0123456789abcdef"

  /** Two lower-case hexadecimal digits a byte. */
  function Hex(bs: Bytes): (s: string)
    ensures |s| == 2 * |bs|
  {
    if bs == [] then "" else [DIGITS[bs[0] / 16], DIGITS[bs[0] % 16]] + Hex(bs[1..])
  }

  /** The hyphenated form of a UUID (section 3 of RFC 4122). */
  function UuidText(u: Uuid): string {
    Hex(u[..4]) + "-" + Hex(u[4..6]) + "-" + Hex(u[6..8]) + "-" + Hex(u[8..10]) + "-" + Hex(u[10..])
  }

  function Decimal(n: nat): (s: string)
    ensures s != ""
  {
    if n < 10 then [DIGITS[n]] else Decimal(n / 10) + [DIGITS[n % 10]]
  }

  function SignedDecimal(i: int): string {
    if i < 0 then "-" + Decimal(-i) else Decimal(i)
  }

  /** `"{}:{}"` of a node id and the first eight bytes of a challenge */
  function ChallengeId(nodeId: Uuid, head: Bytes): string {
    UuidText(nodeId) + ":" + Hex(head)
  }

  /** `"{}:{}:{}:{}:{}"` of the fields of a certificate */
  function CertificateData(nodeId: Uuid, clusterId: Uuid, key: Bytes, issuedAt: int, expiresAt: int): string {
    UuidText(nodeId) + ":" + (UuidText(clusterId) + ":" +
      (Hex(key) + ":" + (SignedDecimal(issuedAt) + ":" + SignedDecimal(expiresAt))))
  }

  // ----- each field is determined by its text -----

  lemma DigitsDiffer(i: nat, j: nat)
    requires i < 16 && j < 16 && DIGITS[i] == DIGITS[j]
    ensures i == j
  {
  }

  lemma {:induction false} HexIsInjective(a: Bytes, b: Bytes)
    requires Hex(a) == Hex(b)
    ensures a == b
  {
    if a != [] {
      assert Hex(a)[0] == Hex(b)[0] && Hex(a)[1] == Hex(b)[1];
      assert Hex(a)[2..] == Hex(a[1..]) && Hex(b)[2..] == Hex(b[1..]);
      DigitsDiffer(a[0] / 16, b[0] / 16);
      DigitsDiffer(a[0] % 16, b[0] % 16);
      HexIsInjective(a[1..], b[1..]);
    }
  }

  lemma UuidTextParts(u: Uuid)
    ensures |UuidText(u)| == 36
    ensures UuidText(u)[..8] == Hex(u[..4]) && UuidText(u)[9..13] == Hex(u[4..6]) && UuidText(u)[14..18] == Hex(u[6..8])
    ensures UuidText(u)[19..23] == Hex(u[8..10]) && UuidText(u)[24..] == Hex(u[10..])
  {
  }

  lemma UuidTextIsInjective(a: Uuid, b: Uuid)
    requires UuidText(a) == UuidText(b)
    ensures a == b
  {
    hide UuidText, Hex;
    UuidTextParts(a);
    UuidTextParts(b);
    HexIsInjective(a[..4], b[..4]);
    HexIsInjective(a[4..6], b[4..6]);
    HexIsInjective(a[6..8], b[6..8]);
    HexIsInjective(a[8..10], b[8..10]);
    HexIsInjective(a[10..], b[10..]);
    assert a == a[..4] + a[4..6] + a[6..8] + a[8..10] + a[10..];
    assert b == b[..4] + b[4..6] + b[6..8] + b[8..10] + b[10..];
  }

  lemma {:induction false} DecimalIsInjective(m: nat, n: nat)
    requires Decimal(m) == Decimal(n)
    ensures m == n
  {
    var s := Decimal(m);
    assert s[|s| - 1] == DIGITS[m % 10] == DIGITS[n % 10];
    DigitsDiffer(m % 10, n % 10);
    if m >= 10 && n >= 10 {
      assert s[..|s| - 1] == Decimal(m / 10) && s[..|s| - 1] == Decimal(n / 10);
      DecimalIsInjective(m / 10, n / 10);
    }
  }

  lemma {:induction false} DecimalHasDigits(n: nat)
    ensures forall i :: 0 <= i < |Decimal(n)| ==> '0' <= Decimal(n)[i] <= '9'
  {
    if n >= 10 {
      DecimalHasDigits(n / 10);
    }
  }

  /** The sign is the first character, if there is one. */
  lemma SignIs(i: int)
    ensures SignedDecimal(i) != "" && (SignedDecimal(i)[0] == '-' <==> i < 0)
    ensures i < 0 ==> SignedDecimal(i)[1..] == Decimal(-i)
  {
    DecimalHasDigits(if i < 0 then -i else i);
  }

  lemma SignedDecimalIsInjective(i: int, j: int)
    requires SignedDecimal(i) == SignedDecimal(j)
    ensures i == j
  {
    hide Decimal;
    SignIs(i);
    SignIs(j);
    if i < 0 {
      DecimalIsInjective(-i, -j);
    } else {
      DecimalIsInjective(i, j);
    }
  }

  // ----- the fields are determined by the joined text -----

  predicate NoColon(s: string) {
    forall i :: 0 <= i < |s| ==> s[i] != ':'
  }

  lemma {:induction false} HexHasNoColon(bs: Bytes)
    ensures NoColon(Hex(bs))
  {
    if bs != [] {
      HexHasNoColon(bs[1..]);
    }
  }

  lemma UuidTextHasNoColon(u: Uuid)
    ensures NoColon(UuidText(u))
  {
    HexHasNoColon(u[..4]);
    HexHasNoColon(u[4..6]);
    HexHasNoColon(u[6..8]);
    HexHasNoColon(u[8..10]);
    HexHasNoColon(u[10..]);
  }

  lemma SignedDecimalHasNoColon(i: int)
    ensures NoColon(SignedDecimal(i))
  {
    DecimalHasDigits(if i < 0 then -i else i);
  }

  lemma FirstFieldIsDetermined(a: string, b: string, a': string, b': string)
    requires NoColon(a) && NoColon(a') && a + ":" + b == a' + ":" + b'
    ensures a == a' && b == b'
  {
    var s := a + ":" + b;
    assert s[|a|] == ':' && s[|a'|] == ':';
    assert a == s[..|a|] == a';
    assert b == s[|a| + 1..] == b';
  }

  lemma ChallengeIdIsInjective(nodeId: Uuid, head: Bytes, nodeId': Uuid, head': Bytes)
    requires ChallengeId(nodeId, head) == ChallengeId(nodeId', head')
    ensures nodeId == nodeId' && head == head'
  {
    UuidTextHasNoColon(nodeId);
    UuidTextHasNoColon(nodeId');
    FirstFieldIsDetermined(UuidText(nodeId), Hex(head), UuidText(nodeId'), Hex(head'));
    UuidTextIsInjective(nodeId, nodeId');
    HexIsInjective(head, head');
  }

  /** The text that is hashed and signed determines all five fields of the certificate. */
  lemma CertificateDataIsInjective(n: Uuid, c: Uuid, k: Bytes, i: int, e: int,
                                   n': Uuid, c': Uuid, k': Bytes, i': int, e': int)
    requires CertificateData(n, c, k, i, e) == CertificateData(n', c', k', i', e')
    ensures n == n' && c == c' && k == k' && i == i' && e == e'
  {
    hide UuidText, Hex, SignedDecimal;
    var t4, t4' := SignedDecimal(i) + ":" + SignedDecimal(e), SignedDecimal(i') + ":" + SignedDecimal(e');
    var t3, t3' := Hex(k) + ":" + t4, Hex(k') + ":" + t4';
    var t2, t2' := UuidText(c) + ":" + t3, UuidText(c') + ":" + t3';
    FieldsHaveNoColon(n, c, k, i);
    FieldsHaveNoColon(n', c', k', i');
    FirstFieldIsDetermined(UuidText(n), t2, UuidText(n'), t2');
    FirstFieldIsDetermined(UuidText(c), t3, UuidText(c'), t3');
    FirstFieldIsDetermined(Hex(k), t4, Hex(k'), t4');
    FirstFieldIsDetermined(SignedDecimal(i), SignedDecimal(e), SignedDecimal(i'), SignedDecimal(e'));
    UuidTextIsInjective(n, n');
    UuidTextIsInjective(c, c');
    HexIsInjective(k, k');
    SignedDecimalIsInjective(i, i');
    SignedDecimalIsInjective(e, e');
  }

  lemma FieldsHaveNoColon(n: Uuid, c: Uuid, k: Bytes, i: int)
    ensures NoColon(UuidText(n)) && NoColon(UuidText(c)) && NoColon(Hex(k)) && NoColon(SignedDecimal(i))
  {
    UuidTextHasNoColon(n);
    UuidTextHasNoColon(c);
    HexHasNoColon(k);
    SignedDecimalHasNoColon(i);
  }

  // ----- what the texts look like -----

  /** `c` is the lower-case hexadecimal digit of `d`. */
  predicate IsDigit(c: char, d: int) {
    if 0 <= d < 10 then c as int == '0' as int + d else 10 <= d < 16 && c as int == 'a' as int + (d - 10)
  }

  lemma DigitsAre(d: nat)
    requires d < 16
    ensures IsDigit(DIGITS[d], d)
  {
  }

  /** Byte `i` is printed as its high and its low digit, at positions `2 i` and `2 i + 1`. */
  lemma {:induction false} HexAt(bs: Bytes, i: nat)
    requires i < |bs|
    ensures IsDigit(Hex(bs)[2 * i], bs[i] / 16) && IsDigit(Hex(bs)[2 * i + 1], bs[i] % 16)
  {
    if i == 0 {
      DigitsAre(bs[0] / 16);
      DigitsAre(bs[0] % 16);
    } else {
      HexAt(bs[1..], i - 1);
      assert Hex(bs)[2..] == Hex(bs[1..]);
      assert Hex(bs)[2 * i] == Hex(bs)[2..][2 * (i - 1)];
      assert Hex(bs)[2 * i + 1] == Hex(bs)[2..][2 * (i - 1) + 1];
    }
  }

  /** The number that a text of decimal digits stands for. */
  function Reading(s: string): int {
    if s == "" then 0 else 10 * Reading(s[..|s| - 1]) + (s[|s| - 1] as int - '0' as int)
  }

  /** Decimal printing gives digits that read as the number, without leading zeros. */
  lemma {:induction false} DecimalReads(n: nat)
    ensures Reading(Decimal(n)) == n && (n > 0 ==> Decimal(n)[0] != '0') && (n == 0 ==> Decimal(n) == "0")
    ensures forall i :: 0 <= i < |Decimal(n)| ==> '0' <= Decimal(n)[i] <= '9'
  {
    DecimalHasDigits(n);
    DigitsAre(n % 10);
    if n >= 10 {
      DecimalReads(n / 10);
      assert Decimal(n)[..|Decimal(n)| - 1] == Decimal(n / 10);
    } else {
      assert [DIGITS[n]][..0] == "";
    }
  }

  /** A node id is printed as 8, 4, 4, 4 and 12 digits joined by hyphens. */
  lemma UuidTextIs(u: Uuid)
    ensures var t, digits := UuidText(u), Hex(u);
            && |t| == 36 && t[8] == t[13] == t[18] == t[23] == '-'
            && t[..8] + t[9..13] + t[14..18] + t[19..23] + t[24..] == digits
  {
    hide UuidText, Hex;
    UuidTextParts(u);
    UuidHyphens(u);
    HexConcat(u[..4], u[4..6]);
    HexConcat(u[..6], u[6..8]);
    HexConcat(u[..8], u[8..10]);
    HexConcat(u[..10], u[10..]);
    assert u[..4] + u[4..6] == u[..6] && u[..6] + u[6..8] == u[..8] && u[..8] + u[8..10] == u[..10];
    assert u[..10] + u[10..] == u;
  }

  lemma UuidHyphens(u: Uuid)
    ensures |UuidText(u)| == 36
    ensures var t := UuidText(u); t[8] == t[13] == t[18] == t[23] == '-'
  {
  }

  lemma {:induction false} HexConcat(a: Bytes, b: Bytes)
    ensures Hex(a + b) == Hex(a) + Hex(b)
  {
    if a == [] {
      assert a + b == b;
    } else {
      HexConcat(a[1..], b);
      assert (a + b)[1..] == a[1..] + b;
    }
  }

  /** The five fields come in their order, with a colon after each but the last. */
  lemma FieldsAre(n: Uuid, c: Uuid, k: Bytes, i: int, e: int)
    ensures var text, fields := CertificateData(n, c, k, i, e), UuidText(n) + ":" + UuidText(c) + ":" + Hex(k);
            text == fields + ":" + SignedDecimal(i) + ":" + SignedDecimal(e)
  {
    hide UuidText, Hex, SignedDecimal;
  }

  lemma SignedDecimalReads(i: int)
    ensures var t := SignedDecimal(i);
            if i < 0 then t != "" && t[0] == '-' && Reading(t[1..]) == -i else Reading(t) == i
  {
    DecimalReads(if i < 0 then -i else i);
    SignIs(i);
  }
}
