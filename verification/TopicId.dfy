/** Kafka topic IDs as text: `_is_canonical_topic_id`, URL-safe base64 without padding over
    16 bytes (RFC 4648 sections 3.5 and 5). */
module TopicId {

  predicate InAlphabet(c: char) {
    'A' <= c <= 'Z' || 'a' <= c <= 'z' || '0' <= c <= '9' || c == '-' || c == '_'
  }

  function Sextet(c: char): (n: int)
    requires InAlphabet(c)
    ensures 0 <= n < 64 && SextetChar(n) == c
  {
    if 'A' <= c <= 'Z' then c as int - 'A' as int
    else if 'a' <= c <= 'z' then c as int - 'a' as int + 26
    else if '0' <= c <= '9' then c as int - '0' as int + 52
    else if c == '-' then 62
    else 63
  }

  function SextetChar(n: int): (c: char)
    requires 0 <= n < 64
    ensures InAlphabet(c)
  {
    if n < 26 then ('A' as int + n) as char
    else if n < 52 then ('a' as int + (n - 26)) as char
    else if n < 62 then ('0' as int + (n - 52)) as char
    else if n == 62 then '-'
    else '_'
  }

  lemma CharOfSextet(n: int)
    requires 0 <= n < 64
    ensures Sextet(SextetChar(n)) == n
  {
  }

  predicate Alphabetic(t: string) { forall i :: 0 <= i < |t| ==> InAlphabet(t[i]) }

  predicate Bytes(raw: seq<int>) { forall i :: 0 <= i < |raw| ==> 0 <= raw[i] < 256 }

  /** Four characters are three bytes. */
  function DecodeFour(t: string): (raw: seq<int>)
    requires |t| == 4 && Alphabetic(t)
    ensures |raw| == 3 && Bytes(raw)
  {
    [Sextet(t[0]) * 4 + Sextet(t[1]) / 16,
     Sextet(t[1]) % 16 * 16 + Sextet(t[2]) / 4,
     Sextet(t[2]) % 4 * 64 + Sextet(t[3])]
  }

  function EncodeThree(raw: seq<int>): (t: string)
    requires |raw| == 3 && Bytes(raw)
    ensures |t| == 4 && Alphabetic(t)
  {
    [SextetChar(raw[0] / 4),
     SextetChar(raw[0] % 4 * 16 + raw[1] / 16),
     SextetChar(raw[1] % 16 * 4 + raw[2] / 64),
     SextetChar(raw[2] % 64)]
  }

  /** The last two characters are one byte; the decoder drops the four trailing bits. */
  function DecodeTwo(t: string): (raw: seq<int>)
    requires |t| == 2 && Alphabetic(t)
    ensures |raw| == 1 && Bytes(raw)
  {
    [Sextet(t[0]) * 4 + Sextet(t[1]) / 16]
  }

  function EncodeOne(raw: seq<int>): (t: string)
    requires |raw| == 1 && Bytes(raw)
    ensures |t| == 2 && Alphabetic(t)
  {
    [SextetChar(raw[0] / 4), SextetChar(raw[0] % 4 * 16)]
  }

  function Decode(t: string): (raw: seq<int>)
    requires |t| % 4 == 2 && Alphabetic(t)
    ensures |raw| == |t| / 4 * 3 + 1 && Bytes(raw)
  {
    if |t| == 2 then DecodeTwo(t) else DecodeFour(t[..4]) + Decode(t[4..])
  }

  function Encode(raw: seq<int>): (t: string)
    requires |raw| % 3 == 1 && Bytes(raw)
    ensures |t| == |raw| / 3 * 4 + 2 && Alphabetic(t)
  {
    if |raw| == 1 then EncodeOne(raw) else EncodeThree(raw[..3]) + Encode(raw[3..])
  }

  const NO_ID: seq<int> := [0, 0, 0, 0, 0, 0, 0, 0, 0, 0, 0, 0, 0, 0, 0, 0]
  const ONE_ID: seq<int> := [0, 0, 0, 0, 0, 0, 0, 0, 0, 0, 0, 0, 0, 0, 0, 1]

  /** The verifier's test, in its own order: 22 characters of the alphabet, not a reserved ID,
      and text that encoding the bytes gives back. */
  predicate IsCanonical(t: string) {
    |t| == 22 && Alphabetic(t) && Decode(t) != NO_ID && Decode(t) != ONE_ID && Encode(Decode(t)) == t
  }

  predicate IsRealId(raw: seq<int>) {
    |raw| == 16 && Bytes(raw) && raw != NO_ID && raw != ONE_ID
  }

  lemma Regrouped(a: int, b: int, c: int, d: int)
    requires 0 <= a < 64 && 0 <= b < 64 && 0 <= c < 64 && 0 <= d < 64
    ensures var x, y, z := a * 4 + b / 16, b % 16 * 16 + c / 4, c % 4 * 64 + d;
            x / 4 == a && x % 4 == b / 16 && y / 16 == b % 16 && y % 16 == c / 4
            && z / 64 == c % 4 && z % 64 == d
  {
  }

  lemma FourBack(t: string)
    requires |t| == 4 && Alphabetic(t)
    ensures EncodeThree(DecodeFour(t)) == t
  {
    hide Sextet, SextetChar, InAlphabet;
    var a, b, c, d := Sextet(t[0]), Sextet(t[1]), Sextet(t[2]), Sextet(t[3]);
    Regrouped(a, b, c, d);
    var raw := DecodeFour(t);
    assert raw[0] % 4 * 16 + raw[1] / 16 == b;
    assert raw[1] % 16 * 4 + raw[2] / 64 == c;
  }

  lemma ThreeBack(raw: seq<int>)
    requires |raw| == 3 && Bytes(raw)
    ensures DecodeFour(EncodeThree(raw)) == raw
  {
    hide Sextet, SextetChar, InAlphabet;
    CharOfSextet(raw[0] / 4);
    CharOfSextet(raw[0] % 4 * 16 + raw[1] / 16);
    CharOfSextet(raw[1] % 16 * 4 + raw[2] / 64);
    CharOfSextet(raw[2] % 64);
  }

  lemma TwoBack(t: string)
    requires |t| == 2 && Alphabetic(t)
    ensures EncodeOne(DecodeTwo(t)) == t <==> Sextet(t[1]) % 16 == 0
  {
    hide Sextet, SextetChar, InAlphabet;
    var a, b := Sextet(t[0]), Sextet(t[1]);
    Regrouped(a, b, 0, 0);
    CharOfSextet(b / 16 * 16);
    assert EncodeOne(DecodeTwo(t)) == [SextetChar(a), SextetChar(b / 16 * 16)];
  }

  lemma OneBack(raw: seq<int>)
    requires |raw| == 1 && Bytes(raw)
    ensures DecodeTwo(EncodeOne(raw)) == raw
  {
    CharOfSextet(raw[0] / 4);
    CharOfSextet(raw[0] % 4 * 16);
  }

  /** Decoding undoes encoding, for any bytes. */
  lemma {:induction false} EncodedDecodes(raw: seq<int>)
    requires |raw| % 3 == 1 && Bytes(raw)
    ensures Decode(Encode(raw)) == raw
  {
    hide Sextet, SextetChar, InAlphabet, EncodeThree, DecodeFour, EncodeOne, DecodeTwo;
    if |raw| == 1 {
      OneBack(raw);
    } else {
      var head, tail := EncodeThree(raw[..3]), Encode(raw[3..]);
      assert (head + tail)[..4] == head && (head + tail)[4..] == tail;
      ThreeBack(raw[..3]);
      EncodedDecodes(raw[3..]);
      assert raw == raw[..3] + raw[3..];
    }
  }

  /** Text re-encodes to itself exactly when its last character leaves no stray bits. */
  lemma {:induction false} DecodedEncodes(t: string)
    requires |t| % 4 == 2 && Alphabetic(t)
    ensures Encode(Decode(t)) == t <==> Sextet(t[|t| - 1]) % 16 == 0
  {
    hide Sextet, SextetChar, InAlphabet, EncodeThree, DecodeFour, EncodeOne, DecodeTwo;
    if |t| == 2 {
      TwoBack(t);
    } else {
      var head, tail := DecodeFour(t[..4]), Decode(t[4..]);
      assert (head + tail)[..3] == head && (head + tail)[3..] == tail;
      FourBack(t[..4]);
      DecodedEncodes(t[4..]);
      assert t == t[..4] + t[4..];
      var back := EncodeThree(head) + Encode(tail);
      assert back[4..] == Encode(tail);
      assert back == t ==> Encode(tail) == t[4..];
    }
  }

  lemma LastTwo()
    ensures EncodeOne([0]) == ['A', 'A'] && EncodeOne([1]) == ['A', 'Q']
  {
  }

  lemma AsThen(last: seq<int>)
    requires |last| == 1 && Bytes(last)
    ensures |Encode(Zeros(5) + last)| == 22
    ensures forall i :: 0 <= i < 20 ==> Encode(Zeros(5) + last)[i] == 'A'
    ensures Encode(Zeros(5) + last)[20] == EncodeOne(last)[0] && Encode(Zeros(5) + last)[21] == EncodeOne(last)[1]
  {
    hide Encode, EncodeOne, As, Zeros;
    ZeroGroups(5, last);
    AllAs(5);
  }

  lemma NoIdText()
    ensures |Encode(NO_ID)| == 22 && forall i :: 0 <= i < 22 ==> Encode(NO_ID)[i] == 'A'
  {
    hide Encode, EncodeOne;
    assert NO_ID == Zeros(5) + [0];
    AsThen([0]);
    LastTwo();
  }

  lemma OneIdText()
    ensures |Encode(ONE_ID)| == 22 && forall i :: 0 <= i < 21 ==> Encode(ONE_ID)[i] == 'A'
    ensures Encode(ONE_ID)[21] == 'Q'
  {
    hide Encode, EncodeOne;
    assert ONE_ID == Zeros(5) + [1];
    AsThen([1]);
    LastTwo();
  }

  lemma AllAs(groups: nat)
    ensures |As(groups)| == 4 * groups && forall i :: 0 <= i < 4 * groups ==> As(groups)[i] == 'A'
  {
  }

  function Zeros(groups: nat): (z: seq<int>)
    ensures |z| == 3 * groups && forall i :: 0 <= i < |z| ==> z[i] == 0
  {
    if groups == 0 then [] else [0, 0, 0] + Zeros(groups - 1)
  }

  function As(groups: nat): string { if groups == 0 then "" else "AAAA" + As(groups - 1) }

  lemma {:induction false} ZeroGroups(groups: nat, last: seq<int>)
    requires |last| == 1 && Bytes(last)
    ensures Encode(Zeros(groups) + last) == As(groups) + EncodeOne(last)
  {
    hide SextetChar, EncodeThree, EncodeOne;
    if groups == 0 {
      assert Zeros(0) + last == last;
    } else {
      var raw := Zeros(groups) + last;
      assert raw[..3] == [0, 0, 0] && raw[3..] == Zeros(groups - 1) + last;
      ZeroGroups(groups - 1, last);
      ThreeZeros();
    }
  }

  lemma ThreeZeros()
    ensures EncodeThree([0, 0, 0]) == "AAAA"
  {
  }

  /** `AAAAAAAAAAAAAAAAAAAAAA` and `AAAAAAAAAAAAAAAAAAAAAQ`. */
  predicate IsReservedText(t: string)
    requires |t| == 22
  {
    (forall i :: 0 <= i < 21 ==> t[i] == 'A') && t[21] in {'A', 'Q'}
  }

  /** The accepted texts by sight: 22 characters of the alphabet, the last one A, Q, g or w, and
      neither of the two reserved texts. */
  lemma CanonicalBySight(t: string)
    ensures IsCanonical(t)
            <==> |t| == 22 && Alphabetic(t) && t[21] in {'A', 'Q', 'g', 'w'} && !IsReservedText(t)
  {
    hide Decode, Encode, Sextet, InAlphabet;
    if |t| == 22 && Alphabetic(t) {
      DecodedEncodes(t);
      NoIdText();
      OneIdText();
      EncodedDecodes(NO_ID);
      EncodedDecodes(ONE_ID);
      LastCharacter(t[21]);
      assert t == Encode(NO_ID) <==> IsReservedText(t) && t[21] == 'A';
      assert t == Encode(ONE_ID) <==> IsReservedText(t) && t[21] == 'Q';
    }
  }

  lemma LastCharacter(c: char)
    requires InAlphabet(c)
    ensures Sextet(c) % 16 == 0 <==> c in {'A', 'Q', 'g', 'w'}
  {
    assert SextetChar(0) == 'A' && SextetChar(16) == 'Q' && SextetChar(32) == 'g' && SextetChar(48) == 'w';
    assert SextetChar(Sextet(c)) == c;
  }

  /** Encoding and decoding are a bijection between the real IDs and the accepted texts. */
  lemma CanonicalTextsAreRealIds(t: string, raw: seq<int>)
    ensures IsCanonical(t) ==> IsRealId(Decode(t)) && Encode(Decode(t)) == t
    ensures IsRealId(raw) ==> IsCanonical(Encode(raw)) && Decode(Encode(raw)) == raw
  {
    if IsRealId(raw) {
      EncodedDecodes(raw);
    }
  }

  /** Why a document records no topic ID. */
  predicate IsMissingReason(reason: string) {
    reason == "noTopicId" || reason == "notAuthorized" || reason == "topicNotFound" || reason == "readFailed"
    || reason == "notRead" || reason == "reservedTopicId"
  }
}
