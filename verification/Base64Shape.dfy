/** The base64 shape test of evidence bodies, and what its length cap admits. */
module Base64Shape {
  const MAX_EVIDENCE_BYTES: nat := 1_048_576

  /** Rounds the division up. */
  const MAX_BODY_CHARS: nat := (MAX_EVIDENCE_BYTES + 2) / 3 * 4

  type Byte = b: int | 0 <= b < 256

  predicate InAlphabet(c: char) {
    'A' <= c <= 'Z' || 'a' <= c <= 'z' || '0' <= c <= '9' || c == '+' || c == '/'
  }

  function CountPadding(s: string): nat {
    if 2 <= |s| && s[|s| - 2] == '=' && s[|s| - 1] == '=' then 2
    else if 1 <= |s| && s[|s| - 1] == '=' then 1
    else 0
  }

  // ---------------------------------------------------------------------------
  // The pattern
  // ---------------------------------------------------------------------------

  predicate Quad(s: string) {
    |s| == 4 && InAlphabet(s[0]) && InAlphabet(s[1]) && InAlphabet(s[2]) && InAlphabet(s[3])
  }

  predicate Final(s: string) {
    && |s| == 4 && InAlphabet(s[0]) && InAlphabet(s[1]) && s[3] == '='
    && (InAlphabet(s[2]) || s[2] == '=')
  }

  /** Full groups, then at most one padded group. */
  predicate Matches(s: string) {
    s == [] || Final(s) || (4 <= |s| && Quad(s[..4]) && Matches(s[4..]))
  }

  predicate Shaped(s: string) {
    && |s| % 4 == 0
    && (forall i :: 0 <= i < |s| - CountPadding(s) ==> InAlphabet(s[i]))
    && (forall i :: |s| - CountPadding(s) <= i < |s| ==> s[i] == '=')
  }

  lemma {:induction false} ShapedIsMatched(s: string)
    ensures Shaped(s) <==> Matches(s)
  {
    if 4 < |s| {
      var rest := s[4..];
      ShapedIsMatched(rest);
      assert forall i :: 0 <= i < |rest| ==> rest[i] == s[i + 4];
      assert |rest| >= 2 ==> CountPadding(rest) == CountPadding(s);
      if Shaped(s) {
        assert Shaped(rest);
      } else if Matches(s) {
        forall i | 0 <= i < |s| - CountPadding(s) ensures InAlphabet(s[i]) {
          if 4 <= i {
            assert s[i] == rest[i - 4];
          } else {
            assert s[i] == s[..4][i];
          }
        }
      }
    }
  }

  /** Two loops decide membership in the pattern. */
  method HasValidBase64Shape(value: string) returns (ok: bool)
    ensures ok <==> Matches(value)
  {
    ShapedIsMatched(value);
    if |value| % 4 != 0 {
      return false;
    }
    var paddingStart := |value| - CountPadding(value);
    for index := 0 to paddingStart
      invariant forall i :: 0 <= i < index ==> InAlphabet(value[i])
    {
      if !InAlphabet(value[index]) {
        return false;
      }
    }
    for index := paddingStart to |value|
      invariant forall i :: paddingStart <= i < index ==> value[i] == '='
    {
      if value[index] != '=' {
        return false;
      }
    }
    return true;
  }

  // ---------------------------------------------------------------------------
  // The encoding (section 4 of RFC 4648)
  // ---------------------------------------------------------------------------

  type Sextet = v: int | 0 <= v < 64

  function Symbol(v: Sextet): (c: char)
    ensures InAlphabet(c) && ValueOf(c) == v
  {
    if v < 26 then 'A' + v as char
    else if v < 52 then 'a' + (v - 26) as char
    else if v < 62 then '0' + (v - 52) as char
    else if v == 62 then '+' else '/'
  }

  function ValueOf(c: char): Sextet
    requires InAlphabet(c)
  {
    if 'A' <= c <= 'Z' then (c - 'A') as int
    else if 'a' <= c <= 'z' then (c - 'a') as int + 26
    else if '0' <= c <= '9' then (c - '0') as int + 52
    else if c == '+' then 62 else 63
  }

  function Encode(b: seq<Byte>): string {
    if b == [] then ""
    else if |b| == 1 then [Symbol(b[0] / 4), Symbol(b[0] % 4 * 16), '=', '=']
    else if |b| == 2 then [Symbol(b[0] / 4), Symbol(b[0] % 4 * 16 + b[1] / 16), Symbol(b[1] % 16 * 4), '=']
    else
      [Symbol(b[0] / 4), Symbol(b[0] % 4 * 16 + b[1] / 16), Symbol(b[1] % 16 * 4 + b[2] / 64), Symbol(b[2] % 64)]
      + Encode(b[3..])
  }

  function First(s: string): Byte
    requires 4 <= |s| && InAlphabet(s[0]) && InAlphabet(s[1])
  {
    ValueOf(s[0]) * 4 + ValueOf(s[1]) / 16
  }

  function Second(s: string): Byte
    requires 4 <= |s| && InAlphabet(s[1]) && InAlphabet(s[2])
  {
    ValueOf(s[1]) % 16 * 16 + ValueOf(s[2]) / 4
  }

  function Third(s: string): Byte
    requires 4 <= |s| && InAlphabet(s[2]) && InAlphabet(s[3])
  {
    ValueOf(s[2]) % 4 * 64 + ValueOf(s[3])
  }

  /** Bits past the last whole byte of a padded group are dropped. */
  function Group(s: string): seq<Byte>
    requires Quad(s) || Final(s)
  {
    if s[2] == '=' then [First(s)] else if s[3] == '=' then [First(s), Second(s)] else [First(s), Second(s), Third(s)]
  }

  function Decode(s: string): seq<Byte>
    requires Matches(s)
  {
    if s == [] then [] else if Final(s) then Group(s) else Group(s[..4]) + Decode(s[4..])
  }

  /** The three bytes are spread over four sextets and back. */
  lemma Regroup(x: Byte, y: Byte, z: Byte)
    ensures x / 4 * 4 + (x % 4 * 16 + y / 16) / 16 == x
    ensures (x % 4 * 16 + y / 16) % 16 * 16 + (y % 16 * 4 + z / 64) / 4 == y
    ensures (y % 16 * 4 + z / 64) % 4 * 64 + z % 64 == z
  {
  }

  /** The group holds these sextets. */
  predicate Holds(s: string, p: Sextet, q: Sextet, r: Sextet, t: Sextet) {
    Quad(s) && ValueOf(s[0]) == p && ValueOf(s[1]) == q && ValueOf(s[2]) == r && ValueOf(s[3]) == t
  }

  lemma GroupDecodes(s: string, x: Byte, y: Byte, z: Byte)
    requires Holds(s, x / 4, x % 4 * 16 + y / 16, y % 16 * 4 + z / 64, z % 64)
    ensures Group(s) == [x, y, z]
  {
    Regroup(x, y, z);
  }

  lemma EncodedGroup(b: seq<Byte>)
    requires 3 <= |b|
    ensures Encode(b)[4..] == Encode(b[3..])
    ensures Holds(Encode(b)[..4], b[0] / 4, b[0] % 4 * 16 + b[1] / 16, b[1] % 16 * 4 + b[2] / 64, b[2] % 64)
  {
  }

  lemma MatchedGroup(s: string)
    requires 4 <= |s| && Quad(s[..4]) && Matches(s[4..])
    ensures Matches(s) && Decode(s) == Group(s[..4]) + Decode(s[4..])
  {
    assert s[3] == s[..4][3];
  }

  lemma {:induction false} DecodeEncode(b: seq<Byte>)
    ensures Matches(Encode(b)) && Decode(Encode(b)) == b
  {
    if 3 <= |b| {
      var s := Encode(b);
      DecodeEncode(b[3..]);
      EncodedGroup(b);
      GroupDecodes(s[..4], b[0], b[1], b[2]);
      MatchedGroup(s);
      assert b == [b[0], b[1], b[2]] + b[3..];
    } else if |b| == 1 {
      Regroup(b[0], 0, 0);
      assert b == [b[0]];
    } else if |b| == 2 {
      Regroup(b[0], b[1], 0);
      assert b == [b[0], b[1]];
    }
  }

  lemma {:induction false} EncodedSize(b: seq<Byte>)
    ensures |Encode(b)| == (|b| + 2) / 3 * 4
  {
    if 3 <= |b| {
      EncodedSize(b[3..]);
    }
  }

  lemma PaddingOfRest(s: string)
    requires 4 < |s| && Matches(s[4..])
    ensures CountPadding(s[4..]) == CountPadding(s)
  {
    var rest := s[4..];
    ShapedIsMatched(rest);
    assert rest[|rest| - 1] == s[|s| - 1] && rest[|rest| - 2] == s[|s| - 2];
  }

  lemma {:induction false} DecodedSize(s: string)
    requires Matches(s)
    ensures |Decode(s)| == |s| / 4 * 3 - CountPadding(s)
  {
    if s != [] && !Final(s) {
      DecodedSize(s[4..]);
      MatchedGroup(s);
      assert |Group(s[..4])| == 3;
      if 4 < |s| {
        PaddingOfRest(s);
      } else {
        assert s[..4] == s;
      }
    }
  }

  // ---------------------------------------------------------------------------
  // The cap
  // ---------------------------------------------------------------------------

  /** The schema admits the body. */
  predicate Admitted(s: string) {
    |s| <= MAX_BODY_CHARS && Matches(s)
  }

  lemma CapArithmetic(n: nat)
    ensures (n + 2) / 3 * 4 <= MAX_BODY_CHARS <==> n <= MAX_EVIDENCE_BYTES + 2
  {
  }

  /** Every body of the promised size is admitted, and nothing longer by more than two bytes. */
  lemma EncodingIsAdmittedIff(b: seq<Byte>)
    ensures Admitted(Encode(b)) <==> |b| <= MAX_EVIDENCE_BYTES + 2
  {
    DecodeEncode(b);
    EncodedSize(b);
    CapArithmetic(|b|);
  }

  /** An admitted body decodes to more bytes than the limit only at full length without double padding. */
  lemma AdmittedFitsIff(s: string)
    requires Admitted(s)
    ensures |Decode(s)| <= MAX_EVIDENCE_BYTES <==> |s| < MAX_BODY_CHARS || CountPadding(s) == 2
    ensures |Decode(s)| <= MAX_EVIDENCE_BYTES + 2
  {
    DecodedSize(s);
    ShapedIsMatched(s);
  }

  /** The limit can be passed: two bytes more are still admitted. */
  lemma CapIsNotExact()
    ensures exists s :: Admitted(s) && |Decode(s)| == MAX_EVIDENCE_BYTES + 2
  {
    var b: seq<Byte> := seq(MAX_EVIDENCE_BYTES + 2, i => 0);
    EncodingIsAdmittedIff(b);
    DecodeEncode(b);
    assert Admitted(Encode(b));
  }
}
