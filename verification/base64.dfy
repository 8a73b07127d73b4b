/** `Convert.ToBase64String` / `Convert.FromBase64String`: the base 64 alphabet
    and padding of section 4 of RFC 4648, used for binary payloads in record lines. */
module Base64 {
  import opened Base

  function CharOf(v: nat): (c: char)
    requires v < 64
  {
    if v < 26 then (65 + v) as char
    else if v < 52 then (97 + v - 26) as char
    else if v < 62 then (48 + v - 52) as char
    else if v == 62 then '+'
    else '/'
  }

  predicate IsAlphabet(c: char)
  {
    ('A' <= c <= 'Z') || ('a' <= c <= 'z') || ('0' <= c <= '9') || c == '+' || c == '/'
  }

  function ValueOf(c: char): (v: nat)
    requires IsAlphabet(c)
    ensures v < 64
  {
    if 'A' <= c <= 'Z' then (c as int) - 65
    else if 'a' <= c <= 'z' then (c as int) - 97 + 26
    else if '0' <= c <= '9' then (c as int) - 48 + 52
    else if c == '+' then 62
    else 63
  }

  /** The alphabet is a bijection between 6-bit values and its 64 characters. */
  lemma CharOfValue(v: nat)
    requires v < 64
    ensures IsAlphabet(CharOf(v)) && ValueOf(CharOf(v)) == v
  {
  }

  /** Three bytes as four characters. */
  function Quad(a: Byte, b: Byte, c: Byte): (q: string)
    ensures |q| == 4 && forall i :: 0 <= i < 4 ==> IsAlphabet(q[i])
  {
    CharOfValue(a / 4);
    CharOfValue((a % 4) * 16 + b / 16);
    CharOfValue((b % 16) * 4 + c / 64);
    CharOfValue(c % 64);
    [CharOf(a / 4), CharOf((a % 4) * 16 + b / 16), CharOf((b % 16) * 4 + c / 64), CharOf(c % 64)]
  }

  /** Two trailing bytes as three characters and one pad. */
  function Tri(a: Byte, b: Byte): (q: string)
    ensures |q| == 4 && q[3] == '=' && forall i :: 0 <= i < 3 ==> IsAlphabet(q[i])
  {
    CharOfValue(a / 4);
    CharOfValue((a % 4) * 16 + b / 16);
    CharOfValue((b % 16) * 4);
    [CharOf(a / 4), CharOf((a % 4) * 16 + b / 16), CharOf((b % 16) * 4), '=']
  }

  /** One trailing byte as two characters and two pads. */
  function Duo(a: Byte): (q: string)
    ensures |q| == 4 && q[2] == '=' && q[3] == '=' && IsAlphabet(q[0]) && IsAlphabet(q[1])
  {
    CharOfValue(a / 4);
    CharOfValue((a % 4) * 16);
    [CharOf(a / 4), CharOf((a % 4) * 16), '=', '=']
  }

  predicate IsEncodingChar(c: char) { IsAlphabet(c) || c == '=' }

  /** `Convert.ToBase64String(bytes)`. */
  function Encode(b: seq<Byte>): (s: string)
    ensures |s| % 4 == 0
    ensures forall i :: 0 <= i < |s| ==> IsEncodingChar(s[i])
    decreases |b|
  {
    if |b| == 0 then ""
    else if |b| == 1 then Duo(b[0])
    else if |b| == 2 then Tri(b[0], b[1])
    else Quad(b[0], b[1], b[2]) + Encode(b[3..])
  }

  /** The first byte of a group: six bits of the first character, two of the second. */
  function High(v0: nat, v1: nat): Byte
    requires v0 < 64 && v1 < 64
  {
    v0 * 4 + v1 / 16
  }

  /** The second byte of a group: four bits of the second character, four of the third. */
  function Middle(v1: nat, v2: nat): Byte
    requires v1 < 64 && v2 < 64
  {
    (v1 % 16) * 16 + v2 / 4
  }

  /** The third byte of a group: two bits of the third character, six of the fourth. */
  function Low(v2: nat, v3: nat): Byte
    requires v2 < 64 && v3 < 64
  {
    (v2 % 4) * 64 + v3
  }

  function DecodeQuad(q: string): (r: seq<Byte>)
    requires |q| == 4 && forall i :: 0 <= i < 4 ==> IsAlphabet(q[i])
    ensures |r| == 3
  {
    var v0, v1, v2, v3 := ValueOf(q[0]), ValueOf(q[1]), ValueOf(q[2]), ValueOf(q[3]);
    [High(v0, v1), Middle(v1, v2), Low(v2, v3)]
  }

  /** The final four characters, which may carry one or two pads. */
  function DecodeLast(q: string): (r: Result<seq<Byte>>)
    requires |q| == 4
    ensures r.Ok? ==> 1 <= |r.value| <= 3
  {
    if forall i :: 0 <= i < 4 ==> IsAlphabet(q[i]) then Ok(DecodeQuad(q))
    else if IsAlphabet(q[0]) && IsAlphabet(q[1]) && IsAlphabet(q[2]) && q[3] == '=' then
      var v0, v1, v2 := ValueOf(q[0]), ValueOf(q[1]), ValueOf(q[2]);
      Ok([High(v0, v1), Middle(v1, v2)])
    else if IsAlphabet(q[0]) && IsAlphabet(q[1]) && q[2] == '=' && q[3] == '=' then
      var v0, v1 := ValueOf(q[0]), ValueOf(q[1]);
      Ok([High(v0, v1)])
    else Err(FormatError("The input is not a valid Base-64 string."))
  }

  /** `Convert.FromBase64String(s)` on unpadded-whitespace input. */
  function Decode(s: string): (r: Result<seq<Byte>>)
    decreases |s|
  {
    if |s| == 0 then Ok([])
    else if |s| < 4 then Err(FormatError("Invalid length for a Base-64 char array or string."))
    else if |s| == 4 then DecodeLast(s)
    else if forall i :: 0 <= i < 4 ==> IsAlphabet(s[i]) then
      match Decode(s[4..])
      case Ok(rest) => Ok(DecodeQuad(s[..4]) + rest)
      case Err(e) => Err(e)
    else Err(FormatError("The input is not a valid Base-64 string."))
  }

  /** `FromBase64String` accepts only a length divisible by four, and gives three bytes per
      four characters, less one for each of at most two pads. */
  lemma {:induction false} DecodeLength(s: string)
    ensures Decode(s).Ok? ==> |s| % 4 == 0 && 3 * |s| <= 4 * |Decode(s).value| + 8 && 4 * |Decode(s).value| <= 3 * |s|
    decreases |s|
  {
    if |s| > 4 && forall i :: 0 <= i < 4 ==> IsAlphabet(s[i]) {
      DecodeLength(s[4..]);
    }
  }

  /** The six-bit split of a byte pair puts the first byte back together. */
  lemma HighSplit(a: Byte, b: Byte)
    ensures High(a / 4, (a % 4) * 16 + b / 16) == a
  {
  }

  /** The second byte is rebuilt from its four high and four low bits. */
  lemma MiddleSplit(a: Byte, b: Byte, c: Byte)
    ensures Middle((a % 4) * 16 + b / 16, (b % 16) * 4 + c / 64) == b
  {
    var hi, lo := b / 16, b % 16;
    assert ((a % 4) * 16 + hi) % 16 == hi;
    assert (lo * 4 + c / 64) / 4 == lo;
    assert hi * 16 + lo == b;
  }

  /** The third byte is rebuilt from its two high and six low bits. */
  lemma LowSplit(b: Byte, c: Byte)
    ensures Low((b % 16) * 4 + c / 64, c % 64) == c
  {
  }

  lemma QuadRoundTrip(a: Byte, b: Byte, c: Byte)
    ensures DecodeQuad(Quad(a, b, c)) == [a, b, c]
  {
    var v0, v1, v2, v3 := a / 4, (a % 4) * 16 + b / 16, (b % 16) * 4 + c / 64, c % 64;
    CharOfValue(v0);
    CharOfValue(v1);
    CharOfValue(v2);
    CharOfValue(v3);
    HighSplit(a, b);
    MiddleSplit(a, b, c);
    LowSplit(b, c);
    var q := Quad(a, b, c);
    assert q == [CharOf(v0), CharOf(v1), CharOf(v2), CharOf(v3)];
    assert ValueOf(q[0]) == v0 && ValueOf(q[1]) == v1 && ValueOf(q[2]) == v2 && ValueOf(q[3]) == v3;
  }

  lemma TriRoundTrip(a: Byte, b: Byte)
    ensures DecodeLast(Tri(a, b)) == Ok([a, b])
  {
    CharOfValue(a / 4);
    CharOfValue((a % 4) * 16 + b / 16);
    CharOfValue((b % 16) * 4);
    assert !IsAlphabet(Tri(a, b)[3]);
  }

  lemma DuoRoundTrip(a: Byte)
    ensures DecodeLast(Duo(a)) == Ok([a])
  {
    CharOfValue(a / 4);
    CharOfValue((a % 4) * 16);
    assert !IsAlphabet(Duo(a)[2]);
  }

  lemma DecodeCons(q: string, rest: string)
    requires |q| == 4 && forall i :: 0 <= i < 4 ==> IsAlphabet(q[i])
    requires |rest| > 0
    ensures Decode(q + rest) == match Decode(rest)
      case Ok(tail) => Ok(DecodeQuad(q) + tail)
      case Err(e) => Err(e)
  {
    var s := q + rest;
    assert s[..4] == q && s[4..] == rest;
    assert forall i :: 0 <= i < 4 ==> s[i] == q[i];
  }

  lemma DecodeSingle(q: string)
    requires |q| == 4 && forall i :: 0 <= i < 4 ==> IsAlphabet(q[i])
    ensures Decode(q) == Ok(DecodeQuad(q))
  {
  }

  /** Three bytes make one unpadded quad. */
  lemma ThreeRoundTrip(b: seq<Byte>)
    requires |b| == 3
    ensures Decode(Encode(b)) == Ok(b)
  {
    var q := Quad(b[0], b[1], b[2]);
    QuadRoundTrip(b[0], b[1], b[2]);
    assert Encode(b) == q + Encode(b[3..]);
    assert Encode(b[3..]) == "";
    assert Encode(b) == q;
    DecodeSingle(q);
    assert b == [b[0], b[1], b[2]];
  }

  /** A leading quad decodes in front of whatever the rest decodes to. */
  lemma QuadThenRest(b: seq<Byte>)
    requires |b| > 3 && Decode(Encode(b[3..])) == Ok(b[3..])
    ensures Decode(Encode(b)) == Ok(b)
  {
    var q := Quad(b[0], b[1], b[2]);
    QuadRoundTrip(b[0], b[1], b[2]);
    var head := [b[0], b[1], b[2]];
    assert DecodeQuad(q) == head;
    var rest := Encode(b[3..]);
    assert Encode(b) == q + rest;
    DecodeCons(q, rest);
    assert Decode(q + rest) == Ok(head + b[3..]);
    SplitThree(b);
    assert head + b[3..] == b;
    assert Decode(Encode(b)) == Decode(q + rest);
  }

  lemma SplitThree(b: seq<Byte>)
    requires |b| >= 3
    ensures [b[0], b[1], b[2]] + b[3..] == b
  {
  }

  /** Decoding undoes encoding for every byte sequence. */
  lemma {:induction false} RoundTrip(b: seq<Byte>)
    ensures Decode(Encode(b)) == Ok(b)
    decreases |b|
  {
    if |b| == 0 {
    } else if |b| == 1 {
      DuoRoundTrip(b[0]);
      assert b == [b[0]];
    } else if |b| == 2 {
      TriRoundTrip(b[0], b[1]);
      assert b == [b[0], b[1]];
    } else if |b| == 3 {
      ThreeRoundTrip(b);
    } else {
      RoundTrip(b[3..]);
      QuadThenRest(b);
    }
  }
}
