/** `System.Guid` as 32 hexadecimal digits, its `ToString()` ("D" form:
    8-4-4-4-12 lower-case digits joined by hyphens) and `Guid.Parse` of that form. */
module Guids {
  import opened Base

  type Nibble = x: int | 0 <= x < 16

  /** A 128-bit identifier, most significant digit first as printed. */
  type Guid = g: seq<Nibble> | |g| == 32 witness seq(32, i => 0)

  function HexChar(v: Nibble): char
  {
    if v < 10 then (48 + v) as char else (97 + v - 10) as char
  }

  predicate IsHexChar(c: char)
  {
    ('0' <= c <= '9') || ('a' <= c <= 'f') || ('A' <= c <= 'F')
  }

  function HexValue(c: char): Nibble
    requires IsHexChar(c)
  {
    if '0' <= c <= '9' then (c as int) - 48
    else if 'a' <= c <= 'f' then (c as int) - 97 + 10
    else (c as int) - 65 + 10
  }

  function Hex(ds: seq<Nibble>): (s: string)
    ensures |s| == |ds|
    ensures forall i :: 0 <= i < |s| ==> IsHexChar(s[i]) && HexValue(s[i]) == ds[i]
  {
    seq(|ds|, i requires 0 <= i < |ds| => HexChar(ds[i]))
  }

  predicate AllHex(s: string)
  {
    forall i :: 0 <= i < |s| ==> IsHexChar(s[i])
  }

  function HexValues(s: string): (ds: seq<Nibble>)
    requires AllHex(s)
    ensures |ds| == |s|
  {
    seq(|s|, i requires 0 <= i < |s| => HexValue(s[i]))
  }

  /** `guid.ToString()`. */
  function Format(g: Guid): (s: string)
    ensures |s| == 36
  {
    Hex(g[..8]) + "-" + Hex(g[8..12]) + "-" + Hex(g[12..16]) + "-" + Hex(g[16..20]) + "-" + Hex(g[20..])
  }

  predicate WellShaped(s: string)
  {
    && |s| == 36
    && s[8] == '-' && s[13] == '-' && s[18] == '-' && s[23] == '-'
    && AllHex(s[..8]) && AllHex(s[9..13]) && AllHex(s[14..18]) && AllHex(s[19..23]) && AllHex(s[24..])
  }

  /** `Guid.Parse(s)` for the hyphenated form; anything else is a `FormatException`. */
  function Parse(s: string): (r: Result<Guid>)
    ensures r.Ok? <==> WellShaped(s)
  {
    if WellShaped(s) then
      var g: Guid := HexValues(s[..8]) + HexValues(s[9..13]) + HexValues(s[14..18]) + HexValues(s[19..23]) + HexValues(s[24..]);
      Ok(g)
    else
      var bad: Result<Guid> := Err(FormatError("Guid should contain 32 digits with 4 dashes (xxxxxxxx-xxxx-xxxx-xxxx-xxxxxxxxxxxx)."));
      bad
  }

  lemma HexRoundTrip(ds: seq<Nibble>)
    ensures AllHex(Hex(ds)) && HexValues(Hex(ds)) == ds
  {
  }

  /** Every identifier survives `ToString` then `Guid.Parse`. */
  lemma RoundTrip(g: Guid)
    ensures Parse(Format(g)) == Ok(g)
  {
    var s := Format(g);
    var a, b, c, d, e := Hex(g[..8]), Hex(g[8..12]), Hex(g[12..16]), Hex(g[16..20]), Hex(g[20..]);
    Groups(a, b, c, d, e);
    HexRoundTrip(g[..8]);
    HexRoundTrip(g[8..12]);
    HexRoundTrip(g[12..16]);
    HexRoundTrip(g[16..20]);
    HexRoundTrip(g[20..]);
    assert g == g[..8] + g[8..12] + g[12..16] + g[16..20] + g[20..];
  }

  /** Where each group of an 8-4-4-4-12 hyphenated text sits. */
  lemma Groups(a: string, b: string, c: string, d: string, e: string)
    requires |a| == 8 && |b| == 4 && |c| == 4 && |d| == 4 && |e| == 12
    ensures var s := a + "-" + b + "-" + c + "-" + d + "-" + e;
      && s[..8] == a && s[9..13] == b && s[14..18] == c && s[19..23] == d && s[24..] == e
      && s[8] == '-' && s[13] == '-' && s[18] == '-' && s[23] == '-'
  {
  }

  /** The printed form uses only hex digits and hyphens. */
  lemma FormatChars(g: Guid, c: char)
    requires !IsHexChar(c) && c != '-'
    ensures c !in Format(g)
  {
    var s := Format(g);
    var a, b, c', d, e := Hex(g[..8]), Hex(g[8..12]), Hex(g[12..16]), Hex(g[16..20]), Hex(g[20..]);
    assert s == a + "-" + b + "-" + c' + "-" + d + "-" + e;
    assert c !in a && c !in b && c !in c' && c !in d && c !in e;
  }
}
