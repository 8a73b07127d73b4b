/** The .NET string primitives the record formats are built from:
    `String.Split(char)`, ordinal `String.Replace`, decimal and zero-padded
    integer formatting, `Convert.ToInt32`, and the null/whitespace tests. */
module Text {
  import opened Base

  // ---------------------------------------------------------------------------
  // Occurrences and splitting
  // ---------------------------------------------------------------------------

  /** Number of occurrences of `c` in `s`. */
  function Occurrences(s: string, c: char): nat
  {
    if |s| == 0 then 0 else (if s[0] == c then 1 else 0) + Occurrences(s[1..], c)
  }

  lemma {:induction false} OccurrencesZero(s: string, c: char)
    ensures Occurrences(s, c) == 0 <==> c !in s
  {
    if |s| > 0 {
      OccurrencesZero(s[1..], c);
      assert s == [s[0]] + s[1..];
    }
  }

  lemma {:induction false} OccurrencesAppend(a: string, b: string, c: char)
    ensures Occurrences(a + b, c) == Occurrences(a, c) + Occurrences(b, c)
  {
    if |a| == 0 {
      assert a + b == b;
    } else {
      assert (a + b)[1..] == a[1..] + b;
      OccurrencesAppend(a[1..], b, c);
    }
  }

  /** Position of the first `c` in `s`. */
  function IndexOf(s: string, c: char): (r: nat)
    requires c in s
    ensures r < |s| && s[r] == c && c !in s[..r]
  {
    if s[0] == c then 0 else 1 + IndexOf(s[1..], c)
  }

  lemma IndexOfAfterPrefix(p: string, sep: char, rest: string)
    requires sep !in p
    ensures sep in p + [sep] + rest
    ensures IndexOf(p + [sep] + rest, sep) == |p|
  {
    var s := p + [sep] + rest;
    assert s[..|p|] == p;
    assert s[|p|] == sep;
  }

  /** `s.Split(sep)`: the pieces between separators, empty pieces included. */
  function Split(s: string, sep: char): (parts: seq<string>)
    ensures |parts| >= 1
    decreases |s|
  {
    if sep !in s then [s]
    else
      var i := IndexOf(s, sep);
      [s[..i]] + Split(s[i + 1..], sep)
  }

  /** `string.Join(sep, parts)`. */
  function Join(parts: seq<string>, sep: char): string
    requires |parts| >= 1
  {
    if |parts| == 1 then parts[0] else parts[0] + [sep] + Join(parts[1..], sep)
  }

  /** A character in no part and distinct from the separator is not in the joined text. */
  lemma {:induction false} JoinExcludes(parts: seq<string>, sep: char, c: char)
    requires |parts| >= 1 && c != sep
    requires forall k :: 0 <= k < |parts| ==> c !in parts[k]
    ensures c !in Join(parts, sep)
  {
    if |parts| > 1 {
      JoinExcludes(parts[1..], sep, c);
      assert parts[0] == parts[0];
    }
  }

  /** The split yields one more piece than there are separators. */
  lemma {:induction false} SplitLength(s: string, sep: char)
    ensures |Split(s, sep)| == Occurrences(s, sep) + 1
    decreases |s|
  {
    if sep !in s {
      OccurrencesZero(s, sep);
    } else {
      var i := IndexOf(s, sep);
      SplitLength(s[i + 1..], sep);
      assert s == s[..i] + [sep] + s[i + 1..];
      OccurrencesAppend(s[..i] + [sep], s[i + 1..], sep);
      OccurrencesAppend(s[..i], [sep], sep);
      OccurrencesZero(s[..i], sep);
    }
  }

  /** Splitting a join of separator-free pieces gives the pieces back. */
  lemma {:induction false} SplitJoin(parts: seq<string>, sep: char)
    requires |parts| >= 1
    requires forall k :: 0 <= k < |parts| ==> sep !in parts[k]
    ensures Split(Join(parts, sep), sep) == parts
  {
    if |parts| == 1 {
    } else {
      var rest := Join(parts[1..], sep);
      IndexOfAfterPrefix(parts[0], sep, rest);
      var s := parts[0] + [sep] + rest;
      assert s[..|parts[0]|] == parts[0];
      assert s[|parts[0]| + 1..] == rest;
      SplitJoin(parts[1..], sep);
    }
  }

  /** A join contains the separator count of its pieces plus one per seam. */
  lemma {:induction false} JoinOccurrences(parts: seq<string>, sep: char)
    requires |parts| >= 1
    requires forall k :: 0 <= k < |parts| ==> sep !in parts[k]
    ensures Occurrences(Join(parts, sep), sep) == |parts| - 1
  {
    OccurrencesZero(parts[0], sep);
    if |parts| > 1 {
      JoinOccurrences(parts[1..], sep);
      OccurrencesAppend(parts[0] + [sep], Join(parts[1..], sep), sep);
      OccurrencesAppend(parts[0], [sep], sep);
    }
  }

  // ---------------------------------------------------------------------------
  // Ordinal replacement
  // ---------------------------------------------------------------------------

  /** `s.Replace(pat, rep)`: leftmost, non-overlapping, ordinal replacement. */
  function Replace(s: string, pat: string, rep: string): string
    requires |pat| > 0
    decreases |s|
  {
    if |s| == 0 then ""
    else if pat <= s then rep + Replace(s[|pat|..], pat, rep)
    else [s[0]] + Replace(s[1..], pat, rep)
  }

  /** `Replace` past a position where the pattern does not start copies the character. */
  lemma ReplaceSkip(c: char, rest: string, pat: string, rep: string)
    requires |pat| > 0
    requires pat[0] != c || (|pat| > 1 && (|rest| == 0 || pat[1] != rest[0]))
    ensures Replace([c] + rest, pat, rep) == [c] + Replace(rest, pat, rep)
  {
    var t := [c] + rest;
    assert t[0] == c && t[1..] == rest;
    assert |rest| > 0 ==> t[1] == rest[0];
  }

  /** `Replace` at a position where the pattern starts emits the replacement. */
  lemma ReplaceHit(rest: string, pat: string, rep: string)
    requires |pat| > 0
    ensures Replace(pat + rest, pat, rep) == rep + Replace(rest, pat, rep)
  {
    assert pat <= pat + rest;
    assert (pat + rest)[|pat|..] == rest;
  }

  /** Replacing one character by a text without it leaves no occurrence behind,
      and by a single character keeps the length. */
  lemma {:induction false} ReplaceChar(s: string, c: char, rep: string)
    requires c !in rep
    ensures c !in Replace(s, [c], rep)
    ensures |rep| == 1 ==> |Replace(s, [c], rep)| == |s|
    decreases |s|
  {
    if |s| > 0 {
      ReplaceChar(s[1..], c, rep);
      if [c] <= s {
        assert s[|[c]|..] == s[1..];
      } else {
        assert s[0] != c;
      }
    }
  }

  // ---------------------------------------------------------------------------
  // Null, empty and whitespace
  // ---------------------------------------------------------------------------

  /** `char.IsWhiteSpace`: the Unicode space separators plus the C0/C1 controls .NET treats as space. */
  predicate IsWhiteSpace(c: char)
  {
    ('\t' <= c <= '\r') || c == ' ' || c == '\U{85}' || c == '\U{A0}' || c == '\U{1680}'
    || ('\U{2000}' <= c <= '\U{200A}') || c == '\U{2028}' || c == '\U{2029}'
    || c == '\U{202F}' || c == '\U{205F}' || c == '\U{3000}'
  }

  /** `string.IsNullOrWhiteSpace`. */
  predicate IsNullOrWhiteSpace(s: Option<string>)
  {
    s.None? || forall i :: 0 <= i < |s.value| ==> IsWhiteSpace(s.value[i])
  }

  /** `string.IsNullOrEmpty`. */
  predicate IsNullOrEmpty(s: Option<string>)
  {
    s.None? || |s.value| == 0
  }

  /** How `string.Format` renders a possibly-null string argument. */
  function OrEmpty(s: Option<string>): string
  {
    s.GetOr("")
  }

  /** Whether `c` lies outside the Basic Multilingual Plane, where .NET stores it as a surrogate pair. */
  predicate IsSupplementary(c: char)
  {
    c as int >= 0x1_0000
  }

  /** `string.Length`: .NET counts UTF-16 code units, so a supplementary character counts twice. */
  function Utf16Length(s: string): (n: nat)
    ensures |s| <= n <= 2 * |s|
    ensures n == |s| <==> forall i :: 0 <= i < |s| ==> !IsSupplementary(s[i])
    decreases |s|
  {
    if |s| == 0 then 0
    else
      var rest := Utf16Length(s[1..]);
      assert forall i :: 1 <= i < |s| ==> s[i] == s[1..][i - 1];
      rest + (if IsSupplementary(s[0]) then 2 else 1)
  }

  /** The UTF-16 length of a concatenation is the sum of the parts' lengths. */
  lemma {:induction false} Utf16LengthAppend(a: string, b: string)
    ensures Utf16Length(a + b) == Utf16Length(a) + Utf16Length(b)
    decreases |a|
  {
    if |a| > 0 {
      assert (a + b)[1..] == a[1..] + b;
      Utf16LengthAppend(a[1..], b);
    } else {
      assert a + b == b;
    }
  }

  // ---------------------------------------------------------------------------
  // Decimal digits
  // ---------------------------------------------------------------------------

  predicate IsDigit(c: char) { '0' <= c <= '9' }

  predicate AllDigits(s: string) { forall i :: 0 <= i < |s| ==> IsDigit(s[i]) }

  function DigitChar(d: nat): (c: char)
    requires d < 10
    ensures IsDigit(c)
  {
    (48 + d) as char
  }

  function DigitValue(c: char): (d: nat)
    requires IsDigit(c)
    ensures d < 10
  {
    (c as int) - 48
  }

  /** The number a string of decimal digits denotes. */
  function DigitsValue(s: string): nat
    requires AllDigits(s)
  {
    if |s| == 0 then 0 else DigitsValue(s[..|s| - 1]) * 10 + DigitValue(s[|s| - 1])
  }

  /** `n.ToString()` for a non-negative number: shortest decimal form. */
  function NatToString(n: nat): (s: string)
    ensures |s| >= 1 && AllDigits(s)
    decreases n
  {
    if n < 10 then [DigitChar(n)] else NatToString(n / 10) + [DigitChar(n % 10)]
  }

  lemma {:induction false} NatToStringValue(n: nat)
    ensures DigitsValue(NatToString(n)) == n
    decreases n
  {
    var s := NatToString(n);
    if n >= 10 {
      NatToStringValue(n / 10);
      assert s[..|s| - 1] == NatToString(n / 10);
    }
  }

  /** A number below 10^w has at most w digits. */
  lemma {:induction false} NatToStringWidth(n: nat, w: nat, bound: nat)
    requires bound == Pow10(w) && n < bound && w >= 1
    ensures |NatToString(n)| <= w
    decreases n
  {
    if n >= 10 {
      assert w >= 2;
      Pow10Step(w - 1);
      NatToStringWidth(n / 10, w - 1, Pow10(w - 1));
    }
  }

  /** A string of w digits denotes a number below 10^w. */
  lemma {:induction false} DigitsValueBound(s: string)
    requires AllDigits(s)
    ensures DigitsValue(s) < Pow10(|s|)
  {
    if |s| > 0 {
      DigitsValueBound(s[..|s| - 1]);
    }
  }

  function Pow10(w: nat): (p: nat)
    ensures p >= 1
  {
    if w == 0 then 1 else 10 * Pow10(w - 1)
  }

  lemma Pow10Step(w: nat)
    ensures Pow10(w + 1) == 10 * Pow10(w)
  {
  }

  function Zeros(k: nat): (z: string)
    ensures |z| == k && AllDigits(z)
  {
    if k == 0 then "" else "0" + Zeros(k - 1)
  }

  lemma {:induction false} LeadingZerosValue(k: nat, s: string)
    requires AllDigits(s)
    ensures AllDigits(Zeros(k) + s)
    ensures DigitsValue(Zeros(k) + s) == DigitsValue(s)
    decreases k, |s|
  {
    var t := Zeros(k) + s;
    assert AllDigits(t) by {
      forall i | 0 <= i < |t| ensures IsDigit(t[i]) {
        if i < k { assert t[i] == Zeros(k)[i]; } else { assert t[i] == s[i - k]; }
      }
    }
    if |s| == 0 {
      if k > 0 {
        assert t == "0" + Zeros(k - 1);
        assert t[..|t| - 1] == Zeros(k - 1) by {
          assert Zeros(k) == Zeros(k - 1) + "0" by { ZerosSnoc(k - 1); }
        }
        LeadingZerosValue(k - 1, "");
        assert Zeros(k - 1) + "" == Zeros(k - 1);
      } else {
        assert t == s;
      }
    } else {
      assert t[..|t| - 1] == Zeros(k) + s[..|s| - 1];
      LeadingZerosValue(k, s[..|s| - 1]);
    }
  }

  lemma {:induction false} ZerosSnoc(k: nat)
    ensures Zeros(k + 1) == Zeros(k) + "0"
  {
    if k > 0 {
      ZerosSnoc(k - 1);
    }
  }

  /** `n.ToString("0000")`-style formatting: at least `width` digits, zero padded. */
  function PadNat(n: nat, width: nat): (s: string)
    ensures AllDigits(s) && |s| >= width && |s| >= 1
  {
    var d := NatToString(n);
    if |d| >= width then d
    else
      LeadingZerosValue(width - |d|, d);
      Zeros(width - |d|) + d
  }

  /** Zero-padded formatting keeps the number: the parse of the digits gives it back. */
  lemma PadNatValue(n: nat, width: nat)
    ensures DigitsValue(PadNat(n, width)) == n
  {
    var d := NatToString(n);
    NatToStringValue(n);
    if |d| < width {
      var z := Zeros(width - |d|);
      assert PadNat(n, width) == z + d;
      LeadingZerosValue(width - |d|, d);
    } else {
      assert PadNat(n, width) == d;
    }
  }

  /** A number below 10^width is padded to exactly `width` digits. */
  lemma PadNatExactWidth(n: nat, width: nat)
    requires width >= 1 && n < Pow10(width)
    ensures |PadNat(n, width)| == width
  {
    NatToStringWidth(n, width, Pow10(width));
  }

  // ---------------------------------------------------------------------------
  // Signed integers
  // ---------------------------------------------------------------------------

  /** `n.ToString()` for a C# int, invariant culture. */
  function IntToString(n: int): string
  {
    if n < 0 then "-" + NatToString(-n) else NatToString(n)
  }

  /** `Convert.ToInt32(s)`: an optional sign then decimal digits, within the `int` range. */
  function ParseInt32(s: string): (r: Result<Int32>)
    ensures r.Ok? ==> |s| >= 1
    ensures r.Ok? ==> AllDigits(s) || ((s[0] == '-' || s[0] == '+') && |s| >= 2 && AllDigits(s[1..]))
    ensures r.Ok? && AllDigits(s) ==> r.value as int == DigitsValue(s)
  {
    var neg := |s| >= 1 && s[0] == '-';
    var body := if |s| >= 1 && (s[0] == '-' || s[0] == '+') then s[1..] else s;
    if |body| == 0 || !AllDigits(body) then
      var bad: Result<Int32> := Err(FormatError("Input string was not in a correct format."));
      bad
    else
      var v: int := if neg then 0 - (DigitsValue(body) as int) else DigitsValue(body);
      if Int32Min <= v <= Int32Max then Ok(v as Int32)
      else
        var overflow: Result<Int32> := Err(FormatError("Value was either too large or too small for an Int32."));
        overflow
  }

  /** Every C# int survives formatting and `Convert.ToInt32`. */
  lemma IntRoundTrip(n: Int32)
    ensures ParseInt32(IntToString(n)) == Ok(n)
  {
    var s := IntToString(n);
    if n < 0 {
      var m: nat := -(n as int);
      var d := NatToString(m);
      NatToStringValue(m);
      assert s == "-" + d;
      assert s[0] == '-';
      assert s[1..] == d;
    } else {
      var d := NatToString(n);
      NatToStringValue(n);
      assert s == d;
      assert s[0] != '-' && s[0] != '+' by { assert IsDigit(d[0]); }
    }
  }

  /** The decimal form of an int contains only a sign and digits. */
  lemma IntToStringChars(n: int, c: char)
    requires !IsDigit(c) && c != '-'
    ensures c !in IntToString(n)
  {
    var s := IntToString(n);
    forall i | 0 <= i < |s| ensures s[i] != c {
      if n < 0 && i >= 1 {
        assert s[i] == NatToString(-n)[i - 1];
      }
    }
  }
}
