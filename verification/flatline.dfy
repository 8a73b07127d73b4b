/** `Extensions.ToFlatLine` / `FromFlatLine`: escape carriage returns and line
    feeds as the two-character sequences backslash-r and backslash-n so a record
    stays on one physical line, and undo that escaping. */
module FlatLine {
  import opened Text

  const CR: char := '\r'
  const LF: char := '\n'
  const CREsc: string := "\\r"
  const LFEsc: string := "\\n"

  /** `line.Replace(CR, CREsc).Replace(LF, LFEsc)`. */
  function ToFlatLine(line: string): string
  {
    Replace(Replace(line, [CR], CREsc), [LF], LFEsc)
  }

  /** `line.Replace(CREsc, CR).Replace(LFEsc, LF)`. */
  function FromFlatLine(line: string): string
  {
    Replace(Replace(line, CREsc, [CR]), LFEsc, [LF])
  }

  /** Escape one character. */
  function EscapeChar(c: char): string
  {
    if c == CR then CREsc else if c == LF then LFEsc else [c]
  }

  /** The escaped form character by character: the reference the replacements are checked against. */
  function Escaped(s: string): string
  {
    if |s| == 0 then "" else EscapeChar(s[0]) + Escaped(s[1..])
  }

  /** `s` with only its line feeds escaped: the state between the two replacements of each direction. */
  function EscapedLF(s: string): string
  {
    if |s| == 0 then "" else (if s[0] == LF then LFEsc else [s[0]]) + EscapedLF(s[1..])
  }

  /** `s` with only its carriage returns escaped. */
  function EscapedCR(s: string): string
  {
    if |s| == 0 then "" else (if s[0] == CR then CREsc else [s[0]]) + EscapedCR(s[1..])
  }

  /** No backslash in `s` is followed by `r` or `n`: such text cannot be told apart from an escape. */
  predicate NoEscapeLookalike(s: string)
  {
    forall i :: 0 <= i < |s| - 1 ==> !(s[i] == '\\' && (s[i + 1] == 'r' || s[i + 1] == 'n'))
  }

  lemma {:induction false} ReplaceCR(s: string)
    ensures Replace(s, [CR], CREsc) == EscapedCR(s)
  {
    if |s| > 0 {
      ReplaceCR(s[1..]);
      if s[0] == CR {
        assert [CR] <= s;
      } else {
        assert !([CR] <= s);
      }
    }
  }

  /** An escaped carriage return holds no line feed for the second replacement to find. */
  lemma EscapedCRSkipsLF(rest: string, restE: string)
    requires Replace(rest, [LF], LFEsc) == restE
    ensures Replace(CREsc + rest, [LF], LFEsc) == CREsc + restE
  {
    ReplaceSkip('r', rest, [LF], LFEsc);
    ReplaceSkip('\\', ['r'] + rest, [LF], LFEsc);
    assert CREsc + rest == ['\\'] + (['r'] + rest);
  }

  lemma {:induction false} ReplaceLFOfEscapedCR(s: string)
    ensures Replace(EscapedCR(s), [LF], LFEsc) == Escaped(s)
  {
    if |s| > 0 {
      ReplaceLFOfEscapedCR(s[1..]);
      var rest := EscapedCR(s[1..]);
      if s[0] == CR {
        assert EscapedCR(s) == CREsc + rest;
        assert Escaped(s) == CREsc + Escaped(s[1..]);
        EscapedCRSkipsLF(rest, Escaped(s[1..]));
      } else if s[0] == LF {
        assert EscapedCR(s) == [LF] + rest;
        ReplaceHit(rest, [LF], LFEsc);
      } else {
        assert EscapedCR(s) == [s[0]] + rest;
        ReplaceSkip(s[0], rest, [LF], LFEsc);
      }
    }
  }

  /** `ToFlatLine` escapes exactly the carriage returns and line feeds, in place. */
  lemma ToFlatLineIsEscaped(s: string)
    ensures ToFlatLine(s) == Escaped(s)
  {
    ReplaceCR(s);
    ReplaceLFOfEscapedCR(s);
  }

  lemma {:induction false} EscapedFacts(s: string)
    ensures CR !in Escaped(s) && LF !in Escaped(s)
    ensures |Escaped(s)| == |s| + Occurrences(s, CR) + Occurrences(s, LF)
    ensures CR !in s && LF !in s ==> Escaped(s) == s
  {
    if |s| > 0 {
      EscapedFacts(s[1..]);
      assert s == [s[0]] + s[1..];
    }
  }

  /** The flat form holds no line break. */
  lemma FlatHasNoLineBreak(s: string)
    ensures CR !in ToFlatLine(s) && LF !in ToFlatLine(s)
  {
    ToFlatLineIsEscaped(s);
    EscapedFacts(s);
  }

  /** Each line break grows the text by one character; nothing else changes its length. */
  lemma FlatLength(s: string)
    ensures |ToFlatLine(s)| == |s| + Occurrences(s, CR) + Occurrences(s, LF)
  {
    ToFlatLineIsEscaped(s);
    EscapedFacts(s);
  }

  /** Text without line breaks is left alone. */
  lemma FlatIdentity(s: string)
    requires CR !in s && LF !in s
    ensures ToFlatLine(s) == s
  {
    ToFlatLineIsEscaped(s);
    EscapedFacts(s);
  }

  /** A text without escape look-alikes has none after its first character either. */
  lemma LookalikeTail(s: string)
    requires |s| > 0 && NoEscapeLookalike(s)
    ensures NoEscapeLookalike(s[1..])
  {
    forall i | 0 <= i < |s[1..]| - 1
      ensures !(s[1..][i] == '\\' && (s[1..][i + 1] == 'r' || s[1..][i + 1] == 'n'))
    {
      assert s[1..][i] == s[i + 1] && s[1..][i + 1] == s[i + 2];
    }
  }

  /** The first character of a text after a backslash is neither `r` nor `n` in a text without look-alikes. */
  lemma AfterBackslash(s: string)
    requires |s| > 1 && NoEscapeLookalike(s) && s[0] == '\\'
    ensures s[1] != 'r' && s[1] != 'n'
  {
    assert 0 < |s| - 1;
  }

  /** An escaped carriage return turns back into one. */
  lemma CRCase(rest: string, restLF: string)
    requires Replace(rest, CREsc, [CR]) == restLF
    ensures Replace(CREsc + rest, CREsc, [CR]) == [CR] + restLF
  {
    ReplaceHit(rest, CREsc, [CR]);
  }

  /** An escaped line feed passes the first pass unchanged. */
  lemma LFCase(rest: string, restLF: string)
    requires Replace(rest, CREsc, [CR]) == restLF
    ensures Replace(LFEsc + rest, CREsc, [CR]) == LFEsc + restLF
  {
    ReplaceSkip('n', rest, CREsc, [CR]);
    ReplaceSkip('\\', ['n'] + rest, CREsc, [CR]);
    assert LFEsc + rest == ['\\'] + (['n'] + rest);
  }

  /** Any other character passes the first pass unchanged unless it starts a backslash-r. */
  lemma OtherCase(c: char, rest: string, restLF: string)
    requires Replace(rest, CREsc, [CR]) == restLF
    requires c != '\\' || |rest| == 0 || rest[0] != 'r'
    ensures Replace([c] + rest, CREsc, [CR]) == [c] + restLF
  {
    ReplaceSkip(c, rest, CREsc, [CR]);
  }

  /** First pass of `FromFlatLine`: every backslash-r of an escaped text is a former CR. */
  lemma {:induction false} UnescapeCR(s: string)
    requires NoEscapeLookalike(s)
    ensures Replace(Escaped(s), CREsc, [CR]) == EscapedLF(s)
  {
    if |s| > 0 {
      var rest, restLF := Escaped(s[1..]), EscapedLF(s[1..]);
      LookalikeTail(s);
      UnescapeCR(s[1..]);
      if s[0] == CR {
        assert Escaped(s) == CREsc + rest && EscapedLF(s) == [CR] + restLF;
        CRCase(rest, restLF);
      } else if s[0] == LF {
        assert Escaped(s) == LFEsc + rest && EscapedLF(s) == LFEsc + restLF;
        LFCase(rest, restLF);
      } else {
        assert Escaped(s) == [s[0]] + rest && EscapedLF(s) == [s[0]] + restLF;
        if s[0] == '\\' && |s| > 1 {
          AfterBackslash(s);
          EscapedHead(s[1..]);
        }
        OtherCase(s[0], rest, restLF);
      }
    }
  }

  /** The escaped form of a non-empty text starts with a backslash or with the text's first character. */
  lemma EscapedHead(s: string)
    requires |s| > 0
    ensures |Escaped(s)| > 0
    ensures Escaped(s)[0] == (if s[0] == CR || s[0] == LF then '\\' else s[0])
  {
  }

  /** The line-feed-escaped form of a non-empty text starts with a backslash or with the text's first character. */
  lemma EscapedLFHead(s: string)
    requires |s| > 0
    ensures |EscapedLF(s)| > 0
    ensures EscapedLF(s)[0] == (if s[0] == LF then '\\' else s[0])
  {
  }

  /** Second pass of `FromFlatLine`: every backslash-n left is a former LF. */
  lemma {:induction false} UnescapeLF(s: string)
    requires NoEscapeLookalike(s)
    ensures Replace(EscapedLF(s), LFEsc, [LF]) == s
  {
    if |s| > 0 {
      var rest := EscapedLF(s[1..]);
      LookalikeTail(s);
      UnescapeLF(s[1..]);
      if s[0] == LF {
        assert EscapedLF(s) == LFEsc + rest;
        ReplaceHit(rest, LFEsc, [LF]);
      } else {
        assert EscapedLF(s) == [s[0]] + rest;
        if s[0] == '\\' && |s| > 1 {
          AfterBackslash(s);
          EscapedLFHead(s[1..]);
        }
        ReplaceSkip(s[0], rest, LFEsc, [LF]);
      }
      assert s == [s[0]] + s[1..];
    }
  }

  /** `FromFlatLine` undoes `ToFlatLine` unless the text already held an escape look-alike. */
  lemma RoundTrip(s: string)
    requires NoEscapeLookalike(s)
    ensures FromFlatLine(ToFlatLine(s)) == s
  {
    ToFlatLineIsEscaped(s);
    UnescapeCR(s);
    UnescapeLF(s);
  }

  /** The text in which the escape look-alike defeats the round trip: a literal backslash-r comes back as a CR. */
  lemma LookalikeIsNotRestored()
    ensures FromFlatLine(ToFlatLine("\\r")) == "\r"
  {
    FlatIdentity("\\r");
    var lit := "\\r";
    assert CREsc <= lit;
    assert lit[2..] == "";
    assert Replace(lit, CREsc, [CR]) == [CR] + Replace("", CREsc, [CR]);
    assert Replace(lit, CREsc, [CR]) == [CR];
    assert !(LFEsc <= [CR]);
    assert [CR][1..] == "";
    assert Replace([CR], LFEsc, [LF]) == [CR] + Replace("", LFEsc, [LF]);
  }
}
