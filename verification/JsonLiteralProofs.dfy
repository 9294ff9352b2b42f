/** String literals survive printing and parsing, and both directions fit their buffers. */
module JsonLiteralProofs {
  import opened CText
  import opened JsonLiteral

  // ----- the escapes -----

  /** The characters with an escape of their own, and the letters that stand for them. */
  const SPECIALS: seq<nat> := [0x08, 0x0C, 0x0A, 0x0D, 0x09, 0x22, 0x5C]
  const LETTERS := "bfnrt\"\\"

  /** What is written for a character: a backslash and a letter for seven of them, a code unit of four
      small hexadecimal digits for the other control characters, and itself for all others. */
  lemma EscapesAre(c: char)
    requires c != NUL
    ensures forall i | 0 <= i < 7 :: c as nat == SPECIALS[i] ==> EscapeChar(c) == ['\\', LETTERS[i]]
    ensures c as nat !in SPECIALS ==>
      EscapeChar(c) == if c as nat >= 32 then [c] else "\\u00" + [LOWER_HEX[c as nat / 16], LOWER_HEX[c as nat % 16]]
  {
    assert 0x08 in SPECIALS && 0x0C in SPECIALS && 0x0A in SPECIALS && 0x0D in SPECIALS && 0x09 in SPECIALS;
    assert 0x22 in SPECIALS && 0x5C in SPECIALS;
  }

  lemma PrependTwice(r: Literal, a: string, b: string)
    ensures r.Prepend(b).Prepend(a) == r.Prepend(a + b)
  {
    if r.Literal? {
      assert a + (b + r.text) == (a + b) + r.text;
    }
  }

  // ----- sizes -----

  /** The counting loop predicts what the writing loop writes: with the two quotes and the NUL
      the buffer of `len + 3` is filled exactly. */
  lemma {:induction false} PrintedLiteralFillsBuffer(s: string)
    requires NulFree(s)
    ensures |PrintLiteral(s)| + 1 == EscapedLength(s) + 3
  {
    EscapeLength(s);
  }

  lemma {:induction false} EscapeLength(s: string)
    requires NulFree(s)
    ensures |Escape(s)| == EscapedLength(s)
  {
    hide EscapeChar, EscapedCount;
    if s != "" {
      EscapeLength(s[1..]);
      EscapeCharLength(s[0]);
    }
  }

  lemma EscapeCharLength(c: char)
    requires c != NUL
    ensures |EscapeChar(c)| == EscapedCount(c)
  {
  }

  /** Characters without a meaning of their own count one each. */
  lemma {:induction false} SkipCountAhead(t: string, n: nat)
    requires n <= |t|
    requires forall i | 0 <= i < n :: t[i] != NUL && t[i] != '"' && t[i] != '\\'
    ensures SkipCount(t) == n + SkipCount(t[n..])
  {
    if n > 0 {
      SkipCountAhead(t[1..], n - 1);
      assert t[1..][n - 1..] == t[n..];
    }
  }

  /** A round of decoding writes no more than the counting loop has set aside for it. */
  lemma DecodeOneFits(t: string)
    requires Peek(t) != NUL && t[0] != '"' && DecodeOne(t).1 > 0
    ensures |DecodeOne(t).0| + SkipCount(t[DecodeOne(t).1..]) <= SkipCount(t)
  {
    hide Utf8, Hex4, ShortMeaning, Combine;
    var n := DecodeOne(t).1;
    if t[0] == '\\' && t[1] == 'u' {
      SkipCountAhead(t[2..], 4);
      assert t[2..][4..] == t[6..];
      if n == 12 {
        SkipCountAhead(t[8..], 4);
        assert t[8..][4..] == t[12..];
        assert t[6..][2..] == t[8..];
      }
    }
  }

  /** The text that `parse_string` writes fits the buffer it has allocated. */
  lemma {:induction false} UnescapedTextFits(t: string)
    requires Unescape(t).Literal?
    ensures |Unescape(t).text| <= SkipCount(t)
    decreases |t|
  {
    hide DecodeOne, SkipCount;
    if Peek(t) != NUL && t[0] != '"' {
      DecodeOneFits(t);
      UnescapedTextFits(t[DecodeOne(t).1..]);
    }
  }

  /** The counting loop never passes over the terminator. */
  ghost predicate Countable(t: string)
    decreases |t|
  {
    if Peek(t) == NUL || t[0] == '"' then true
    else if t[0] == '\\' then Peek(t[1..]) != NUL && Countable(t[2..])
    else Countable(t[1..])
  }

  lemma {:induction false} CountableAhead(t: string, n: nat)
    requires n <= |t|
    requires forall i | 0 <= i < n :: t[i] != NUL && t[i] != '"' && t[i] != '\\'
    ensures Countable(t) == Countable(t[n..])
  {
    if n > 0 {
      CountableAhead(t[1..], n - 1);
      assert t[1..][n - 1..] == t[n..];
    }
  }

  /** Where the decoding loop stays inside the text, so does the counting loop. */
  lemma {:induction false} LiteralIsCountable(t: string)
    requires Unescape(t).Literal?
    ensures Countable(t)
    decreases |t|
  {
    hide Utf8, Hex4, ShortMeaning, Combine;
    if Peek(t) != NUL && t[0] != '"' {
      var (bytes, n) := DecodeOne(t);
      LiteralIsCountable(t[n..]);
      if t[0] == '\\' && t[1] == 'u' {
        CountableAhead(t[2..], 4);
        assert t[2..][4..] == t[6..];
        if n == 12 {
          CountableAhead(t[8..], 4);
          assert t[8..][4..] == t[12..];
          assert t[6..][2..] == t[8..];
        }
      }
    }
  }

  // ----- round trip -----

  lemma ControlEscapeDecodes(c: char, u: string)
    requires NUL < c < 32 as char && ShortEscape(c) == NUL
    ensures DecodeOne(EscapeChar(c) + u) == ([c], 6)
  {
    var t := EscapeChar(c) + u;
    assert t[2..][..4] == ['0', '0', HexDigit(c as int / 16), HexDigit(c as int % 16)];
    assert t[2] == t[2..][0] && t[3] == t[2..][1] && t[4] == t[2..][2] && t[5] == t[2..][3];
    assert Hex4(t[2..]) == c as int;
  }

  lemma EscapedCharDecodes(c: char, u: string)
    requires c != NUL
    ensures Unescape(EscapeChar(c) + u) == Unescape(u).Prepend([c])
  {
    var t := EscapeChar(c) + u;
    if c <= 31 as char && ShortEscape(c) == NUL {
      ControlEscapeDecodes(c, u);
    }
    assert t[|EscapeChar(c)|..] == u;
    assert DecodeOne(t) == ([c], |EscapeChar(c)|);
  }

  /** `parse_string` undoes `print_string_ptr`, whatever follows the literal. */
  lemma {:induction false} LiteralRoundTrip(s: string, rest: string)
    requires NulFree(s)
    ensures Unescape(Escape(s) + ("\"" + rest)) == Literal(s, rest)
  {
    if s == "" {
      assert Escape(s) + ("\"" + rest) == "\"" + rest;
      assert ("\"" + rest)[1..] == rest;
    } else {
      var c, u := s[0], Escape(s[1..]) + ("\"" + rest);
      LiteralRoundTrip(s[1..], rest);
      assert Escape(s) + ("\"" + rest) == EscapeChar(c) + u;
      EscapedCharDecodes(c, u);
      assert Literal(s[1..], rest).Prepend([c]) == Literal(s, rest) by {
        assert [c] + s[1..] == s;
      }
    }
  }

  /** A parsed text never contains a NUL, so that it is a C string again. */
  lemma {:induction false} UnescapedIsNulFree(t: string)
    requires Unescape(t).Literal?
    ensures NulFree(Unescape(t).text)
    decreases |t|
  {
    hide DecodeOne;
    if Peek(t) != NUL && t[0] != '"' {
      var (bytes, n) := DecodeOne(t);
      UnescapedIsNulFree(t[n..]);
      DecodedBytesNulFree(t);
    }
  }

  lemma DecodedBytesNulFree(t: string)
    requires Peek(t) != NUL
    ensures NulFree(DecodeOne(t).0)
  {
  }
}
