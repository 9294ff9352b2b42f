/** NUL-terminated C text, read through a moving `char*`.
    A pointer into a text is modelled by the suffix of the text it points at; the
    terminating NUL is what is read at the end of the suffix. */
module CText {
  const NUL: char := '\0'

  /** `*p`. */
  function Peek(t: string): char {
    if t == "" then NUL else t[0]
  }

  /** Whether a text can be handed over as a C string without being cut short. */
  ghost predicate NulFree(t: string) {
    forall i | 0 <= i < |t| :: t[i] != NUL
  }

  predicate IsDigit(c: char) {
    '0' <= c <= '9'
  }

  /** The utility `skip`: passes over every character from 1 to 32. */
  function Skip(t: string): (r: string)
    ensures |r| <= |t|
  {
    if t != "" && NUL < t[0] <= ' ' then Skip(t[1..]) else t
  }

  /** `skip` over text that starts with blanks. */
  lemma {:induction false} SkipBlanks(blanks: string, t: string)
    requires forall c | c in blanks :: NUL < c <= ' '
    ensures Skip(blanks + t) == Skip(t)
  {
    if blanks == "" {
      assert blanks + t == t;
    } else {
      assert (blanks + t)[1..] == blanks[1..] + t;
      assert (blanks + t)[0] == blanks[0] && blanks[0] in blanks;
      assert forall c | c in blanks[1..] :: c in blanks;
      SkipBlanks(blanks[1..], t);
    }
  }

  /** What `skip` passes over are exactly the blanks at the front. */
  lemma {:induction false} SkipIsExact(t: string)
    ensures var k := |t| - |Skip(t)|;
      && t[k..] == Skip(t) && (forall i | 0 <= i < k :: 1 <= t[i] as int <= 32)
      && (k < |t| ==> t[k] as int == 0 || t[k] as int > 32)
  {
    if t != "" && NUL < t[0] <= ' ' {
      SkipIsExact(t[1..]);
      var k := |t| - |Skip(t)|;
      assert t[1..][k - 1..] == t[k..];
      assert forall i | 0 < i < k :: t[i] == t[1..][i - 1];
    }
  }

  /** The value of one hexadecimal digit, as `%x` reads it. */
  function HexValue(c: char): (v: int)
    ensures -1 <= v < 16
  {
    if '0' <= c <= '9' then c as int - '0' as int
    else if 'a' <= c <= 'f' then c as int - 'a' as int + 10
    else if 'A' <= c <= 'F' then c as int - 'A' as int + 10
    else -1
  }

  /** The lower-case hexadecimal digit that `%x` writes. */
  function HexDigit(v: nat): (c: char)
    requires v < 16
    ensures HexValue(c) == v
  {
    "0123456789abcdef"[v]
  }

  // ----- tables -----

  const DIGITS := "0123456789"
  const LOWER_HEX := "0123456789abcdef"
  const UPPER_HEX := "0123456789ABCDEF"
  const UPPER_LETTERS := "ABCDEFGHIJKLMNOPQRSTUVWXYZ"
  const LOWER_LETTERS := "abcdefghijklmnopqrstuvwxyz"

  /** The digits and their values. */
  lemma DigitsAre(c: char, d: nat)
    requires d < 10
    ensures IsDigit(c) <==> c in DIGITS
    ensures c == DIGITS[d] <==> c as int - '0' as int == d
  {
  }

  /** The hexadecimal digits, in either case, and their values; nothing else has one. */
  lemma HexValueIs(c: char, v: nat)
    requires v < 16
    ensures HexValue(c) == v <==> c == LOWER_HEX[v] || c == UPPER_HEX[v]
  {
  }

  /** Case folding as `tolower` does it in the C locale. */
  function ToLower(c: char): char {
    if 'A' <= c <= 'Z' then (c as int + 32) as char else c
  }

  /** The same character, or the same letter in the other case. */
  ghost predicate SameLetter(c: char, d: char) {
    c == d || exists i | 0 <= i < 26 :: SamePlace(c, d, i)
  }

  predicate SamePlace(c: char, d: char, i: nat)
    requires i < 26
  {
    (c == UPPER_LETTERS[i] && d == LOWER_LETTERS[i]) || (c == LOWER_LETTERS[i] && d == UPPER_LETTERS[i])
  }

  lemma LettersInOrder(i: nat)
    requires i < 26
    ensures UPPER_LETTERS[i] as int == 65 + i && LOWER_LETTERS[i] as int == 97 + i
  {
  }

  /** `tolower` maps each capital letter to its small one and nothing else to anything else. */
  lemma ToLowerIs(c: char)
    ensures forall i | 0 <= i < 26 :: c == UPPER_LETTERS[i] ==> ToLower(c) == LOWER_LETTERS[i]
    ensures c !in UPPER_LETTERS ==> ToLower(c) == c
  {
    forall i | 0 <= i < 26
      ensures c == UPPER_LETTERS[i] ==> ToLower(c) == LOWER_LETTERS[i]
    {
      LettersInOrder(i);
    }
    if 'A' <= c <= 'Z' {
      LettersInOrder(c as int - 65);
    }
  }

  lemma PlacesAre(c: char, d: char, i: nat)
    requires i < 26
    ensures SamePlace(c, d, i) <==>
      (c as int == 65 + i && d as int == 97 + i) || (c as int == 97 + i && d as int == 65 + i)
  {
    LettersInOrder(i);
  }

  /** Two characters fold to the same one exactly if they are the same letter or the same character. */
  lemma FoldsTogetherIff(c: char, d: char)
    ensures ToLower(c) == ToLower(d) <==> SameLetter(c, d)
  {
    hide SamePlace;
    forall i | 0 <= i < 26
      ensures SamePlace(c, d, i) ==> ToLower(c) == ToLower(d)
    {
      PlacesAre(c, d, i);
    }
    if ToLower(c) == ToLower(d) && c != d {
      var i := if 'A' <= c <= 'Z' then c as int - 65 else d as int - 65;
      PlacesAre(c, d, i);
    }
  }
}
