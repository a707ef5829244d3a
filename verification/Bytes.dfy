/** Byte strings and the character constants that the JSON text format uses.

    A C string pointer is modelled by the text that is still ahead of it: advancing the
    pointer drops bytes from the front, and reading at or behind the end yields the NUL
    terminator.
 */
module Bytes {
  type byte = b: int | 0 <= b < 256

  type text = seq<byte>

  const NUL: byte := 0
  const BACKSPACE: byte := 8
  const TAB: byte := 9
  const NEWLINE: byte := 10
  const FORM_FEED: byte := 12
  const RETURN: byte := 13
  const SPACE: byte := 32
  const QUOTE: byte := 34
  const COMMA: byte := 44
  const MINUS: byte := 45
  const PLUS: byte := 43
  const DOT: byte := 46
  const ZERO: byte := 48
  const NINE: byte := 57
  const COLON: byte := 58
  const UPPER_E: byte := 69
  const LBRACKET: byte := 91
  const BACKSLASH: byte := 92
  const RBRACKET: byte := 93
  const LOWER_B: byte := 98
  const LOWER_E: byte := 101
  const LOWER_F: byte := 102
  const LOWER_N: byte := 110
  const LOWER_R: byte := 114
  const LOWER_T: byte := 116
  const LOWER_U: byte := 117
  const LBRACE: byte := 123
  const RBRACE: byte := 125

  /** The byte a pointer at the front of `s` reads. */
  function At(s: text): byte {
    if |s| == 0 then NUL else s[0]
  }

  predicate NulFree(s: text) {
    forall i :: 0 <= i < |s| ==> s[i] != NUL
  }

  predicate IsDigit(b: byte) {
    ZERO <= b <= NINE
  }

  predicate IsBlank(b: byte) {
    b != NUL && b <= SPACE
  }

  /** Advance over white space. */
  function Skip(s: text): (r: text)
    ensures |r| <= |s|
    ensures !IsBlank(At(r))
  {
    if |s| > 0 && IsBlank(s[0]) then Skip(s[1..]) else s
  }

  predicate AllBlank(s: text) {
    forall i :: 0 <= i < |s| ==> IsBlank(s[i])
  }

  lemma {:induction false} SkipBlanks(blanks: text, s: text)
    requires AllBlank(blanks)
    ensures Skip(blanks + s) == Skip(s)
  {
    if |blanks| == 0 {
      assert blanks + s == s;
    } else {
      assert (blanks + s)[1..] == blanks[1..] + s;
      SkipBlanks(blanks[1..], s);
    }
  }

  /** `n` copies of one byte. */
  function Repeat(b: byte, n: nat): (r: text)
    ensures |r| == n
    ensures forall i :: 0 <= i < n ==> r[i] == b
  {
    seq(n, _ => b)
  }

  lemma DropPrefix(a: text, b: text)
    ensures (a + b)[|a|..] == b
    ensures (a + b)[..|a|] == a
  {
  }
}
