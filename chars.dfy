/** The character classes the invoice patterns use, restricted to ASCII, and
    the maximal runs that greedy quantifiers such as `\d+` consume. */
module Chars {

  datatype Option<T> = None | Some(value: T)

  /** `\d`: an ASCII decimal digit. */
  predicate IsDigit(c: char) {
    '0' <= c <= '9'
  }

  /** `\s`, and the separators of `str.split()` and `str.strip()`, on ASCII:
      TAB, LF, VT, FF, CR (9-13), the separators 0x1C-0x1F, and SPACE. */
  predicate IsSpace(c: char) {
    c == ' ' || '\t' <= c <= '\r' || '\U{1C}' <= c <= '\U{1F}'
  }

  /** `[A-Za-z]`. */
  predicate IsLetter(c: char) {
    'A' <= c <= 'Z' || 'a' <= c <= 'z'
  }

  /** ASCII lower-casing, the folding behind `re.IGNORECASE`. */
  function Lower(c: char): char {
    if 'A' <= c <= 'Z' then (c as int + 32) as char else c
  }

  datatype CharClass =
    | Digit       // \d
    | Space       // \s
    | NonSpace    // a character of a word of str.split()
    | Letter      // [A-Za-z]
    | Alnum       // [A-Z0-9] under IGNORECASE, so lower-case letters too
    | AmountChar  // [\d,]

  predicate InClass(c: char, k: CharClass) {
    match k
    case Digit => IsDigit(c)
    case Space => IsSpace(c)
    case NonSpace => !IsSpace(c)
    case Letter => IsLetter(c)
    case Alnum => IsLetter(c) || IsDigit(c)
    case AmountChar => IsDigit(c) || c == ','
  }

  /** Every character of s[i..j] is in class k. */
  predicate AllIn(s: string, i: int, j: int, k: CharClass) {
    0 <= i <= j <= |s| && forall t | i <= t < j :: InClass(s[t], k)
  }

  /** The end of the maximal run of class-k characters that starts at i:
      what a greedy `X+` or `X*` tries first. */
  function RunEnd(s: string, i: nat, k: CharClass): (r: nat)
    requires i <= |s|
    ensures i <= r <= |s|
    ensures AllIn(s, i, r, k)
    ensures r == |s| || !InClass(s[r], k)
    decreases |s| - i
  {
    if i < |s| && InClass(s[i], k) then RunEnd(s, i + 1, k) else i
  }

  /** A run of class-k characters that cannot be extended ends where RunEnd
      says, and any run of class-k characters from i ends no later. */
  lemma RunEndExact(s: string, i: nat, j: nat, k: CharClass)
    requires AllIn(s, i, j, k)
    ensures j <= RunEnd(s, i, k)
    ensures j == |s| || !InClass(s[j], k) ==> RunEnd(s, i, k) == j
  {
  }

  /** A run of class-k characters followed by a character outside k ends
      where RunEnd says. */
  lemma RunStops(s: string, i: nat, j: nat, k: CharClass)
    requires AllIn(s, i, j, k) && j < |s| && !InClass(s[j], k)
    ensures RunEnd(s, i, k) == j
  {
    RunEndExact(s, i, j, k);
  }
}
