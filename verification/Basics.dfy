/** Values shared by the modules: options, bytes, 32-bit unsigned arithmetic and ASCII case. */
module Basics {

  datatype Option<+T> = None | Some(value: T)

  type Byte = b: int | 0 <= b < 256

  /** A cast to `uint32_t`, or an unsigned operation that wraps. */
  function Wrap(x: int): (r: int)
    ensures 0 <= r < 0x1_0000_0000
  {
    x % 0x1_0000_0000
  }

  function Min(a: int, b: int): int {
    if a < b then a else b
  }

  function Take<T>(s: seq<T>, n: nat): seq<T> {
    s[..Min(n, |s|)]
  }

  function Repeat<T>(x: T, n: nat): seq<T> {
    seq(n, _ => x)
  }

  /** ASCII lower case; other characters stay as they are. */
  function LowerChar(c: char): char {
    if 'A' <= c <= 'Z' then c - 'A' + 'a' else c
  }

  /** The same character, or the two cases of one ASCII letter. */
  predicate SameLetter(c: char, d: char) {
    c == d || CasesOf(c, d) || CasesOf(d, c)
  }

  predicate CasesOf(upper: char, lower: char) {
    'A' <= upper <= 'Z' && lower as int == upper as int + 32
  }

  /** Lowering tells apart exactly what is not one letter. */
  lemma LowerCharExact(c: char, d: char)
    ensures LowerChar(c) == LowerChar(d) <==> SameLetter(c, d)
  {
  }

  lemma WrapCongruent(a: int, b: int)
    ensures Wrap(Wrap(a) + b) == Wrap(a + b)
  {
  }

  lemma WrapFits(x: int)
    requires 0 <= x
    ensures Wrap(x) == x <==> x < 0x1_0000_0000
  {
  }
}
