/** String helpers shared by the two tale modules: the part of JavaScript's
    `String.prototype.toLowerCase` that the known character names need, and
    `String.prototype.repeat`. */
module Text {

  /** Upper-case letters this model lowers: Latin A..Z and the Cyrillic block
      U+0400..U+042F (Ѐ..Џ and А..Я). */
  predicate IsUpper(c: char) {
    ('A' <= c <= 'Z') || ('\U{0400}' <= c <= '\U{042F}')
  }

  /** Lower-case partner of a letter: Latin and А..Я move by 32 code points,
      Ѐ..Џ (including Ё) move by 80 to ѐ..џ; every other character is kept. */
  function LowerChar(c: char): (r: char)
    ensures !IsUpper(r)
    ensures !IsUpper(c) ==> r == c
    ensures IsUpper(c) ==> r != c
  {
    if 'A' <= c <= 'Z' then (c as int + 32) as char
    else if '\U{0410}' <= c <= '\U{042F}' then (c as int + 32) as char
    else if '\U{0400}' <= c <= '\U{040F}' then (c as int + 80) as char
    else c
  }

  /** Each capital lowers to a partner of its own. */
  lemma LowerCharInjective(a: char, b: char)
    requires IsUpper(a) && IsUpper(b)
    requires LowerChar(a) == LowerChar(b)
    ensures a == b
  {
  }

  /** `toLowerCase` on a whole string, character by character. */
  function Lower(s: string): (r: string)
    ensures |r| == |s|
    ensures forall i :: 0 <= i < |s| ==> r[i] == LowerChar(s[i])
  {
    if s == [] then [] else [LowerChar(s[0])] + Lower(s[1..])
  }

  /** A lower-cased string has no upper-case letter left. */
  predicate NoUpper(s: string) {
    forall i :: 0 <= i < |s| ==> !IsUpper(s[i])
  }

  /** Lowering changes exactly the strings that hold an upper-case letter. */
  lemma LowerFixedIff(s: string)
    ensures Lower(s) == s <==> NoUpper(s)
  {
  }

  /** Lowering twice is lowering once. */
  lemma LowerIdempotent(s: string)
    ensures Lower(Lower(s)) == Lower(s)
  {
    LowerFixedIff(Lower(s));
  }

  /** `s.repeat(n)`: `n` copies of `s` joined together. */
  function Repeat(s: string, n: nat): (r: string)
    ensures |r| == n * |s|
  {
    if n == 0 then [] else s + Repeat(s, n - 1)
  }

  /** Repeating `a + b` times is repeating `a` times, then `b` times. */
  lemma {:induction false} RepeatAdd(s: string, a: nat, b: nat)
    ensures Repeat(s, a + b) == Repeat(s, a) + Repeat(s, b)
  {
    if a > 0 {
      RepeatAdd(s, a - 1, b);
      assert Repeat(s, a + b) == s + Repeat(s, a - 1 + b);
    }
  }

  /** Every block of a repetition is the repeated string. */
  lemma {:induction false} RepeatBlock(s: string, n: nat, k: nat)
    requires k < n
    ensures k * |s| + |s| <= |Repeat(s, n)|
    ensures Repeat(s, n)[k * |s| .. k * |s| + |s|] == s
  {
    RepeatAdd(s, k, n - k);
    assert Repeat(s, n - k) == s + Repeat(s, n - k - 1);
  }
}
