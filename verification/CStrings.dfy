/** NUL-terminated strings: libc/strings.c and libc/ctype.c. */
module CStrings {
  type Byte = b: int | 0 <= b < 256

  const NUL: Byte := 0

  /** `char` is signed on this machine. */
  function Signed(b: Byte): int { if b < 128 then b else b - 256 }

  function ToLower(c: int): int { if 65 <= c <= 90 then c + 32 else c }

  /** The text before the first NUL. */
  function CText(s: seq<Byte>): (t: seq<Byte>)
    ensures |t| <= |s| && t == s[..|t|] && NUL !in t
    ensures |t| < |s| ==> s[|t|] == NUL
  {
    if s == [] || s[0] == NUL then [] else [s[0]] + CText(s[1..])
  }

  /** The first NUL ends the text. */
  lemma {:induction false} TextEnds(s: seq<Byte>, n: nat)
    requires n < |s| && s[n] == NUL && forall i :: 0 <= i < n ==> s[i] != NUL
    ensures CText(s) == s[..n]
  {
    if n > 0 { TextEnds(s[1..], n - 1); }
  }

  predicate SameLetter(a: Byte, b: Byte) { ToLower(Signed(a)) == ToLower(Signed(b)) }

  /** Two characters are the same letter exactly if they are equal or the capital and small form of one. */
  lemma LetterCases(a: Byte, b: Byte)
    ensures SameLetter(a, b) <==>
      a == b || ('A' as int <= a <= 'Z' as int && b == a + 32) || ('A' as int <= b <= 'Z' as int && a == b + 32)
  {
  }

  predicate SameIgnoringCase(a: seq<Byte>, b: seq<Byte>) {
    |a| == |b| && forall i :: 0 <= i < |a| ==> SameLetter(a[i], b[i])
  }

  /** Compare two strings; it never reads behind the end of the shorter one. */
  method StrCaseCmp(s1: seq<Byte>, s2: seq<Byte>) returns (result: int)
    requires NUL in s1 && NUL in s2
    ensures result == 0 <==> SameIgnoringCase(CText(s1), CText(s2))
  {
    var i := 0;
    while true
      invariant i <= |CText(s1)| && i <= |CText(s2)|
      invariant forall k :: 0 <= k < i ==> SameLetter(s1[k], s2[k])
      decreases |s1| - i
    {
      result := ToLower(Signed(s1[i])) - ToLower(Signed(s2[i]));
      if result != 0 || s1[i] == NUL {
        return;
      }
      i := i + 1;
    }
  }
}
