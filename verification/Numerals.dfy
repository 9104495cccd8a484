/** Number formatting of kernel/printk.c: the digit writers behind %x, %u and %d. */
module Numerals {
  import opened Bits
  import opened CStrings

  const ZERO: Byte := 48
  const MINUS: Byte := 45
  const LETTER_X: Byte := 120
  const SCRATCH := 25

  predicate Base(b: nat) { b == 10 || b == 16 }

  function Digit(d: nat): Byte
    requires d < 16
  {
    if d < 10 then ZERO + d else 55 + d
  }

  function DigitValue(c: Byte): nat {
    if ZERO <= c < ZERO + 10 then c - ZERO else if 65 <= c <= 70 then c - 55 else 0
  }

  function Quotient(n: nat, b: nat): (q: nat)
    requires Base(b)
    ensures q <= n && (n >= b ==> q < n) && (q == 0 <==> n < b)
  {
    if b == 10 then n / 10 else n / 16
  }

  function Remainder(n: nat, b: nat): (r: nat)
    requires Base(b)
    ensures r < b && (n < b ==> r == n)
  {
    if b == 10 then n % 10 else n % 16
  }

  /** The characters used: digits, capital letters, the prefix and the sign. */
  lemma DigitCharacters(d: nat)
    requires d < 16
    ensures Digit(d) == "0123456789ABCDEF"[d] as int
    ensures ZERO == '0' as int && LETTER_X == 'x' as int && MINUS == '-' as int
  {
  }

  // ----- Numerals and their meaning -----

  /** The digits of a number, highest first. */
  function Numeral(n: nat, b: nat): (t: seq<Byte>)
    requires Base(b)
    ensures |t| >= 1
  {
    if n < b then [Digit(n)] else Numeral(Quotient(n, b), b) + [Digit(Remainder(n, b))]
  }

  /** `q * b`, for the two bases. */
  function Times(q: nat, b: nat): nat
    requires Base(b)
  {
    if b == 10 then q * 10 else q * 16
  }

  /** The number a sequence of digits stands for. */
  function Parse(t: seq<Byte>, b: nat): nat
    requires Base(b)
  {
    if t == [] then 0 else Times(Parse(t[..|t| - 1], b), b) + DigitValue(t[|t| - 1])
  }

  lemma ParseDigit(t: seq<Byte>, r: nat, b: nat)
    requires Base(b) && r < b
    ensures Parse(t + [Digit(r)], b) == Times(Parse(t, b), b) + r
  {
    assert (t + [Digit(r)])[..|t|] == t;
  }

  lemma QuotientAndRemainder(n: nat, b: nat)
    requires Base(b)
    ensures Times(Quotient(n, b), b) + Remainder(n, b) == n
  {
    if b == 10 {
      assert n / 10 * 10 + n % 10 == n;
    } else {
      assert n / 16 * 16 + n % 16 == n;
    }
  }

  lemma QuotientOfSum(q: nat, r: nat, b: nat)
    requires Base(b) && r < b
    ensures Quotient(Times(q, b) + r, b) == q && Remainder(Times(q, b) + r, b) == r
  {
    QuotientUnique(Times(q, b) + r, b, q, r);
  }

  lemma {:induction false} ParseNumeral(n: nat, b: nat)
    requires Base(b)
    ensures Parse(Numeral(n, b), b) == n
  {
    if n < b {
      ParseDigit([], n, b);
      assert [] + [Digit(n)] == Numeral(n, b);
    } else {
      var q, r := Quotient(n, b), Remainder(n, b);
      ParseNumeral(q, b);
      ParseDigit(Numeral(q, b), r, b);
      QuotientAndRemainder(n, b);
    }
  }

  lemma {:induction false} NoLeadingZero(n: nat, b: nat)
    requires Base(b)
    ensures Numeral(n, b)[0] == ZERO <==> n == 0
  {
    if n >= b { NoLeadingZero(Quotient(n, b), b); }
  }

  predicate IsDigit(c: Byte, b: nat) { (ZERO <= c < ZERO + 10 || 65 <= c <= 70) && DigitValue(c) < b }

  /** The numeral is the only text of digits without leading zero for its number. */
  lemma {:induction false} NumeralIsUnique(t: seq<Byte>, b: nat)
    requires Base(b) && t != [] && (forall i :: 0 <= i < |t| ==> IsDigit(t[i], b)) && (|t| > 1 ==> t[0] != ZERO)
    ensures t == Numeral(Parse(t, b), b)
  {
    var n := |t| - 1;
    var rest, last := t[..n], DigitValue(t[n]);
    assert t == rest + [t[n]] && Digit(last) == t[n] && last < b;
    if n == 0 {
      assert Parse(rest, b) == 0;
    } else {
      NumeralIsUnique(rest, b);
      QuotientOfSum(Parse(rest, b), last, b);
      ParsePositive(rest, b);
    }
  }

  lemma {:induction false} ParsePositive(t: seq<Byte>, b: nat)
    requires Base(b) && t != [] && (forall i :: 0 <= i < |t| ==> IsDigit(t[i], b)) && t[0] != ZERO
    ensures Parse(t, b) >= 1
  {
    var n := |t| - 1;
    assert IsDigit(t[n], b);
    if n > 0 {
      ParsePositive(t[..n], b);
    } else {
      assert Parse(t[..0], b) == 0;
    }
  }

  function Power(b: nat, k: nat): nat { if k == 0 then 1 else b * Power(b, k - 1) }

  lemma {:induction false} NumeralSize(n: nat, b: nat, k: nat)
    requires Base(b) && k >= 1 && n < Power(b, k)
    ensures |Numeral(n, b)| <= k
  {
    assert Power(b, 1) == b;
    if n >= b {
      NumeralSize(Quotient(n, b), b, k - 1);
    }
  }

  /** 64-bit numbers take at most 16 hexadecimal or 20 decimal digits, so the scratch array suffices. */
  lemma DigitsFit(n: Word)
    ensures |Numeral(n, 16)| <= 16 && |Numeral(n, 10)| <= 20
  {
    assert Power(16, 4) == 0x1_0000 && Power(10, 4) == 10000;
    assert Power(16, 8) == 0x1_0000_0000 && Power(10, 8) == 1_0000_0000;
    assert Power(16, 12) == 0x1_0000_0000_0000 && Power(10, 12) == 1_0000_0000_0000;
    assert Power(16, 16) == 0x1_0000_0000_0000_0000 && Power(10, 16) == 1_0000_0000_0000_0000;
    assert Power(10, 20) == 1_0000_0000_0000_0000_0000;
    NumeralSize(n, 16, 16);
    NumeralSize(n, 10, 20);
  }

  // ----- The writers -----

  function Reversed(s: seq<Byte>): (r: seq<Byte>)
    ensures |r| == |s| && forall i :: 0 <= i < |s| ==> r[i] == s[|s| - 1 - i]
  {
    seq(|s|, i requires 0 <= i < |s| => s[|s| - 1 - i])
  }

  /** The digits not yet produced. */
  function Remaining(v: nat, b: nat): seq<Byte>
    requires Base(b)
  {
    if v == 0 then [] else Numeral(v, b)
  }

  lemma ReversedAppend(low: seq<Byte>, d: Byte)
    ensures Reversed(low + [d]) == [d] + Reversed(low)
  {
  }

  lemma RemainingSplit(v: nat, b: nat)
    requires Base(b)
    ensures Remaining(Quotient(v, b), b) + [Digit(Remainder(v, b))] == Numeral(v, b)
  {
  }

  /** One more digit of a number, the lowest first. */
  lemma DigitRound(n: nat, b: nat, v: nat, low: seq<Byte>)
    requires Base(b)
    requires if low == [] then v == n else v > 0 && Remaining(v, b) + Reversed(low) == Numeral(n, b)
    ensures Remaining(Quotient(v, b), b) + Reversed(low + [Digit(Remainder(v, b))]) == Numeral(n, b)
  {
    var d, rest, r := Digit(Remainder(v, b)), Remaining(Quotient(v, b), b), Reversed(low);
    ReversedAppend(low, d);
    RemainingSplit(v, b);
    Regroup(rest, [d], r);
    if low == [] { EmptyBehind(Numeral(v, b), r); }
  }

  lemma Regroup(a: seq<Byte>, b: seq<Byte>, c: seq<Byte>)
    ensures a + (b + c) == (a + b) + c
  {
  }

  lemma EmptyBehind(a: seq<Byte>, b: seq<Byte>)
    requires b == []
    ensures a + b == a
  {
  }

  /** The digits of a number, lowest first, into the scratch array. */
  method ProduceDigits(integer: Word, b: nat, digits: array<Byte>) returns (size: nat)
    requires Base(b) && digits.Length == SCRATCH
    modifies digits
    ensures 1 <= size <= 20 && Reversed(digits[..size]) == Numeral(integer, b)
  {
    DigitsFit(integer);
    var v: nat := integer;
    size := 0;
    while true
      invariant size < |Numeral(integer, b)| <= 20
      invariant if size == 0 then v == integer
        else
          v > 0
          && Remaining(v, b) + Reversed(digits[..size]) == Numeral(integer, b)
      decreases |Numeral(integer, b)| - size
    {
      ghost var low := digits[..size];
      DigitRound(integer, b, v, low);
      digits[size] := Digit(Remainder(v, b));
      size := size + 1;
      assert digits[..size] == low + [Digit(Remainder(v, b))];
      v := Quotient(v, b);
      if v == 0 {
        return;
      }
    }
  }

  /** Copy the digits back to front. */
  method CopyDigits(buffer: array<Byte>, pos: nat, digits: array<Byte>, size: nat)
    requires buffer != digits && size <= digits.Length && pos + size <= buffer.Length
    modifies buffer
    ensures buffer[..] == old(buffer[..pos]) + Reversed(digits[..size]) + old(buffer[pos + size..])
  {
    ghost var text := Reversed(digits[..size]);
    for i := size downto 0
      invariant forall k ::
        0 <= k < buffer.Length ==> buffer[k] == if pos <= k < pos + size - i then text[k - pos] else old(buffer[k])
    {
      buffer[pos + size - 1 - i] := digits[i];
    }
  }

  /** The text is in the buffer at `pos`, and nothing else changed. */
  predicate Written(before: seq<Byte>, after: seq<Byte>, pos: nat, text: seq<Byte>) {
    pos + |text| <= |before| && after == before[..pos] + text + before[pos + |text|..]
  }

  lemma WrittenBehind(a: seq<Byte>, b: seq<Byte>, c: seq<Byte>, pos: nat, sign: Byte, text: seq<Byte>)
    requires pos < |a| && b == a[pos := sign] && Written(b, c, pos + 1, text)
    ensures Written(a, c, pos, [sign] + text)
  {
    assert b[..pos + 1] == a[..pos] + [sign] && b[pos + 1 + |text|..] == a[pos + 1 + |text|..];
  }

  method WriteHexToBuffer(buffer: array<Byte>, pos: nat, integer: Word) returns (size: nat)
    requires pos + 18 <= buffer.Length
    modifies buffer
    ensures Written(old(buffer[..]), buffer[..], pos, [ZERO, LETTER_X] + Numeral(integer, 16))
      && size == 2 + |Numeral(integer, 16)| <= 18
  {
    var digits := new Byte[SCRATCH](_ => 0);
    DigitsFit(integer);
    var n := ProduceDigits(integer, 16, digits);
    buffer[pos], buffer[pos + 1] := ZERO, LETTER_X;
    CopyDigits(buffer, pos + 2, digits, n);
    return n + 2;
  }

  method WriteUDecimalToBuffer(buffer: array<Byte>, pos: nat, integer: Word) returns (size: nat)
    requires pos + 20 <= buffer.Length
    modifies buffer
    ensures Written(old(buffer[..]), buffer[..], pos, Numeral(integer, 10)) && size == |Numeral(integer, 10)| <= 20
  {
    var digits := new Byte[SCRATCH](_ => 0);
    size := ProduceDigits(integer, 10, digits);
    CopyDigits(buffer, pos, digits, size);
  }

  // ----- Signed numbers -----

  type Signed64 = i: int | -0x8000_0000_0000_0000 <= i < 0x8000_0000_0000_0000

  /** Negation in 64 bits: the least number is its own negative. */
  function Negated(i: Signed64): Signed64 { if i == -0x8000_0000_0000_0000 then i else -i }

  function Unsigned(i: Signed64): Word { if i < 0 then i + WORD_LIMIT else i }

  /** The text of a signed number. */
  function Decimal(i: Signed64): seq<Byte> {
    if i < 0 then [MINUS] + Numeral(Unsigned(Negated(i)), 10) else Numeral(i, 10)
  }

  function ParseDecimal(t: seq<Byte>): int {
    if t != [] && t[0] == MINUS then -(Parse(t[1..], 10) as int) else Parse(t, 10)
  }

  /** Reading the text back gives the number, also for the least one. */
  lemma ParseDecimalRoundTrip(i: Signed64)
    ensures ParseDecimal(Decimal(i)) == i && |Decimal(i)| <= 20
  {
    var n: Word := if i < 0 then -(i as int) else i as int;
    ParseNumeral(n, 10);
    DigitsOnly(n, 10);
    SignedFits(n);
    if i < 0 { assert Decimal(i)[1..] == Numeral(n, 10); }
  }

  lemma {:induction false} DigitsOnly(n: nat, b: nat)
    requires Base(b)
    ensures forall k :: 0 <= k < |Numeral(n, b)| ==> IsDigit(Numeral(n, b)[k], b)
  {
    if n >= b { DigitsOnly(Quotient(n, b), b); }
  }

  /** Numbers up to 2^63 have at most 19 decimal digits. */
  lemma SignedFits(n: Word)
    requires n <= 0x8000_0000_0000_0000
    ensures |Numeral(n, 10)| <= 19
  {
    assert Power(10, 4) == 10000;
    assert Power(10, 8) == 1_0000_0000;
    assert Power(10, 12) == 1_0000_0000_0000;
    assert Power(10, 16) == 1_0000_0000_0000_0000;
    assert Power(10, 19) == 1000_0000_0000_0000_0000;
    NumeralSize(n, 10, 19);
  }

  method WriteDecimalToBuffer(buffer: array<Byte>, pos: nat, integer: Signed64) returns (size: nat)
    requires pos + 21 <= buffer.Length
    modifies buffer
    ensures Written(old(buffer[..]), buffer[..], pos, Decimal(integer)) && size == |Decimal(integer)| <= 20
  {
    var i, at := integer, pos;
    ParseDecimalRoundTrip(integer);
    size := 0;
    if i < 0 {
      i := Negated(i);
      buffer[at] := MINUS;
      at := at + 1;
      size := 1;
    }
    ghost var before := buffer[..];
    var n := WriteUDecimalToBuffer(buffer, at, Unsigned(i));
    size := size + n;
    if integer < 0 { WrittenBehind(old(buffer[..]), before, buffer[..], pos, MINUS, Numeral(Unsigned(i), 10)); }
  }
}
