/** Bitwise operators of C on unsigned 64-bit words, defined bit by bit on naturals,
    with the arithmetic facts that the address macros of kernel/memory.h rely on. */
module Bits {
  const WORD_LIMIT := 0x1_0000_0000_0000_0000

  /** A uint64_t. */
  type Word = w: int | 0 <= w < WORD_LIMIT

  function Pow2(n: nat): (p: nat)
    ensures p >= 1
  {
    if n == 0 then 1 else 2 * Pow2(n - 1)
  }

  function BitOr(a: nat, b: nat): nat
    decreases a + b
  {
    if a == 0 && b == 0 then 0
    else (if a % 2 == 1 || b % 2 == 1 then 1 else 0) + 2 * BitOr(a / 2, b / 2)
  }

  function BitAnd(a: nat, b: nat): nat
    decreases a
  {
    if a == 0 then 0
    else (if a % 2 == 1 && b % 2 == 1 then 1 else 0) + 2 * BitAnd(a / 2, b / 2)
  }

  function ShiftRight(w: Word, n: nat): (r: Word)
    ensures r <= w
  {
    DivideIsSmaller(w, Pow2(n));
    w / Pow2(n)
  }

  /** Bits pushed past position 63 are lost. */
  function ShiftLeft(w: Word, n: nat): Word {
    (w * Pow2(n)) % WORD_LIMIT
  }

  lemma DivideIsSmaller(w: nat, d: nat)
    requires d >= 1
    ensures 0 <= w / d <= w
  {
    assert w == d * (w / d) + w % d;
    MultiplyGrows(d, w / d);
  }

  lemma MultiplyGrows(d: nat, x: int)
    requires d >= 1
    ensures x >= 0 ==> d * x >= x
    ensures x >= 1 ==> d * x >= d
    ensures d * -x == -(d * x)
  {
  }

  lemma {:induction false} OrZero(a: nat)
    ensures BitOr(a, 0) == a
  {
    if a != 0 { OrZero(a / 2); }
  }

  /** Setting bits below position `k` in a word whose low `k` bits are clear is addition. */
  lemma {:induction false} OrDisjoint(a: nat, b: nat, k: nat)
    requires a % Pow2(k) == 0 && b < Pow2(k)
    ensures BitOr(a, b) == a + b
  {
    if k == 0 {
      OrZero(a);
    } else if a != 0 || b != 0 {
      var h := Pow2(k - 1);
      var q := a / (2 * h);
      assert a == 2 * h * q;
      assert a == 2 * (h * q);
      assert a / 2 == h * q;
      MultipleModulo(h, q);
      OrDisjoint(a / 2, b / 2, k - 1);
    }
  }

  lemma MultipleModulo(h: nat, q: nat)
    requires h >= 1
    ensures (h * q) % h == 0
  {
    var r := (h * q) % h;
    var d := (h * q) / h;
    assert h * q == h * d + r;
    assert r == h * (q - d);
    MultiplyGrows(h, q - d);
    MultiplyGrows(h, d - q);
  }

  /** Masking with `2^k - 1` keeps the remainder modulo `2^k`. */
  lemma {:induction false} AndMask(a: nat, k: nat)
    ensures BitAnd(a, Pow2(k) - 1) == a % Pow2(k)
  {
    if a == 0 {
    } else if k == 0 {
      AndZero(a);
    } else {
      AndMask(a / 2, k - 1);
      MaskStep(a, Pow2(k - 1), Pow2(k));
    }
  }

  lemma MaskStep(a: nat, h: nat, m: nat)
    requires a > 0 && h >= 1 && m == 2 * h
    requires BitAnd(a / 2, h - 1) == (a / 2) % h
    ensures BitAnd(a, m - 1) == a % m
  {
    assert (m - 1) / 2 == h - 1 && (m - 1) % 2 == 1;
    ModuloHalves(a, h);
  }

  lemma {:induction false} AndZero(a: nat)
    ensures BitAnd(a, 0) == 0
  {
    if a != 0 { AndZero(a / 2); }
  }

  lemma ModuloHalves(a: nat, h: nat)
    requires h >= 1
    ensures a % (2 * h) == a % 2 + 2 * ((a / 2) % h)
  {
    var q, r := (a / 2) / h, (a / 2) % h;
    assert a / 2 == h * q + r;
    assert a == 2 * (h * q + r) + a % 2;
    assert a == (2 * h) * q + (2 * r + a % 2);
    QuotientUnique(a, 2 * h, q, 2 * r + a % 2);
  }

  lemma QuotientUnique(a: int, d: nat, q: int, r: nat)
    requires a == d * q + r && r < d
    ensures a / d == q && a % d == r
  {
    var q', r' := a / d, a % d;
    assert d * (q - q') == r' - r;
    MultiplyGrows(d, q - q');
    MultiplyGrows(d, q' - q);
  }

  lemma {:induction false} OrCommutes(a: nat, b: nat)
    ensures BitOr(a, b) == BitOr(b, a)
    decreases a + b
  {
    if a != 0 || b != 0 { OrCommutes(a / 2, b / 2); }
  }

  lemma {:induction false} OrAssociates(a: nat, b: nat, c: nat)
    ensures BitOr(BitOr(a, b), c) == BitOr(a, BitOr(b, c))
    decreases a + b + c
  {
    if a != 0 || b != 0 || c != 0 {
      OrAssociates(a / 2, b / 2, c / 2);
      OrHalves(a, b);
      OrHalves(b, c);
    }
  }

  lemma OrHalves(a: nat, b: nat)
    ensures BitOr(a, b) / 2 == BitOr(a / 2, b / 2)
    ensures BitOr(a, b) % 2 == 1 <==> a % 2 == 1 || b % 2 == 1
  {
  }
}
