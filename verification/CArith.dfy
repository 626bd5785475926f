/** C's integer arithmetic where it differs from Dafny's: division that truncates, unsigned
    wrap-around at 32 bits, and bitwise or. */
module CArith {
  import opened Text

  const FRAMES_PER_SECOND := 75

  /** `a / b` in C: truncated toward zero. */
  function Div(a: int, b: int): int
    requires b > 0
  {
    if a >= 0 then a / b else -(-a / b)
  }

  /** `a % b` in C: the remainder of Div, with the sign of a. */
  function Mod(a: int, b: int): (r: int)
    requires b > 0
    ensures Div(a, b) * b + r == a
  {
    a - Div(a, b) * b
  }

  /** Division is that of the magnitudes, with the sign of the dividend. */
  lemma DivTruncates(a: int, b: int)
    requires b > 0
    ensures Div(-a, b) == -Div(a, b) && Mod(-a, b) == -Mod(a, b)
    ensures a >= 0 ==> 0 <= Mod(a, b) < b
  {
    if a >= 0 {
      assert a == b * (a / b) + a % b;
    } else {
      assert -a == b * (-a / b) + -a % b;
    }
  }

  function FramesToSeconds(f: int): int
  {
    Div(f, FRAMES_PER_SECOND)
  }

  /** Conversion to `unsigned int`. */
  function Wrap(x: int): Word
  {
    x % 0x1_0000_0000
  }

  /** Values that differ by a multiple of 2 to the 32 become the same word, negative ones too, and a word stays. */
  lemma WrapIsModular(x: int, k: int)
    ensures Wrap(x + k * 0x1_0000_0000) == Wrap(x)
    ensures 0 <= x < 0x1_0000_0000 ==> Wrap(x) == x
  {
  }

  /** `x | y` on unsigned values. */
  function Or(x: nat, y: nat): nat
  {
    if x == 0 && y == 0 then 0
    else 2 * Or(x / 2, y / 2) + (if x % 2 == 1 || y % 2 == 1 then 1 else 0)
  }

  function Pow2(k: nat): (p: nat)
    ensures p > 0
  {
    if k == 0 then 1 else 2 * Pow2(k - 1)
  }

  lemma {:induction false} OrZero(y: nat)
    ensures Or(0, y) == y
  {
    if y > 0 { OrZero(y / 2); }
  }

  lemma {:induction false} OrAny(x: nat)
    ensures Or(x, 0) == x
  {
    if x > 0 { OrAny(x / 2); }
  }

  /** Values whose bits do not meet are added by an or. */
  lemma {:induction false} OrDisjoint(high: nat, low: nat, k: nat)
    requires low < Pow2(k)
    ensures Or(high * Pow2(k), low) == high * Pow2(k) + low
  {
    if k == 0 {
      OrAny(high);
    } else if high == 0 {
      OrZero(low);
    } else {
      var h := high * Pow2(k - 1);
      assert high * Pow2(k) == 2 * h;
      OrDisjoint(high, low / 2, k - 1);
    }
  }

  lemma Powers()
    ensures Pow2(8) == 0x100 && Pow2(16) == 0x1_0000 && Pow2(24) == 0x100_0000
  {
    assert Pow2(8) == 0x100;
    assert Pow2(12) == 0x1000;
    assert Pow2(16) == 0x1_0000;
    assert Pow2(20) == 0x10_0000;
  }

  /** Three fields shifted by 24, 8 and 0 bits and joined by or are laid side by side when they fit. */
  lemma OrFields(a: nat, b: nat, c: nat)
    requires a < 0x100 && b < 0x1_0000 && c < 0x100
    ensures Or(Or(a * 0x100_0000, b * 0x100), c) == a * 0x100_0000 + b * 0x100 + c
  {
    Powers();
    OrDisjoint(a, b * 0x100, 24);
    OrDisjoint(a * 0x1_0000 + b, c, 8);
  }
}
