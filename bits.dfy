/**
 * Python's integer bit operations, restricted to the non-negative integers the
 * interpreter ever holds. Python integers are unbounded, so `&`, `|` and `^`
 * are defined bit by bit on `nat` rather than on a fixed-width bit-vector:
 * a register shifted left by 8XYE can grow past 255 and later be OR-ed.
 */
module Bits {

  /** 2 to the power k; `1 << k` in Python. */
  function Pow2(k: nat): (p: nat)
    ensures p >= 1
  {
    if k == 0 then 1 else 2 * Pow2(k - 1)
  }

  /** Bit k of n, counting from the least significant bit. */
  function Bit(n: nat, k: nat): (b: nat)
    ensures b <= 1
  {
    (n / Pow2(k)) % 2
  }

  /** Python's `a & b` on non-negative integers. */
  function And(a: nat, b: nat): (r: nat)
    ensures r <= a && r <= b
    decreases a
  {
    if a == 0 || b == 0 then 0
    else 2 * And(a / 2, b / 2) + (if a % 2 == 1 && b % 2 == 1 then 1 else 0)
  }

  /** Python's `a | b` on non-negative integers. */
  function Or(a: nat, b: nat): (r: nat)
    ensures a <= r && b <= r
    decreases a
  {
    if a == 0 then b
    else if b == 0 then a
    else 2 * Or(a / 2, b / 2) + (if a % 2 == 1 || b % 2 == 1 then 1 else 0)
  }

  /** Python's `a ^ b` on non-negative integers. */
  function Xor(a: nat, b: nat): (r: nat)
    ensures r <= a + b
    decreases a
  {
    if a == 0 then b
    else if b == 0 then a
    else 2 * Xor(a / 2, b / 2) + (if a % 2 != b % 2 then 1 else 0)
  }

  lemma MulAtLeast(m: int, d: int)
    requires m > 0 && d >= 1
    ensures m * d >= m
  {
    if d > 1 {
      MulAtLeast(m, d - 1);
      assert m * d == m * (d - 1) + m;
    }
  }

  lemma MulAssoc(a: int, b: int, c: int)
    ensures (a * b) * c == a * (b * c)
  {
  }

  lemma MulSwap(a: int, b: int, c: int)
    ensures (a * b) * c == (a * c) * b
  {
  }

  lemma MulDistrib(a: int, b: int, c: int)
    ensures (a + b) * c == a * c + b * c
  {
  }

  lemma MulMono(a: int, b: int, c: int)
    requires a <= b && 0 <= c
    ensures a * c <= b * c
  {
  }

  /** Euclidean division is determined by its quotient-remainder equation. */
  lemma DivModUnique(a: int, m: int, q: int, r: int)
    requires 0 < m && 0 <= r < m && a == m * q + r
    ensures a / m == q && a % m == r
  {
    var q0, r0 := a / m, a % m;
    assert a == m * q0 + r0;
    if q0 < q {
      assert m * (q - q0) == m * q - m * q0;
      MulAtLeast(m, q - q0);
    } else if q0 > q {
      assert m * (q0 - q) == m * q0 - m * q;
      MulAtLeast(m, q0 - q);
    }
  }

  /** Wrapping v + h around m and stepping back v recovers h. */
  lemma WrapBack(v: nat, h: nat, m: nat)
    requires h < m
    ensures ((v + h) % m - v) % m == h
  {
    var q := (v + h) / m;
    assert (v + h) % m - v == m * -q + h;
    DivModUnique((v + h) % m - v, m, -q, h);
  }

  /** The offset of y from v, wrapped around m, leads from v back to y. */
  lemma WrapForward(v: nat, y: int, m: nat)
    requires 0 <= y < m
    ensures (v + (y - v) % m) % m == y
  {
    var q := (y - v) / m;
    assert v + (y - v) % m == m * -q + y;
    DivModUnique(v + (y - v) % m, m, -q, y);
  }

  /** Dropping the low bit first and then k - 1 more is dropping k bits. */
  lemma DivDiv(n: nat, k: nat)
    requires 0 < k
    ensures (n / 2) / Pow2(k - 1) == n / Pow2(k)
    ensures n % Pow2(k) == 2 * ((n / 2) % Pow2(k - 1)) + n % 2
  {
    var p := Pow2(k - 1);
    var q, r := (n / 2) / p, (n / 2) % p;
    assert n / 2 == p * q + r;
    assert n == 2 * (n / 2) + n % 2;
    assert Pow2(k) * q == 2 * (p * q);
    assert n == Pow2(k) * q + (2 * r + n % 2);
    DivModUnique(n, Pow2(k), q, 2 * r + n % 2);
  }

  /** AND with an odd mask keeps the low bit and masks the rest by the mask's upper part. */
  lemma AndOdd(n: nat, half: nat)
    requires n > 0
    ensures And(n, 2 * half + 1) == 2 * And(n / 2, half) + n % 2
  {
    DivModUnique(2 * half + 1, 2, half, 1);
  }

  /** A mask of the w low bits keeps n modulo 2^w. */
  lemma {:induction false} LowMask(n: nat, w: nat)
    ensures And(n, Pow2(w) - 1) == n % Pow2(w)
  {
    if w == 0 {
      assert Pow2(w) == 1;
    } else if n == 0 {
      assert 0 % Pow2(w) == 0;
    } else {
      LowMask(n / 2, w - 1);
      LowMaskStep(n, w);
    }
  }

  /** The inductive step of LowMask: from the mask on n / 2 to the mask on n. */
  lemma LowMaskStep(n: nat, w: nat)
    requires 0 < w && 0 < n
    requires And(n / 2, Pow2(w - 1) - 1) == (n / 2) % Pow2(w - 1)
    ensures And(n, Pow2(w) - 1) == n % Pow2(w)
  {
    var half := Pow2(w - 1) - 1;
    assert Pow2(w) - 1 == 2 * half + 1;
    AndOdd(n, half);
    DivDiv(n, w);
  }

  /** Masking a byte with 0xFF keeps all of it. */
  lemma FullByteMask(b: nat)
    requires b < 256
    ensures And(b, 0xFF) == b
  {
    var p := Pow2(8);
    assert p == 256;
    LowMask(b, 8);
    DivModUnique(b, p, 0, b);
  }

  /**
   * The source's field extraction `(n & M) >> k`, where M is w one-bits
   * starting at bit k, is the w-bit field of n at bit k.
   */
  lemma {:induction false} MaskField(n: nat, k: nat, w: nat)
    ensures And(n, Pow2(k) * (Pow2(w) - 1)) == Pow2(k) * ((n / Pow2(k)) % Pow2(w))
    decreases k, 1
  {
    var p := Pow2(k);
    if k == 0 {
      LowMask(n, w);
    } else if w == 0 {
      assert p * (Pow2(w) - 1) == 0;
      assert (n / p) % 1 == 0;
    } else if n == 0 {
      assert 0 / p == 0;
    } else {
      MaskFieldStep(n, k, w);
    }
  }

  lemma {:induction false} MaskFieldStep(n: nat, k: nat, w: nat)
    requires 0 < k && 0 < w && 0 < n
    ensures And(n, Pow2(k) * (Pow2(w) - 1)) == Pow2(k) * ((n / Pow2(k)) % Pow2(w))
    decreases k, 0
  {
    var ones := Pow2(w) - 1;
    var half := Pow2(k - 1) * ones;
    MulAtLeast(Pow2(k - 1), ones);
    var mask := Pow2(k) * ones;
    MulAssoc(2, Pow2(k - 1), ones);
    assert mask == 2 * half;
    assert And(n, mask) == 2 * And(n / 2, half);
    MaskField(n / 2, k - 1, w);
    DivDiv(n, k);
    var field := (n / Pow2(k)) % Pow2(w);
    assert And(n, mask) == 2 * (Pow2(k - 1) * field);
    MulAssoc(2, Pow2(k - 1), field);
  }

  lemma {:induction false} PowSplit(i: nat, j: nat)
    ensures Pow2(i + j) == Pow2(i) * Pow2(j)
  {
    if i > 0 {
      PowSplit(i - 1, j);
      MulAssoc(2, Pow2(i - 1), Pow2(j));
    }
  }

  /** Shifting a byte left by w < 8 and dropping 7 bits drops 7 - w bits of the byte. */
  lemma ShiftDiv(b: nat, w: nat)
    requires w < 8
    ensures (b * Pow2(w)) / 0x80 == b / Pow2(7 - w)
  {
    PowSplit(7 - w, w);
    assert Pow2(7) == 0x80;
    var p, s := Pow2(7 - w), Pow2(w);
    var q, r := b / p, b % p;
    assert b == p * q + r;
    assert p * s == 0x80;
    MulDistrib(p * q, r, s);
    MulSwap(p, q, s);
    assert b * s == 0x80 * q + r * s;
    MulMono(r, p - 1, s);
    MulDistrib(p, -1, s);
    DivModUnique(b * s, 0x80, q, r * s);
  }

  /** Shifting a byte left w times and testing bit 7 reads bit 7 - w of the byte. */
  lemma ShiftedTopBit(b: nat, w: nat)
    requires w < 8
    ensures And(b * Pow2(w), 0x80) / 0x80 == Bit(b, 7 - w)
  {
    MaskField(b * Pow2(w), 7, 1);
    assert Pow2(7) == 0x80 && Pow2(1) == 2;
    ShiftDiv(b, w);
  }

  /** OR keeps values that fit in k bits inside k bits. */
  lemma {:induction false} OrBound(a: nat, b: nat, k: nat)
    requires a < Pow2(k) && b < Pow2(k)
    ensures Or(a, b) < Pow2(k)
  {
    if a != 0 && b != 0 {
      OrBound(a / 2, b / 2, k - 1);
    }
  }

  /** XOR keeps values that fit in k bits inside k bits. */
  lemma {:induction false} XorBound(a: nat, b: nat, k: nat)
    requires a < Pow2(k) && b < Pow2(k)
    ensures Xor(a, b) < Pow2(k)
  {
    if a != 0 && b != 0 {
      XorBound(a / 2, b / 2, k - 1);
    }
  }

  lemma {:induction false} XorSelf(a: nat)
    ensures Xor(a, a) == 0
  {
    if a != 0 {
      XorSelf(a / 2);
    }
  }

  /** XOR-ing twice with the same value restores the original. */
  lemma {:induction false} XorInvolution(a: nat, b: nat)
    ensures Xor(Xor(a, b), b) == a
  {
    if a == 0 {
      XorSelf(b);
    } else if b != 0 {
      var c := Xor(a, b);
      XorInvolution(a / 2, b / 2);
      if c == 0 {
        assert Xor(a / 2, b / 2) == 0 && a % 2 == b % 2;
        assert a / 2 == b / 2;
      } else {
        assert c / 2 == Xor(a / 2, b / 2) && c % 2 == (if a % 2 != b % 2 then 1 else 0);
      }
    }
  }

  /** Bit k + 1 of n is bit k of n / 2. */
  lemma BitHalf(n: nat, k: nat)
    ensures Bit(n, k + 1) == Bit(n / 2, k)
  {
    DivDiv(n, k + 1);
  }

  /** Zero has no bit set. */
  lemma BitZero(k: nat)
    ensures Bit(0, k) == 0
  {
    assert 0 / Pow2(k) == 0;
  }

  /** The bits of 2q + lo: lo at position 0, then the bits of q. */
  lemma BitStep(r: nat, q: nat, lo: nat, k: nat)
    requires lo <= 1 && r == 2 * q + lo
    ensures Bit(r, k) == if k == 0 then lo else Bit(q, k - 1)
  {
    DivModUnique(r, 2, q, lo);
    if k == 0 {
      assert Pow2(0) == 1;
    } else {
      BitHalf(r, k - 1);
    }
  }

  /** Python's `&` works bit by bit: bit k of a & b is set exactly when it is set in both. */
  lemma {:induction false} AndBit(a: nat, b: nat, k: nat)
    ensures Bit(And(a, b), k) == if Bit(a, k) == 1 && Bit(b, k) == 1 then 1 else 0
  {
    if a == 0 || b == 0 {
      BitZero(k);
    } else {
      BitStep(And(a, b), And(a / 2, b / 2), if a % 2 == 1 && b % 2 == 1 then 1 else 0, k);
      BitStep(a, a / 2, a % 2, k);
      BitStep(b, b / 2, b % 2, k);
      if k > 0 {
        AndBit(a / 2, b / 2, k - 1);
      }
    }
  }

  /** Python's `|` works bit by bit: bit k of a | b is set exactly when it is set in either. */
  lemma {:induction false} OrBit(a: nat, b: nat, k: nat)
    ensures Bit(Or(a, b), k) == if Bit(a, k) == 1 || Bit(b, k) == 1 then 1 else 0
  {
    if a == 0 || b == 0 {
      BitZero(k);
    } else {
      BitStep(Or(a, b), Or(a / 2, b / 2), if a % 2 == 1 || b % 2 == 1 then 1 else 0, k);
      BitStep(a, a / 2, a % 2, k);
      BitStep(b, b / 2, b % 2, k);
      if k > 0 {
        OrBit(a / 2, b / 2, k - 1);
      }
    }
  }

  /** Python's `^` works bit by bit: bit k of a ^ b is set exactly when the operands differ there. */
  lemma {:induction false} XorBit(a: nat, b: nat, k: nat)
    ensures Bit(Xor(a, b), k) == if Bit(a, k) != Bit(b, k) then 1 else 0
  {
    if a == 0 || b == 0 {
      BitZero(k);
    } else {
      BitStep(Xor(a, b), Xor(a / 2, b / 2), if a % 2 != b % 2 then 1 else 0, k);
      BitStep(a, a / 2, a % 2, k);
      BitStep(b, b / 2, b % 2, k);
      if k > 0 {
        XorBit(a / 2, b / 2, k - 1);
      }
    }
  }
}
