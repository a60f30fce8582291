/** Bytes, little-endian integers and powers of two. */
module Bytes {

  type byte = x: int | 0 <= x < 256

  /** The little-endian value of the first bytes of `b`. */
  function FromLittleEndian(b: seq<byte>): nat {
    if b == [] then 0 else b[0] + 256 * FromLittleEndian(b[1..])
  }

  function Pow2(k: nat): (p: nat)
    ensures p > 0
  {
    if k == 0 then 1 else 2 * Pow2(k - 1)
  }

  /** Bitwise AND of two unsigned machine words, bit by bit. */
  function BitAnd(x: nat, y: nat): nat {
    if x == 0 || y == 0 then 0
    else (if x % 2 == 1 && y % 2 == 1 then 1 else 0) + 2 * BitAnd(x / 2, y / 2)
  }

  /** Bitwise exclusive or of two unsigned machine words, bit by bit. */
  function BitXor(x: nat, y: nat): nat {
    if x == 0 && y == 0 then 0
    else (if x % 2 == y % 2 then 0 else 1) + 2 * BitXor(x / 2, y / 2)
  }

  lemma {:induction false} BitXorBelow(x: nat, y: nat, k: nat)
    requires x < Pow2(k) && y < Pow2(k)
    ensures BitXor(x, y) < Pow2(k)
    decreases k
  {
    if k > 0 && !(x == 0 && y == 0) {
      BitXorBelow(x / 2, y / 2, k - 1);
    }
  }

  lemma {:induction false} BitXorCommutes(x: nat, y: nat)
    ensures BitXor(x, y) == BitXor(y, x)
    decreases x + y
  {
    if !(x == 0 && y == 0) {
      BitXorCommutes(x / 2, y / 2);
    }
  }

  lemma {:induction false} BitXorInverts(x: nat, y: nat)
    ensures BitXor(BitXor(x, y), y) == x
    decreases x + y
  {
    if !(x == 0 && y == 0) {
      BitXorInverts(x / 2, y / 2);
      var r := BitXor(x, y);
      assert r / 2 == BitXor(x / 2, y / 2) && r % 2 == (if x % 2 == y % 2 then 0 else 1);
    }
  }

  lemma {:induction false} BitXorZero(x: nat)
    ensures BitXor(x, 0) == x
  {
    if x > 0 {
      BitXorZero(x / 2);
    }
  }

  lemma Pow2At32()
    ensures Pow2(32) == 0x1_0000_0000
  {
    assert Pow2(8) == 0x100 by {
      assert Pow2(4) == 16;
      assert Pow2(6) == 4 * Pow2(4);
    }
    Pow2Sum(8, 8);
    Pow2Sum(16, 16);
  }

  lemma {:induction false} Pow2Sum(a: nat, b: nat)
    ensures Pow2(a + b) == Pow2(a) * Pow2(b)
  {
    if b > 0 {
      Pow2Sum(a, b - 1);
    }
  }

  lemma {:induction false} MulMonotone(a: nat, c: nat, b: nat)
    requires a <= c
    ensures a * b <= c * b
    decreases b
  {
    if b > 0 {
      MulMonotone(a, c, b - 1);
    }
  }

  lemma MulAtLeast(d: int, m: nat)
    requires d >= 1
    ensures d * m >= m
  {
    assert (d - 1) * m >= 0;
    assert d * m == (d - 1) * m + m;
  }

  lemma QuotientsDiffer(m: nat, q1: int, r1: nat, q2: int, r2: nat)
    requires r1 < m && r2 < m && q1 > q2
    ensures q1 * m + r1 > q2 * m + r2
  {
    MulAtLeast(q1 - q2, m);
    assert (q1 - q2) * m == q1 * m - q2 * m;
  }

  lemma DivModUnique(x: nat, m: nat, q: nat, r: nat)
    requires m > 0 && r < m && x == q * m + r
    ensures x / m == q && x % m == r
  {
    var q', r' := x / m, x % m;
    assert x == q' * m + r';
    if q > q' {
      QuotientsDiffer(m, q, r, q', r');
    } else if q' > q {
      QuotientsDiffer(m, q', r', q, r);
    }
  }

  lemma SmallMod(x: nat, m: nat)
    requires x < m
    ensures x % m == x
  {
    DivModUnique(x, m, 0, x);
  }

  /** Masking with `2^k - 1` is reduction modulo `2^k`. */
  lemma {:induction false} MaskIsMod(x: nat, k: nat)
    ensures BitAnd(x, Pow2(k) - 1) == x % Pow2(k)
    decreases k
  {
    if x == 0 {
      DivModUnique(0, Pow2(k), 0, 0);
    } else if k == 0 {
      DivModUnique(x, 1, x, 0);
    } else {
      var m := Pow2(k - 1);
      calc {
        BitAnd(x, Pow2(k) - 1);
        { MaskStep(x, m); }
        x % 2 + 2 * BitAnd(x / 2, m - 1);
        { MaskIsMod(x / 2, k - 1); }
        x % 2 + 2 * ((x / 2) % m);
        { HalveMod(x, m); }
        x % (2 * m);
      }
    }
  }

  lemma MaskStep(x: nat, m: nat)
    requires m > 0 && x > 0
    ensures BitAnd(x, 2 * m - 1) == x % 2 + 2 * BitAnd(x / 2, m - 1)
  {
    var y := 2 * m - 1;
    assert y > 0 && y % 2 == 1 && y / 2 == m - 1;
  }

  lemma HalveMod(x: nat, m: nat)
    requires m > 0
    ensures x % (2 * m) == x % 2 + 2 * ((x / 2) % m)
  {
    var q, r := (x / 2) / m, (x / 2) % m;
    assert x / 2 == q * m + r;
    assert q * (2 * m) == 2 * (q * m);
    DivModUnique(x, 2 * m, q, 2 * r + x % 2);
  }

  lemma Pow2MultipleOf8(k: nat)
    requires k >= 3
    ensures Pow2(k) % 8 == 0 && Pow2(k) >= 8
    decreases k
  {
    if k == 3 {
      assert Pow2(3) == 2 * Pow2(2) && Pow2(2) == 2 * Pow2(1) && Pow2(1) == 2 * Pow2(0);
    } else {
      Pow2MultipleOf8(k - 1);
    }
  }

  /** The slot of position `i` in a ring of `n`: `i` reduced modulo `n`. */
  function Slot(i: nat, n: nat): (s: nat)
    requires n > 0
    ensures s < n
  {
    if i < n then i else Slot(i - n, n)
  }

  lemma {:induction false} SlotIsMod(i: nat, n: nat)
    requires n > 0
    ensures Slot(i, n) == i % n
    decreases i
  {
    if i < n {
      SmallMod(i, n);
    } else {
      SlotIsMod(i - n, n);
      var q, r := (i - n) / n, (i - n) % n;
      assert (q + 1) * n == q * n + n;
      DivModUnique(i, n, q + 1, r);
    }
  }

  /** The consumer's mask picks the slot. */
  lemma MaskIsSlot(x: nat, k: nat)
    ensures BitAnd(x, Pow2(k) - 1) == Slot(x, Pow2(k))
  {
    MaskIsMod(x, k);
    SlotIsMod(x, Pow2(k));
  }

  /** Positions closer together than the ring is long fall on different slots. */
  lemma DistinctSlots(i: nat, j: nat, n: nat)
    requires n > 0 && i < j < i + n
    ensures Slot(i, n) != Slot(j, n)
  {
    SlotIsMod(i, n);
    SlotIsMod(j, n);
    DistinctRemainders(i, j, n);
  }

  lemma DistinctRemainders(i: nat, j: nat, n: nat)
    requires n > 0 && i < j < i + n
    ensures i % n != j % n
  {
    var a, b, r := i / n, j / n, j % n;
    assert i == a * n + i % n && j == b * n + r;
    assert (b - a) * n == b * n - a * n;
    if b - a >= 1 {
      MulAtLeast(b - a, n);
    } else if a - b >= 1 {
      MulAtLeast(a - b, n);
      assert (a - b) * n == a * n - b * n;
    }
  }

  /** Walking `d` slots forward from `h`, with at most one wrap. */
  lemma SlotAfter(h: nat, d: nat, n: nat)
    requires n > 0 && d <= n
    ensures Slot(h + d, n) == if Slot(h, n) + d < n then Slot(h, n) + d else Slot(h, n) + d - n
  {
    SlotIsMod(h, n);
    SlotIsMod(h + d, n);
    var q, r := h / n, h % n;
    assert h == q * n + r;
    if r + d < n {
      DivModUnique(h + d, n, q, r + d);
    } else {
      assert (q + 1) * n == q * n + n;
      if r + d - n < n {
        DivModUnique(h + d, n, q + 1, r + d - n);
      }
    }
  }

  lemma AlignedSlot(h: nat, n: nat)
    requires h % 8 == 0 && n % 8 == 0 && n >= 8
    ensures Slot(h, n) <= n - 8
    decreases h
  {
    if h >= n {
      AlignedSlot(h - n, n);
    }
  }
}
