/** Arithmetic on the low bits of integers. */
module Modular {

  function Pow2(k: nat): (p: int)
    ensures p >= 1
  {
    if k == 0 then 1 else 2 * Pow2(k - 1)
  }

  /** The two integers have the same low bits. */
  predicate Same(a: int, b: int, m: int)
    requires m > 0
  {
    a % m == b % m
  }

  lemma Bound(k: int, m: int)
    requires m > 0
    ensures k >= 1 ==> k * m >= m
    ensures k <= -1 ==> k * m <= -m
  {
  }

  /** A quotient and a remainder are what division answers. */
  lemma DivModIs(a: int, q: int, r: int, m: int)
    requires m > 0 && a == q * m + r && 0 <= r < m
    ensures a / m == q && a % m == r
  {
    var p, s := a / m, a % m;
    assert a == p * m + s;
    assert (p - q) * m == r - s;
    Bound(p - q, m);
  }

  lemma SameBy(a: int, b: int, t: int, m: int)
    requires m > 0 && a == b + t * m
    ensures Same(a, b, m)
  {
    var q, r := b / m, b % m;
    assert a == (q + t) * m + r;
    DivModIs(a, q + t, r, m);
  }

  lemma Apart(a: int, b: int, m: int) returns (t: int)
    requires m > 0 && Same(a, b, m)
    ensures a == b + t * m
  {
    t := a / m - b / m;
    assert a == (a / m) * m + a % m && b == (b / m) * m + b % m;
  }

  lemma SameAdd(a: int, b: int, c: int, d: int, m: int)
    requires m > 0 && Same(a, b, m) && Same(c, d, m)
    ensures Same(a + c, b + d, m) && Same(a - c, b - d, m)
  {
    var t := Apart(a, b, m);
    var u := Apart(c, d, m);
    assert a + c == b + d + (t + u) * m && a - c == b - d + (t - u) * m;
    SameBy(a + c, b + d, t + u, m);
    SameBy(a - c, b - d, t - u, m);
  }

  lemma SameMul(a: int, b: int, c: int, d: int, m: int)
    requires m > 0 && Same(a, b, m) && Same(c, d, m)
    ensures Same(a * c, b * d, m)
  {
    var t := Apart(a, b, m);
    var u := Apart(c, d, m);
    Expand(b, t, d, u, m);
    SameBy(a * c, b * d, t * d + b * u + t * u * m, m);
  }

  lemma Expand(b: int, t: int, d: int, u: int, m: int)
    ensures (b + t * m) * (d + u * m) == b * d + (t * d + b * u + t * u * m) * m
  {
    assert (b + t * m) * (d + u * m) == b * d + b * (u * m) + (t * m) * d + (t * m) * (u * m);
    assert b * (u * m) == (b * u) * m && (t * m) * d == (t * d) * m && (t * m) * (u * m) == (t * u * m) * m;
  }

  /** Fewer low bits are the same too. */
  lemma SameFewer(a: int, b: int, m: int, k: int)
    requires m > 0 && k > 0 && m * k > 0 && Same(a, b, m * k)
    ensures Same(a, b, m)
  {
    var t := Apart(a, b, m * k);
    assert t * (m * k) == (t * k) * m;
    SameBy(a, b, t * k, m);
  }

  lemma SameMod(a: int, m: int)
    requires m > 0
    ensures Same(a % m, a, m)
  {
    assert a % m == a + (-(a / m)) * m;
    SameBy(a % m, a, -(a / m), m);
  }

  lemma {:induction false} Pow2Add(j: nat, k: nat)
    ensures Pow2(j + k) == Pow2(j) * Pow2(k)
    decreases j
  {
    if j > 0 {
      Pow2Add(j - 1, k);
      assert 2 * Pow2(j - 1) * Pow2(k) == 2 * (Pow2(j - 1) * Pow2(k));
    }
  }

  lemma Pow2Values()
    ensures Pow2(8) == 0x100 && Pow2(16) == 0x1_0000 && Pow2(32) == 0x1_0000_0000 && Pow2(64) == 0x1_0000_0000_0000_0000
  {
    assert Pow2(8) == 0x100;
    Pow2Add(8, 8);
    Pow2Add(16, 16);
    Pow2Add(32, 32);
  }

  // ---- bitwise operators on two's complement of any length ----

  datatype Bitop = And | Or | Xor

  function Bit(op: Bitop, a: int, b: int): (r: int)
    requires 0 <= a <= 1 && 0 <= b <= 1
    ensures 0 <= r <= 1
  {
    match op
    case And => if a == 1 && b == 1 then 1 else 0
    case Or => if a == 1 || b == 1 then 1 else 0
    case Xor => if a != b then 1 else 0
  }

  function Size(x: int): nat {
    if x >= 0 then x else -1 - x
  }

  /** Bit by bit, up to the sign that fills the rest. */
  function Bits(op: Bitop, x: int, y: int): int
    decreases Size(x) + Size(y)
  {
    if -1 <= x <= 0 && -1 <= y <= 0 then -Bit(op, -x, -y)
    else 2 * Bits(op, x / 2, y / 2) + Bit(op, x % 2, y % 2)
  }

  lemma Unroll(op: Bitop, x: int, y: int)
    ensures Bits(op, x, y) == 2 * Bits(op, x / 2, y / 2) + Bit(op, x % 2, y % 2)
  {
    if -1 <= x <= 0 && -1 <= y <= 0 { assert x / 2 == x && y / 2 == y; }
  }

  lemma Halved(x: int, m: int)
    requires m > 0
    ensures x % (2 * m) == 2 * ((x / 2) % m) + x % 2
  {
    var h := x / 2;
    var q, r := h / m, h % m;
    assert x == 2 * h + x % 2 && h == q * m + r;
    assert x == q * (2 * m) + (2 * r + x % 2);
    DivModIs(x, q, 2 * r + x % 2, 2 * m);
  }

  lemma Halves(x: int, a: int, m: int)
    requires m > 0 && Same(x, a, 2 * m)
    ensures x % 2 == a % 2 && Same(x / 2, a / 2, m)
  {
    Halved(x, m);
    Halved(a, m);
  }

  lemma Doubled(u: int, v: int, bit: int, m: int)
    requires m > 0 && Same(u, v, m) && 0 <= bit <= 1
    ensures Same(2 * u + bit, 2 * v + bit, 2 * m)
  {
    assert (2 * u + bit) / 2 == u && (2 * v + bit) / 2 == v;
    Halved(2 * u + bit, m);
    Halved(2 * v + bit, m);
  }

  /** The low bits of a bitwise operation come from the low bits of its operands. */
  lemma {:induction false} SameBits(op: Bitop, x: int, a: int, y: int, b: int, k: nat)
    requires Same(x, a, Pow2(k)) && Same(y, b, Pow2(k))
    ensures Same(Bits(op, x, y), Bits(op, a, b), Pow2(k))
    decreases k
  {
    hide Same, Bits, Bit;
    if k > 0 {
      var m := Pow2(k - 1);
      Halves(x, a, m);
      Halves(y, b, m);
      SameBits(op, x / 2, a / 2, y / 2, b / 2, k - 1);
      Unroll(op, x, y);
      Unroll(op, a, b);
      Doubled(Bits(op, x / 2, y / 2), Bits(op, a / 2, b / 2), Bit(op, x % 2, y % 2), m);
    } else {
      SameByOne(Bits(op, x, y), Bits(op, a, b));
    }
  }

  lemma SameByOne(a: int, b: int)
    ensures Same(a, b, 1)
  {
  }

  // ---- single bits ----

  /** Bit i of a number in two's complement, however far out. */
  predicate BitAt(x: int, i: nat) {
    (x / Pow2(i)) % 2 == 1
  }

  lemma DivDiv(x: int, a: int, b: int)
    requires a > 0 && b > 0 && a * b > 0
    ensures x / a / b == x / (a * b)
  {
    var q, r := x / a / b, (x / a) % b;
    Nested(a, b, q, r, x % a);
    DivModIs(x, q, r * a + x % a, a * b);
  }

  lemma Nested(a: int, b: int, q: int, r: int, t: int)
    requires a > 0 && b > 0 && 0 <= r < b && 0 <= t < a
    ensures (q * b + r) * a + t == q * (a * b) + (r * a + t) && 0 <= r * a + t < a * b
  {
    Bound(b - 1 - r, a);
    assert (b - 1 - r) * a == a * b - a - r * a;
    assert (q * b + r) * a == (q * b) * a + r * a && (q * b) * a == q * (a * b);
  }

  lemma BitShifted(x: int, s: nat, i: nat)
    ensures BitAt(x / Pow2(s), i) == BitAt(x, s + i)
  {
    hide Pow2;
    Pow2Add(s, i);
    DivDiv(x, Pow2(s), Pow2(i));
  }

  lemma BitNext(x: int, i: nat)
    ensures BitAt(x / 2, i) == BitAt(x, i + 1) && BitAt(x, 0) == (x % 2 == 1)
  {
    BitShifted(x, 1, i);
    assert Pow2(1) == 2 && x / 1 == x;
  }

  /** Numbers have the same low bits where each of them is. */
  lemma {:induction false} BitsTell(a: int, b: int, k: nat)
    ensures Same(a, b, Pow2(k)) <==> forall i: nat :: i < k ==> BitAt(a, i) == BitAt(b, i)
    decreases k
  {
    hide Same, BitAt;
    if k == 0 {
      SameByOne(a, b);
    } else {
      BitsTell(a / 2, b / 2, k - 1);
      BitsSplit(a, b, k);
      var m := Pow2(k - 1);
      if Same(a, b, 2 * m) { Halves(a, b, m); }
      if a % 2 == b % 2 && Same(a / 2, b / 2, m) { Doubled(a / 2, b / 2, a % 2, m); }
    }
  }

  lemma BitsSplit(a: int, b: int, k: nat)
    requires k > 0
    ensures
      (forall i: nat :: i < k ==> BitAt(a, i) == BitAt(b, i)) <==>
        a % 2 == b % 2 && forall i: nat :: i < k - 1 ==> BitAt(a / 2, i) == BitAt(b / 2, i)
  {
    hide BitAt;
    forall i: nat ensures BitAt(a / 2, i) == BitAt(a, i + 1) && BitAt(b / 2, i) == BitAt(b, i + 1) {
      BitNext(a, i);
      BitNext(b, i);
    }
    BitNext(a, 0);
    BitNext(b, 0);
    if a % 2 == b % 2 && forall i: nat :: i < k - 1 ==> BitAt(a / 2, i) == BitAt(b / 2, i) {
      forall i: nat | i < k ensures BitAt(a, i) == BitAt(b, i) {
        if i > 0 { assert BitAt(a / 2, i - 1) == BitAt(b / 2, i - 1); }
      }
    }
  }

  /** Every bit of a bitwise operation is decided by the two bits there. */
  lemma {:induction false} BitsAre(op: Bitop, x: int, y: int, k: nat)
    ensures op.And? ==> (BitAt(Bits(op, x, y), k) <==> BitAt(x, k) && BitAt(y, k))
    ensures op.Or? ==> (BitAt(Bits(op, x, y), k) <==> BitAt(x, k) || BitAt(y, k))
    ensures op.Xor? ==> (BitAt(Bits(op, x, y), k) <==> BitAt(x, k) != BitAt(y, k))
    decreases k
  {
    hide BitAt, Bits;
    Unroll(op, x, y);
    BitNext(x, if k == 0 then 0 else k - 1);
    BitNext(y, if k == 0 then 0 else k - 1);
    BitNext(Bits(op, x, y), if k == 0 then 0 else k - 1);
    if k > 0 { BitsAre(op, x / 2, y / 2, k - 1); }
  }
}
