/** `**` on two integers, by repeated squaring in 64 bits. */
module Power {
  import opened Integers

  function Pow(b: int, e: nat): int {
    if e == 0 then 1 else b * Pow(b, e - 1)
  }

  // An integer, or the float the operator falls back to, whose value is not modelled.
  datatype Number = Int(i: Int64) | Float

  // The checked product of two integers.
  function MulInt(a: Int64, b: Int64): (r: (Int64, bool))
    ensures r.1 == Fits(a * b) && (r.1 ==> r.0 == a * b)
  {
    if Fits(a * b) then (a * b, true) else (0, false)
  }

  /** Squaring the base halves the exponent. */
  lemma {:induction false} SquareHalves(b: int, e: nat)
    ensures Pow(b * b, e / 2) * (if e % 2 == 1 then b else 1) == Pow(b, e)
  {
    if e >= 2 {
      SquareHalves(b, e - 2);
      var odd := if e % 2 == 1 then b else 1;
      assert Pow(b, e) == b * (b * Pow(b, e - 2));
      assert Pow(b * b, e / 2) == (b * b) * Pow(b * b, (e - 2) / 2);
      Regroup(b, Pow(b * b, (e - 2) / 2), odd);
    } else if e == 1 {
      assert Pow(b * b, 0) == 1 && Pow(b, 1) == b * Pow(b, 0);
    }
  }

  lemma Regroup(b: int, p: int, odd: int)
    ensures (b * b) * p * odd == b * (b * (p * odd))
  {
  }

  /** A positive power of a square that is not 0 is at least the square. */
  lemma {:induction false} SquareGrows(s: int, k: nat)
    requires s >= 1
    ensures Pow(s, k) >= 1 && (k >= 1 ==> Pow(s, k) >= s)
  {
    if k > 0 {
      SquareGrows(s, k - 1);
      Product(s, Pow(s, k - 1));
    }
  }

  lemma Product(a: int, b: int)
    requires a >= 1 && b >= 1
    ensures a * b >= a && a * b >= b
  {
  }

  lemma Scaled(p: int, k: int)
    requires k >= 1
    ensures p >= 0 ==> p * k >= p
    ensures p <= 0 ==> p * k <= p
  {
  }

  /** What does not fit does not fit either when more positive factors come to it. */
  lemma StaysOut(p: int, k: int)
    requires !Fits(p) && k >= 1
    ensures !Fits(p * k)
  {
    Scaled(p, k);
  }

  /** The square of a 64-bit integer that does not fit is more than 2 to the 63, which is no square. */
  lemma SquareOut(s: int)
    requires !Fits(s * s)
    ensures s * s > 0x8000_0000_0000_0000
  {
    if -3037000499 <= s <= 3037000499 {
      SquareBelow(s, 3037000499);
    } else {
      SquareAbove(s, 3037000500);
    }
  }

  lemma SquareBelow(s: int, m: int)
    requires -m <= s <= m
    ensures 0 <= s * s <= m * m
  {
    if s >= 0 { MulMono(s, m); } else { MulMono(-s, m); }
  }

  lemma MulMono(a: int, b: int)
    requires 0 <= a <= b
    ensures 0 <= a * a <= b * b
  {
    assert b * b - a * a == (b - a) * (b + a);
  }

  lemma SquareAbove(s: int, m: int)
    requires m >= 0 && (s >= m || s <= -m)
    ensures s * s >= m * m
  {
    if s >= 0 { MulMono(m, s); } else { MulMono(m, -s); }
  }

  /** A factor that is not 0, times a power of a square that does not fit, does not fit. */
  lemma SquarePushesOut(r: int, s: int, k: nat)
    requires !Fits(s * s) && r != 0 && k >= 1
    ensures !Fits(r * Pow(s * s, k))
  {
    SquareOut(s);
    SquareGrows(s * s, k);
    var p := Pow(s * s, k);
    if r > 0 { Product(r, p); } else { Product(-r, p); assert (-r) * p == -(r * p); }
  }

  /**
   The power is an integer exactly where it fits, and then exact: neither a square nor a partial
   product that overflows early ever falls back for a power that fits.
   */
  method PhpPow(base: Int64, exp: Int64) returns (n: Number)
    ensures n == if exp >= 0 && Fits(Pow(base, exp)) then Int(Pow(base, exp)) else Float
  {
    hide Pow;
    if exp < 0 { return Float; }
    var result: Int64, sq: Int64 := 1, base;
    var e: nat := exp;
    while e > 0
      invariant result * Pow(sq, e) == Pow(base, exp)
      invariant sq != 0 ==> result != 0
      decreases e
    {
      SquareHalves(sq, e);
      ghost var odd := if e % 2 == 1 then sq else 1;
      ghost var rest := Pow(sq * sq, e / 2);
      Associate(result, odd, rest);
      if e % 2 == 1 {
        var r, ok := MulInt(result, sq).0, MulInt(result, sq).1;
        if !ok {
          NonZero(result, sq);
          SquareGrows(sq * sq, e / 2);
          StaysOut(result * sq, rest);
          return Float;
        }
        NonZeroBoth(result, sq);
        result := r;
      }
      assert result * rest == Pow(base, exp);
      if e > 1 {
        var s, ok := MulInt(sq, sq).0, MulInt(sq, sq).1;
        if !ok {
          NonZeroSquare(sq);
          SquarePushesOut(result, sq, e / 2);
          return Float;
        }
        NonZeroBoth(sq, sq);
        sq := s;
      } else {
        PowZero(sq * sq, sq);
      }
      e := e / 2;
    }
    PowZero(sq, sq);
    n := Int(result);
  }

  lemma Associate(r: int, odd: int, p: int)
    ensures r * (p * odd) == (r * odd) * p
  {
  }

  lemma NonZero(a: int, b: int)
    requires !Fits(a * b)
    ensures a != 0 && b != 0 && b * b >= 1
  {
    NonZeroBoth(b, b);
    if b != 0 { SquareBelow(0, 1); SquareAbove(b, 1); }
  }

  lemma NonZeroSquare(b: int)
    requires !Fits(b * b)
    ensures b != 0
  {
  }

  lemma NonZeroBoth(a: int, b: int)
    ensures a * b != 0 <==> a != 0 && b != 0
  {
  }

  lemma PowZero(a: int, b: int)
    ensures Pow(a, 0) == 1 && Pow(b, 0) == 1
  {
  }
}
