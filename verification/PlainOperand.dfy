/**
 A plain integer beside a typed one. The operation is to read it as the width would after a
 conversion; here is exactly where dividing or shifting it as it stands comes to the same.
 */
module PlainOperand {
  import opened Integers
  import opened Modular
  import opened GoWidth

  /** The integer a width divides: the bits of the carrier, with or without a sign. */
  function Read(w: Width, v: Operand): int {
    if Signed(w) then GoInt(v) else Unsigned(GoInt(v))
  }

  /** How often the width goes round between what is read and what it is converted to. */
  function Rounds(w: Width, n: Int64): (k: int)
    ensures Read(w, Plain(n)) == Converted(w, Plain(n)).n + k * Modulus(w)
  {
    SameLow(w, n);
    Exactly(Read(w, Plain(n)), Reduce(w, n), Modulus(w));
    (Read(w, Plain(n)) - Reduce(w, n)) / Modulus(w)
  }

  lemma SameLow(w: Width, n: Int64)
    ensures Same(Read(w, Plain(n)), Reduce(w, n), Modulus(w))
  {
    hide Reduce, Same, Pow2, Unsigned;
    var x := Read(w, Plain(n));
    Reflexive(Pow2(64), n);
    Fewer(w, x, n);
    LowTwice(x, n, Reduce(w, n), Modulus(w));
  }

  lemma LowTwice(x: int, n: int, c: int, m: int)
    requires m > 0 && Same(x, n, m) && Same(c, n, m)
    ensures Same(x, c, m)
  {
  }

  lemma Exactly(x: int, c: int, m: int)
    requires m > 0 && Same(x, c, m)
    ensures x == c + (x - c) / m * m
  {
    var t := Apart(x, c, m);
    DivModIs(x - c, t, 0, m);
  }

  /** What is read is what it is converted to exactly for a number of the width, and at 64 bits always. */
  lemma ReadAsConverted(w: Width, n: Int64)
    ensures Rounds(w, n) == 0 <==> InRange(w, n) || BitsOf(w) == 64
    ensures Rounds(w, n) == 0 <==> Read(w, Plain(n)) == Converted(w, Plain(n)).n
  {
    hide Reduce, Same, Pow2, Unsigned;
    var x, c, m := Read(w, Plain(n)), Reduce(w, n), Modulus(w);
    Factor(Rounds(w, n), m);
    if InRange(w, n) {
      Itself(w, n);
      if !Signed(w) { ReadsItself(w, n); }
    } else if BitsOf(w) == 64 {
      Fits64(w, n);
    } else {
      OutOfRange(w, n);
    }
  }

  lemma Factor(k: int, m: int)
    requires m > 0
    ensures k * m == 0 <==> k == 0
  {
    Bound(k, m);
  }

  lemma ReadsItself(w: Width, n: Int64)
    requires !Signed(w) && 0 <= n
    ensures Unsigned(n) == n
  {
    Pow2Values();
    DivModIs(n, 0, n, Pow2(64));
  }

  lemma Fits64(w: Width, n: Int64)
    requires BitsOf(w) == 64
    ensures Read(w, Plain(n)) == Reduce(w, n)
  {
  }

  /** A number that a narrower width does not hold is read as one it does not hold. */
  lemma OutOfRange(w: Width, n: Int64)
    requires !InRange(w, n) && BitsOf(w) < 64
    ensures !InRange(w, Read(w, Plain(n)))
    ensures Signed(w) || Read(w, Plain(n)) >= Modulus(w)
  {
    Pow2Values();
    if !Signed(w) {
      if n >= 0 { ReadsItself(w, n); } else { DivModIs(n, -1, n + Pow2(64), Pow2(64)); }
    }
  }

  lemma ReadTyped(w: Width, v: Operand)
    requires v.Typed? && v.w == w && Held(v)
    ensures Read(w, v) == v.n
  {
    CarrierIs(v);
  }

  /** Division and remainder of any two operands of a width, as they are read. */
  lemma Divides(w: Width, a: Operand, b: Operand)
    requires At(w, a, b)
    ensures Read(w, b) == 0 ==> Arith(Div, a, b) == Fails(DivisionByZero) && Arith(Mod, a, b) == Fails(ModuloByZero)
    ensures Read(w, b) != 0 ==>
      && Arith(Div, a, b) == Gives(Typed(w, Reduce(w, Quo(Read(w, a), Read(w, b)))))
      && Arith(Mod, a, b) == Gives(Typed(w, Reduce(w, Rem(Read(w, a), Read(w, b)))))
  {
    hide Wrap64, Reduce, Pow2, Quo, Rem;
    var x, y := Read(w, a), Read(w, b);
    if y == 0 {
      ZeroRead(w, b);
    } else {
      ZeroRead(w, b);
      QuoSmall(x, y);
      Reflexive(Pow2(64), Quo(x, y));
      Reflexive(Pow2(64), Rem(x, y));
      Narrowed(w, Quo(x, y), Quo(x, y));
      Narrowed(w, Rem(x, y), Rem(x, y));
    }
  }

  lemma ZeroRead(w: Width, v: Operand)
    ensures Read(w, v) == if Signed(w) then GoInt(v) else Unsigned(GoInt(v))
  {
  }

  // ---- truncating division ----

  lemma Near(a: int, b: int)
    requires b != 0
    ensures Abs(a) < Abs(b) <==> Quo(a, b) == 0
    ensures Abs(a) < Abs(b) <==> Rem(a, b) == a
  {
    hide Quo, Rem;
    QuoCases(a, b, Abs(a) / Abs(b), Abs(a) % Abs(b));
    Below(Abs(a), Abs(b));
  }

  lemma Below(x: nat, y: nat)
    requires y > 0
    ensures x < y <==> x / y == 0
    ensures x < y <==> x % y == x
  {
    if x < y { DivModIs(x, 0, x, y); }
  }

  lemma Parts(a: int, d: int)
    requires d != 0
    ensures a == d * Quo(a, d) + Rem(a, d) && Abs(Rem(a, d)) < Abs(d)
    ensures a >= 0 ==> Rem(a, d) >= 0
    ensures a <= 0 ==> Rem(a, d) <= 0
  {
    hide Quo;
    QuoSmall(a, d);
    QuoCases(a, d, Abs(a) / Abs(d), Abs(a) % Abs(d));
  }

  /** d divides a. */
  predicate Into(d: int, a: int)
    requires d != 0
  {
    a % d == 0
  }

  lemma IntoBy(d: int, a: int, t: int)
    requires d != 0 && a == d * t
    ensures Into(d, a)
  {
    if d > 0 { DivModIs(a, t, 0, d); } else { NegMod(a, d); DivModIs(a, -t, 0, -d); }
  }

  lemma NegMod(a: int, d: int)
    requires d < 0
    ensures a % d == a % -d
  {
  }

  lemma Times(d: int, a: int) returns (t: int)
    requires d != 0 && Into(d, a)
    ensures a == d * t
  {
    t := a / d;
  }

  lemma AbsTimes(d: int, t: int)
    ensures Abs(d * t) == Abs(t) * Abs(d)
  {
  }

  lemma OnlyZero(d: int, r: int)
    requires d != 0 && Into(d, r) && Abs(r) < Abs(d)
    ensures r == 0
  {
    var t := Times(d, r);
    AbsTimes(d, t);
    Bound(Abs(t), Abs(d));
  }

  lemma IntoDiff(d: int, a: int, b: int)
    requires d != 0 && Into(d, a) && Into(d, b)
    ensures Into(d, a - b) && Into(d, a + b)
  {
    var s := Times(d, a);
    var t := Times(d, b);
    assert d * s - d * t == d * (s - t) && d * s + d * t == d * (s + t);
    IntoBy(d, a - b, s - t);
    IntoBy(d, a + b, s + t);
  }

  /** Zero and the numbers above it lie on one side, those below on the other. */
  predicate OneSide(x: int, c: int, d: int)
    requires d != 0
  {
    (x >= 0) == (c >= 0) || Into(d, c)
  }

  lemma RemZero(a: int, d: int)
    requires d != 0
    ensures Rem(a, d) == 0 <==> Into(d, a)
  {
    hide Quo, Rem;
    Parts(a, d);
    if Rem(a, d) == 0 { IntoBy(d, a, Quo(a, d)); }
    if Into(d, a) {
      IntoBy(d, d * Quo(a, d), Quo(a, d));
      IntoDiff(d, a, d * Quo(a, d));
      OnlyZero(d, Rem(a, d));
    }
  }

  /** What lies between two numbers is the divisor times what lies between their quotients, and their remainders. */
  lemma Between(x: int, c: int, d: int)
    requires d != 0
    ensures x - c == d * (Quo(x, d) - Quo(c, d)) + (Rem(x, d) - Rem(c, d))
  {
    hide Quo, Rem;
    Parts(x, d);
    Parts(c, d);
    Distribute(d, Quo(x, d), Quo(c, d));
  }

  lemma Distribute(d: int, q: int, p: int)
    ensures d * q - d * p == d * (q - p)
  {
  }

  /** Two numbers leave the same remainder where the divisor goes into what lies between them, on one side of zero. */
  lemma SameRem(x: int, c: int, d: int)
    requires d != 0
    ensures Rem(x, d) == Rem(c, d) <==> Into(d, x - c) && OneSide(x, c, d)
  {
    hide Quo, Rem, Into;
    Parts(x, d);
    Parts(c, d);
    Between(x, c, d);
    var t, r, s := Quo(x, d) - Quo(c, d), Rem(x, d), Rem(c, d);
    RemZero(x, d);
    RemZero(c, d);
    if r == s {
      IntoBy(d, x - c, t);
    } else if Into(d, x - c) && OneSide(x, c, d) {
      IntoBy(d, d * t, t);
      IntoDiff(d, x - c, d * t);
      if Into(d, c) {
        IntoDiff(d, x - c, c);
      } else {
        OnlyZero(d, r - s);
      }
    }
  }

  /** Quotients with the same low bits leave remainders that differ by rounds, hence not at all. */
  lemma QuoFirst(x: int, c: int, d: int, k: int, m: int)
    requires d != 0 && m > 0 && x == c + k * m && Abs(Rem(x, d) - Rem(c, d)) < m
    requires Same(Quo(x, d), Quo(c, d), m)
    ensures Rem(x, d) == Rem(c, d) && Into(d, k)
  {
    hide Quo, Rem, Into, Same;
    Between(x, c, d);
    var r := Rem(x, d) - Rem(c, d);
    var j := Apart(Quo(x, d), Quo(c, d), m);
    Swap(d, j, m);
    Distribute(m, k, d * j);
    assert r == m * (k - d * j);
    IntoBy(m, r, k - d * j);
    OnlyZero(m, r);
    Cancel(m, k - d * j);
    IntoBy(d, k, j);
  }

  /** And where the remainders are the same, the quotients differ by rounds. */
  lemma QuoSecond(x: int, c: int, d: int, k: int, m: int)
    requires d != 0 && m > 0 && x == c + k * m && Into(d, k) && Rem(x, d) == Rem(c, d)
    ensures Same(Quo(x, d), Quo(c, d), m)
  {
    hide Quo, Rem, Into, Same;
    Between(x, c, d);
    var j := Times(d, k);
    Swap(d, j, m);
    Divided(d, Quo(x, d) - Quo(c, d), j * m);
    SameBy(Quo(x, d), Quo(c, d), j, m);
  }

  /** And their quotients have the same low bits where it goes into the rounds between them. */
  lemma SameQuo(x: int, c: int, d: int, k: int, m: int)
    requires d != 0 && m > 0 && x == c + k * m
    requires Abs(Rem(x, d) - Rem(c, d)) < m
    ensures Same(Quo(x, d), Quo(c, d), m) <==> Into(d, k) && OneSide(x, c, d)
  {
    hide Quo, Rem, Into, Same, OneSide;
    SameRem(x, c, d);
    if Same(Quo(x, d), Quo(c, d), m) { QuoFirst(x, c, d, k, m); }
    if Into(d, k) {
      var j := Times(d, k);
      Swap(d, j, m);
      IntoBy(d, x - c, j * m);
      if OneSide(x, c, d) { QuoSecond(x, c, d, k, m); }
    }
  }

  lemma Swap(d: int, j: int, m: int)
    ensures d * (j * m) == m * (d * j) == (d * j) * m
  {
  }

  lemma Cancel(m: int, t: int)
    requires m > 0 && m * t == 0
    ensures t == 0
  {
    Bound(t, m);
  }

  lemma Divided(d: int, s: int, t: int)
    requires d != 0 && d * s == d * t
    ensures s == t
  {
    assert d * (s - t) == 0;
  }

  // ---- converted first, or not ----

  /**
   A plain divisor. Dividing by it as it stands gives what dividing by its conversion gives exactly
   where the conversion leaves it as it is, or the dividend is smaller than what it converts to; of
   remainders one more pair agrees, the smallest number of a signed width and its negative.
   */
  lemma PlainDivisor(w: Width, a: Operand, n: Int64)
    requires a.Typed? && a.w == w && Held(a)
    ensures
      var c := Converted(w, Plain(n));
      && (Arith(Div, a, Plain(n)) == Arith(Div, a, c) <==>
            InRange(w, n) || BitsOf(w) == 64 || Abs(a.n) < Abs(c.n))
      && (Arith(Mod, a, Plain(n)) == Arith(Mod, a, c) <==>
            InRange(w, n) || BitsOf(w) == 64 || Abs(a.n) < Abs(c.n) || (2 * n == Modulus(w) && n == -a.n))
  {
    hide Reduce, Modulus, GoInt, Quo, Rem, Read, Arith, InRange, At;
    var c := Converted(w, Plain(n));
    ReadAsConverted(w, n);
    Sides(w, a, n);
    Divides(w, a, Plain(n));
    Divides(w, a, c);
    if !(InRange(w, n) || BitsOf(w) == 64) {
      FarDivisor(w, a.n, n);
      NearDivisor(w, a.n, c.n);
      if 2 * n == Modulus(w) && n == -a.n { Smallest(w, a.n, n); }
    }
  }

  lemma Smallest(w: Width, a: int, n: Int64)
    requires InRange(w, a) && 2 * n == Modulus(w) && n == -a
    ensures Signed(w) && a != 0 && Reduce(w, n) == a
    ensures Reduce(w, Rem(a, a)) == 0 && Reduce(w, Quo(a, a)) == 1
  {
    hide Reduce, Quo, Rem, Pow2;
    Pow2Values();
    SameBy(n, a, 1, Modulus(w));
    SameReduce(w, n, a);
    Itself(w, a);
    Itself(w, 0);
    Itself(w, 1);
    IntoBy(a, a, 1);
    RemZero(a, a);
    Parts(a, a);
    Divided(a, Quo(a, a), 1);
  }

  lemma Sides(w: Width, a: Operand, n: Int64)
    requires a.Typed? && a.w == w && Held(a)
    ensures At(w, a, Plain(n)) && At(w, a, Converted(w, Plain(n))) && InRange(w, a.n) && InRange(w, Converted(w, Plain(n)).n)
    ensures At(w, Plain(n), a) && At(w, Converted(w, Plain(n)), a)
    ensures Read(w, a) == a.n && Read(w, Converted(w, Plain(n))) == Converted(w, Plain(n)).n && (Signed(w) || Read(w, Plain(n)) >= 0)
  {
    ReadTyped(w, a);
    ReadTyped(w, Converted(w, Plain(n)));
  }

  // What the width makes of dividing by a number it does not hold.
  lemma FarDivisor(w: Width, a: int, n: Int64)
    requires InRange(w, a) && !InRange(w, n) && BitsOf(w) < 64
    ensures
      var x, smallest := Read(w, Plain(n)), 2 * n == Modulus(w) && n == -a;
      && x != 0
      && Reduce(w, Quo(a, x)) == (if smallest && Signed(w) then -1 else 0)
      && Reduce(w, Rem(a, x)) == (if smallest && Signed(w) then 0 else a)
  {
    hide Reduce, Pow2, Quo, Rem, Unsigned;
    var x := Read(w, Plain(n));
    OutOfRange(w, n);
    Near(a, x);
    Itself(w, a);
    Itself(w, 0);
    if Abs(a) == Abs(x) {
      QuoCases(a, x, Abs(a) / Abs(x), Abs(a) % Abs(x));
      DivModIs(Abs(a), 1, 0, Abs(x));
      Itself(w, -1);
    }
  }

  lemma NearDivisor(w: Width, a: int, c: int)
    requires InRange(w, a) && InRange(w, c)
    ensures c != 0 ==> (Reduce(w, Quo(a, c)) == 0 <==> Abs(a) < Abs(c))
    ensures c != 0 ==> (Reduce(w, Rem(a, c)) == a <==> Abs(a) < Abs(c))
  {
    hide Reduce, Pow2, Quo, Rem;
    if c != 0 {
      QuoSmall(a, c);
      Near(a, c);
      Itself(w, Rem(a, c));
      ReduceZero(w, Quo(a, c));
    }
  }

  lemma ReduceZero(w: Width, q: int)
    requires Abs(q) < Modulus(w)
    ensures Reduce(w, q) == 0 <==> q == 0
  {
    hide Reduce, Pow2;
    var m := Modulus(w);
    Itself(w, 0);
    if Reduce(w, q) == 0 {
      var t := Apart(0, q, m);
      IntoBy(m, q, -t);
      OnlyZero(m, q);
    }
  }

  /** A divisor that is not 0 and converts to it: the quotient is 0, where dividing by the conversion fails. */
  lemma DivisorConvertsToZero(w: Width, a: Operand, n: Int64)
    requires a.Typed? && a.w == w && Held(a) && n != 0 && Converted(w, Plain(n)).n == 0
    ensures Arith(Div, a, Plain(n)) == Gives(Typed(w, 0)) && Arith(Mod, a, Plain(n)) == Gives(Typed(w, a.n))
    ensures
      var c := Converted(w, Plain(n));
      Arith(Div, a, c) == Fails(DivisionByZero) && Arith(Mod, a, c) == Fails(ModuloByZero)
  {
    hide Reduce, Modulus, GoInt, Quo, Rem, Arith, At;
    NotItself(w, n);
    Sides(w, a, n);
    Divides(w, a, Plain(n));
    Divides(w, a, Converted(w, Plain(n)));
    FarDivisor(w, a.n, n);
    if 2 * n == Modulus(w) && n == -a.n { Smallest(w, a.n, n); }
  }

  lemma NotItself(w: Width, n: Int64)
    requires n != 0 && Reduce(w, n) == 0
    ensures !InRange(w, n) && BitsOf(w) < 64
  {
    hide Reduce, Pow2;
    if InRange(w, n) { Itself(w, n); }
    Pow2Values();
    var t := Apart(0, n, Modulus(w));
    if BitsOf(w) == 64 {
      IntoBy(Modulus(w), n, -t);
      OnlyZero(Modulus(w), n);
    }
  }

  /**
   A plain dividend. Remainders agree exactly where the divisor goes into what lies between the
   dividend and its conversion, quotients exactly where it goes into how often the width goes round
   there, and both only where the two lie on one side of zero or nothing remains.
   */
  lemma PlainDividend(w: Width, n: Int64, b: Operand)
    requires b.Typed? && b.w == w && Held(b)
    ensures
      var c, d, k := Converted(w, Plain(n)), b.n, Rounds(w, n);
      && (Arith(Mod, Plain(n), b) == Arith(Mod, c, b) <==>
            d == 0 || (Into(d, k * Modulus(w)) && OneSide(Read(w, Plain(n)), c.n, d)))
      && (Arith(Div, Plain(n), b) == Arith(Div, c, b) <==>
            d == 0 || (Into(d, k) && OneSide(Read(w, Plain(n)), c.n, d)))
  {
    hide Reduce, Modulus, GoInt, Quo, Rem, Read, Arith, InRange, At, Into, OneSide;
    var c := Converted(w, Plain(n));
    Sides(w, b, n);
    Divides(w, Plain(n), b);
    Divides(w, c, b);
    if b.n != 0 { DividendsReduced(w, Read(w, Plain(n)), c.n, b.n, Rounds(w, n)); }
  }

  lemma DividendsReduced(w: Width, x: int, c: int, d: int, k: int)
    requires InRange(w, c) && InRange(w, d) && d != 0 && x == c + k * Modulus(w) && (Signed(w) || x >= 0)
    ensures Reduce(w, Rem(x, d)) == Reduce(w, Rem(c, d)) <==> Into(d, k * Modulus(w)) && OneSide(x, c, d)
    ensures Reduce(w, Quo(x, d)) == Reduce(w, Quo(c, d)) <==> Into(d, k) && OneSide(x, c, d)
  {
    hide Reduce, Pow2, Quo, Rem, Into, OneSide;
    Parts(x, d);
    Parts(c, d);
    Itself(w, Rem(x, d));
    Itself(w, Rem(c, d));
    SameRem(x, c, d);
    SameQuo(x, c, d, k, Modulus(w));
    ReduceTells(w, Quo(x, d), Quo(c, d));
  }

  lemma ReduceTells(w: Width, a: int, b: int)
    ensures Reduce(w, a) == Reduce(w, b) <==> Same(a, b, Modulus(w))
  {
    hide Pow2;
    if Reduce(w, a) == Reduce(w, b) {
      LowTwice(a, Reduce(w, a), b, Modulus(w));
    } else if Same(a, b, Modulus(w)) {
      SameReduce(w, a, b);
    }
  }

  // From the sign bit on every bit is the sign.
  lemma SignBits(c: int, k: nat, i: nat)
    requires -Pow2(k) <= c < Pow2(k) && k <= i
    ensures BitAt(c, i) == (c < 0)
  {
    hide Pow2;
    Pow2Add(i - k, k);
    Bound(Pow2(i - k), Pow2(k));
    DivFar(c, Pow2(i));
  }

  /** A conversion is negative where the top bit the width keeps says so. */
  lemma SignKept(w: Width, n: Int64)
    ensures Reduce(w, n) < 0 <==> Signed(w) && BitAt(n, BitsOf(w) - 1)
  {
    hide BitAt, Pow2, Same;
    var c := Reduce(w, n);
    BitsTell(c, n, BitsOf(w));
    Pow2Values();
    HalfModulus(w);
    assert BitAt(c, BitsOf(w) - 1) == BitAt(n, BitsOf(w) - 1);
    if Signed(w) { SignBits(c, BitsOf(w) - 1, BitsOf(w) - 1); }
  }

  lemma HalfModulus(w: Width)
    ensures BitsOf(w) > 0 && Modulus(w) == 2 * Pow2(BitsOf(w) - 1)
  {
  }

  /**
   A plain number shifted right agrees with its conversion exactly where each bit of it that reaches
   the width only because of the shift, and those behind them that the shift leaves in it, is the
   conversion's sign, which is the top bit the width keeps of the number or none. Up to the bits of
   the width that is where the rounds between the two are divided too, and from 64 on where the two
   stand on the same side of zero.
   */
  lemma PlainShiftedRight(w: Width, n: Int64, b: Operand)
    requires b.Typed? && b.w == w && Held(b) && GoInt(b) >= 0
    ensures
      var c, s, x := Converted(w, Plain(n)), GoInt(b), Read(w, Plain(n));
      && (c.n < 0 <==> Signed(w) && BitAt(n, BitsOf(w) - 1))
      && (Shift(false, Plain(n), b) == Shift(false, c, b) <==>
            forall i: nat :: s <= i < s + BitsOf(w) && BitsOf(w) <= i ==> BitAt(x, i) == (c.n < 0))
      && (s <= BitsOf(w) ==> (Shift(false, Plain(n), b) == Shift(false, c, b) <==> Into(Pow2(s), Rounds(w, n))))
      && (s >= 64 ==> (Shift(false, Plain(n), b) == Shift(false, c, b) <==> (x < 0 <==> c.n < 0)))
  {
    hide Reduce, Pow2, Read, Shift, Into, Wrap64, BitAt, Same, Rounds;
    var c, s, x := Converted(w, Plain(n)), GoInt(b), Read(w, Plain(n));
    SignKept(w, n);
    ShiftsAlike(w, n, b);
    ShiftedBits(w, n, s);
    if s <= BitsOf(w) { ShiftedRounds(w, n, s); }
    if s >= 64 { ShiftedOut(w, n, s); }
  }

  // The two shifts agree where what they leave has the same low bits.
  lemma ShiftsAlike(w: Width, n: Int64, b: Operand)
    requires b.Typed? && b.w == w && Held(b) && GoInt(b) >= 0
    ensures
      var c, p := Converted(w, Plain(n)), Pow2(GoInt(b));
      Shift(false, Plain(n), b) == Shift(false, c, b) <==> Same(Read(w, Plain(n)) / p, c.n / p, Modulus(w))
  {
    hide Reduce, Pow2, Read, Shift, Wrap64, Same;
    var c, s := Converted(w, Plain(n)), GoInt(b);
    Shifts(w, Plain(n), b);
    ShiftRightDivides(w, c, b);
    Floors(w, c.n, s);
    Itself(w, c.n / Pow2(s));
    ReduceTells(w, Read(w, Plain(n)) / Pow2(s), c.n / Pow2(s));
  }

  lemma ShiftedRounds(w: Width, n: Int64, s: nat)
    requires s <= BitsOf(w)
    ensures
      var p := Pow2(s);
      Same(Read(w, Plain(n)) / p, Reduce(w, n) / p, Modulus(w)) <==> Into(p, Rounds(w, n))
  {
    hide Reduce, Pow2, Read, Into, Same;
    Pow2Add(s, BitsOf(w) - s);
    SameShift(Read(w, Plain(n)), Reduce(w, n), Rounds(w, n), Pow2(s), Pow2(BitsOf(w) - s));
  }

  lemma ShiftedBits(w: Width, n: Int64, s: nat)
    ensures
      var x, c, k := Read(w, Plain(n)), Reduce(w, n), BitsOf(w);
      Same(x / Pow2(s), c / Pow2(s), Modulus(w)) <==> forall i: nat :: s <= i < s + k && k <= i ==> BitAt(x, i) == (c < 0)
  {
    hide Reduce, Pow2, Read, BitAt, Same;
    var x, c, k := Read(w, Plain(n)), Reduce(w, n), BitsOf(w);
    BitsTell(x / Pow2(s), c / Pow2(s), k);
    LowKept(w, n);
    BitsTell(x, c, k);
    forall i: nat ensures BitAt(x / Pow2(s), i) == BitAt(x, s + i) && BitAt(c / Pow2(s), i) == BitAt(c, s + i) {
      BitShifted(x, s, i);
      BitShifted(c, s, i);
    }
    forall i: nat | i >= k ensures BitAt(c, i) == (c < 0) { SignBits(c, k, i); }
    if forall i: nat :: i < k ==> BitAt(x / Pow2(s), i) == BitAt(c / Pow2(s), i) {
      forall i: nat | s <= i < s + k && k <= i ensures BitAt(x, i) == (c < 0) {
        assert BitAt(x / Pow2(s), i - s) == BitAt(c / Pow2(s), i - s);
      }
    }
    if forall i: nat :: s <= i < s + k && k <= i ==> BitAt(x, i) == (c < 0) {
      forall i: nat | i < k ensures BitAt(x / Pow2(s), i) == BitAt(c / Pow2(s), i) {
        assert BitAt(x, s + i) == BitAt(c, s + i);
      }
    }
  }

  // What is read has the low bits of the conversion, which stands between the ends of the width.
  lemma LowKept(w: Width, n: Int64)
    ensures Same(Read(w, Plain(n)), Reduce(w, n), Modulus(w))
    ensures -Modulus(w) <= Reduce(w, n) < Modulus(w)
  {
    hide Reduce, Pow2, Read, Same;
    SameLow(w, n);
  }

  lemma ShiftedOut(w: Width, n: Int64, s: nat)
    requires s >= 64
    ensures
      var x, c := Read(w, Plain(n)), Reduce(w, n);
      Same(x / Pow2(s), c / Pow2(s), Modulus(w)) <==> (x < 0 <==> c < 0)
  {
    hide Reduce, Pow2, Read, Same;
    var x, c := Read(w, Plain(n)), Reduce(w, n);
    Pow2Values();
    Pow2Add(s - 64, 64);
    Bound(Pow2(s - 64), Pow2(64));
    ReadBounds(w, n);
    ModulusUpTo(w);
    DivFar(x, Pow2(s));
    DivFar(c, Pow2(s));
    Apart01(Modulus(w));
  }

  lemma ReadBounds(w: Width, n: Int64)
    ensures -Pow2(64) <= Read(w, Plain(n)) < Pow2(64)
  {
    hide Pow2;
    Pow2Values();
  }

  lemma ModulusUpTo(w: Width)
    ensures 1 < Modulus(w) <= Pow2(64)
  {
    hide Pow2;
    Pow2Values();
  }

  lemma Apart01(m: int)
    requires m > 1
    ensures !Same(0, -1, m) && !Same(-1, 0, m) && Same(0, 0, m) && Same(-1, -1, m)
  {
    DivModIs(-1, -1, m - 1, m);
    DivModIs(0, 0, 0, m);
  }

  /** What a right shift of any operand leaves, as it is read. */
  lemma Shifts(w: Width, a: Operand, b: Operand)
    requires At(w, a, b) && GoInt(b) >= 0
    ensures Shift(false, a, b) == Gives(Typed(w, Reduce(w, Read(w, a) / Pow2(GoInt(b)))))
  {
    hide Reduce, Pow2, Wrap64, Unsigned;
    var s, x := GoInt(b), Read(w, a);
    var p := Pow2(s);
    if s < 64 {
      Reflexive(Pow2(64), x / p);
      Narrowed(w, x / p, x / p);
    } else {
      Pow2Values();
      Pow2Add(s - 64, 64);
      Bound(Pow2(s - 64), Pow2(64));
      DivFar(x, Pow2(s));
      assert Signed(w) || x >= 0;
    }
  }

  lemma SameShift(x: int, c: int, k: int, p: int, g: int)
    requires p > 0 && g > 0 && p * g > 0 && x == c + k * (p * g)
    ensures Same(x / p, c / p, p * g) <==> Into(p, k)
  {
    hide Into, Same;
    var q, r := c / p, c % p;
    assert x == (q + k * g) * p + r by { Spread(q, k, g, p); }
    DivModIs(x, q + k * g, r, p);
    if Same(x / p, c / p, p * g) {
      var j := Apart(q + k * g, q, p * g);
      assert k * g == j * (p * g);
      assert (k - j * p) * g == 0 by { Spread(0, j, p, g); }
      Factor(k - j * p, g);
      IntoBy(p, k, j);
    }
    if Into(p, k) {
      var j := Times(p, k);
      Turn(p, j, g);
      SameBy(q + k * g, q, j, p * g);
    }
  }

  lemma Spread(q: int, k: int, g: int, p: int)
    ensures (q + k * g) * p == q * p + k * (p * g) && k * (g * p) == (k * g) * p
  {
  }

  lemma Turn(p: int, j: int, g: int)
    ensures (p * j) * g == j * (p * g)
  {
  }
}
