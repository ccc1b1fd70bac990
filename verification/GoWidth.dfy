/** Arithmetic at the width of a typed integer, computed in a 64-bit carrier and narrowed. */
module GoWidth {
  import opened Integers
  import opened Modular

  datatype Width = I8 | I16 | I32 | U8 | U16 | U32 | U64 | UInt

  // PHP's own integer, which has no width of its own, or a typed value.
  datatype Value = Plain(n: int) | Typed(w: Width, n: int)

  type Operand = v: Value | v.Plain? ==> Fits(v.n) witness Plain(0)

  datatype Failure = Mixed(left: Width, right: Width) | DivisionByZero | ModuloByZero | NegativeShift

  datatype Outcome = Untyped | Fails(f: Failure) | Gives(v: Value)

  datatype Op = Add | Sub | Mul | Div | Mod

  function BitsOf(w: Width): nat {
    match w
    case I8 | U8 => 8
    case I16 | U16 => 16
    case I32 | U32 => 32
    case U64 | UInt => 64
  }

  predicate Signed(w: Width) {
    w == I8 || w == I16 || w == I32
  }

  function Modulus(w: Width): (m: int)
    ensures m > 0
  {
    Pow2(BitsOf(w))
  }

  predicate InRange(w: Width, n: int) {
    if Signed(w) then -Modulus(w) <= 2 * n < Modulus(w) else 0 <= n < Modulus(w)
  }

  predicate Held(v: Value) {
    v.Typed? ==> InRange(v.w, v.n)
  }

  /** The numbers each width holds. */
  lemma WidthRanges(n: int)
    ensures InRange(I8, n) <==> -128 <= n <= 127
    ensures InRange(I16, n) <==> -32768 <= n <= 32767
    ensures InRange(I32, n) <==> -2147483648 <= n <= 2147483647
    ensures InRange(U8, n) <==> 0 <= n <= 255
    ensures InRange(U16, n) <==> 0 <= n <= 65535
    ensures InRange(U32, n) <==> 0 <= n <= 4294967295
    ensures InRange(U64, n) <==> 0 <= n <= 18446744073709551615
    ensures InRange(UInt, n) <==> 0 <= n <= 18446744073709551615
  {
    hide Pow2;
    Pow2Values();
  }

  /** The value of a width with the low bits of n. */
  function Reduce(w: Width, n: int): (r: int)
    ensures InRange(w, r)
    ensures Same(r, n, Modulus(w))
  {
    var m := Modulus(w);
    var low := n % m;
    SameMod(n, m);
    if Signed(w) && 2 * low >= m then
      (SameBy(low - m, low, -1, m); low - m)
    else low
  }

  /** What a 64-bit integer keeps of n. */
  function Wrap64(n: int): (r: Int64)
    ensures Same(r, n, Pow2(64))
  {
    Pow2Values();
    var m := Pow2(64);
    var low := n % m;
    SameMod(n, m);
    if 2 * low >= m then (SameBy(low - m, low, -1, m); low - m) else low
  }

  function Unsigned(n: Int64): (u: int)
    ensures 0 <= u < Pow2(64) && Same(u, n, Pow2(64))
  {
    SameMod(n, Pow2(64));
    n % Pow2(64)
  }

  function Narrow(w: Width, n: Int64): Value {
    Typed(w, Reduce(w, n))
  }

  /** The bits an operation computes over. */
  function GoInt(v: Operand): Int64 {
    match v
    case Plain(n) => n
    case Typed(_, n) => Wrap64(n)
  }

  // The width an operation answers in, if its operands carry one between them.
  datatype Chosen = NoWidth | Clash(left: Width, right: Width) | One(w: Width)

  function OperandWidth(a: Operand, b: Operand): Chosen {
    if a.Plain? && b.Plain? then NoWidth
    else if a.Typed? && b.Typed? && a.w != b.w then Clash(a.w, b.w)
    else if a.Typed? then One(a.w)
    else One(b.w)
  }

  /** Division that truncates toward zero. */
  function Quo(a: int, b: int): int
    requires b != 0
  {
    if a >= 0 then (if b > 0 then a / b else -(a / -b))
    else (if b > 0 then -(-a / b) else -a / -b)
  }

  function Rem(a: int, b: int): int
    requires b != 0
  {
    a - b * Quo(a, b)
  }

  function SignedArith(op: Op, w: Width, x: Int64, y: Int64): Outcome {
    match op
    case Add => Gives(Narrow(w, Wrap64(x + y)))
    case Sub => Gives(Narrow(w, Wrap64(x - y)))
    case Mul => Gives(Narrow(w, Wrap64(x * y)))
    case Div => if y == 0 then Fails(DivisionByZero) else Gives(Narrow(w, Wrap64(Quo(x, y))))
    case Mod => if y == 0 then Fails(ModuloByZero) else Gives(Narrow(w, Wrap64(Rem(x, y))))
  }

  function UnsignedArith(op: Op, w: Width, a: Int64, b: Int64): Outcome {
    var x, y := Unsigned(a), Unsigned(b);
    match op
    case Add => Gives(Narrow(w, Wrap64(x + y)))
    case Sub => Gives(Narrow(w, Wrap64(x - y)))
    case Mul => Gives(Narrow(w, Wrap64(x * y)))
    case Div => if y == 0 then Fails(DivisionByZero) else Gives(Narrow(w, Wrap64(x / y)))
    case Mod => if y == 0 then Fails(ModuloByZero) else Gives(Narrow(w, Wrap64(x % y)))
  }

  function Arith(op: Op, a: Operand, b: Operand): Outcome {
    match OperandWidth(a, b)
    case NoWidth => Untyped
    case Clash(left, right) => Fails(Mixed(left, right))
    case One(w) =>
      if Signed(w) then SignedArith(op, w, GoInt(a), GoInt(b)) else UnsignedArith(op, w, GoInt(a), GoInt(b))
  }

  function Bitwise(op: Bitop, a: Operand, b: Operand): Outcome {
    match OperandWidth(a, b)
    case NoWidth => Untyped
    case Clash(left, right) => Fails(Mixed(left, right))
    case One(w) =>
      Gives(Narrow(w, Wrap64(Bits(op, GoInt(a), GoInt(b)))))
  }

  function ShiftLeft(x: Int64, count: Int64): Int64
    requires count >= 0
  {
    if count >= 64 then 0 else Wrap64(x * Pow2(count))
  }

  function ShiftRight(w: Width, x: Int64, count: Int64): Int64
    requires count >= 0
  {
    if count >= 64 then (if Signed(w) && x < 0 then -1 else 0)
    else if Signed(w) then Wrap64(x / Pow2(count))
    else Wrap64(Unsigned(x) / Pow2(count))
  }

  function Shift(left: bool, a: Operand, b: Operand): Outcome {
    match OperandWidth(a, b)
    case NoWidth => Untyped
    case Clash(left, right) => Fails(Mixed(left, right))
    case One(w) =>
      var y := GoInt(b);
      if y < 0 then Fails(NegativeShift)
      else if left then Gives(Narrow(w, ShiftLeft(GoInt(a), y)))
      else Gives(Narrow(w, ShiftRight(w, GoInt(a), y)))
  }

  function Negate(v: Operand): Outcome {
    if v.Plain? then Untyped else Gives(Narrow(v.w, Wrap64(0 - GoInt(v))))
  }

  function BitNot(v: Operand): Outcome {
    if v.Plain? then Untyped else Gives(Narrow(v.w, Wrap64(-1 - GoInt(v))))
  }

  function Step(v: Operand, delta: Int64): Outcome {
    if v.Plain? then Untyped else Gives(Narrow(v.w, Wrap64(GoInt(v) + delta)))
  }

  // ---- the carrier keeps the low bits ----

  lemma Fewer(w: Width, a: int, b: int)
    requires Same(a, b, Pow2(64))
    ensures Same(a, b, Modulus(w))
  {
    Pow2Add(BitsOf(w), 64 - BitsOf(w));
    SameFewer(a, b, Modulus(w), Pow2(64 - BitsOf(w)));
  }

  /** Narrowing a carrier with the low bits of n gives what n reduces to. */
  lemma Narrowed(w: Width, c: int, n: int)
    requires Same(c, n, Pow2(64))
    ensures Narrow(w, Wrap64(c)) == Typed(w, Reduce(w, n))
  {
    Fewer(w, c, n);
    Fewer(w, Wrap64(c), c);
    SameReduce(w, Wrap64(c), n);
  }

  lemma SameReduce(w: Width, a: int, b: int)
    requires Same(a, b, Modulus(w))
    ensures Reduce(w, a) == Reduce(w, b)
  {
  }

  lemma Carried(v: Operand)
    ensures Same(GoInt(v), v.n, Pow2(64)) && Same(Unsigned(GoInt(v)), v.n, Pow2(64))
  {
  }

  /** The width of an operation: of the two operands, one may be a plain integer. */
  predicate At(w: Width, a: Operand, b: Operand) {
    || (a.Typed? && a.w == w && b.Typed? && b.w == w)
    || (a.Typed? && a.w == w && b.Plain?)
    || (a.Plain? && b.Typed? && b.w == w)
  }

  function Exact(op: Op, x: int, y: int): int
    requires op.Add? || op.Sub? || op.Mul?
  {
    match op
    case Add => x + y
    case Sub => x - y
    case Mul => x * y
  }

  /** Sums, differences and products are the mathematical ones, reduced to the width. */
  lemma ArithWraps(op: Op, w: Width, a: Operand, b: Operand)
    requires At(w, a, b) && (op.Add? || op.Sub? || op.Mul?)
    ensures Arith(op, a, b) == Gives(Typed(w, Reduce(w, Exact(op, a.n, b.n))))
  {
    hide Wrap64, Unsigned, Reduce, Same, Pow2;
    var m := Pow2(64);
    Carried(a);
    Carried(b);
    var x, y := GoInt(a), GoInt(b);
    SameAdd(x, a.n, y, b.n, m);
    SameMul(x, a.n, y, b.n, m);
    SameAdd(Unsigned(x), a.n, Unsigned(y), b.n, m);
    SameMul(Unsigned(x), a.n, Unsigned(y), b.n, m);
    var c := if Signed(w) then Exact(op, x, y) else Exact(op, Unsigned(x), Unsigned(y));
    Narrowed(w, c, Exact(op, a.n, b.n));
  }

  /** The same of the bitwise operators, on two's complement of any length. */
  lemma BitwiseWraps(op: Bitop, w: Width, a: Operand, b: Operand)
    requires At(w, a, b)
    ensures Bitwise(op, a, b) == Gives(Typed(w, Reduce(w, Bits(op, a.n, b.n))))
  {
    hide Wrap64, Unsigned, Reduce, Same, Pow2, Bits;
    Carried(a);
    Carried(b);
    SameBits(op, GoInt(a), a.n, GoInt(b), b.n, 64);
    Narrowed(w, Bits(op, GoInt(a), GoInt(b)), Bits(op, a.n, b.n));
  }

  /** Every bit of the width is decided by the two bits of the operands there. */
  lemma BitwiseBits(op: Bitop, w: Width, a: Operand, b: Operand, k: nat)
    requires At(w, a, b) && k < BitsOf(w)
    ensures
      var r := Bitwise(op, a, b);
      && r.Gives? && r.v.Typed? && r.v.w == w && Held(r.v)
      && (op.And? ==> (BitAt(r.v.n, k) <==> BitAt(a.n, k) && BitAt(b.n, k)))
      && (op.Or? ==> (BitAt(r.v.n, k) <==> BitAt(a.n, k) || BitAt(b.n, k)))
      && (op.Xor? ==> (BitAt(r.v.n, k) <==> BitAt(a.n, k) != BitAt(b.n, k)))
  {
    hide Reduce, Bits, BitAt, Same, Pow2, Bitwise;
    BitwiseWraps(op, w, a, b);
    var z := Bits(op, a.n, b.n);
    BitsTell(Reduce(w, z), z, BitsOf(w));
    assert BitAt(Reduce(w, z), k) == BitAt(z, k);
    BitsAre(op, a.n, b.n, k);
  }

  lemma NegateWraps(v: Operand, delta: Int64)
    requires v.Typed?
    ensures Negate(v) == Gives(Typed(v.w, Reduce(v.w, -v.n)))
    ensures BitNot(v) == Gives(Typed(v.w, Reduce(v.w, -1 - v.n)))
    ensures Step(v, delta) == Gives(Typed(v.w, Reduce(v.w, v.n + delta)))
  {
    hide Wrap64, Unsigned, Reduce, Same, Pow2;
    var x, m := GoInt(v), Pow2(64);
    Carried(v);
    Reflexive(m, 0);
    Reflexive(m, -1);
    Reflexive(m, delta);
    SameAdd(0, 0, x, v.n, m);
    SameAdd(-1, -1, x, v.n, m);
    SameAdd(x, v.n, delta, delta, m);
    Narrowed(v.w, 0 - x, 0 - v.n);
    Narrowed(v.w, -1 - x, -1 - v.n);
    Narrowed(v.w, x + delta, v.n + delta);
  }

  lemma Reflexive(m: int, a: int)
    requires m > 0
    ensures Same(a, a, m)
  {
  }

  /** A count of 64 bits or more shifts every low bit out. */
  lemma ShiftedOut(x: int, count: nat)
    requires count >= 64
    ensures Same(0, x * Pow2(count), Pow2(64))
  {
    hide Pow2;
    var p, m := Pow2(count - 64), Pow2(64);
    Pow2Add(count - 64, 64);
    Associate(x, p, m);
    Multiple(x * p, m);
  }

  lemma Associate(x: int, p: int, m: int)
    ensures x * (p * m) == (x * p) * m
  {
  }

  lemma Multiple(t: int, m: int)
    requires m > 0
    ensures Same(0, t * m, m)
  {
    DivModIs(t * m, t, 0, m);
  }

  /** A left shift by a count that is not negative multiplies by a power of two and reduces. */
  lemma ShiftLeftWraps(w: Width, a: Operand, b: Operand)
    requires At(w, a, b) && GoInt(b) >= 0
    ensures Shift(true, a, b) == Gives(Typed(w, Reduce(w, a.n * Pow2(GoInt(b)))))
  {
    hide Wrap64, Unsigned, Reduce, Same, Pow2;
    var x, count, m := GoInt(a), GoInt(b), Pow2(64);
    Carried(a);
    if count >= 64 {
      ShiftedOut(a.n, count);
      NarrowedFit(w, 0, a.n * Pow2(count));
    } else {
      Reflexive(m, Pow2(count));
      SameMul(x, a.n, Pow2(count), Pow2(count), m);
      Narrowed(w, x * Pow2(count), a.n * Pow2(count));
    }
  }

  lemma NarrowedFit(w: Width, c: Int64, n: int)
    requires Same(c, n, Pow2(64))
    ensures Narrow(w, c) == Typed(w, Reduce(w, n))
  {
    Fewer(w, c, n);
    SameReduce(w, c, n);
  }

  /** A shift by a count of 64 unsigned bits whose highest bit is set counts as negative and fails. */
  lemma HugeCountFails(left: bool, a: Operand, b: Operand)
    requires b.Typed? && Held(b) && At(b.w, a, b)
    ensures Shift(left, a, b) == Fails(NegativeShift) <==> b.n < 0 || b.n >= 0x8000_0000_0000_0000
  {
    hide Wrap64, ShiftLeft, ShiftRight, Narrow, Pow2;
    CarrierSign(b);
  }

  lemma CarrierSign(v: Operand)
    requires v.Typed? && Held(v)
    ensures GoInt(v) < 0 <==> v.n < 0 || v.n >= 0x8000_0000_0000_0000
  {
    Pow2Values();
    var n, m := v.n, Pow2(64);
    if n >= 0 { DivModIs(n, 0, n, m); } else { DivModIs(n, -1, n + m, m); }
  }

  // ---- values of the width itself ----

  /** A value of a width is what it reduces to. */
  lemma Itself(w: Width, n: int)
    requires InRange(w, n)
    ensures Reduce(w, n) == n
  {
    var m := Modulus(w);
    if n >= 0 { DivModIs(n, 0, n, m); } else { DivModIs(n, -1, n + m, m); }
  }

  /** Reduction gives the one value of the width with those low bits. */
  lemma ReduceIsUnique(w: Width, n: int, r: int)
    requires InRange(w, r) && Same(r, n, Modulus(w))
    ensures r == Reduce(w, n)
  {
    SameReduce(w, r, n);
    Itself(w, r);
  }

  /** The carrier of a signed value is the value, and of an unsigned one its bits are. */
  lemma CarrierIs(v: Operand)
    requires v.Typed? && Held(v)
    ensures Signed(v.w) ==> GoInt(v) == v.n
    ensures !Signed(v.w) ==> Unsigned(GoInt(v)) == v.n
  {
    hide Pow2, Wrap64, Unsigned;
    Pow2Values();
    if Signed(v.w) { WrapIs(v.n); } else { UnsignedIs(v.n); }
  }

  lemma WrapIs(n: Int64)
    ensures Wrap64(n) == n
  {
    hide Pow2;
    Pow2Values();
    if n >= 0 { DivModIs(n, 0, n, Pow2(64)); } else { DivModIs(n, -1, n + Pow2(64), Pow2(64)); }
  }

  lemma UnsignedIs(n: int)
    requires 0 <= n < Pow2(64)
    ensures Unsigned(Wrap64(n)) == n
  {
    var u := Unsigned(Wrap64(n));
    assert Same(u, n, Pow2(64));
    DivModIs(u, 0, u, Pow2(64));
    DivModIs(n, 0, n, Pow2(64));
  }

  lemma QuoSmall(a: int, b: int)
    requires b != 0
    ensures a >= 0 && b > 0 ==> Quo(a, b) == a / b && Rem(a, b) == a % b
    ensures 0 - Abs(a) <= Quo(a, b) <= Abs(a) && Abs(Rem(a, b)) < Abs(b) && Abs(Rem(a, b)) <= Abs(a)
    ensures a >= 0 ==> 0 <= Rem(a, b) && (b > 0 ==> 0 <= Quo(a, b))
    ensures Quo(a, b) == Abs(a) && a < 0 ==> b == -1
  {
    hide Quo, Rem;
    Quotient(Abs(a), Abs(b));
    QuoCases(a, b, Abs(a) / Abs(b), Abs(a) % Abs(b));
  }

  lemma Quotient(x: nat, y: nat)
    requires y > 0
    ensures 0 <= x / y <= x && 0 <= x % y <= x
    ensures x > 0 && x / y == x ==> y == 1
  {
    var q := x / y;
    DivBetween(x, y);
    Scale(q, y);
    assert x == q * y + x % y;
    if y > 1 { Scale(q, y - 1); }
  }

  lemma QuoCases(a: int, b: int, q: int, r: int)
    requires b != 0 && q == Abs(a) / Abs(b) && r == Abs(a) % Abs(b)
    ensures Quo(a, b) == (if (a >= 0) == (b > 0) then q else -q)
    ensures Rem(a, b) == if a >= 0 then r else -r
  {
    hide Rem;
    assert Quo(a, b) == if (a >= 0) == (b > 0) then q else -q;
    RemIs(a, b, q, r);
  }

  lemma RemIs(a: int, b: int, q: int, r: int)
    requires b != 0 && Abs(a) == q * Abs(b) + r && Quo(a, b) == if (a >= 0) == (b > 0) then q else -q
    ensures Rem(a, b) == if a >= 0 then r else -r
  {
    hide Quo;
    Signs(b, q);
  }

  lemma Signs(b: int, q: int)
    ensures b * q == q * b && q * (-b) == -(b * q) && b * (-q) == -(b * q)
  {
  }

  function Abs(a: int): nat {
    if a >= 0 then a else -a
  }

  /**
   Division of two values of one width truncates toward zero, and wraps in one case only: the
   smallest signed value by -1 is itself. The remainder always fits.
   */
  lemma DivisionTruncates(w: Width, a: Operand, b: Operand)
    requires a.Typed? && b.Typed? && a.w == w && b.w == w && Held(a) && Held(b)
    ensures b.n == 0 ==> Arith(Div, a, b) == Fails(DivisionByZero) && Arith(Mod, a, b) == Fails(ModuloByZero)
    ensures b.n != 0 ==>
      && Arith(Div, a, b) == Gives(Typed(w, if 2 * a.n == -Modulus(w) && b.n == -1 then a.n else Quo(a.n, b.n)))
      && Arith(Mod, a, b) == Gives(Typed(w, Rem(a.n, b.n)))
  {
    hide Wrap64, Unsigned, Reduce, Pow2, Quo, Rem;
    CarrierIs(a);
    CarrierIs(b);
    if b.n != 0 {
      QuoSmall(a.n, b.n);
      var q, r := Quo(a.n, b.n), Rem(a.n, b.n);
      var c, d := if Signed(w) then q else a.n / b.n, if Signed(w) then r else a.n % b.n;
      assert c == q && d == r;
      Reflexive(Pow2(64), q);
      Reflexive(Pow2(64), r);
      Narrowed(w, q, q);
      Narrowed(w, r, r);
      Itself(w, r);
      if 2 * a.n == -Modulus(w) && b.n == -1 {
        SmallestByMinusOne(w, a.n);
      } else {
        Itself(w, q);
      }
    }
  }

  lemma SmallestByMinusOne(w: Width, n: int)
    requires Signed(w) && 2 * n == -Modulus(w)
    ensures Quo(n, -1) == -n && Reduce(w, -n) == n
  {
    SameBy(-n, n, 1, Modulus(w));
    SameReduce(w, -n, n);
    Itself(w, n);
  }

  /** A right shift of a value of the width divides by a power of two, rounding down. */
  lemma ShiftRightDivides(w: Width, a: Operand, b: Operand)
    requires a.Typed? && a.w == w && Held(a) && At(w, a, b) && GoInt(b) >= 0
    ensures Shift(false, a, b) == Gives(Typed(w, a.n / Pow2(GoInt(b))))
  {
    hide Wrap64, Unsigned, Reduce, Pow2;
    var count := GoInt(b);
    var q := a.n / Pow2(count);
    CarrierIs(a);
    Floors(w, a.n, count);
    if count < 64 {
      Reflexive(Pow2(64), q);
      Narrowed(w, q, q);
    } else {
      Reflexive(Pow2(64), q);
      NarrowedFit(w, q, q);
    }
    Itself(w, q);
  }

  lemma Floors(w: Width, n: int, count: nat)
    requires InRange(w, n)
    ensures InRange(w, n / Pow2(count))
    ensures count >= 64 ==> n / Pow2(count) == if n < 0 then -1 else 0
    ensures n < 0 ==> Signed(w)
  {
    hide Pow2;
    Pow2Values();
    DivBetween(n, Pow2(count));
    if count >= 64 {
      Pow2Add(count - 64, 64);
      Bound(Pow2(count - 64), Pow2(64));
      DivFar(n, Pow2(count));
    }
  }

  lemma DivFar(n: int, p: int)
    requires p > 0 && -p <= n < p
    ensures n / p == if n < 0 then -1 else 0
  {
    if n < 0 { DivModIs(n, -1, n + p, p); } else { DivModIs(n, 0, n, p); }
  }

  lemma DivBetween(n: int, p: int)
    requires p >= 1
    ensures n >= 0 ==> 0 <= n / p <= n
    ensures n < 0 ==> n <= n / p < 0
  {
    var q, r := n / p, n % p;
    Scale(q, p);
    Scale(q + 1, p);
    Between(n, q, q * p, (q + 1) * p, r, p);
  }

  lemma Scale(k: int, p: int)
    requires p >= 1
    ensures k >= 0 ==> k * p >= k
    ensures k <= 0 ==> k * p <= k
    ensures (k + 1) * p == k * p + p
  {
  }

  lemma Between(n: int, q: int, below: int, above: int, r: int, p: int)
    requires n == below + r && 0 <= r < p && above == below + p
    requires (q >= 0 ==> below >= q) && (q <= 0 ==> below <= q) && (q + 1 >= 0 ==> above >= q + 1) && (q + 1 <= 0 ==> above <= q + 1)
    ensures n >= 0 ==> 0 <= q <= n
    ensures n < 0 ==> n <= q < 0
  {
  }

  // ---- a plain operand ----

  /** A plain operand as a value of the width. */
  function Converted(w: Width, v: Operand): (r: Operand)
    ensures r.Typed? && (v.Plain? ==> r.w == w && Held(r)) && (v.Typed? ==> r == v)
    ensures v.Plain? ==> Same(r.n, v.n, Modulus(w))
  {
    if v.Plain? then Typed(w, Reduce(w, v.n)) else v
  }

  /**
   Converting a plain operand first, on either side, changes no sum, difference, product or bitwise
   result, and no left shift of it.
   */
  lemma ConvertedFirst(op: Op, bop: Bitop, w: Width, a: Operand, b: Operand)
    requires At(w, a, b) && (op.Add? || op.Sub? || op.Mul?)
    ensures Arith(op, a, b) == Arith(op, Converted(w, a), Converted(w, b))
    ensures Bitwise(bop, a, b) == Bitwise(bop, Converted(w, a), Converted(w, b))
    ensures GoInt(b) >= 0 ==> Shift(true, a, b) == Shift(true, Converted(w, a), b)
  {
    hide Reduce, Same, Pow2, Bits, Arith, Bitwise, Shift, Wrap64;
    var c, d, m := Converted(w, a), Converted(w, b), Modulus(w);
    SameConverted(w, a);
    SameConverted(w, b);
    ArithWraps(op, w, a, b);
    ArithWraps(op, w, c, d);
    BitwiseWraps(bop, w, a, b);
    BitwiseWraps(bop, w, c, d);
    SameAdd(c.n, a.n, d.n, b.n, m);
    SameMul(c.n, a.n, d.n, b.n, m);
    SameBits(bop, c.n, a.n, d.n, b.n, BitsOf(w));
    SameReduce(w, Exact(op, c.n, d.n), Exact(op, a.n, b.n));
    SameReduce(w, Bits(bop, c.n, d.n), Bits(bop, a.n, b.n));
    if GoInt(b) >= 0 {
      var p := Pow2(GoInt(b));
      ShiftLeftWraps(w, a, b);
      ShiftLeftWraps(w, c, b);
      Reflexive(m, p);
      SameMul(c.n, a.n, p, p, m);
      SameReduce(w, c.n * p, a.n * p);
    }
  }

  lemma SameConverted(w: Width, v: Operand)
    ensures Same(Converted(w, v).n, v.n, Modulus(w))
  {
  }

  /** It does change a quotient: 100 of eight bits divided by a plain 300 is 0, and 2 where 300 is converted first. */
  lemma QuotientNotConverted()
    ensures Arith(Div, Typed(I8, 100), Plain(300)) == Gives(Typed(I8, 0))
    ensures Arith(Div, Typed(I8, 100), Typed(I8, Reduce(I8, 300))) == Gives(Typed(I8, 2))
  {
    hide Wrap64, Unsigned, Reduce, Same, Pow2;
    Eight();
    DivisionTruncates(I8, Typed(I8, 100), Typed(I8, 44));
    assert Quo(100, 300) == 0 && Quo(100, 44) == 2;
    Reflexive(Pow2(64), 0);
    Narrowed(I8, 0, 0);
  }

  lemma Eight()
    ensures Modulus(I8) == 0x100 && Reduce(I8, 300) == 44 && Reduce(I8, 0) == 0 && GoInt(Typed(I8, 100)) == 100
  {
    Pow2Values();
    Itself(I8, 0);
    CarrierIs(Typed(I8, 100));
  }
}
