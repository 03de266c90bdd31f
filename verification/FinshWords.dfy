/** The 32-bit slots of the FinSH machine and the C operators on them (components/finsh/finsh_ops.c): what they
    compute on the signed numbers and the bits a slot holds. */
module FinshWords {

  const WORD := 0x1_0000_0000
  const HALF := 0x8000_0000

  newtype Word = i: int | 0 <= i < 0x1_0000_0000

  datatype BinOp = Add | Sub | Mul | Div | Mod | And | Or | Xor | Shl | Shr

  /** The number a slot holds, in two's complement, and the slot that holds a number, wrapped to 32 bits. */
  function Signed(w: Word): (i: int)
    ensures -HALF <= i < HALF
  {
    if w as int < HALF then w as int else w as int - WORD
  }

  function Wrapped(i: int): Word { (i % WORD) as Word }

  lemma SignedWrapped(i: int)
    ensures (Wrapped(i) as int - i) % WORD == 0
    ensures -HALF <= i < HALF ==> Signed(Wrapped(i)) == i
  {
    var q := i / WORD;
    assert i == WORD * q + i % WORD;
    assert (Wrapped(i) as int - i) == WORD * -q;
    TimesWord(-q);
  }

  lemma TimesWord(k: int)
    ensures WORD * k % WORD == 0
  {
  }

  function Pow2(n: nat): (p: nat)
    ensures p > 0
  {
    if n == 0 then 1 else 2 * Pow2(n - 1)
  }

  function Abs(i: int): nat { if i < 0 then -i else i }

  /** Division towards zero. */
  function Truncated(a: int, b: int): int
    requires b != 0
  {
    var q := Abs(a) / Abs(b);
    if (a < 0) == (b < 0) then q else -q
  }

  /** The bits of two words combined one by one, from the `n` low ones. */
  function Bitwise(f: (bool, bool) -> bool, a: nat, b: nat, n: nat): (r: nat)
    ensures r < Pow2(n)
  {
    if n == 0 then 0
    else (if f(a % 2 == 1, b % 2 == 1) then 1 else 0) + 2 * Bitwise(f, a / 2, b / 2, n - 1)
  }

  lemma Pow2Of32()
    ensures Pow2(32) == WORD
  {
    assert Pow2(8) == 256;
    Pow2Adds(8, 8);
    Pow2Adds(16, 16);
  }

  lemma {:induction false} Pow2Adds(m: nat, n: nat)
    ensures Pow2(m + n) == Pow2(m) * Pow2(n)
  {
    if m > 0 {
      Pow2Adds(m - 1, n);
      assert Pow2(m + n) == 2 * (Pow2(m - 1) * Pow2(n));
    }
  }

  function OnBits(f: (bool, bool) -> bool, a: Word, b: Word): Word
  {
    Pow2Of32();
    Bitwise(f, a as nat, b as nat, 32) as Word
  }

  function Complement(a: Word): Word { (WORD - 1 - a as int) as Word }

  /** The C operators; `undefined` supplies the results C does not define (division by zero or overflowing,
      shifts by 32 or more). */
  function Operate(undefined: (BinOp, Word, Word) -> Word, op: BinOp, a: Word, b: Word): Word
  {
    if !Defined(op, a, b) then undefined(op, a, b)
    else
      match op
      case Add => Wrapped(Signed(a) + Signed(b))
      case Sub => Wrapped(Signed(a) - Signed(b))
      case Mul => Wrapped(Signed(a) * Signed(b))
      case Div => Wrapped(Truncated(Signed(a), Signed(b)))
      case Mod => Wrapped(Signed(a) - Truncated(Signed(a), Signed(b)) * Signed(b))
      case And => OnBits((x, y) => x && y, a, b)
      case Or => OnBits((x, y) => x || y, a, b)
      case Xor => OnBits((x, y) => x != y, a, b)
      case Shl => Wrapped(Signed(a) * Pow2(b as nat))
      case Shr => Wrapped(Signed(a) / Pow2(b as nat))
  }

  /** C gives the result: no division by zero, none that overflows, no shift by 32 or more. */
  predicate Defined(op: BinOp, a: Word, b: Word)
  {
    match op
    case Div => Signed(b) != 0 && (Signed(a) != -HALF || Signed(b) != -1)
    case Mod => Signed(b) != 0 && (Signed(a) != -HALF || Signed(b) != -1)
    case Shl => b < 32
    case Shr => b < 32
    case _ => true
  }

  // ---- what the operators compute ----

  /** Sums, differences and products are right wherever 32 bits hold them, and otherwise up to multiples of 2^32. */
  lemma ArithmeticWraps(u: (BinOp, Word, Word) -> Word, a: Word, b: Word)
    ensures var x, y, r := Signed(a), Signed(b), Operate(u, Add, a, b);
            (r as int - (x + y)) % WORD == 0 && (-HALF <= x + y < HALF ==> Signed(r) == x + y)
    ensures var x, y, r := Signed(a), Signed(b), Operate(u, Sub, a, b);
            (r as int - (x - y)) % WORD == 0 && (-HALF <= x - y < HALF ==> Signed(r) == x - y)
    ensures var x, y, r := Signed(a), Signed(b), Operate(u, Mul, a, b);
            (r as int - x * y) % WORD == 0 && (-HALF <= x * y < HALF ==> Signed(r) == x * y)
  {
    SignedWrapped(Signed(a) + Signed(b));
    SignedWrapped(Signed(a) - Signed(b));
    SignedWrapped(Signed(a) * Signed(b));
  }

  /** Division truncates: quotient and remainder make up the dividend, the remainder is smaller than the divisor
      and has the dividend's sign, whichever signs they have. */
  lemma DivisionTruncates(u: (BinOp, Word, Word) -> Word, a: Word, b: Word)
    requires Defined(Div, a, b)
    ensures var x, y := Signed(a), Signed(b);
            var q, r := Signed(Operate(u, Div, a, b)), Signed(Operate(u, Mod, a, b));
            && x == q * y + r && Abs(r) < Abs(y) && (r < 0 ==> x < 0) && (r > 0 ==> x > 0)
            && (q > 0 ==> (x < 0) == (y < 0)) && (q < 0 ==> (x < 0) != (y < 0))
  {
    var x, y := Signed(a), Signed(b);
    TruncatedFacts(x, y);
    var q := Truncated(x, y);
    QuotientFits(x, y);
    SignedWrapped(q);
    SignedWrapped(x - q * y);
  }

  lemma TruncatedFacts(x: int, y: int)
    requires y != 0
    ensures var q := Truncated(x, y);
            var r := x - q * y;
            && Abs(r) < Abs(y) && (r < 0 ==> x < 0) && (r > 0 ==> x > 0)
            && (q > 0 ==> (x < 0) == (y < 0)) && (q < 0 ==> (x < 0) != (y < 0))
  {
    var q := Abs(x) / Abs(y);
    QuotientFacts(Abs(x), Abs(y));
    SignedTimes(q, y);
    assert Truncated(x, y) * y == if x < 0 then -(q * Abs(y)) else q * Abs(y);
  }

  lemma QuotientFacts(m: nat, d: nat)
    requires d > 0
    ensures 0 <= m / d <= m && m / d * d <= m < m / d * d + d && (d >= 2 && m > 0 ==> m / d < m)
  {
    var q := m / d;
    assert m == q * d + m % d;
    if q >= 1 && d >= 2 {
      Grows(q, 2, d);
    }
  }

  lemma SignedTimes(q: int, y: int)
    ensures q * y == if y < 0 then -(q * Abs(y)) else q * Abs(y)
    ensures -q * y == -(q * y)
  {
  }

  lemma QuotientFits(x: int, y: int)
    requires -HALF <= x < HALF && y != 0 && (x != -HALF || y != -1)
    ensures -HALF <= Truncated(x, y) < HALF
  {
    QuotientFacts(Abs(x), Abs(y));
    if Abs(y) == 1 {
      assert Abs(x) / Abs(y) == Abs(x);
    }
  }

  lemma Grows(q: nat, c: nat, d: nat)
    requires c <= d
    ensures q * c <= q * d
  {
  }

  /** The shift to the right is the floor of the division by the power of two: the sign comes in from the left.
      The shift to the left is the product with it. */
  lemma ShiftsAreArithmetic(u: (BinOp, Word, Word) -> Word, a: Word, b: Word)
    requires b < 32
    ensures var x, p, r := Signed(a), Pow2(b as nat), Signed(Operate(u, Shr, a, b));
            r * p <= x < (r + 1) * p
    ensures var x, p, r := Signed(a), Pow2(b as nat), Operate(u, Shl, a, b);
            (r as int - x * p) % WORD == 0 && (-HALF <= x * p < HALF ==> Signed(r) == x * p)
  {
    var x, p := Signed(a), Pow2(b as nat);
    FloorFacts(x, p);
    SignedWrapped(x / p);
    SignedWrapped(x * p);
  }

  lemma FloorFacts(x: int, p: nat)
    requires p > 0 && -HALF <= x < HALF
    ensures x / p * p <= x < (x / p + 1) * p && -HALF <= x / p < HALF
  {
    var q := x / p;
    assert x == q * p + x % p;
    if x >= 0 {
      QuotientFacts(x, p);
    } else {
      QuotientFacts(-x, p);
      NotBelow(x, q, p);
    }
  }

  /** The floor of a negative quotient is no smaller than the dividend. */
  lemma NotBelow(x: int, q: int, p: nat)
    requires p > 0 && x < 0 && x < (q + 1) * p && q * p <= x
    ensures x <= q < 0
  {
    if q < 0 {
      Grows(-q - 1, 1, p);
      assert (-q - 1) * p == -((q + 1) * p);
    } else {
      Grows(p, 0, q);
    }
  }

  /** Bit `k` of a number. */
  function Bit(n: nat, k: nat): bool
    decreases k
  {
    if k == 0 then n % 2 == 1 else Bit(n / 2, k - 1)
  }

  lemma {:induction false} BitwiseBits(f: (bool, bool) -> bool, a: nat, b: nat, n: nat, k: nat)
    requires k < n
    ensures Bit(Bitwise(f, a, b, n), k) == f(Bit(a, k), Bit(b, k))
    decreases n
  {
    var r := Bitwise(f, a / 2, b / 2, n - 1);
    assert Bitwise(f, a, b, n) / 2 == r;
    if k > 0 {
      BitwiseBits(f, a / 2, b / 2, n - 1, k - 1);
    }
  }

  /** Every bit of a conjunction, disjunction or exclusive disjunction is that of the two bits. */
  lemma BitsCombine(u: (BinOp, Word, Word) -> Word, a: Word, b: Word, k: nat)
    requires k < 32
    ensures Bit(Operate(u, And, a, b) as nat, k) <==> Bit(a as nat, k) && Bit(b as nat, k)
    ensures Bit(Operate(u, Or, a, b) as nat, k) <==> Bit(a as nat, k) || Bit(b as nat, k)
    ensures Bit(Operate(u, Xor, a, b) as nat, k) <==> Bit(a as nat, k) != Bit(b as nat, k)
  {
    Pow2Of32();
    BitwiseBits((x, y) => x && y, a as nat, b as nat, 32, k);
    BitwiseBits((x, y) => x || y, a as nat, b as nat, 32, k);
    BitwiseBits((x, y) => x != y, a as nat, b as nat, 32, k);
  }

  /** The complement turns every bit over. */
  lemma ComplementBits(a: Word, k: nat)
    requires k < 32
    ensures Bit(Complement(a) as nat, k) == !Bit(a as nat, k) && Signed(Complement(a)) == -1 - Signed(a)
  {
    Pow2Of32();
    TurnedOver(a as nat, 32, k);
  }

  lemma {:induction false} TurnedOver(a: nat, n: nat, k: nat)
    requires k < n && a < Pow2(n)
    ensures Bit(Pow2(n) - 1 - a, k) == !Bit(a, k)
    decreases n
  {
    assert (Pow2(n) - 1 - a) / 2 == Pow2(n - 1) - 1 - a / 2;
    if k > 0 {
      TurnedOver(a / 2, n - 1, k - 1);
    }
  }
}
