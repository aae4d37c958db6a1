/**
 The instructions fitted to a width,
 as whole steps (crates/protocol/onx-execution/src/interpreter.rs): division and shifts, whose result is unsigned,
   signed or wrapped around.
 */
module WideLaws {
  import opened Wrappers
  import opened Bytes
  import opened BitIO
  import opened VmTypes
  import opened Interpreters
  import opened VmLaws
  import opened InstructionLaws

  // ---------- The limit of a width ----------

  lemma {:induction false} Pow2Grows(m: nat, n: nat)
    requires m <= n
    ensures Pow2(m) <= Pow2(n)
    decreases n
  {
    if m < n {
      Pow2Grows(m, n - 1);
    }
  }

  lemma {:induction false} Pow2Adds(m: nat, n: nat)
    ensures Pow2(m + n) == Pow2(m) * Pow2(n)
    decreases n
  {
    if n > 0 {
      Pow2Adds(m, n - 1);
      assert Pow2(m + n) == 2 * Pow2(m + (n - 1));
      DoubledProduct(Pow2(m), Pow2(n - 1));
    }
  }

  lemma DoubledProduct(x: nat, y: nat)
    ensures 2 * (x * y) == x * (2 * y)
  {
  }

  lemma SmallPowers()
    ensures Pow2(6) == 64 && Pow2(8) == 256
  {
  }

  lemma LargestPowers()
    ensures Pow2(126) == I128_LIMIT / 2 && Pow2(127) == I128_LIMIT
  {
    assert Pow2(127) == 2 * Pow2(126);
    hide Pow2;
    SmallPowers();
    Pow2Adds(8, 8);
    assert Pow2(16) == 0x1_0000;
    Pow2Adds(16, 16);
    assert Pow2(32) == 0x1_0000_0000;
    Pow2Adds(32, 32);
    assert Pow2(64) == 0x1_0000_0000_0000_0000;
    Pow2Adds(64, 32);
    assert Pow2(96) == 0x1_0000_0000_0000_0000_0000_0000;
    Pow2Adds(96, 16);
    Pow2Adds(112, 8);
    Pow2Adds(120, 6);
  }

  lemma LimitIs(width: nat)
    requires 0 < width <= 128
    ensures Wrap128(Pow2(width - 1)) == if width == 128 then -I128_LIMIT else Pow2(width - 1)
    ensures 0 < Pow2(width - 1) && (width < 128 ==> Pow2(width - 1) <= I128_LIMIT / 2)
  {
    hide Pow2;
    LargestPowers();
    Pow2IsPositive(width - 1);
    if width < 128 {
      Pow2Grows(width - 1, 126);
    }
  }

  /** Twice the limit is a number of 128 bits only below a width of 127. */
  lemma ModulusIs(width: nat)
    requires 0 < width <= 128
    ensures Modulus(width) == if width <= 126 then Some(Pow2(width)) else None
  {
    LimitIs(width);
    assert Pow2(width) == 2 * Pow2(width - 1);
    hide Pow2;
    LargestPowers();
    if width <= 126 {
      Pow2Grows(width, 126);
    }
  }

  // ---------- The result before it is fitted ----------

  /** Division by zero, the one quotient that is too large, and a shift by no bit of the width have no result. */
  predicate HasResult(op: byte, x: int, y: int, width: nat) {
    if op == 0x17 then y != 0 && !(x == -I128_LIMIT && y == -1) else 0 <= y < width
  }

  /** DIV rounds towards zero, SHL keeps the low 128 bits, and SHR rounds down. */
  ghost predicate IsResult(op: byte, x: int, y: int, v: int) {
    if op == 0x17 then exists r :: IsDivision(x, y, v, r)
    else
      && y >= 0
      && (op == 0x18 ==> FitsI128(v) && exists q :: v == x * Pow2(y) + q * (2 * I128_LIMIT))
      && (op == 0x19 ==> v * Pow2(y) <= x < (v + 1) * Pow2(y))
  }

  lemma WrapKeepsLowBits(p: int)
    ensures FitsI128(Wrap128(p)) && exists q :: Wrap128(p) == p + q * (2 * I128_LIMIT)
  {
    var n := 2 * I128_LIMIT;
    var q := -(p / n);
    assert p % n == p + q * n;
    assert Wrap128(p) == p + q * n || Wrap128(p) == p + (q - 1) * n;
  }

  lemma RoundsDown(x: int, d: nat)
    requires d > 0
    ensures (x / d) * d <= x < (x / d + 1) * d
  {
    assert x == (x / d) * d + x % d;
    assert (x / d + 1) * d == (x / d) * d + d;
  }

  lemma ShiftResultIs(op: byte, x: int, y: int, width: nat)
    requires 0x17 <= op <= 0x19 && FitsI128(x) && FitsI128(y)
    ensures ShiftResult(op, x, y, width).Some? <==> HasResult(op, x, y, width)
    ensures HasResult(op, x, y, width) ==> IsResult(op, x, y, ShiftResult(op, x, y, width).value)
  {
    hide Quotient, Wrap128, Pow2, IsDivision;
    if op == 0x17 {
      if y != 0 {
        OneQuotientOverflows(x, y);
        QuotientDivides(x, y);
      }
    } else if 0 <= y < width {
      Pow2IsPositive(y);
      if op == 0x18 {
        WrapKeepsLowBits(x * Pow2(y));
      } else {
        RoundsDown(x, Pow2(y));
      }
    }
  }

  // ---------- The step ----------

  /** The number v is left if it fits the width, unsigned (0) or signed (1), and what it leaves modulo the width (2). */
  ghost predicate IsFitted(r: Effect<()>, m: Machine, v: int, width: nat, flavor: byte)
    requires width > 0
  {
    if flavor == 1 then
      if width == 128 then r == Trap
      else if -(Pow2(width - 1) as int) <= v < Pow2(width - 1) then r == Good((), m.(stack := m.stack + [Number(v)]))
      else r.Raised? && r.kind == IntegerOverflow
    else if width > 126 || (flavor == 0 && !(0 <= v < Pow2(width))) then r.Raised? && r.kind == IntegerOverflow
    else if flavor == 0 then r == Good((), m.(stack := m.stack + [Number(v)]))
    else exists q, w :: IsModulo(v, Pow2(width), q, w) && r == Good((), m.(stack := m.stack + [Number(w)]))
  }

  predicate IsModulo(v: int, d: nat, q: int, w: int) {
    v == q * d + w && 0 <= w < d
  }

  lemma FittedIs(m: Machine, v: int, width: nat, flavor: byte)
    requires 0 < width <= 128 && flavor <= 2 && FitsI128(v) && |m.stack| < MAX_STACK_DEPTH
    ensures IsFitted(Fitted(m, v, width, flavor), m, v, width, flavor)
  {
    hide Pow2, Wrap128, Modulus, PushI128, Number;
    LimitIs(width);
    ModulusIs(width);
    NumberIsPushed(m, v);
    if flavor == 2 && width <= 126 {
      LargestPowers();
      Pow2IsPositive(width);
      Pow2Grows(width, 126);
      var d := Pow2(width);
      assert IsModulo(v, d, v / d, v % d);
      NumberIsPushed(m, v % d);
    }
  }

  function WidthOf(bytes: seq<byte>): nat
    requires |bytes| == 4
  {
    256 * bytes[1] as nat + bytes[2] as nat
  }

  lemma OperandsOf(m: Machine, k: nat, bytes: seq<byte>, price: nat)
    requires |bytes| == 4 && IsNext(m, k, bytes, price)
    ensures
      var begun := Spent(Read(m, k, 1), price);
      && ReadWord(begun).Good? && ReadWord(begun).value == WidthOf(bytes)
      && ReadByte(ReadWord(begun).machine) == Good(bytes[3], Behind(m, k, bytes, price, m.stack))
  {
    hide ReadWord, ReadByte;
    var begun := Spent(Read(m, k, 1), price);
    WordIsRead(begun, k, bytes, 1);
    ByteIsRead(Read(begun, k, 3), k, bytes, 3);
  }

  /** What the instruction is, once it has been paid for. */
  lemma WideIs(m: Machine, op: byte, env: Environment)
    requires 0x17 <= op <= 0x19
    ensures Perform(m, op, env) == WideArithmetic(m, op)
  {
    hide WideArithmetic;
  }

  /** The outcome of the instruction, which leaves the machine n with its operands x and y taken from the stack. */
  ghost predicate IsOutcome(r: Effect<()>, n: Machine, op: byte, x: int, y: int, width: nat, flavor: byte) {
    if width == 0 || width > 128 || flavor > 2 then r.Raised? && r.kind == Malformed
    else if !HasResult(op, x, y, width) then r.Raised? && r.kind == IntegerOverflow
    else exists v :: IsResult(op, x, y, v) && IsFitted(r, n, v, width, flavor)
  }

  lemma OutcomeOf(m: Machine, n: Machine, op: byte, bottom: Values, a: bytes32, b: bytes32, width: nat, flavor: byte)
    requires 0x17 <= op <= 0x19 && n.stack == bottom + [Integer(a), Integer(b)] && |n.stack| <= MAX_STACK_DEPTH
    requires ReadWord(m).Good? && ReadWord(m).value == width && ReadByte(ReadWord(m).machine) == Good(flavor, n)
    ensures IsOutcome(WideArithmetic(m, op), n.(stack := bottom), op, ToI128(a), ToI128(b), width, flavor)
  {
    hide ReadWord, ReadByte, PopTwo, ToI128, ShiftResult, Fitted, HasResult, IsResult, IsFitted;
    TwoArePopped(n, bottom, a, b);
    NumberIsLow(a);
    NumberIsLow(b);
    var x, y := ToI128(a), ToI128(b);
    ShiftResultIs(op, x, y, width);
    if 0 < width <= 128 && flavor <= 2 && HasResult(op, x, y, width) {
      var v := ShiftResult(op, x, y, width).value;
      ResultFits(op, x, y, width);
      FittedIs(n.(stack := bottom), v, width, flavor);
    }
  }

  lemma ResultFits(op: byte, x: int, y: int, width: nat)
    requires 0x17 <= op <= 0x19 && FitsI128(x) && FitsI128(y) && HasResult(op, x, y, width)
    requires ShiftResult(op, x, y, width).Some?
    ensures FitsI128(ShiftResult(op, x, y, width).value)
  {
    hide Quotient, Pow2;
    if op == 0x19 {
      Pow2IsPositive(y);
      NoFarther(x, Pow2(y));
    }
  }

  lemma ProductAtLeast(q: nat, d: nat)
    requires d > 0
    ensures q * d >= q && (0 - q) * d == 0 - q * d
  {
    ProductIsNatural(q, d - 1);
    assert q * d == q + q * (d - 1);
  }

  lemma NoFarther(x: int, d: nat)
    requires d > 0
    ensures if x < 0 then x <= x / d < 0 else 0 <= x / d <= x
  {
    RoundsDown(x, d);
    var q := x / d;
    if q >= 0 {
      ProductAtLeast(q, d);
    } else {
      ProductAtLeast(-(q + 1), d);
      assert (q + 1) * d == (0 - -(q + 1)) * d;
    }
  }

  function WidePrice(op: byte): nat {
    if op == 0x17 then 8 else 4
  }

  lemma WideStepIs(m: Machine, env: Environment, k: nat, bytes: seq<byte>)
    requires |bytes| == 4 && 0x17 <= bytes[0] <= 0x19 && IsNext(m, k, bytes, WidePrice(bytes[0]))
    ensures Step(m, env) == GoesOn(WideArithmetic(Spent(Read(m, k, 1), WidePrice(bytes[0])), bytes[0]))
  {
    hide Step, Perform, WideArithmetic;
    IsPerformed(m, env, k, bytes, WidePrice(bytes[0]));
    WideIs(Spent(Read(m, k, 1), WidePrice(bytes[0])), bytes[0], env);
  }

  /** DIV, SHL and SHR leave their result fitted to the width; unsigned and wrapped results need a width of at most
       126. */
  lemma WideStep(m: Machine, env: Environment, k: nat, bytes: seq<byte>, bottom: Values, a: bytes32, b: bytes32)
    requires |bytes| == 4 && 0x17 <= bytes[0] <= 0x19 && m.stack == bottom + [Integer(a), Integer(b)]
    requires IsNext(m, k, bytes, WidePrice(bytes[0]))
    ensures
      var n := Behind(m, k, bytes, WidePrice(bytes[0]), bottom);
      exists r :: Step(m, env) == GoesOn(r) && IsOutcome(r, n, bytes[0], ToI128(a), ToI128(b), WidthOf(bytes), bytes[3])
  {
    hide Step, WideArithmetic, IsOutcome, ToI128, WidthOf, WidePrice, ReadWord, ReadByte;
    var price := WidePrice(bytes[0]);
    var begun, n := Spent(Read(m, k, 1), price), Behind(m, k, bytes, price, m.stack);
    WideStepIs(m, env, k, bytes);
    OperandsOf(m, k, bytes, price);
    assert |n.stack| <= MAX_STACK_DEPTH;
    OutcomeOf(begun, n, bytes[0], bottom, a, b, WidthOf(bytes), bytes[3]);
    hide IsNext;
    assert Step(m, env) == GoesOn(WideArithmetic(begun, bytes[0]));
  }
}
