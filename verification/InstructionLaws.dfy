/**
 What single instructions do to the machine (crates/protocol/onx-execution/src/interpreter.rs),
   stated of whole steps: the
 bytes at the program counter are decoded, paid for and executed.
 */
module InstructionLaws {
  import opened Wrappers
  import opened Bytes
  import opened Packing
  import opened BitIO
  import opened VmTypes
  import opened Interpreters
  import opened VmLaws

  /** The instruction of the given bytes comes next, at byte k of the code, and can be paid for. */
  ghost predicate IsNext(m: Machine, k: nat, bytes: seq<byte>, price: nat) {
    && m.pc == 8 * k && k + |bytes| <= |m.code.data| && m.code.data[k..k + |bytes|] == bytes
    && m.gasUsed + price <= m.gasLimit && |m.stack| <= MAX_STACK_DEPTH
  }

  /** The machine behind the instruction, with another stack. */
  function Behind(m: Machine, k: nat, bytes: seq<byte>, price: nat, stack: Values): Machine
    requires m.gasUsed + price <= m.gasLimit
  {
    m.(pc := 8 * (k + |bytes|), gasUsed := m.gasUsed + price, stack := stack)
  }

  function Number(v: int): StackValue {
    Integer(FromI128(v))
  }

  // ---------- Numbers ----------

  /** A number is put on the stack in two's complement: sixteen bytes of sign, and the low 128 bits. */
  lemma NumberLayout(v: int)
    requires FitsI128(v)
    ensures ToI128(FromI128(v)) == v
    ensures forall i :: 0 <= i < 16 ==> FromI128(v)[i] == if v < 0 then 0xFF else 0
    ensures FromBigEndian(FromI128(v)[16..]) == if v < 0 then v + 2 * I128_LIMIT else v
  {
    hide FromBigEndian, BigEndian, ToI128;
    NumberRoundTrip(v);
    var low := v % (2 * I128_LIMIT);
    assert low == if v < 0 then v + 2 * I128_LIMIT else v;
    assert FromI128(v)[16..] == BigEndian(low, 16);
    SixteenBytes(low);
  }

  /** What is taken from the stack has the low 128 bits of the number there. */
  lemma NumberIsLow(n: bytes32)
    ensures FitsI128(ToI128(n))
    ensures ToI128(n) == FromBigEndian(n[16..]) || ToI128(n) == FromBigEndian(n[16..]) - 2 * I128_LIMIT
  {
    FromBigEndianRoundTrip(n[16..]);
    Pow256Values();
  }

  // ---------- Decoding ----------

  /** The machine after i bytes of the instruction have been read. */
  function Read(m: Machine, k: nat, i: nat): Machine {
    m.(pc := 8 * (k + i))
  }

  lemma ByteIsRead(m: Machine, k: nat, bytes: seq<byte>, i: nat)
    requires m.pc == 8 * (k + i) && k + |bytes| <= |m.code.data| && m.code.data[k..k + |bytes|] == bytes && i < |bytes|
    ensures ReadByte(m) == Good(bytes[i], Read(m, k, i + 1))
  {
    ReadAligned(m, k + i);
    assert m.code.data[k + i] == m.code.data[k..k + |bytes|][i];
  }

  /** The instruction runs once its first byte has been read. */
  lemma IsDecoded(m: Machine, env: Environment, k: nat, bytes: seq<byte>, price: nat)
    requires IsNext(m, k, bytes, price) && bytes != []
    ensures Step(m, env) == Execute(Read(m, k, 1), bytes[0], env)
  {
    hide Execute;
    ByteIsRead(m, k, bytes, 0);
  }

  function Spent(m: Machine, price: nat): Machine
    requires m.gasUsed + price <= m.gasLimit
  {
    m.(gasUsed := m.gasUsed + price)
  }

  lemma IsPaid(m: Machine, price: nat)
    requires m.gasUsed + price <= m.gasLimit
    ensures ConsumeGas(m, price) == Good((), Spent(m, price))
  {
  }

  /** Of an instruction with a fixed price, what is left to do once it has been paid for. */
  lemma IsPerformed(m: Machine, env: Environment, k: nat, bytes: seq<byte>, price: nat)
    requires IsNext(m, k, bytes, price) && bytes != [] && Price(bytes[0]) == Some(price)
    ensures Step(m, env) == GoesOn(Perform(Spent(Read(m, k, 1), price), bytes[0], env))
  {
    hide Perform, Price, ConsumeGas;
    IsDecoded(m, env, k, bytes, price);
    IsPaid(Read(m, k, 1), price);
  }

  lemma WordIsRead(m: Machine, k: nat, bytes: seq<byte>, i: nat)
    requires m.pc == 8 * (k + i) && k + |bytes| <= |m.code.data| && m.code.data[k..k + |bytes|] == bytes
      && i + 1 < |bytes|
    ensures ReadWord(m) == Good(256 * bytes[i] as nat + bytes[i + 1] as nat, Read(m, k, i + 2))
  {
    hide ReadByte;
    ByteIsRead(m, k, bytes, i);
    ByteIsRead(Read(m, k, i + 1), k, bytes, i + 1);
  }

  // ---------- Arithmetic ----------

  /** The four bytes of an arithmetic instruction: opcode, width and flavor. */
  ghost predicate IsArithmetic(bytes: seq<byte>) {
    |bytes| == 4 && 0 < 256 * bytes[1] as nat + bytes[2] as nat <= 256
  }

  function PriceOf(op: byte): nat {
    if op == 0x13 || op == 0x14 then 8 else 4
  }

  lemma NumberIsPopped(m: Machine, bottom: Values, a: bytes32)
    requires m.stack == bottom + [Integer(a)]
    ensures PopI128(m) == Good(ToI128(a), m.(stack := bottom)) && PopInteger(m) == Good(a, m.(stack := bottom))
  {
  }

  lemma TwoArePopped(m: Machine, bottom: Values, a: bytes32, b: bytes32)
    requires m.stack == bottom + [Integer(a), Integer(b)]
    ensures PopTwo(m) == Good((ToI128(a), ToI128(b)), m.(stack := bottom))
  {
    hide PopI128;
    assert m.stack == (bottom + [Integer(a)]) + [Integer(b)];
    NumberIsPopped(m, bottom + [Integer(a)], b);
    NumberIsPopped(m.(stack := bottom + [Integer(a)]), bottom, a);
  }

  lemma NumberIsPushed(m: Machine, v: int)
    requires |m.stack| < MAX_STACK_DEPTH
    ensures FitsI128(v) ==> PushI128(m, v) == Good((), m.(stack := m.stack + [Number(v)]))
    ensures !FitsI128(v) ==> PushI128(m, v) == Raised(IntegerOverflow, m)
  {
  }

  /** An arithmetic instruction leaves v for the values above bottom, or overflows. */
  ghost predicate Computes(r: Effect<bool>, m: Machine, k: nat, bytes: seq<byte>, price: nat, bottom: Values, v: int)
    requires m.gasUsed + price <= m.gasLimit
  {
    if FitsI128(v) then r == Good(true, Behind(m, k, bytes, price, bottom + [Number(v)]))
    else r.Raised? && r.kind == IntegerOverflow
  }

  lemma OperandsAreRead(m: Machine, k: nat, bytes: seq<byte>, price: nat)
    requires IsNext(m, k, bytes, price) && IsArithmetic(bytes)
    ensures
      var begun := Spent(Read(m, k, 1), price);
      && ReadWord(begun) == Good(256 * bytes[1] as nat + bytes[2] as nat, Read(begun, k, 3))
      && ReadByte(Read(begun, k, 3)) == Good(bytes[3], Read(begun, k, 4))
      && Read(begun, k, 4) == Behind(m, k, bytes, price, m.stack)
  {
    hide ReadWord, ReadByte;
    WordIsRead(Spent(Read(m, k, 1), price), k, bytes, 1);
    ByteIsRead(Read(Spent(Read(m, k, 1), price), k, 3), k, bytes, 3);
  }

  lemma ArithmeticIsPerformed(m: Machine, op: byte, env: Environment)
    requires 0x10 <= op <= 0x15
    ensures Perform(m, op, env) == Arithmetic(m, op)
  {
    hide Arithmetic;
  }

  /** What is left of an arithmetic instruction once its operands have been read. */
  lemma ArithmeticIs(m: Machine, env: Environment, k: nat, bytes: seq<byte>)
    requires IsArithmetic(bytes) && 0x10 <= bytes[0] <= 0x15 && IsNext(m, k, bytes, PriceOf(bytes[0]))
    ensures
      var op, n := bytes[0], Behind(m, k, bytes, PriceOf(bytes[0]), m.stack);
      Step(m, env) == GoesOn(
        if op == 0x12 then Negate(n) else if op == 0x14 then DivMod(n) else if op == 0x15 then Compare(n)
        else
          var two := PopTwo(n);
          if !two.Good? then two.PropagateFailure()
          else PushI128(two.machine, if op == 0x10 then two.value.0 + two.value.1
            else if op == 0x11 then two.value.0 - two.value.1
                                     else two.value.0 * two.value.1))
  {
    hide Negate, DivMod, Compare, PopTwo, PushI128, ReadWord, ReadByte, Perform, Step;
    IsPerformed(m, env, k, bytes, PriceOf(bytes[0]));
    ArithmeticIsPerformed(Spent(Read(m, k, 1), PriceOf(bytes[0])), bytes[0], env);
    OperandsAreRead(m, k, bytes, PriceOf(bytes[0]));
  }

  /** ADD, SUB and MUL leave the sum, the difference and the product of the two numbers on top, or overflow. */
  lemma BinaryStep(m: Machine, env: Environment, k: nat, bytes: seq<byte>, bottom: Values, a: bytes32, b: bytes32)
    requires IsArithmetic(bytes) && (bytes[0] == 0x10 || bytes[0] == 0x11 || bytes[0] == 0x13)
    requires IsNext(m, k, bytes, PriceOf(bytes[0])) && m.stack == bottom + [Integer(a), Integer(b)]
    ensures bytes[0] == 0x10 ==> Computes(Step(m, env), m, k, bytes, 4, bottom, ToI128(a) + ToI128(b))
    ensures bytes[0] == 0x11 ==> Computes(Step(m, env), m, k, bytes, 4, bottom, ToI128(a) - ToI128(b))
    ensures bytes[0] == 0x13 ==> Computes(Step(m, env), m, k, bytes, 8, bottom, ToI128(a) * ToI128(b))
  {
    hide Step, PopTwo, PushI128, ToI128, FromI128, Negate, DivMod, Compare;
    ArithmeticIs(m, env, k, bytes);
    var n := Behind(m, k, bytes, PriceOf(bytes[0]), m.stack);
    TwoArePopped(n, bottom, a, b);
    var x, y := ToI128(a), ToI128(b);
    NumberIsPushed(n.(stack := bottom), if bytes[0] == 0x10 then x + y else if bytes[0] == 0x11 then x - y else x * y);
  }

  /** NEG leaves the opposite number, which the smallest one does not have. */
  lemma NegateStep(m: Machine, env: Environment, k: nat, bytes: seq<byte>, bottom: Values, a: bytes32)
    requires IsArithmetic(bytes) && bytes[0] == 0x12 && IsNext(m, k, bytes, 4) && m.stack == bottom + [Integer(a)]
    ensures Computes(Step(m, env), m, k, bytes, 4, bottom, -ToI128(a))
  {
    hide Step, PopI128, PushI128, ToI128, FromI128, DivMod, Compare, PopTwo;
    ArithmeticIs(m, env, k, bytes);
    var n := Behind(m, k, bytes, 4, m.stack);
    NumberIsPopped(n, bottom, a);
    NumberIsPushed(n.(stack := bottom), -ToI128(a));
  }

  /** CMP leaves the sign of the difference. */
  lemma CompareStep(m: Machine, env: Environment, k: nat, bytes: seq<byte>, bottom: Values, a: bytes32, b: bytes32)
    requires IsArithmetic(bytes) && bytes[0] == 0x15 && IsNext(m, k, bytes, 4)
    requires m.stack == bottom + [Integer(a), Integer(b)]
    ensures
      var sign := if ToI128(a) == ToI128(b) then 0 else if ToI128(a) > ToI128(b) then 1 else -1;
      Step(m, env) == Good(true, Behind(m, k, bytes, 4, bottom + [Number(sign)]))
  {
    hide Step, PopTwo, PushI128, ToI128, FromI128, Negate, DivMod;
    ArithmeticIs(m, env, k, bytes);
    var n := Behind(m, k, bytes, 4, m.stack);
    TwoArePopped(n, bottom, a, b);
    NumberIsPushed(n.(stack := bottom), if ToI128(a) < ToI128(b) then -1 else if ToI128(a) > ToI128(b) then 1 else 0);
  }

  /** q and r are quotient and remainder of division towards zero. */
  predicate IsDivision(x: int, y: int, q: int, r: int) {
    && q * y + r == x && Abs(r) < Abs(y) && (r > 0 ==> x > 0) && (r < 0 ==> x < 0)
  }

  lemma QuotientDivides(x: int, y: int)
    requires y != 0
    ensures IsDivision(x, y, Quotient(x, y), x - y * Quotient(x, y))
  {
    DivisionTowardsZero(x, y);
    assert Quotient(x, y) * y == y * Quotient(x, y);
  }

  lemma OneQuotientOverflows(x: int, y: int)
    requires FitsI128(x) && FitsI128(y) && y != 0
    ensures FitsI128(Quotient(x, y)) <==> !(x == -I128_LIMIT && y == -1)
  {
    var q := Abs(x) / Abs(y);
    QuotientIsSmaller(Abs(x), Abs(y));
  }

  lemma QuotientIsSmaller(a: nat, b: nat)
    requires b > 0
    ensures a / b <= a && (b == 1 ==> a / b == a) && (b > 1 && a > 0 ==> a / b < a)
  {
    var q := a / b;
    NatDivision(a, b);
    if b > 1 {
      assert b * q == 2 * q + (b - 2) * q;
      ProductIsNatural(b - 2, q);
    }
  }

  lemma ProductIsNatural(x: nat, y: nat)
    ensures x * y >= 0
  {
  }

  /** DIVMOD leaves quotient and remainder; dividing by zero overflows, and the host panics for the one quotient that
      does not fit. */
  lemma DivModStep(m: Machine, env: Environment, k: nat, bytes: seq<byte>, bottom: Values, a: bytes32, b: bytes32)
    requires IsArithmetic(bytes) && bytes[0] == 0x14 && IsNext(m, k, bytes, 8)
    requires m.stack == bottom + [Integer(a), Integer(b)]
    ensures ToI128(b) == 0 ==> Step(m, env).Raised? && Step(m, env).kind == IntegerOverflow
    ensures ToI128(a) == -I128_LIMIT && ToI128(b) == -1 ==> Step(m, env) == Trap
    ensures ToI128(b) != 0 && !(ToI128(a) == -I128_LIMIT && ToI128(b) == -1) ==>
      exists q, r :: IsDivision(ToI128(a), ToI128(b), q, r)
        && Step(m, env) == Good(true, Behind(m, k, bytes, 8, bottom + [Number(q), Number(r)]))
  {
    hide Step, PopTwo, PushI128, ToI128, FromI128, Negate, Compare, Quotient;
    ArithmeticIs(m, env, k, bytes);
    NumberIsLow(a);
    NumberIsLow(b);
    var n := Behind(m, k, bytes, 8, m.stack);
    TwoArePopped(n, bottom, a, b);
    var x, y := ToI128(a), ToI128(b);
    if y != 0 {
      OneQuotientOverflows(x, y);
      QuotientDivides(x, y);
      var q, r := Quotient(x, y), x - y * Quotient(x, y);
      if FitsI128(q) {
        NumberIsPushed(n.(stack := bottom), q);
        NumberIsPushed(n.(stack := bottom + [Number(q)]), r);
        assert bottom + [Number(q)] + [Number(r)] == bottom + [Number(q), Number(r)];
      }
    }
  }

  /** An arithmetic instruction of an impossible width is malformed. */
  lemma WidthIsChecked(m: Machine, env: Environment, k: nat, bytes: seq<byte>)
    requires |bytes| == 4 && 0x10 <= bytes[0] <= 0x15 && IsNext(m, k, bytes, PriceOf(bytes[0])) && !IsArithmetic(bytes)
    ensures Step(m, env).Raised? && Step(m, env).kind == Malformed
  {
    hide Negate, DivMod, Compare, PopTwo, PushI128, ReadWord, ReadByte, Perform, Step;
    IsPerformed(m, env, k, bytes, PriceOf(bytes[0]));
    var begun := Spent(Read(m, k, 1), PriceOf(bytes[0]));
    ArithmeticIsPerformed(begun, bytes[0], env);
    WordIsRead(begun, k, bytes, 1);
    ByteIsRead(Read(begun, k, 3), k, bytes, 3);
  }

  // ---------- Jumps and calls ----------

  /** What the instructions are that are not paid for in advance. */
  lemma ExecuteIs(m: Machine, op: byte, env: Environment)
    ensures op == 0x09 ==> Execute(m, op, env) == PushOctets(m)
    ensures op == 0x31 ==> Execute(m, op, env) == Concatenate(m)
    ensures op == 0x33 ==> Execute(m, op, env) == ByteEqual(m)
    ensures 0x70 <= op <= 0x76 && op != 0x72 ==> Execute(m, op, env) == JumpOrCall(m, op)
    ensures op == 0x72 ==> Execute(m, op, env) == ReturnAlways(m)
    ensures op == 0x77 ==> Execute(m, op, env) == Throw(m)
    ensures op == 0x78 ==> Execute(m, op, env) == IfElse(m)
    ensures op == 0x79 ==> Execute(m, op, env) == ReturnIf(m)
    ensures op == 0x7A ==> Execute(m, op, env) == Repeat(m)
    ensures op == 0x7B ==> Execute(m, op, env) == Until(m)
  {
    hide PushOctets, Concatenate, ByteEqual, Throw, IfElse, ReturnAlways, ReturnIf, Repeat, Until, StoreBytes,
      JumpOrCall;
  }

  /** The number a byte of an offset stands for. */
  predicate IsOffset(b: byte, offset: int) {
    -128 <= offset < 128 && (offset == b as nat || offset == b as nat - 256)
  }

  lemma SignedIsOffset(b: byte, offset: int)
    requires IsOffset(b, offset)
    ensures Signed(b) == offset
  {
    ByteBack(b);
    SmallByte(b);
  }

  lemma SmallByte(b: byte)
    ensures b >= 128 <==> b as nat >= 128
  {
  }

  predicate IsConditional(op: byte) {
    op == 0x73 || op == 0x74 || op == 0x75 || op == 0x76
  }

  predicate IsCall(op: byte) {
    op == 0x71 || op == 0x75 || op == 0x76
  }

  /** Whether a jump or call is taken: always, or if the number is not zero, or if it is. */
  predicate IsTaken(op: byte, number: int) {
    !IsConditional(op) || (if op == 0x73 || op == 0x75 then number != 0 else number == 0)
  }

  /** The stack below the condition of a jump or call, if it has one. */
  ghost predicate HasCondition(m: Machine, op: byte, bottom: Values, c: bytes32) {
    if IsConditional(op) then m.stack == bottom + [Integer(c)] else m.stack == bottom
  }

  lemma JumpIs(m: Machine, env: Environment, k: nat, bytes: seq<byte>)
    requires |bytes| == 2 && 0x70 <= bytes[0] <= 0x76 && bytes[0] != 0x72 && IsNext(m, k, bytes, 4)
    ensures Step(m, env) == JumpOrCall(Read(m, k, 1), bytes[0])
    ensures ConsumeGas(Read(m, k, 1), 4) == Good((), Spent(Read(m, k, 1), 4))
    ensures ReadByte(Spent(Read(m, k, 1), 4)) == Good(bytes[1], Behind(m, k, bytes, 4, m.stack))
  {
    hide JumpOrCall, ReadByte, ConsumeGas, Execute, Step;
    IsDecoded(m, env, k, bytes, 4);
    ExecuteIs(Read(m, k, 1), bytes[0], env);
    IsPaid(Read(m, k, 1), 4);
    ByteIsRead(Spent(Read(m, k, 1), 4), k, bytes, 1);
  }

  /** A jump or call is taken exactly under its condition; it goes to the named code, and a call keeps the place behind
       itself. */
  lemma JumpStep(m: Machine, env: Environment, k: nat, bytes: seq<byte>, bottom: Values, c: bytes32)
    requires |bytes| == 2 && 0x70 <= bytes[0] <= 0x76 && bytes[0] != 0x72 && IsNext(m, k, bytes, 4)
    requires HasCondition(m, bytes[0], bottom, c)
    ensures
      var n, index := Behind(m, k, bytes, 4, bottom), bytes[1] as nat;
      var here := Continuation(m.code, 8 * (k + 2));
      if !IsTaken(bytes[0], ToI128(c)) then Step(m, env) == Good(true, n)
      else if index >= |m.codeRefs| then Step(m, env) == Raised(Malformed, n)
      else if IsCall(bytes[0]) then
        Step(m, env) == Good(true, n.(code := m.codeRefs[index], pc := 0, callStack := m.callStack + [here],
          c0 := Some(here)))
      else Step(m, env) == Good(true, n.(code := m.codeRefs[index], pc := 0))
  {
    hide Step, ConsumeGas, ReadByte, PopI128, ToI128;
    JumpIs(m, env, k, bytes);
    var n := Behind(m, k, bytes, 4, m.stack);
    if IsConditional(bytes[0]) {
      NumberIsPopped(n, bottom, c);
    }
  }

  /** Execution goes to the place that c0 names, one call further out, or ends if there is none. */
  ghost predicate Returns(r: Effect<bool>, n: Machine) {
    match n.c0
    case None => r == Good(false, n)
    case Some(target) =>
      var there := n.(code := target.code, pc := target.pc);
      && (n.callStack == [] ==> r == Good(true, there.(c0 := None)))
      && (forall open, last :: n.callStack == open + [last] ==>
           r == Good(true, there.(callStack := open, c0 := if open == [] then None else Some(open[|open| - 1]))))
  }

  lemma ReturnIs(n: Machine)
    ensures Returns(Return(n), n)
  {
    if n.c0.Some? {
      forall open: seq<Continuation>, last | n.callStack == open + [last]
        ensures n.callStack[..|n.callStack| - 1] == open
      {
      }
    }
  }

  /** RET returns. */
  lemma ReturnStep(m: Machine, env: Environment, k: nat)
    requires IsNext(m, k, [0x72], 4)
    ensures Returns(Step(m, env), Behind(m, k, [0x72], 4, m.stack))
  {
    hide ConsumeGas, Execute, Step, Return, Returns;
    IsDecoded(m, env, k, [0x72], 4);
    ExecuteIs(Read(m, k, 1), 0x72, env);
    IsPaid(Read(m, k, 1), 4);
    ReturnIs(Behind(m, k, [0x72], 4, m.stack));
  }

  /** IFRET returns exactly if the number is not zero. */
  lemma IfReturnStep(m: Machine, env: Environment, k: nat, bottom: Values, c: bytes32)
    requires IsNext(m, k, [0x79], 4) && m.stack == bottom + [Integer(c)]
    ensures
      var n := Behind(m, k, [0x79], 4, bottom);
      if ToI128(c) != 0 then Returns(Step(m, env), n) else Step(m, env) == Good(true, n)
  {
    hide ConsumeGas, Execute, Step, Return, Returns, PopI128, ToI128;
    IsDecoded(m, env, k, [0x79], 4);
    ExecuteIs(Read(m, k, 1), 0x79, env);
    IsPaid(Read(m, k, 1), 4);
    NumberIsPopped(Behind(m, k, [0x79], 4, m.stack), bottom, c);
    ReturnIs(Behind(m, k, [0x79], 4, bottom));
  }

  /** At the end of a piece of code execution goes on behind the innermost call, or ends, free of charge; c0 stays as it
      is. */
  lemma EndOfCode(m: Machine, env: Environment)
    requires m.pc >= 8 * |m.code.data|
    ensures m.callStack == [] ==> Step(m, env) == Good(false, m)
    ensures forall open, last :: m.callStack == open + [last] ==>
      Step(m, env) == Good(true, m.(code := last.code, pc := last.pc, callStack := open))
  {
    hide Execute, ReadByte;
    forall open: seq<Continuation>, last | m.callStack == open + [last]
      ensures m.callStack[..|m.callStack| - 1] == open
    {
    }
  }

  /** A called piece of code that comes to its RET with the calls it found goes on behind the call, with the calls there
      were before. */
  lemma CallThenReturn(m: Machine, env: Environment, k: nat, bytes: seq<byte>, bottom: Values, c: bytes32, p: Machine,
      j: nat)
    requires |bytes| == 2 && IsCall(bytes[0]) && IsNext(m, k, bytes, 4) && HasCondition(m, bytes[0], bottom, c)
    requires IsTaken(bytes[0], ToI128(c)) && bytes[1] as nat < |m.codeRefs|
    requires
      var called := Step(m, env);
      called.Good? && p.callStack == called.machine.callStack && p.c0 == called.machine.c0
    requires IsNext(p, j, [0x72], 4)
    ensures Step(p, env).Good? && Step(p, env).value
    ensures
      var back := Step(p, env).machine;
      back.code == m.code && back.pc == 8 * (k + 2) && back.callStack == m.callStack && back.stack == p.stack
  {
    hide Step, ToI128;
    JumpStep(m, env, k, bytes, bottom, c);
    ReturnStep(p, env, j);
    assert p.callStack == m.callStack + [Continuation(m.code, 8 * (k + 2))];
  }

  /** Where execution goes on after a branch by some bytes from byte k, if that is inside the code. */
  ghost predicate BranchesTo(r: Effect<bool>, n: Machine, target: int) {
    if 0 <= target <= |n.code.data| then r == Good(true, n.(pc := 8 * target)) else r == Raised(Malformed, n)
  }

  lemma BranchGoes(n: Machine, j: nat, offset: int)
    requires n.pc == 8 * j
    ensures BranchesTo(Branch(n, offset), n, j + offset)
  {
  }

  /** IFELSE goes on at the first offset from its end if the number is not zero, and else at the second. */
  lemma IfElseStep(m: Machine, env: Environment, k: nat, bytes: seq<byte>, bottom: Values, c: bytes32, yes: int,
      no: int)
    requires |bytes| == 3 && bytes[0] == 0x78 && IsNext(m, k, bytes, 4) && m.stack == bottom + [Integer(c)]
    requires IsOffset(bytes[1], yes) && IsOffset(bytes[2], no)
    ensures BranchesTo(Step(m, env), Behind(m, k, bytes, 4, bottom), k + 3 + if ToI128(c) != 0 then yes else no)
  {
    hide ConsumeGas, ReadByte, PopI128, ToI128, Branch, Execute, Step, Signed;
    IsDecoded(m, env, k, bytes, 4);
    ExecuteIs(Read(m, k, 1), bytes[0], env);
    IsPaid(Read(m, k, 1), 4);
    ByteIsRead(Spent(Read(m, k, 1), 4), k, bytes, 1);
    ByteIsRead(Read(Spent(Read(m, k, 1), 4), k, 2), k, bytes, 2);
    NumberIsPopped(Behind(m, k, bytes, 4, m.stack), bottom, c);
    SignedIsOffset(bytes[1], yes);
    SignedIsOffset(bytes[2], no);
    BranchGoes(Behind(m, k, bytes, 4, bottom), k + 3, if ToI128(c) != 0 then yes else no);
  }

  /** REPEAT goes on at its offset whenever its count is not zero; the count never gets less. */
  lemma RepeatStep(m: Machine, env: Environment, k: nat, bytes: seq<byte>, offset: int)
    requires |bytes| == 3 && bytes[0] == 0x7A && IsNext(m, k, bytes, 4) && IsOffset(bytes[2], offset)
    ensures BranchesTo(Step(m, env), Behind(m, k, bytes, 4, m.stack), k + 3 + if bytes[1] != 0 then offset else 0)
  {
    hide ConsumeGas, ReadByte, Branch, Execute, Step, Signed;
    IsDecoded(m, env, k, bytes, 4);
    ExecuteIs(Read(m, k, 1), bytes[0], env);
    IsPaid(Read(m, k, 1), 4);
    ByteIsRead(Spent(Read(m, k, 1), 4), k, bytes, 1);
    ByteIsRead(Read(Spent(Read(m, k, 1), 4), k, 2), k, bytes, 2);
    SignedIsOffset(bytes[2], offset);
    BranchGoes(Behind(m, k, bytes, 4, m.stack), k + 3, offset);
  }

  /** UNTIL goes back by its offset as long as the number is zero. */
  lemma UntilStep(m: Machine, env: Environment, k: nat, bytes: seq<byte>, bottom: Values, c: bytes32, offset: int)
    requires |bytes| == 2 && bytes[0] == 0x7B && IsNext(m, k, bytes, 4) && m.stack == bottom + [Integer(c)]
    requires IsOffset(bytes[1], offset)
    ensures BranchesTo(Step(m, env), Behind(m, k, bytes, 4, bottom), k + 2 + if ToI128(c) == 0 then offset else 0)
  {
    hide ConsumeGas, ReadByte, PopI128, ToI128, Branch, Execute, Step, Signed;
    IsDecoded(m, env, k, bytes, 4);
    ExecuteIs(Read(m, k, 1), bytes[0], env);
    IsPaid(Read(m, k, 1), 4);
    ByteIsRead(Spent(Read(m, k, 1), 4), k, bytes, 1);
    NumberIsPopped(Behind(m, k, bytes, 4, m.stack), bottom, c);
    SignedIsOffset(bytes[1], offset);
    BranchGoes(Behind(m, k, bytes, 4, bottom), k + 2, offset);
  }
}
