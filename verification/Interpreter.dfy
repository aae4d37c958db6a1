/**
 The interpreter of contract code (crates/protocol/onx-execution/src/interpreter.rs), without
 exception handlers.  Every instruction is a function from machine to effect; Run is the loop.
 */
module Interpreters {
  import opened Wrappers
  import opened Bytes
  import opened Packing
  import opened Cells
  import opened BitIO
  import opened VmTypes

  // ---------- 0x00 to 0x0C: the stack ----------

  function Drop(m: Machine): (r: Effect<()>)
    ensures Quiet(m, r)
  {
    var top :- Pop(m);
    Good((), top.machine)
  }

  function Swap(m: Machine): (r: Effect<()>)
    ensures Quiet(m, r)
  {
    var a :- Pop(m);
    var b :- Pop(a.machine);
    var p :- Push(b.machine, a.value);
    Push(p.machine, b.value)
  }

  /** Pushes a copy of the value that lies depth below the top. */
  function Copy(m: Machine, depth: nat): (r: Effect<()>)
    ensures Quiet(m, r)
  {
    if depth >= |m.stack| then Raised(Malformed, m) else Push(m, m.stack[|m.stack| - 1 - depth])
  }

  function Rotate(m: Machine): (r: Effect<()>)
    ensures Quiet(m, r)
  {
    var c :- Pop(m);
    var b :- Pop(c.machine);
    var a :- Pop(b.machine);
    var p :- Push(a.machine, b.value);
    var q :- Push(p.machine, c.value);
    Push(q.machine, a.value)
  }

  function Pick(m: Machine): (r: Effect<()>)
    ensures Quiet(m, r)
  {
    var depth :- ReadByte(m);
    Copy(depth.machine, depth.value as nat)
  }

  function Roll(m: Machine): (r: Effect<()>)
    ensures Quiet(m, r)
  {
    var depth :- ReadByte(m);
    var n := depth.machine;
    if depth.value as nat >= |n.stack| then Raised(Malformed, n)
    else
      var at := |n.stack| - 1 - depth.value as nat;
      Push(n.(stack := n.stack[..at] + n.stack[at + 1..]), n.stack[at])
  }

  function PushInt(m: Machine): (r: Effect<()>)
    ensures Quiet(m, r)
  {
    var sign :- ReadByte(m);
    var octets :- ReadBytes(sign.machine, 32);
    Push(octets.machine, Integer(octets.value))
  }

  function Nip(m: Machine): (r: Effect<()>)
    ensures Quiet(m, r)
  {
    if |m.stack| < 2 then Raised(Malformed, m)
    else
      var n := |m.stack|;
      Push(m.(stack := m.stack[..n - 2]), m.stack[n - 1])
  }

  function Tuck(m: Machine): (r: Effect<()>)
    ensures Quiet(m, r)
  {
    if |m.stack| < 2 then Raised(Malformed, m)
    else
      var n := |m.stack|;
      var a, b := m.stack[n - 2], m.stack[n - 1];
      var p :- Push(m.(stack := m.stack[..n - 2]), b);
      var q :- Push(p.machine, a);
      Push(q.machine, b)
  }

  /** Swaps two adjacent blocks at the top. */
  function BlockSwap(m: Machine): (r: Effect<()>)
    ensures Quiet(m, r)
  {
    var left :- ReadByte(m);
    var right :- ReadByte(left.machine);
    var n := right.machine;
    var count := left.value as nat + right.value as nat;
    if left.value == 0 || right.value == 0 || |n.stack| < count then Raised(Malformed, n)
    else
      var start := |n.stack| - count;
      var middle := start + left.value as nat;
      Good((), n.(stack := n.stack[..start] + n.stack[middle..] + n.stack[start..middle]))
  }

  // ---------- 0x10 to 0x20: arithmetic ----------

  /** The operands of a binary instruction, the lower one first. */
  function PopTwo(m: Machine): (r: Effect<(int, int)>)
    ensures Quiet(m, r)
  {
    var b :- PopI128(m);
    var a :- PopI128(b.machine);
    Good((a.value, b.value), a.machine)
  }

  function Negate(m: Machine): (r: Effect<()>)
    ensures Quiet(m, r)
  {
    var a :- PopI128(m);
    PushI128(a.machine, -a.value)
  }

  /** Quotient and remainder; the host panics when the quotient does not fit. */
  function DivMod(m: Machine): (r: Effect<()>)
    ensures Quiet(m, r)
  {
    var two :- PopTwo(m);
    var (a, b) := two.value;
    if b == 0 then Raised(IntegerOverflow, two.machine)
    else if !FitsI128(Quotient(a, b)) then Trap
    else
      var p :- PushI128(two.machine, Quotient(a, b));
      PushI128(p.machine, a - b * Quotient(a, b))
  }

  function Compare(m: Machine): (r: Effect<()>)
    ensures Quiet(m, r)
  {
    var two :- PopTwo(m);
    var (a, b) := two.value;
    PushI128(two.machine, if a < b then -1 else if a > b then 1 else 0)
  }

  /** 0x10 to 0x15, after the gas. */
  function Arithmetic(m: Machine, opcode: byte): (r: Effect<()>)
    ensures Quiet(m, r)
  {
    var width :- ReadWord(m);
    var flavor :- ReadByte(width.machine);
    if width.value == 0 || width.value > 256 then Raised(Malformed, flavor.machine)
    else if opcode == 0x12 then Negate(flavor.machine)
    else if opcode == 0x14 then DivMod(flavor.machine)
    else if opcode == 0x15 then Compare(flavor.machine)
    else
      var two :- PopTwo(flavor.machine);
      var (a, b) := two.value;
      PushI128(two.machine, if opcode == 0x10 then a + b else if opcode == 0x11 then a - b else a * b)
  }

  function IsZero(m: Machine): (r: Effect<()>)
    ensures Quiet(m, r)
  {
    var a :- PopInteger(m);
    PushI128(a.machine, Truth(a.value == BigEndian(0, 32)))
  }

  /** 0x17 divides, 0x18 shifts to the left and 0x19 to the right; None is an overflow. */
  function ShiftResult(opcode: byte, a: int, b: int, width: nat): Option<int> {
    if opcode == 0x17 then
      if b == 0 || !FitsI128(Quotient(a, b)) then None else Some(Quotient(a, b))
    else if b < 0 || b >= width then None
    else
      Pow2IsPositive(b);
      if opcode == 0x18 then Some(Wrap128(a * Pow2(b))) else Some(a / Pow2(b))
  }

  /** Twice the limit of a width, which is checked for overflow. */
  function Modulus(width: nat): (r: Option<int>)
    requires 0 < width <= 128
    ensures r.Some? ==> r.value > 0
  {
    Pow2IsPositive(width - 1);
    var twice := 2 * Wrap128(Pow2(width - 1));
    if width < 128 && FitsI128(twice) && twice > 0 then Some(twice) else None
  }

  /** Fits the result into the width: unsigned, signed or wrapped around. */
  function Fitted(m: Machine, result: int, width: nat, flavor: byte): (r: Effect<()>)
    requires 0 < width <= 128
    ensures Quiet(m, r)
  {
    var limit := Wrap128(Pow2(width - 1));
    if flavor == 0 then
      if result < 0 || Modulus(width).None? || result >= Modulus(width).value then Raised(IntegerOverflow, m)
      else PushI128(m, result)
    else if flavor == 1 then
      if !FitsI128(-limit) then Trap
      else if -limit <= result < limit then PushI128(m, result)
      else Raised(IntegerOverflow, m)
    else if Modulus(width).None? then Raised(IntegerOverflow, m)
    else PushI128(m, result % Modulus(width).value)
  }

  /** 0x17 to 0x19, after the gas. */
  function WideArithmetic(m: Machine, opcode: byte): (r: Effect<()>)
    ensures Quiet(m, r)
  {
    var width :- ReadWord(m);
    var flavor :- ReadByte(width.machine);
    if width.value == 0 || width.value > 128 || flavor.value > 2 then Raised(Malformed, flavor.machine)
    else
      var two :- PopTwo(flavor.machine);
      match ShiftResult(opcode, two.value.0, two.value.1, width.value)
      case None => Raised(IntegerOverflow, two.machine)
      case Some(result) => Fitted(two.machine, result, width.value, flavor.value)
  }

  function Convert(m: Machine): (r: Effect<()>)
    ensures Quiet(m, r)
  {
    var width :- ReadWord(m);
    var sign :- ReadByte(width.machine);
    var a :- PopInteger(sign.machine);
    Push(a.machine, Integer(a.value))
  }

  // ---------- 0x30 to 0x33: byte strings ----------

  function ByteLength(m: Machine): (r: Effect<()>)
    ensures Quiet(m, r)
  {
    var octets :- PopBytes(m);
    PushI128(octets.machine, |octets.value|)
  }

  function PopTwoBytes(m: Machine): (r: Effect<(seq<byte>, seq<byte>)>)
    ensures Quiet(m, r)
  {
    var b :- PopBytes(m);
    var a :- PopBytes(b.machine);
    Good((a.value, b.value), a.machine)
  }

  /** The part of a byte string; the host panics when the end is not a 64-bit number. */
  function SubBytes(m: Machine): (r: Effect<()>)
    ensures Quiet(m, r)
  {
    var len :- PopI128(m);
    var offset :- PopI128(len.machine);
    var octets :- PopBytes(offset.machine);
    var from, n := offset.value % (U64_MAX + 1), len.value % (U64_MAX + 1);
    if from + n > U64_MAX then Trap
    else if from + n > |octets.value| then Raised(Malformed, octets.machine)
    else Push(octets.machine, Octets(octets.value[from..from + n]))
  }

  // ---------- 0x40 to 0x4C: cells ----------

  function EndCell(m: Machine, env: Environment): (r: Effect<()>)
    ensures Quiet(m, r)
  {
    var b :- PopBuilder(m);
    var refs := seq<bytes32>(|b.value.refs|, i requires 0 <= i < |b.value.refs| => env.cellHash(b.value.refs[i]));
    var cell: VmCell := Cell(b.value.data, refs, false);
    if !cell.Fits() then Raised(Malformed, b.machine) else Push(b.machine, CellOf(cell))
  }

  /** Writes bits behind the first at bits, extending the data by one byte at a time; None is a panic of the host. */
  function WriteBits(data: seq<byte>, at: nat, bits: Bits): Option<seq<byte>>
    decreases |bits|
  {
    if bits == [] then Some(data)
    else
      var grown := Grown(data, at);
      if at / 8 >= |grown| then None
      else WriteBits(if bits[0] then SetBit(grown, at) else grown, at + 1, bits[1..])
  }

  function StoreBits(m: Machine): (r: Effect<()>)
    ensures Quiet(m, r)
  {
    var width :- ReadWord(m);
    var sign :- ReadByte(width.machine);
    var value :- PopInteger(sign.machine);
    var b :- PopBuilder(value.machine);
    if width.value > 256 || b.value.bitLen + width.value > MAX_BITS then Raised(Malformed, b.machine)
    else
      match WriteBits(b.value.data, b.value.bitLen, LowBits(value.value, width.value))
      case None => Trap
      case Some(data) => Push(b.machine, BuilderOf(BuilderValue(data, b.value.bitLen + width.value, b.value.refs)))
  }

  function StoreRef(m: Machine): (r: Effect<()>)
    ensures Quiet(m, r)
  {
    var cell :- PopCell(m);
    var b :- PopBuilder(cell.machine);
    if |b.value.refs| >= 4 then Raised(Malformed, b.machine)
    else Push(b.machine, BuilderOf(b.value.(refs := b.value.refs + [cell.value])))
  }

  function OpenCell(m: Machine): (r: Effect<()>)
    ensures Quiet(m, r)
  {
    var cell :- PopCell(m);
    if cell.value.special then Raised(AbsentNode, cell.machine)
    else Push(cell.machine, SliceOf(SliceValue(cell.value, 0, 0, [])))
  }

  function LoadBits(m: Machine): (r: Effect<()>)
    ensures Quiet(m, r)
  {
    var width :- ReadWord(m);
    var s :- PopSlice(width.machine);
    match ReadAt(s.value.cell.data, s.value.bitOffset, width.value)
    case Err(_) => Raised(Malformed, s.machine)
    case Ok(number) =>
      var p :- Push(s.machine, SliceOf(s.value.(bitOffset := s.value.bitOffset + width.value)));
      Push(p.machine, Integer(number))
  }

  function LoadRef(m: Machine): (r: Effect<()>)
    ensures Quiet(m, r)
  {
    var s :- PopSlice(m);
    if s.value.RemainingRefs() == 0 then Raised(Malformed, s.machine)
    else
      var at := s.value.refOffset;
      var cell := if at < |s.value.children| then s.value.children[at] else Cell([], [s.value.cell.refs[at]], false);
      var p :- Push(s.machine, SliceOf(s.value.(refOffset := at + 1)));
      Push(p.machine, CellOf(cell))
  }

  function IsExotic(m: Machine): (r: Effect<()>)
    ensures Quiet(m, r)
  {
    var cell :- PopCell(m);
    PushI128(cell.machine, Truth(cell.value.special))
  }

  /** 0x4A to 0x4C: is the slice empty, and what is left of it. */
  function SliceState(m: Machine, opcode: byte): (r: Effect<()>)
    ensures Quiet(m, r)
  {
    var s :- PopSlice(m);
    var bits, refs := s.value.RemainingBits(), s.value.RemainingRefs();
    PushI128(s.machine, if opcode == 0x4A then Truth(bits == 0 && refs == 0) else if opcode == 0x4B then bits else refs)
  }

  // ---------- 0x60 to 0x62: hashes and signatures ----------

  function HashBytes(m: Machine, env: Environment): (r: Effect<()>)
    ensures Quiet(m, r)
  {
    var octets :- PopBytes(m);
    Push(octets.machine, Integer(env.bytesHash(octets.value)))
  }

  function HashCell(m: Machine, env: Environment): (r: Effect<()>)
    ensures Quiet(m, r)
  {
    var cell :- PopCell(m);
    Push(cell.machine, Integer(env.cellHash(cell.value)))
  }

  function CheckSignature(m: Machine, env: Environment): (r: Effect<()>)
    ensures Quiet(m, r)
  {
    var hash :- PopInteger(m);
    var signature :- PopBytes(hash.machine);
    var key :- PopBytes(signature.machine);
    if |key.value| != 32 || |signature.value| != 64 then Raised(TypeMismatch, key.machine)
    else PushI128(key.machine, Truth(env.verify(key.value, hash.value, signature.value)))
  }

  // ---------- Instructions that are paid for in advance ----------

  /** What the instruction costs, if that does not depend on its operands. */
  function Price(opcode: byte): Option<nat> {
    if opcode <= 0x0C then if opcode == 0x09 then None else Some(1)
    else if 0x10 <= opcode <= 0x15 then Some(if opcode == 0x13 || opcode == 0x14 then 8 else 4)
    else if opcode == 0x16 then Some(4)
    else if 0x17 <= opcode <= 0x19 then Some(if opcode == 0x17 then 8 else 4)
    else if opcode == 0x20 || opcode == 0x32 then Some(4)
    else if opcode == 0x30 then Some(1)
    else if 0x40 <= opcode <= 0x49 then if opcode == 0x44 then None else Some(10)
    else if 0x4A <= opcode <= 0x4C then Some(1)
    else if opcode == 0x60 || opcode == 0x61 then Some(200)
    else if opcode == 0x62 then Some(4000)
    else None
  }

  /** The instruction after its gas has been consumed. */
  function Perform(m: Machine, opcode: byte, env: Environment): (r: Effect<()>)
    ensures Quiet(m, r)
  {
    match opcode
    case 0x00 => Good((), m)
    case 0x01 => Drop(m)
    case 0x02 => Copy(m, 0)
    case 0x03 => Swap(m)
    case 0x04 => Copy(m, 1)
    case 0x05 => Rotate(m)
    case 0x06 => Pick(m)
    case 0x07 => Roll(m)
    case 0x08 => PushInt(m)
    case 0x0A => Nip(m)
    case 0x0B => Tuck(m)
    case 0x0C => BlockSwap(m)
    case 0x16 => IsZero(m)
    case 0x20 => Convert(m)
    case 0x30 => ByteLength(m)
    case 0x32 => SubBytes(m)
    case _ =>
      if 0x10 <= opcode <= 0x15 then Arithmetic(m, opcode)
      else if 0x17 <= opcode <= 0x19 then WideArithmetic(m, opcode)
      else PerformOnCells(m, opcode, env)
  }

  function PerformOnCells(m: Machine, opcode: byte, env: Environment): (r: Effect<()>)
    ensures Quiet(m, r)
  {
    match opcode
    case 0x40 => Push(m, BuilderOf(BuilderValue([], 0, [])))
    case 0x41 => EndCell(m, env)
    case 0x42 => StoreBits(m)
    case 0x43 => StoreRef(m)
    case 0x45 => OpenCell(m)
    case 0x46 => LoadBits(m)
    case 0x47 => LoadBits(m)
    case 0x48 => LoadRef(m)
    case 0x49 => IsExotic(m)
    case 0x60 => HashBytes(m, env)
    case 0x61 => HashCell(m, env)
    case 0x62 => CheckSignature(m, env)
    case _ => SliceState(m, opcode)
  }

  /** Execution goes on behind an instruction that came to an end. */
  function GoesOn(r: Effect<()>): Effect<bool> {
    match r
    case Good(_, machine) => Good(true, machine)
    case Raised(kind, machine) => Raised(kind, machine)
    case Trap => Trap
  }

  function PaidInAdvance(m: Machine, price: nat, opcode: byte, env: Environment): (r: Effect<bool>)
    requires price > 0
    ensures Instruction(m, r)
  {
    var gas :- ConsumeGas(m, price);
    GoesOn(Perform(gas.machine, opcode, env))
  }

  // ---------- Instructions that are paid for by the size of their operands ----------

  function PushOctets(m: Machine): (r: Effect<bool>)
    ensures Instruction(m, r)
  {
    var len :- ReadWord(m);
    var gas :- ConsumeGas(len.machine, 1 + Units(len.value));
    var octets :- ReadBytes(gas.machine, len.value);
    GoesOn(Push(octets.machine, Octets(octets.value)))
  }

  function Concatenate(m: Machine): (r: Effect<bool>)
    ensures Instruction(m, r)
  {
    var two :- PopTwoBytes(m);
    var (a, b) := two.value;
    var gas :- ConsumeGas(two.machine, 4 + Units(|a| + |b|));
    GoesOn(Push(gas.machine, Octets(a + b)))
  }

  function ByteEqual(m: Machine): (r: Effect<bool>)
    ensures Instruction(m, r)
  {
    var two :- PopTwoBytes(m);
    var (a, b) := two.value;
    var gas :- ConsumeGas(two.machine, 1 + Units(Min(|a|, |b|)));
    GoesOn(PushI128(gas.machine, Truth(a == b)))
  }

  function StoreBytes(m: Machine): (r: Effect<bool>)
    ensures Instruction(m, r)
  {
    var octets :- PopBytes(m);
    var gas :- ConsumeGas(octets.machine, 10 + Units(|octets.value|));
    var b :- PopBuilder(gas.machine);
    if |b.value.data| + |octets.value| > MAX_CELL_DATA_BYTES then Raised(Malformed, b.machine)
    else GoesOn(Push(b.machine, BuilderOf(b.value.(data := b.value.data + octets.value))))
  }

  // ---------- 0x70 to 0x7B: control flow ----------

  /** A jump by a number of bytes that stays inside the code. */
  function Branch(m: Machine, offset: int): (r: Effect<bool>)
    ensures Quiet(m, r)
  {
    var pc := m.pc + 8 * offset;
    if 0 <= pc <= 8 * |m.code.data| then Good(true, m.(pc := pc)) else Raised(Malformed, m)
  }

  /** The condition under which a jump or call is taken. */
  function JumpCondition(m: Machine, opcode: byte): (r: Effect<bool>)
    ensures Quiet(m, r)
  {
    if opcode == 0x70 || opcode == 0x71 then Good(true, m)
    else
      var a :- PopI128(m);
      Good(if opcode == 0x73 || opcode == 0x75 then a.value != 0 else a.value == 0, a.machine)
  }

  /** 0x70, 0x73 and 0x74 jump to a piece of code; 0x71, 0x75 and 0x76 call it. */
  function JumpOrCall(m: Machine, opcode: byte): (r: Effect<bool>)
    ensures Instruction(m, r)
  {
    var gas :- ConsumeGas(m, 4);
    var index :- ReadByte(gas.machine);
    var taken :- JumpCondition(index.machine, opcode);
    var n := taken.machine;
    if !taken.value then Good(true, n)
    else if index.value as nat >= |n.codeRefs| then Raised(Malformed, n)
    else
      var here := Continuation(n.code, n.pc);
      var entered := n.(code := n.codeRefs[index.value as nat], pc := 0);
      if opcode == 0x71 || opcode == 0x75 || opcode == 0x76
      then Good(true, entered.(callStack := n.callStack + [here], c0 := Some(here)))
      else Good(true, entered)
  }

  /** Goes back to c0, or ends the program; c0 becomes the innermost call that is still open. */
  function Return(m: Machine): (r: Effect<bool>)
    ensures r.Good? && GasKept(m, r.machine) && r.machine.stack == m.stack && r.machine.gasUsed == m.gasUsed
    ensures |r.machine.callStack| <= |m.callStack|
  {
    match m.c0
    case None => Good(false, m)
    case Some(target) =>
      var open := if m.callStack == [] then [] else m.callStack[..|m.callStack| - 1];
      var outer := if open == [] then None else Some(open[|open| - 1]);
      Good(true, m.(code := target.code, pc := target.pc, callStack := open, c0 := outer))
  }

  function ReturnAlways(m: Machine): (r: Effect<bool>)
    ensures Instruction(m, r)
  {
    var gas :- ConsumeGas(m, 4);
    Return(gas.machine)
  }

  function ReturnIf(m: Machine): (r: Effect<bool>)
    ensures Instruction(m, r)
  {
    var gas :- ConsumeGas(m, 4);
    var condition :- PopI128(gas.machine);
    if condition.value != 0 then Return(condition.machine) else Good(true, condition.machine)
  }

  function Throw(m: Machine): (r: Effect<bool>)
    ensures Instruction(m, r)
  {
    var gas :- ConsumeGas(m, 4);
    var kind :- ReadByte(gas.machine);
    Raised(if kind.value == 0 then IntegerOverflow else if kind.value == 1 then AbsentNode
           else if kind.value == 3 then TypeMismatch else Malformed, kind.machine)
  }

  function IfElse(m: Machine): (r: Effect<bool>)
    ensures Instruction(m, r)
  {
    var gas :- ConsumeGas(m, 4);
    var yes :- ReadByte(gas.machine);
    var no :- ReadByte(yes.machine);
    var condition :- PopI128(no.machine);
    Branch(condition.machine, Signed(if condition.value != 0 then yes.value else no.value))
  }

  function Repeat(m: Machine): (r: Effect<bool>)
    ensures Instruction(m, r)
  {
    var gas :- ConsumeGas(m, 4);
    var count :- ReadByte(gas.machine);
    var offset :- ReadByte(count.machine);
    if count.value > 0 then Branch(offset.machine, Signed(offset.value)) else Good(true, offset.machine)
  }

  function Until(m: Machine): (r: Effect<bool>)
    ensures Instruction(m, r)
  {
    var gas :- ConsumeGas(m, 4);
    var offset :- ReadByte(gas.machine);
    var condition :- PopI128(offset.machine);
    if condition.value == 0 then Branch(condition.machine, Signed(offset.value)) else Good(true, condition.machine)
  }

  /** One instruction, its opcode having been read. */
  function Execute(m: Machine, opcode: byte, env: Environment): (r: Effect<bool>)
    ensures Instruction(m, r)
  {
    if Price(opcode).Some? then PaidInAdvance(m, Price(opcode).value, opcode, env)
    else
      match opcode
      case 0x09 => PushOctets(m)
      case 0x31 => Concatenate(m)
      case 0x33 => ByteEqual(m)
      case 0x44 => StoreBytes(m)
      case 0x72 => ReturnAlways(m)
      case 0x77 => Throw(m)
      case 0x78 => IfElse(m)
      case 0x79 => ReturnIf(m)
      case 0x7A => Repeat(m)
      case 0x7B => Until(m)
      case _ => if 0x70 <= opcode <= 0x76 then JumpOrCall(m, opcode) else Raised(Malformed, m)
  }

  /** One step: an instruction, or the implicit return at the end of a piece of code. */
  function Step(m: Machine, env: Environment): Effect<bool> {
    if m.pc >= 8 * |m.code.data| then
      if m.callStack == [] then Good(false, m)
      else
        var last := m.callStack[|m.callStack| - 1];
        Good(true, m.(code := last.code, pc := last.pc, callStack := m.callStack[..|m.callStack| - 1]))
    else
      var opcode :- ReadByte(m);
      Execute(opcode.machine, opcode.value, env)
  }

  // ---------- Termination ----------

  /** What is left of the gas counts twice, as a call that is paid for has to be returned from. */
  function Measure(m: Machine): int {
    2 * (m.gasLimit - m.gasUsed) + |m.callStack|
  }

  /** No step gives gas back, exceeds the limit or deepens the stack too far. */
  lemma StepKeepsBounds(m: Machine, env: Environment)
    requires !Step(m, env).Trap?
    ensures GasKept(m, Step(m, env).machine) && StackKept(m, Step(m, env).machine)
  {
  }

  /** A step that lets execution continue decreases the measure, unless the gas counter has saturated. */
  lemma StepMakesProgress(m: Machine, env: Environment)
    requires m.gasUsed <= m.gasLimit < U64_MAX && Step(m, env).Good? && Step(m, env).value
    ensures Measure(Step(m, env).machine) < Measure(m)
  {
  }

  /** The machine after some steps, all of which let execution continue. */
  function After(m: Machine, env: Environment, steps: nat): Option<Machine>
    decreases steps
  {
    if steps == 0 then Some(m)
    else
      match Step(m, env)
      case Good(true, next) => After(next, env, steps - 1)
      case _ => None
  }

  lemma {:induction false} AfterOneMore(m: Machine, env: Environment, steps: nat)
    requires After(m, env, steps).Some?
    ensures
      var r := Step(After(m, env, steps).value, env);
      After(m, env, steps + 1) == if r.Good? && r.value then Some(r.machine) else None
    decreases steps
  {
    hide Step;
    if steps > 0 {
      AfterOneMore(Step(m, env).machine, env, steps - 1);
    }
  }

  /** However it is programmed, a machine with less gas than the counter can hold comes to a halt. */
  lemma {:induction false} EveryRunHalts(m: Machine, env: Environment, steps: nat)
    requires m.gasUsed <= m.gasLimit < U64_MAX && After(m, env, steps).Some?
    ensures
      var n := After(m, env, steps).value;
      && m.gasUsed <= n.gasUsed <= n.gasLimit == m.gasLimit && StackKept(m, n)
      && steps + Measure(n) <= Measure(m) && steps <= 2 * m.gasLimit + |m.callStack|
    decreases steps
  {
    hide Step;
    if steps > 0 {
      StepMakesProgress(m, env);
      StepKeepsBounds(m, env);
      EveryRunHalts(Step(m, env).machine, env, steps - 1);
    }
  }

  // ---------- The one limit that does not end every run ----------

  lemma AlignedBit(data: seq<byte>, k: nat, j: nat)
    requires k < |data| && j < 8
    ensures BitAt(data, 8 * k + j) == Bit(data[k], j)
  {
  }

  lemma OctetBit(bits: Bits, j: nat)
    requires |bits| == 8 && j < 8
    ensures Bit(Octet(bits, 0, 8), j) == bits[j]
  {
  }

  lemma AlignedByte(data: seq<byte>, k: nat)
    requires k < |data|
    ensures Octet(BitsOf(data, 8 * k, 8), 0, 8) == data[k]
  {
    hide *;
    var bits := BitsOf(data, 8 * k, 8);
    forall j: nat | j < 8
      ensures Bit(Octet(bits, 0, 8), j) == Bit(data[k], j)
    {
      AlignedBit(data, k, j);
      OctetBit(bits, j);
    }
    BitsDetermineByte(Octet(bits, 0, 8), data[k]);
  }

  lemma ReadAligned(m: Machine, k: nat)
    requires m.pc == 8 * k && k < |m.code.data|
    ensures ReadByte(m) == Good(m.code.data[k], m.(pc := m.pc + 8))
  {
    AlignedByte(m.code.data, k);
  }

  /** REPEAT 1, -3 bytes: a jump to itself. */
  const LOOP: seq<byte> := [0x7A, 0x01, 0xFD]

  function Spin(m: Machine): Machine {
    m.(gasUsed := Min(m.gasUsed + 4, U64_MAX))
  }

  lemma SpinningStep(m: Machine, env: Environment)
    requires m.code.data == LOOP && m.pc == 0 && m.gasLimit == U64_MAX
    ensures Step(m, env) == Good(true, Spin(m))
  {
    hide PaidInAdvance;
    ReadAligned(m, 0);
    var begun := m.(pc := 8);
    var paid := Spin(m).(pc := 8);
    assert ConsumeGas(begun, 4) == Good((), paid);
    ReadAligned(paid, 1);
    ReadAligned(paid.(pc := 16), 2);
    assert Price(0x7A) == None;
    assert Repeat(begun) == Branch(paid.(pc := 24), -3);
  }

  lemma {:induction false} SpinsForever(m: Machine, env: Environment, steps: nat)
    requires m.code.data == LOOP && m.pc == 0 && m.gasLimit == U64_MAX
    ensures After(m, env, steps).Some?
    decreases steps
  {
    hide Step;
    if steps > 0 {
      SpinningStep(m, env);
      SpinsForever(Spin(m), env, steps - 1);
    }
  }

  /** The bound of the termination theorem, for all machines of a limit. */
  ghost predicate BoundsRuns(limit: u64, env: Environment) {
    forall m: Machine, steps: nat :: m.gasUsed <= m.gasLimit == limit && After(m, env, steps).Some? ==>
      steps <= 2 * limit + |m.callStack|
  }

  /** The gas limit bounds every run exactly when it is below the largest value of the counter. */
  lemma LimitBoundsRuns(limit: u64, env: Environment)
    ensures BoundsRuns(limit, env) <==> limit < U64_MAX
  {
    if limit < U64_MAX {
      forall m: Machine, steps: nat | m.gasUsed <= m.gasLimit == limit && After(m, env, steps).Some?
        ensures steps <= 2 * limit + |m.callStack|
      {
        EveryRunHalts(m, env, steps);
      }
    } else {
      var m := Machine([], [], Cell(LOOP, [], false), 0, 0, limit, [], None, None);
      var steps := 2 * limit + 1;
      SpinsForever(m, env, steps);
      assert !(steps <= 2 * limit + |m.callStack|);
    }
  }

  // ---------- The loop ----------

  datatype ExecutionResult = Success(gasUsed: u64) | Exception(kind: VmTypes.Exception, gasUsed: u64) | Panic

  /** The result of a run whose last step had this effect. */
  function ResultOf(r: Effect<bool>): ExecutionResult
    requires !(r.Good? && r.value)
  {
    match r
    case Good(_, machine) => Success(machine.gasUsed)
    case Raised(kind, machine) => Exception(kind, machine.gasUsed)
    case Trap => Panic
  }

  class Interpreter {
    const env: Environment
    var stack: seq<StackValue>
    var callStack: seq<Continuation>
    var currentCode: VmCell
    var pc: nat
    var gasLimit: u64
    var gasUsed: u64
    var codeRefs: seq<VmCell>
    var c0: Option<Continuation>
    var c1: Option<Continuation>

    function View(): Machine
      reads this
    {
      Machine(stack, callStack, currentCode, pc, gasUsed, gasLimit, codeRefs, c0, c1)
    }

    constructor (env: Environment, code: VmCell, gasLimit: u64)
      ensures this.env == env && View() == Machine([], [], code, 0, 0, gasLimit, [], None, None)
    {
      this.env, this.gasLimit, currentCode := env, gasLimit, code;
      stack, callStack, pc, gasUsed, codeRefs, c0, c1 := [], [], 0, 0, [], None, None;
    }

    method Become(m: Machine)
      modifies this
      ensures View() == m
    {
      stack, callStack, currentCode, pc := m.stack, m.callStack, m.code, m.pc;
      gasUsed, gasLimit, codeRefs, c0, c1 := m.gasUsed, m.gasLimit, m.codeRefs, m.c0, m.c1;
    }

    /** Steps until the program ends or raises an exception, which a bounded number of steps brings about. */
    method Run() returns (result: ExecutionResult, ghost steps: nat)
      requires gasUsed <= gasLimit < U64_MAX
      modifies this
      ensures After(old(View()), env, steps).Some? && steps <= 2 * old(gasLimit) + |old(callStack)|
      ensures
        var last := Step(After(old(View()), env, steps).value, env);
        !(last.Good? && last.value) && result == ResultOf(last) && (!last.Trap? ==> View() == last.machine)
      ensures result.Panic? || old(gasUsed) <= gasUsed <= gasLimit == old(gasLimit)
      ensures !result.Panic? && |old(stack)| <= MAX_STACK_DEPTH ==> |stack| <= MAX_STACK_DEPTH
    {
      hide Step;
      steps := 0;
      while true
        invariant After(old(View()), env, steps) == Some(View())
        invariant old(gasUsed) <= gasUsed <= gasLimit == old(gasLimit) && StackKept(old(View()), View())
        decreases Measure(View())
      {
        var r := Step(View(), env);
        if r.Trap? {
          EveryRunHalts(old(View()), env, steps);
          return Panic, steps;
        }
        StepKeepsBounds(View(), env);
        if r.Good? && r.value {
          StepMakesProgress(View(), env);
          AfterOneMore(old(View()), env, steps);
          Become(r.machine);
          steps := steps + 1;
        } else {
          EveryRunHalts(old(View()), env, steps);
          Become(r.machine);
          return ResultOf(r), steps;
        }
      }
    }
  }
}
