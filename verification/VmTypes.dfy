/**
 Values, registers and the effect of a piece of an instruction
 (crates/protocol/onx-execution/src/types.rs, continuation.rs, interpreter.rs).
 */
module VmTypes {
  import opened Wrappers
  import opened Bytes
  import opened Packing
  import opened Cells
  import opened BitIO

  type VmCell = Cell<bytes32>

  datatype Exception = OutOfGas | IntegerOverflow | AbsentNode | Malformed | TypeMismatch

  datatype SliceValue = SliceValue(cell: VmCell, bitOffset: nat, refOffset: nat, children: seq<VmCell>) {
    function RemainingBits(): nat {
      Remaining(cell.data, bitOffset)
    }

    function RemainingRefs(): nat {
      if refOffset <= |cell.refs| then |cell.refs| - refOffset else 0
    }
  }

  datatype BuilderValue = BuilderValue(data: seq<byte>, bitLen: nat, refs: seq<VmCell>)

  datatype StackValue =
    | Integer(number: bytes32)
    | Octets(octets: seq<byte>)
    | CellOf(cell: VmCell)
    | SliceOf(slice: SliceValue)
    | BuilderOf(builder: BuilderValue)

  datatype Continuation = Continuation(code: VmCell, pc: nat)

  /** c2 is the exception handler; the machines of this model have none. */
  datatype Machine = Machine(stack: seq<StackValue>, callStack: seq<Continuation>, code: VmCell, pc: nat, gasUsed: u64,
                             gasLimit: u64, codeRefs: seq<VmCell>, c0: Option<Continuation>, c1: Option<Continuation>)

  /** Hashing and signature checking. */
  datatype Environment = Environment(cellHash: VmCell -> bytes32, bytesHash: seq<byte> -> bytes32,
                                     verify: (seq<byte>, bytes32, seq<byte>) -> bool)

  /** A result with the machine it leaves, an exception with the machine it leaves, or a panic of the host. */
  datatype Effect<+T> = Good(value: T, machine: Machine) | Raised(kind: Exception, machine: Machine) | Trap {
    predicate IsFailure() {
      !Good?
    }

    function PropagateFailure<U>(): Effect<U>
      requires !Good?
    {
      match this
      case Raised(kind, machine) => Raised(kind, machine)
      case Trap => Trap
    }

    function Extract(): Effect<T>
      requires Good?
    {
      this
    }
  }

  const MAX_STACK_DEPTH := 1023

  // ---------- What a piece of an instruction leaves alone ----------

  /** Nothing but the stack and the program counter has changed, and the stack is not too deep. */
  predicate OnlyStackAndPc(m: Machine, n: Machine) {
    n == m.(stack := n.stack, pc := n.pc) && (|m.stack| <= MAX_STACK_DEPTH ==> |n.stack| <= MAX_STACK_DEPTH)
  }

  predicate Quiet<T>(m: Machine, r: Effect<T>) {
    r.Trap? || OnlyStackAndPc(m, r.machine)
  }

  /** Gas is never given back and never used beyond the limit. */
  predicate GasKept(m: Machine, n: Machine) {
    n.gasLimit == m.gasLimit && (m.gasUsed <= m.gasLimit ==> m.gasUsed <= n.gasUsed <= n.gasLimit)
  }

  predicate StackKept(m: Machine, n: Machine) {
    |m.stack| <= MAX_STACK_DEPTH ==> |n.stack| <= MAX_STACK_DEPTH
  }

  /** Gas was used, or the counter of gas stands at its last value; at most one call was entered. */
  predicate Paid(m: Machine, n: Machine) {
    (m.gasUsed < n.gasUsed || n.gasUsed == U64_MAX) && |n.callStack| <= |m.callStack| + 1
  }

  /** An instruction that lets execution continue has been paid for. */
  predicate Instruction(m: Machine, r: Effect<bool>) {
    || r.Trap?
    || (GasKept(m, r.machine) && StackKept(m, r.machine) && (r.Good? && r.value ==> Paid(m, r.machine)))
  }

  // ---------- Gas, stack, code ----------

  /** The sum saturates; an unpaid instruction uses up all gas. */
  function ConsumeGas(m: Machine, amount: nat): (r: Effect<()>)
    ensures !r.Trap? && r.machine == m.(gasUsed := r.machine.gasUsed) && GasKept(m, r.machine)
    ensures r.Good? && amount > 0 ==> Paid(m, r.machine)
    ensures r.Raised? ==> r.kind == OutOfGas && r.machine.gasUsed == m.gasLimit < m.gasUsed + amount
    ensures r.Good? && m.gasUsed + amount <= U64_MAX ==> r.machine.gasUsed == m.gasUsed + amount <= m.gasLimit
    ensures r.Good? && m.gasUsed + amount > U64_MAX ==> r.machine.gasUsed == m.gasLimit == U64_MAX
  {
    var used := Min(m.gasUsed + amount, U64_MAX);
    if used > m.gasLimit then Raised(OutOfGas, m.(gasUsed := m.gasLimit)) else Good((), m.(gasUsed := used))
  }

  function Pop(m: Machine): (r: Effect<StackValue>)
    ensures Quiet(m, r)
  {
    if m.stack == [] then Raised(Malformed, m)
    else Good(m.stack[|m.stack| - 1], m.(stack := m.stack[..|m.stack| - 1]))
  }

  function Push(m: Machine, v: StackValue): (r: Effect<()>)
    ensures Quiet(m, r)
  {
    if |m.stack| >= MAX_STACK_DEPTH then Raised(Malformed, m) else Good((), m.(stack := m.stack + [v]))
  }

  function PopInteger(m: Machine): (r: Effect<bytes32>)
    ensures Quiet(m, r)
  {
    var v :- Pop(m);
    if v.value.Integer? then Good(v.value.number, v.machine) else Raised(TypeMismatch, v.machine)
  }

  function PopBytes(m: Machine): (r: Effect<seq<byte>>)
    ensures Quiet(m, r)
  {
    var v :- Pop(m);
    if v.value.Octets? then Good(v.value.octets, v.machine) else Raised(TypeMismatch, v.machine)
  }

  function PopCell(m: Machine): (r: Effect<VmCell>)
    ensures Quiet(m, r)
  {
    var v :- Pop(m);
    if v.value.CellOf? then Good(v.value.cell, v.machine) else Raised(TypeMismatch, v.machine)
  }

  function PopSlice(m: Machine): (r: Effect<SliceValue>)
    ensures Quiet(m, r)
  {
    var v :- Pop(m);
    if v.value.SliceOf? then Good(v.value.slice, v.machine) else Raised(TypeMismatch, v.machine)
  }

  function PopBuilder(m: Machine): (r: Effect<BuilderValue>)
    ensures Quiet(m, r)
  {
    var v :- Pop(m);
    if v.value.BuilderOf? then Good(v.value.builder, v.machine) else Raised(TypeMismatch, v.machine)
  }

  /** The eight bits from the program counter on, wherever it stands in a byte. */
  function ReadByte(m: Machine): (r: Effect<byte>)
    ensures Quiet(m, r)
  {
    if m.pc + 8 > 8 * |m.code.data| then Raised(Malformed, m)
    else Good(Octet(BitsOf(m.code.data, m.pc, 8), 0, 8), m.(pc := m.pc + 8))
  }

  function ReadWord(m: Machine): (r: Effect<nat>)
    ensures Quiet(m, r)
  {
    var high :- ReadByte(m);
    var low :- ReadByte(high.machine);
    Good(256 * high.value as nat + low.value as nat, low.machine)
  }

  function ReadBytes(m: Machine, n: nat): (r: Effect<seq<byte>>)
    ensures Quiet(m, r)
    ensures r.Good? ==> |r.value| == n
  {
    if n == 0 then Good([], m)
    else
      var front :- ReadBytes(m, n - 1);
      var last :- ReadByte(front.machine);
      Good(front.value + [last.value], last.machine)
  }

  // ---------- 128-bit arithmetic ----------

  const I128_LIMIT := 0x8000_0000_0000_0000_0000_0000_0000_0000

  predicate FitsI128(v: int) {
    -I128_LIMIT <= v < I128_LIMIT
  }

  /** The last sixteen bytes as a number in two's complement. */
  function ToI128(number: bytes32): int {
    var v := FromBigEndian(number[16..]);
    if v >= I128_LIMIT then v - 2 * I128_LIMIT else v
  }

  function FromI128(v: int): bytes32 {
    var fill: byte := if v < 0 then 0xFF else 0;
    seq(16, _ => fill) + BigEndian(v % (2 * I128_LIMIT), 16)
  }

  /** Numbers survive being put on the stack. */
  lemma NumberRoundTrip(v: int)
    requires FitsI128(v)
    ensures ToI128(FromI128(v)) == v
  {
    var low := v % (2 * I128_LIMIT);
    assert low == if v < 0 then v + 2 * I128_LIMIT else v;
    assert FromI128(v)[16..] == BigEndian(low, 16);
    SixteenBytes(low);
  }

  lemma SixteenBytes(low: nat)
    requires low < 2 * I128_LIMIT
    ensures FromBigEndian(BigEndian(low, 16)) == low
  {
    Pow256Values();
    BigEndianRoundTrip(low, 16);
  }

  /** What is left of a number that does not fit. */
  function Wrap128(v: int): int {
    var w := v % (2 * I128_LIMIT);
    if w >= I128_LIMIT then w - 2 * I128_LIMIT else w
  }

  function Abs(v: int): nat {
    if v < 0 then -v else v
  }

  /** Division towards zero. */
  function Quotient(a: int, b: int): int
    requires b != 0
  {
    var q := Abs(a) / Abs(b);
    if (a < 0) == (b < 0) then q else -q
  }

  function Pow2(n: nat): nat {
    if n == 0 then 1 else 2 * Pow2(n - 1)
  }

  lemma {:induction false} Pow2IsPositive(n: nat)
    ensures Pow2(n) > 0
  {
    if n > 0 {
      Pow2IsPositive(n - 1);
    }
  }

  function PopI128(m: Machine): (r: Effect<int>)
    ensures Quiet(m, r)
  {
    var n :- PopInteger(m);
    Good(ToI128(n.value), n.machine)
  }

  /** Pushes a number, or raises an overflow. */
  function PushI128(m: Machine, v: int): (r: Effect<()>)
    ensures Quiet(m, r)
  {
    if !FitsI128(v) then Raised(IntegerOverflow, m) else Push(m, Integer(FromI128(v)))
  }

  function Truth(b: bool): int {
    if b then 1 else 0
  }

  function Signed(b: byte): int {
    if b >= 128 then b as int - 256 else b as int
  }

  /** The units of 32 bytes that are paid for. */
  function Units(n: nat): nat {
    DivCeil(n, 32)
  }
}
