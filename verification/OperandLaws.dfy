/**
 Further instructions, as whole steps (crates/protocol/onx-execution/src/interpreter.rs): stack moves with operands,
   arithmetic
 fitted to a width, byte strings, exceptions, and a program that stores a number in a cell and loads it again.
 */
module OperandLaws {
  import opened Wrappers
  import opened Bytes
  import opened Packing
  import opened Cells
  import opened BitIO
  import opened VmTypes
  import opened Interpreters
  import opened VmLaws
  import opened InstructionLaws

  // ---------- Stack moves with operands ----------

  /** What some instructions are, once they have been paid for. */
  lemma PerformIs(m: Machine, op: byte, env: Environment)
    ensures op == 0x03 ==> Perform(m, op, env) == Swap(m)
    ensures op == 0x06 ==> Perform(m, op, env) == Pick(m)
    ensures op == 0x07 ==> Perform(m, op, env) == Roll(m)
    ensures op == 0x08 ==> Perform(m, op, env) == PushInt(m)
    ensures op == 0x0C ==> Perform(m, op, env) == BlockSwap(m)
    ensures op == 0x16 ==> Perform(m, op, env) == IsZero(m)
    ensures op == 0x32 ==> Perform(m, op, env) == SubBytes(m)
    ensures op == 0x40 ==> Perform(m, op, env) == Push(m, BuilderOf(BuilderValue([], 0, [])))
    ensures op == 0x41 ==> Perform(m, op, env) == EndCell(m, env)
    ensures op == 0x42 ==> Perform(m, op, env) == StoreBits(m)
    ensures op == 0x43 ==> Perform(m, op, env) == StoreRef(m)
    ensures op == 0x48 ==> Perform(m, op, env) == LoadRef(m)
    ensures op == 0x45 ==> Perform(m, op, env) == OpenCell(m)
    ensures op == 0x46 || op == 0x47 ==> Perform(m, op, env) == LoadBits(m)
  {
    hide Arithmetic, BlockSwap, Copy, Drop, EndCell, IsZero, LoadBits, LoadRef, Nip, OpenCell, Pick, Push, PushInt,
         Roll, Rotate, StoreBits, StoreRef, SubBytes, Swap, Tuck, WideArithmetic;
  }

  lemma OneOperandIsRead(m: Machine, k: nat, bytes: seq<byte>, price: nat)
    requires IsNext(m, k, bytes, price) && |bytes| == 2
    ensures ReadByte(Spent(Read(m, k, 1), price)) == Good(bytes[1], Behind(m, k, bytes, price, m.stack))
  {
    ByteIsRead(Spent(Read(m, k, 1), price), k, bytes, 1);
  }

  /** PICK d copies the value that lies d below the top. */
  lemma PickStep(m: Machine, env: Environment, k: nat, d: byte, low: Values, x: StackValue, high: Values)
    requires IsNext(m, k, [0x06, d], 1) && m.stack == low + [x] + high && |high| == d as nat
      && |m.stack| < MAX_STACK_DEPTH
    ensures Step(m, env) == Good(true, Behind(m, k, [0x06, d], 1, m.stack + [x]))
  {
    hide ReadByte, Perform, Step;
    IsPerformed(m, env, k, [0x06, d], 1);
    PerformIs(Spent(Read(m, k, 1), 1), 0x06, env);
    OneOperandIsRead(m, k, [0x06, d], 1);
    assert m.stack[|m.stack| - 1 - |high|] == x;
  }

  /** ROLL d moves it to the top. */
  lemma RollStep(m: Machine, env: Environment, k: nat, d: byte, low: Values, x: StackValue, high: Values)
    requires IsNext(m, k, [0x07, d], 1) && m.stack == low + [x] + high && |high| == d as nat
    ensures Step(m, env) == Good(true, Behind(m, k, [0x07, d], 1, low + high + [x]))
  {
    hide ReadByte, Perform, Step;
    IsPerformed(m, env, k, [0x07, d], 1);
    PerformIs(Spent(Read(m, k, 1), 1), 0x07, env);
    OneOperandIsRead(m, k, [0x07, d], 1);
    var at := |m.stack| - 1 - |high|;
    assert m.stack[at] == x && m.stack[..at] == low && m.stack[at + 1..] == high;
  }

  /** Both fail for a value that is not there. */
  lemma TooDeep(m: Machine, env: Environment, k: nat, op: byte, d: byte)
    requires (op == 0x06 || op == 0x07) && IsNext(m, k, [op, d], 1) && d as nat >= |m.stack|
    ensures Step(m, env).Raised? && Step(m, env).kind == Malformed
  {
    hide ReadByte, Perform, Step;
    IsPerformed(m, env, k, [op, d], 1);
    PerformIs(Spent(Read(m, k, 1), 1), op, env);
    OneOperandIsRead(m, k, [op, d], 1);
  }

  lemma BlocksAreSwapped(m: Machine, o: Machine, n: Machine, l: byte, r: byte, low: Values, x: Values, y: Values)
    requires ReadByte(m) == Good(l, o) && ReadByte(o) == Good(r, n) && n.stack == low + x + y
    requires |x| == l as nat > 0 && |y| == r as nat > 0
    ensures BlockSwap(m) == Good((), n.(stack := low + y + x))
  {
    hide ReadByte;
    ByteIsZero(l);
    ByteIsZero(r);
    var s := n.stack;
    assert s[..|low|] == low && s[|low| + |x|..] == y && s[|low|..|low| + |x|] == x;
  }

  /** BLKSWAP exchanges the two blocks on top. */
  lemma BlockSwapStep(m: Machine, env: Environment, k: nat, l: byte, r: byte, low: Values, x: Values, y: Values)
    requires IsNext(m, k, [0x0C, l, r], 1) && m.stack == low + x + y
    requires |x| == l as nat > 0 && |y| == r as nat > 0
    ensures Step(m, env) == Good(true, Behind(m, k, [0x0C, l, r], 1, low + y + x))
  {
    hide ReadByte, Perform, Step, BlockSwap;
    var bytes, begun := [0x0C, l, r], Spent(Read(m, k, 1), 1);
    IsPerformed(m, env, k, bytes, 1);
    PerformIs(begun, 0x0C, env);
    ByteIsRead(begun, k, bytes, 1);
    ByteIsRead(Read(begun, k, 2), k, bytes, 2);
    BlocksAreSwapped(begun, Read(begun, k, 2), Behind(m, k, bytes, 1, m.stack), l, r, low, x, y);
  }

  lemma ByteIsZero(b: byte)
    ensures b == 0 <==> b as nat == 0
  {
    ByteBack(b);
  }

  /** ISZERO leaves 1 for the number all of whose bytes are zero, and else 0. */
  lemma IsZeroStep(m: Machine, env: Environment, k: nat, bottom: Values, a: bytes32)
    requires IsNext(m, k, [0x16], 4) && m.stack == bottom + [Integer(a)]
    ensures
      var zero := forall i :: 0 <= i < 32 ==> a[i] == 0;
      Step(m, env) == Good(true, Behind(m, k, [0x16], 4, bottom + [Number(if zero then 1 else 0)]))
  {
    hide PopInteger, PushI128, FromI128, Perform, Step;
    IsPerformed(m, env, k, [0x16], 4);
    var n := Behind(m, k, [0x16], 4, m.stack);
    PerformIs(n, 0x16, env);
    NumberIsPopped(n, bottom, a);
    ZeroBytes(a);
    hide BigEndian;
    NumberIsPushed(n.(stack := bottom), Truth(a == BigEndian(0, 32)));
  }

  lemma {:induction false} ZerosOf(n: nat)
    ensures |BigEndian(0, n)| == n && forall i :: 0 <= i < n ==> BigEndian(0, n)[i] == 0
  {
    if n > 0 {
      ZerosOf(n - 1);
      assert BigEndian(0, n) == BigEndian(0 / 256, n - 1) + [(0 % 256) as byte];
    }
  }

  lemma ZeroBytes(a: bytes32)
    ensures a == BigEndian(0, 32) <==> forall i :: 0 <= i < 32 ==> a[i] == 0
  {
    hide BigEndian;
    ZerosOf(32);
  }

  /** THROW raises the exception of its number. */
  lemma ThrowStep(m: Machine, env: Environment, k: nat, kind: byte)
    requires IsNext(m, k, [0x77, kind], 4)
    ensures Step(m, env).Raised?
    ensures Step(m, env).kind
      == match kind case 0 => IntegerOverflow case 1 => AbsentNode case 3 => TypeMismatch case _ => Malformed
  {
    hide ReadByte, ConsumeGas, Execute, Step;
    IsDecoded(m, env, k, [0x77, kind], 4);
    ExecuteIs(Read(m, k, 1), 0x77, env);
    IsPaid(Read(m, k, 1), 4);
    OneOperandIsRead(m, k, [0x77, kind], 4);
    ByteCases(kind);
  }

  lemma ByteCases(b: byte)
    ensures (b as nat == 0 <==> b == 0) && (b as nat == 1 <==> b == 1) && (b as nat == 3 <==> b == 3)
  {
    ByteBack(b);
  }

  // ---------- Constants ----------

  lemma {:induction false} BytesAreRead(m: Machine, k: nat, bytes: seq<byte>, i: nat, n: nat)
    requires m.pc == 8 * (k + i) && k + |bytes| <= |m.code.data| && m.code.data[k..k + |bytes|] == bytes
      && i + n <= |bytes|
    ensures ReadBytes(m, n) == Good(bytes[i..i + n], Read(m, k, i + n))
    decreases n
  {
    hide ReadByte;
    if n == 0 {
      assert Read(m, k, i) == m;
    } else {
      BytesAreRead(m, k, bytes, i, n - 1);
      ByteIsRead(Read(m, k, i + (n - 1)), k, bytes, i + (n - 1));
      assert bytes[i..i + (n - 1)] + [bytes[i + (n - 1)]] == bytes[i..i + n];
    }
  }

  /** PUSHINT pushes the 32 bytes behind its sign. */
  lemma PushIntStep(m: Machine, env: Environment, k: nat, sign: byte, number: bytes32)
    requires IsNext(m, k, [0x08, sign] + number, 1) && |m.stack| < MAX_STACK_DEPTH
    ensures Step(m, env) == Good(true, Behind(m, k, [0x08, sign] + number, 1, m.stack + [Integer(number)]))
  {
    hide ReadByte, ReadBytes, Perform, Step;
    var bytes, begun := [0x08, sign] + number, Spent(Read(m, k, 1), 1);
    IsPerformed(m, env, k, bytes, 1);
    PerformIs(begun, 0x08, env);
    ByteIsRead(begun, k, bytes, 1);
    BytesAreRead(Read(begun, k, 2), k, bytes, 2, 32);
    assert bytes[2..2 + 32] == number;
  }

  lemma OctetsArePushed(m: Machine, named: Machine, paid: Machine, n: Machine, octets: seq<byte>)
    requires ReadWord(m) == Good(|octets|, named) && ConsumeGas(named, 1 + Units(|octets|)) == Good((), paid)
    requires ReadBytes(paid, |octets|) == Good(octets, n) && |n.stack| < MAX_STACK_DEPTH
    ensures PushOctets(m) == Good(true, n.(stack := n.stack + [Octets(octets)]))
  {
    hide ReadWord, ConsumeGas, ReadBytes, Units;
  }

  lemma LengthIsRead(m: Machine, k: nat, bytes: seq<byte>, n: nat, price: nat)
    requires |bytes| >= 3 && n == 256 * bytes[1] as nat + bytes[2] as nat && IsNext(m, k, bytes, price)
    ensures ReadWord(Read(m, k, 1)) == Good(n, Read(m, k, 3))
  {
    hide ReadWord;
    WordIsRead(Read(m, k, 1), k, bytes, 1);
  }

  lemma NamedBytesAreRead(m: Machine, k: nat, bytes: seq<byte>, octets: seq<byte>, price: nat)
    requires |bytes| == 3 + |octets| && bytes[3..] == octets && IsNext(m, k, bytes, price)
    ensures ReadBytes(Spent(Read(m, k, 3), price), |octets|) == Good(octets, Behind(m, k, bytes, price, m.stack))
  {
    hide ReadBytes;
    BytesAreRead(Spent(Read(m, k, 3), price), k, bytes, 3, |octets|);
    assert bytes[3..3 + |octets|] == octets;
  }

  /** PUSHBYTES pushes as many bytes as it says. */
  lemma PushBytesStep(m: Machine, env: Environment, k: nat, bytes: seq<byte>, octets: seq<byte>, price: nat)
    requires |bytes| == 3 + |octets| && bytes[0] == 0x09 && bytes[3..] == octets
    requires |octets| == 256 * bytes[1] as nat + bytes[2] as nat && price == 1 + DivCeil(|octets|, 32)
    requires IsNext(m, k, bytes, price) && |m.stack| < MAX_STACK_DEPTH
    ensures Step(m, env) == Good(true, Behind(m, k, bytes, price, m.stack + [Octets(octets)]))
  {
    hide ReadWord, ReadBytes, ConsumeGas, Execute, PushOctets, Step, DivCeil;
    IsDecoded(m, env, k, bytes, price);
    ExecuteIs(Read(m, k, 1), 0x09, env);
    LengthIsRead(m, k, bytes, |octets|, price);
    IsPaid(Read(m, k, 3), price);
    NamedBytesAreRead(m, k, bytes, octets, price);
    OctetsArePushed(Read(m, k, 1), Read(m, k, 3), Spent(Read(m, k, 3), price), Behind(m, k, bytes, price, m.stack),
      octets);
  }

  // ---------- Byte strings ----------

  /** CONCAT puts the upper byte string behind the lower one. */
  lemma ConcatenateStep(m: Machine, env: Environment, k: nat, bottom: Values, a: seq<byte>, b: seq<byte>)
    requires IsNext(m, k, [0x31], 4 + DivCeil(|a| + |b|, 32)) && m.stack == bottom + [Octets(a), Octets(b)]
    ensures Step(m, env) == Good(true, Behind(m, k, [0x31], 4 + DivCeil(|a| + |b|, 32), bottom + [Octets(a + b)]))
  {
    hide ConsumeGas, Execute, Step;
    var price := 4 + DivCeil(|a| + |b|, 32);
    IsDecoded(m, env, k, [0x31], price);
    var n := Read(m, k, 1);
    ExecuteIs(n, 0x31, env);
    assert m.stack == (bottom + [Octets(a)]) + [Octets(b)];
    assert PopTwoBytes(n) == Good((a, b), n.(stack := bottom));
    IsPaid(n.(stack := bottom), price);
  }

  /** BYTEEQ compares two byte strings, for the price of the shorter one. */
  lemma EqualBytesStep(m: Machine, env: Environment, k: nat, bottom: Values, a: seq<byte>, b: seq<byte>, price: nat)
    requires price == 1 + DivCeil(if |a| <= |b| then |a| else |b|, 32)
    requires IsNext(m, k, [0x33], price) && m.stack == bottom + [Octets(a), Octets(b)]
    ensures Step(m, env) == Good(true, Behind(m, k, [0x33], price, bottom + [Number(if a == b then 1 else 0)]))
  {
    hide ConsumeGas, Execute, Step, PushI128, FromI128;
    IsDecoded(m, env, k, [0x33], price);
    var n := Read(m, k, 1);
    ExecuteIs(n, 0x33, env);
    assert m.stack == (bottom + [Octets(a)]) + [Octets(b)];
    assert PopTwoBytes(n) == Good((a, b), n.(stack := bottom));
    IsPaid(n.(stack := bottom), price);
    NumberIsPushed(Spent(n.(stack := bottom), price), Truth(a == b));
  }

  /** SUBBYTES cuts out the bytes from an offset on, if they are there. */
  lemma SubBytesStep(m: Machine, env: Environment, k: nat, bottom: Values, s: seq<byte>, from: bytes32, len: bytes32)
    requires IsNext(m, k, [0x32], 4) && m.stack == bottom + [Octets(s), Integer(from), Integer(len)]
    requires 0 <= ToI128(from) <= U64_MAX && 0 <= ToI128(len) <= U64_MAX - ToI128(from)
    ensures
      var i, n := ToI128(from), ToI128(len);
      if i + n <= |s| then Step(m, env) == Good(true, Behind(m, k, [0x32], 4, bottom + [Octets(s[i..i + n])]))
      else Step(m, env).Raised? && Step(m, env).kind == Malformed
  {
    hide SubBytes, ToI128, Step, Perform;
    IsPerformed(m, env, k, [0x32], 4);
    var n := Behind(m, k, [0x32], 4, m.stack);
    PerformIs(n, 0x32, env);
    BytesAreCut(n, bottom, s, from, len);
  }

  lemma OctetsArePopped(m: Machine, bottom: Values, s: seq<byte>)
    requires m.stack == bottom + [Octets(s)]
    ensures PopBytes(m) == Good(s, m.(stack := bottom))
  {
  }

  lemma BytesAreCut(n: Machine, bottom: Values, s: seq<byte>, from: bytes32, len: bytes32)
    requires n.stack == bottom + [Octets(s), Integer(from), Integer(len)] && |n.stack| <= MAX_STACK_DEPTH
    requires 0 <= ToI128(from) <= U64_MAX && 0 <= ToI128(len) <= U64_MAX - ToI128(from)
    ensures
      var i, k := ToI128(from), ToI128(len);
      if i + k <= |s| then SubBytes(n) == Good((), n.(stack := bottom + [Octets(s[i..i + k])]))
      else SubBytes(n).Raised? && SubBytes(n).kind == Malformed
  {
    hide PopI128, PopBytes, ToI128;
    assert n.stack == (bottom + [Octets(s), Integer(from)]) + [Integer(len)];
    NumberIsPopped(n, bottom + [Octets(s), Integer(from)], len);
    assert bottom + [Octets(s), Integer(from)] == (bottom + [Octets(s)]) + [Integer(from)];
    NumberIsPopped(n.(stack := bottom + [Octets(s), Integer(from)]), bottom + [Octets(s)], from);
    OctetsArePopped(n.(stack := bottom + [Octets(s)]), bottom, s);
  }

  // ---------- A number in a cell ----------

  lemma IsPushed(m: Machine, v: StackValue)
    requires |m.stack| < MAX_STACK_DEPTH
    ensures Push(m, v) == Good((), m.(stack := m.stack + [v]))
  {
  }

  lemma NewBuilder(m: Machine, env: Environment, k: nat)
    requires IsNext(m, k, [0x40], 10) && |m.stack| < MAX_STACK_DEPTH
    ensures Step(m, env) == Good(true, Behind(m, k, [0x40], 10, m.stack + [BuilderOf(BuilderValue([], 0, []))]))
  {
    hide Perform, Step, Push;
    IsPerformed(m, env, k, [0x40], 10);
    var n := Behind(m, k, [0x40], 10, m.stack);
    assert n == Spent(Read(m, k, 1), 10);
    PerformIs(n, 0x40, env);
    IsPushed(n, BuilderOf(BuilderValue([], 0, [])));
  }

  lemma BitsAreStored(m: Machine, n: Machine, k: nat, bottom: Values, before: Bits, refs: seq<VmCell>, a: bytes32,
      width: nat)
    requires ReadWord(m).Good? && ReadWord(m).value == width && ReadByte(ReadWord(m).machine).Good?
    requires ReadByte(ReadWord(m).machine).machine == n && |n.stack| <= MAX_STACK_DEPTH
    requires n.stack == bottom + [BuilderOf(BuilderValue(Pack(before), |before|, refs)), Integer(a)]
    ensures
      if width <= 256 && |before| + width <= MAX_BITS then
        StoreBits(m) == Good((), n.(stack :=
          bottom + [BuilderOf(BuilderValue(Pack(before + LowBits(a, width)), |before| + width, refs))]))
      else StoreBits(m).Raised? && StoreBits(m).kind == Malformed
  {
    hide ReadWord, ReadByte, WriteBits, Pack, LowBits, PopInteger;
    var builder := BuilderOf(BuilderValue(Pack(before), |before|, refs));
    assert n.stack == (bottom + [builder]) + [Integer(a)];
    NumberIsPopped(n, bottom + [builder], a);
    if width <= 256 {
      WriteBitsPacks(before, LowBits(a, width));
    }
  }

  /** STBITS appends the low bits of the number to a builder whose bits are packed. */
  lemma StoreBitsStep(m: Machine, env: Environment, k: nat, bytes: seq<byte>, bottom: Values, before: Bits,
                      refs: seq<VmCell>, a: bytes32, width: nat)
    requires |bytes| == 4 && bytes[0] == 0x42 && width == 256 * bytes[1] as nat + bytes[2] as nat
      && IsNext(m, k, bytes, 10)
    requires m.stack == bottom + [BuilderOf(BuilderValue(Pack(before), |before|, refs)), Integer(a)]
    ensures
      if width <= 256 && |before| + width <= MAX_BITS then
        Step(m, env) == Good(true, Behind(m, k, bytes, 10,
          bottom + [BuilderOf(BuilderValue(Pack(before + LowBits(a, width)), |before| + width, refs))]))
      else Step(m, env).Raised? && Step(m, env).kind == Malformed
  {
    hide ReadWord, ReadByte, StoreBits, Pack, LowBits, Step, Perform;
    IsPerformed(m, env, k, bytes, 10);
    var begun := Spent(Read(m, k, 1), 10);
    PerformIs(begun, 0x42, env);
    WordIsRead(begun, k, bytes, 1);
    ByteIsRead(Read(begun, k, 3), k, bytes, 3);
    BitsAreStored(begun, Behind(m, k, bytes, 10, m.stack), k, bottom, before, refs, a, width);
  }

  lemma RefIsStored(n: Machine, bottom: Values, b: BuilderValue, c: VmCell)
    requires n.stack == bottom + [BuilderOf(b), CellOf(c)] && |n.stack| <= MAX_STACK_DEPTH
    ensures
      if |b.refs| < 4 then
        StoreRef(n) == Good((), n.(stack := bottom + [BuilderOf(BuilderValue(b.data, b.bitLen, b.refs + [c]))]))
      else StoreRef(n).Raised? && StoreRef(n).kind == Malformed
  {
    assert n.stack == (bottom + [BuilderOf(b)]) + [CellOf(c)];
    assert n.stack[..|n.stack| - 1] == bottom + [BuilderOf(b)];
  }

  /** STREF appends a reference, of which there are at most four. */
  lemma StoreRefStep(m: Machine, env: Environment, k: nat, bottom: Values, b: BuilderValue, c: VmCell)
    requires IsNext(m, k, [0x43], 10) && m.stack == bottom + [BuilderOf(b), CellOf(c)]
    ensures
      if |b.refs| < 4 then
        Step(m, env) == Good(true, Behind(m, k, [0x43], 10, bottom
          + [BuilderOf(BuilderValue(b.data, b.bitLen, b.refs + [c]))]))
      else Step(m, env).Raised? && Step(m, env).kind == Malformed
  {
    hide Perform, Step, StoreRef;
    IsPerformed(m, env, k, [0x43], 10);
    PerformIs(Behind(m, k, [0x43], 10, m.stack), 0x43, env);
    RefIsStored(Behind(m, k, [0x43], 10, m.stack), bottom, b, c);
  }

  /** LDREF takes the references one after the other; what is known of one that was not followed is its hash. */
  lemma LoadRefStep(m: Machine, env: Environment, k: nat, bottom: Values, s: SliceValue)
    requires IsNext(m, k, [0x48], 10) && m.stack == bottom + [SliceOf(s)] && |m.stack| < MAX_STACK_DEPTH
    ensures
      if s.refOffset < |s.cell.refs| then
        exists c :: IsReferred(s, c) && Step(m, env) == Good(true, Behind(m, k, [0x48], 10,
          bottom + [SliceOf(SliceValue(s.cell, s.bitOffset, s.refOffset + 1, s.children)), CellOf(c)]))
      else Step(m, env).Raised? && Step(m, env).kind == Malformed
  {
    hide Perform, Step;
    IsPerformed(m, env, k, [0x48], 10);
    var n := Behind(m, k, [0x48], 10, m.stack);
    PerformIs(n, 0x48, env);
    if s.refOffset < |s.cell.refs| {
      var c := if s.refOffset < |s.children| then s.children[s.refOffset]
        else Cell([], [s.cell.refs[s.refOffset]], false);
      assert IsReferred(s, c);
      var next := SliceOf(SliceValue(s.cell, s.bitOffset, s.refOffset + 1, s.children));
      assert bottom + [next] + [CellOf(c)] == bottom + [next, CellOf(c)];
    }
  }

  predicate IsReferred(s: SliceValue, c: VmCell)
    requires s.refOffset < |s.cell.refs|
  {
    if s.refOffset < |s.children| then c == s.children[s.refOffset]
      else c == Cell([], [s.cell.refs[s.refOffset]], false)
  }

  lemma CellIsEnded(n: Machine, env: Environment, bottom: Values, bits: Bits)
    requires |bits| <= MAX_BITS && |n.stack| <= MAX_STACK_DEPTH
    requires n.stack == bottom + [BuilderOf(BuilderValue(Pack(bits), |bits|, []))]
    ensures EndCell(n, env) == Good((), n.(stack := bottom + [CellOf(Cell(Pack(bits), [], false))]))
  {
    hide Pack;
  }

  /** ENDC makes a cell of a builder without references. */
  lemma EndCellStep(m: Machine, env: Environment, k: nat, bottom: Values, bits: Bits)
    requires IsNext(m, k, [0x41], 10) && |bits| <= MAX_BITS
    requires m.stack == bottom + [BuilderOf(BuilderValue(Pack(bits), |bits|, []))]
    ensures Step(m, env) == Good(true, Behind(m, k, [0x41], 10, bottom + [CellOf(Cell(Pack(bits), [], false))]))
  {
    hide Pack, Perform, Step, EndCell;
    IsPerformed(m, env, k, [0x41], 10);
    PerformIs(Behind(m, k, [0x41], 10, m.stack), 0x41, env);
    CellIsEnded(Behind(m, k, [0x41], 10, m.stack), env, bottom, bits);
  }

  lemma CellIsOpened(n: Machine, bottom: Values, c: VmCell)
    requires n.stack == bottom + [CellOf(c)] && |n.stack| <= MAX_STACK_DEPTH
    ensures
      if c.special then OpenCell(n).Raised? && OpenCell(n).kind == AbsentNode
      else OpenCell(n) == Good((), n.(stack := bottom + [SliceOf(SliceValue(c, 0, 0, []))]))
  {
  }

  /** CTOS opens an ordinary cell at its beginning, and refuses a special one. */
  lemma OpenCellStep(m: Machine, env: Environment, k: nat, bottom: Values, c: VmCell)
    requires IsNext(m, k, [0x45], 10) && m.stack == bottom + [CellOf(c)]
    ensures
      if c.special then Step(m, env).Raised? && Step(m, env).kind == AbsentNode
      else Step(m, env) == Good(true, Behind(m, k, [0x45], 10, bottom + [SliceOf(SliceValue(c, 0, 0, []))]))
  {
    hide Perform, Step, OpenCell;
    IsPerformed(m, env, k, [0x45], 10);
    PerformIs(Behind(m, k, [0x45], 10, m.stack), 0x45, env);
    CellIsOpened(Behind(m, k, [0x45], 10, m.stack), bottom, c);
  }

  lemma BitsAreLoaded(m: Machine, n: Machine, bottom: Values, c: VmCell, at: nat, width: nat)
    requires ReadWord(m) == Good(width, n) && |n.stack| < MAX_STACK_DEPTH
    requires n.stack == bottom + [SliceOf(SliceValue(c, at, 0, []))] && width <= 256 && at + width <= 8 * |c.data|
    ensures LoadBits(m) == Good((), n.(stack :=
      bottom + [SliceOf(SliceValue(c, at + width, 0, [])), Integer(NumberOf(BitsOf(c.data, at, width)))]))
  {
    hide ReadWord, NumberOf, BitsOf;
    var slice, number := SliceOf(SliceValue(c, at + width, 0, [])), Integer(NumberOf(BitsOf(c.data, at, width)));
    assert bottom + [slice] + [number] == bottom + [slice, number];
  }

  /** LDU reads the next bits of a slice as a number, if they are there, and moves on behind them. */
  lemma LoadBitsStep(m: Machine, env: Environment, k: nat, bytes: seq<byte>, bottom: Values, c: VmCell, at: nat,
      width: nat)
    requires |bytes| == 3 && bytes[0] == 0x46 && width == 256 * bytes[1] as nat + bytes[2] as nat
      && IsNext(m, k, bytes, 10)
    requires m.stack == bottom + [SliceOf(SliceValue(c, at, 0, []))] && |m.stack| < MAX_STACK_DEPTH
    requires width <= 256 && at + width <= 8 * |c.data|
    ensures Step(m, env) == Good(true, Behind(m, k, bytes, 10,
      bottom + [SliceOf(SliceValue(c, at + width, 0, [])), Integer(NumberOf(BitsOf(c.data, at, width)))]))
  {
    hide ReadWord, NumberOf, BitsOf, LoadBits, Step, Perform;
    IsPerformed(m, env, k, bytes, 10);
    var begun := Spent(Read(m, k, 1), 10);
    PerformIs(begun, 0x46, env);
    WordIsRead(begun, k, bytes, 1);
    BitsAreLoaded(begun, Behind(m, k, bytes, 10, m.stack), bottom, c, at, width);
  }

  /** NEWC, SWAP, STBITS, ENDC, CTOS, LDU with one width. */
  function StoreAndLoad(hi: byte, lo: byte): seq<byte> {
    [0x40, 0x03, 0x42, hi, lo, 0, 0x41, 0x45, 0x46, hi, lo]
  }

  lemma PartsOfProgram(hi: byte, lo: byte)
    ensures
      var code := StoreAndLoad(hi, lo);
      && |code| == 11 && code[0..1] == [0x40] && code[1..2] == [0x03] && code[2..6] == [0x42, hi, lo, 0]
      && code[6..7] == [0x41] && code[7..8] == [0x45] && code[8..11] == [0x46, hi, lo]
  {
  }

  /** The machine after some steps: one step, and then the others. */
  lemma OneStepFirst(m: Machine, n: Machine, env: Environment, steps: nat)
    requires Step(m, env) == Good(true, n)
    ensures After(m, env, steps + 1) == After(n, env, steps)
  {
    hide Step;
  }

  lemma PartIsNext(m: Machine, n: Machine, k: nat, code: seq<byte>, i: nat, bytes: seq<byte>, spent: nat, price: nat)
    requires IsNext(m, k, code, 51) && i + |bytes| <= |code| && code[i..i + |bytes|] == bytes
    requires spent + price <= 51 && n.code == m.code && n.pc == 8 * (k + i) && |n.stack| <= MAX_STACK_DEPTH
    requires n.gasUsed == m.gasUsed + spent && n.gasLimit == m.gasLimit
    ensures IsNext(n, k + i, bytes, price)
  {
    var data := m.code.data;
    SliceOfSlice(data, k, k + |code|, i, i + |bytes|);
    assert data[k + i..k + i + |bytes|] == data[k + i..k + (i + |bytes|)];
  }

  lemma SliceOfSlice(s: seq<byte>, from: nat, to: nat, i: nat, j: nat)
    requires from <= to <= |s| && i <= j <= to - from
    ensures s[from..to][i..j] == s[from + i..from + j]
  {
    var x, y := s[from..to][i..j], s[from + i..from + j];
    assert |x| == |y|;
    forall l | 0 <= l < |x|
      ensures x[l] == y[l]
    {
      assert x[l] == s[from..to][i + l] == s[from + (i + l)];
      assert y[l] == s[from + i + l];
    }
  }

  /** The machine in the middle of the program. */
  function Midway(m: Machine, k: nat, i: nat, spent: nat, stack: Values): Machine
    requires m.gasUsed + spent <= m.gasLimit
  {
    m.(pc := 8 * (k + i), gasUsed := m.gasUsed + spent, stack := stack)
  }

  lemma BuiltInTwo(m: Machine, env: Environment, k: nat, hi: byte, lo: byte, bottom: Values, a: bytes32, steps: nat)
    requires IsNext(m, k, StoreAndLoad(hi, lo), 51) && m.stack == bottom + [Integer(a)] && |m.stack| < MAX_STACK_DEPTH
    ensures
      var p2 := Midway(m, k, 2, 11, bottom + [BuilderOf(BuilderValue([], 0, [])), Integer(a)]);
      After(m, env, steps + 2) == After(p2, env, steps)
  {
    hide Step, After, StoreAndLoad;
    PartsOfProgram(hi, lo);
    var code, number := StoreAndLoad(hi, lo), Integer(a);
    var start := BuilderOf(BuilderValue([], 0, []));
    var p1 := Midway(m, k, 1, 10, m.stack + [start]);
    PartIsNext(m, m, k, code, 0, [0x40], 0, 10);
    NewBuilder(m, env, k);
    var p2 := Midway(m, k, 2, 11, bottom + [start, number]);
    PartIsNext(m, p1, k, code, 1, [0x03], 10, 1);
    SwapIsNext(p1, env, k + 1, bottom, number, start);
    OneStepFirst(m, p1, env, steps + 1);
    OneStepFirst(p1, p2, env, steps);
  }

  lemma StoredInNew(m: Machine, env: Environment, k: nat, hi: byte, lo: byte, bottom: Values, a: bytes32, width: nat)
    requires IsNext(m, k, [0x42, hi, lo, 0], 10) && width == 256 * hi as nat + lo as nat <= 256
    requires m.stack == bottom + [BuilderOf(BuilderValue([], 0, [])), Integer(a)]
    ensures Step(m, env) == Good(true, Behind(m, k, [0x42, hi, lo, 0], 10,
      bottom + [BuilderOf(BuilderValue(Pack(LowBits(a, width)), width, []))]))
  {
    hide Step, Pack, LowBits, IsNext;
    EmptyIsPacked();
    StoreBitsStep(m, env, k, [0x42, hi, lo, 0], bottom, [], [], a, width);
    assert [] + LowBits(a, width) == LowBits(a, width);
  }

  lemma BuiltInThree(m: Machine, env: Environment, k: nat, hi: byte, lo: byte, bottom: Values, a: bytes32, width: nat,
                     steps: nat)
    requires IsNext(m, k, StoreAndLoad(hi, lo), 51) && width == 256 * hi as nat + lo as nat <= 256
    requires m.stack == bottom + [Integer(a)] && |m.stack| < MAX_STACK_DEPTH
    ensures
      var p3 := Midway(m, k, 6, 21, bottom + [BuilderOf(BuilderValue(Pack(LowBits(a, width)), width, []))]);
      After(m, env, steps + 3) == After(p3, env, steps)
  {
    hide Step, After, Pack, LowBits, StoreAndLoad;
    PartsOfProgram(hi, lo);
    BuiltInTwo(m, env, k, hi, lo, bottom, a, steps + 1);
    var p2 := Midway(m, k, 2, 11, bottom + [BuilderOf(BuilderValue([], 0, [])), Integer(a)]);
    PartIsNext(m, p2, k, StoreAndLoad(hi, lo), 2, [0x42, hi, lo, 0], 11, 10);
    StoredInNew(p2, env, k + 2, hi, lo, bottom, a, width);
    hide IsNext;
    var p3 := Midway(m, k, 6, 21, bottom + [BuilderOf(BuilderValue(Pack(LowBits(a, width)), width, []))]);
    OneStepFirst(p2, p3, env, steps);
  }

  lemma EmptyIsPacked()
    ensures Pack([]) == []
  {
  }

  lemma SwapIsNext(m: Machine, env: Environment, k: nat, bottom: Values, x: StackValue, y: StackValue)
    requires IsNext(m, k, [0x03], 1) && m.stack == bottom + [x] + [y]
    ensures Step(m, env) == Good(true, Behind(m, k, [0x03], 1, bottom + [y, x]))
  {
    hide Perform, Step, Swap;
    IsPerformed(m, env, k, [0x03], 1);
    var n := Behind(m, k, [0x03], 1, m.stack);
    PerformIs(n, 0x03, env);
    SwapMoves(n);
    assert m.stack[..|m.stack| - 2] == bottom;
  }

  lemma PackedBits(bits: Bits)
    ensures |bits| <= 8 * |Pack(bits)| && BitsOf(Pack(bits), 0, |bits|) == bits
  {
    forall i | 0 <= i < |bits|
      ensures BitAt(Pack(bits), i) == bits[i]
    {
    }
  }

  lemma EndedAndOpened(m: Machine, env: Environment, k: nat, hi: byte, lo: byte, bottom: Values, bits: Bits, steps: nat)
    requires IsNext(m, k, StoreAndLoad(hi, lo), 51) && |bits| <= MAX_BITS && |bottom| < MAX_STACK_DEPTH
    ensures
      var p3 := Midway(m, k, 6, 21, bottom + [BuilderOf(BuilderValue(Pack(bits), |bits|, []))]);
      var p5 := Midway(m, k, 8, 41, bottom + [SliceOf(SliceValue(Cell(Pack(bits), [], false), 0, 0, []))]);
      After(p3, env, steps + 2) == After(p5, env, steps)
  {
    hide Step, After, Pack, StoreAndLoad;
    PartsOfProgram(hi, lo);
    var code, cell := StoreAndLoad(hi, lo), Cell(Pack(bits), [], false);
    var p3 := Midway(m, k, 6, 21, bottom + [BuilderOf(BuilderValue(Pack(bits), |bits|, []))]);
    var p4 := Midway(m, k, 7, 31, bottom + [CellOf(cell)]);
    var p5 := Midway(m, k, 8, 41, bottom + [SliceOf(SliceValue(cell, 0, 0, []))]);
    PartIsNext(m, p3, k, code, 6, [0x41], 21, 10);
    EndCellStep(p3, env, k + 6, bottom, bits);
    PartIsNext(m, p4, k, code, 7, [0x45], 31, 10);
    OpenCellStep(p4, env, k + 7, bottom, cell);
    OneStepFirst(p3, p4, env, steps + 1);
    OneStepFirst(p4, p5, env, steps);
  }

  lemma LoadedAgain(m: Machine, env: Environment, k: nat, hi: byte, lo: byte, bottom: Values, bits: Bits)
    requires IsNext(m, k, StoreAndLoad(hi, lo), 51) && |bits| == 256 * hi as nat + lo as nat <= 256
    requires |bottom| + 1 < MAX_STACK_DEPTH
    ensures
      var cell := Cell(Pack(bits), [], false);
      var p5 := Midway(m, k, 8, 41, bottom + [SliceOf(SliceValue(cell, 0, 0, []))]);
      var p6 := Midway(m, k, 11, 51, bottom + [SliceOf(SliceValue(cell, |bits|, 0, [])), Integer(NumberOf(bits))]);
      After(p5, env, 1) == Some(p6)
  {
    hide Step, After, Pack, NumberOf, BitsOf, StoreAndLoad;
    PartsOfProgram(hi, lo);
    var code, cell := StoreAndLoad(hi, lo), Cell(Pack(bits), [], false);
    var p5 := Midway(m, k, 8, 41, bottom + [SliceOf(SliceValue(cell, 0, 0, []))]);
    var p6 := Midway(m, k, 11, 51, bottom + [SliceOf(SliceValue(cell, |bits|, 0, [])), Integer(NumberOf(bits))]);
    PartIsNext(m, p5, k, code, 8, [0x46, hi, lo], 41, 10);
    PackedBits(bits);
    LoadBitsStep(p5, env, k + 8, [0x46, hi, lo], bottom, cell, 0, |bits|);
    OneStepFirst(p5, p6, env, 0);
    NoStep(p6, env);
  }

  lemma NoStep(m: Machine, env: Environment)
    ensures After(m, env, 0) == Some(m)
  {
  }

  /** Whatever number is stored in a new cell with some width, the same width loads its low bits again, in six steps. */
  lemma StoredNumberIsLoaded(m: Machine, env: Environment, k: nat, hi: byte, lo: byte, bottom: Values, a: bytes32,
      width: nat)
    requires IsNext(m, k, StoreAndLoad(hi, lo), 51) && width == 256 * hi as nat + lo as nat <= 256
    requires m.stack == bottom + [Integer(a)] && |m.stack| < MAX_STACK_DEPTH
    ensures
      var cell := Cell(Pack(LowBits(a, width)), [], false);
      After(m, env, 6) == Some(Midway(m, k, 11, 51,
        bottom + [SliceOf(SliceValue(cell, width, 0, [])), Integer(NumberOf(LowBits(a, width)))]))
  {
    hide After, Pack, NumberOf, StoreAndLoad;
    assert |LowBits(a, width)| == width;
    hide LowBits;
    assert |bottom| + 1 < MAX_STACK_DEPTH;
    BuiltInThree(m, env, k, hi, lo, bottom, a, width, 3);
    EndedAndOpened(m, env, k, hi, lo, bottom, LowBits(a, width), 1);
    LoadedAgain(m, env, k, hi, lo, bottom, LowBits(a, width));
    var p3 := Midway(m, k, 6, 21, bottom + [BuilderOf(BuilderValue(Pack(LowBits(a, width)), width, []))]);
    assert After(m, env, 3 + 3) == After(p3, env, 1 + 2);
  }
}
