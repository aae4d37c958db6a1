/** Laws that instructions of the interpreter obey (crates/protocol/onx-execution/src/interpreter.rs). */
module VmLaws {
  import opened Wrappers
  import opened Bytes
  import opened Packing
  import opened BitIO
  import opened VmTypes
  import opened Interpreters

  // ---------- Code that only moves values on the stack ----------

  const DROP: byte := 0x01
  const DUP: byte := 0x02
  const SWAP: byte := 0x03
  const OVER: byte := 0x04
  const ROT: byte := 0x05
  const NIP: byte := 0x0A
  const TUCK: byte := 0x0B

  type Values = seq<StackValue>

  predicate IsShuffle(op: byte) {
    op == DROP || op == DUP || op == SWAP || op == OVER || op == ROT || op == NIP || op == TUCK
  }

  /** How many values the instruction needs, and whether it needs room for one more. */
  function Needs(op: byte): (nat, nat) {
    if op == DROP then (1, 0) else if op == DUP then (1, 1) else if op == OVER || op == TUCK then (2, 1)
    else if op == ROT then (3, 0) else (2, 0)
  }

  /** The stack after one instruction; None stands for an exception. */
  function Shuffled(op: byte, s: Values): Option<Values> {
    var n := |s|;
    if n < Needs(op).0 || n + Needs(op).1 > MAX_STACK_DEPTH then None
    else if op == DROP then Some(s[..n - 1])
    else if op == DUP then Some(s + [s[n - 1]])
    else if op == OVER then Some(s + [s[n - 2]])
    else if op == SWAP then Some(s[..n - 2] + [s[n - 1], s[n - 2]])
    else if op == NIP then Some(s[..n - 2] + [s[n - 1]])
    else if op == TUCK then Some(s[..n - 2] + [s[n - 1], s[n - 2], s[n - 1]])
    else if op == ROT then Some(s[..n - 3] + [s[n - 2], s[n - 1], s[n - 3]])
    else None
  }

  function ShuffledAll(ops: seq<byte>, s: Values): Option<Values>
    decreases |ops|
  {
    if ops == [] then Some(s)
    else
      match Shuffled(ops[0], s)
      case None => None
      case Some(t) => ShuffledAll(ops[1..], t)
  }

  /** The effect of an instruction on a machine with this stack. */
  ghost predicate Moves(r: Effect<()>, m: Machine, moved: Option<Values>) {
    if moved.Some? then r == Good((), m.(stack := moved.value)) && |moved.value| <= MAX_STACK_DEPTH else r.Raised?
  }

  lemma SwapMoves(m: Machine)
    requires |m.stack| <= MAX_STACK_DEPTH
    ensures Moves(Swap(m), m, Shuffled(SWAP, m.stack))
  {
    var s, n := m.stack, |m.stack|;
    if n >= 2 {
      assert s[..n - 1][..n - 2] == s[..n - 2];
      assert s[..n - 2] + [s[n - 1]] + [s[n - 2]] == s[..n - 2] + [s[n - 1], s[n - 2]];
    }
  }

  lemma TuckMoves(m: Machine)
    requires |m.stack| <= MAX_STACK_DEPTH
    ensures Moves(Tuck(m), m, Shuffled(TUCK, m.stack))
  {
    var s, n := m.stack, |m.stack|;
    if n >= 2 {
      assert s[..n - 2] + [s[n - 1]] + [s[n - 2]] + [s[n - 1]] == s[..n - 2] + [s[n - 1], s[n - 2], s[n - 1]];
    }
  }

  lemma RotateMoves(m: Machine)
    requires |m.stack| <= MAX_STACK_DEPTH
    ensures Moves(Rotate(m), m, Shuffled(ROT, m.stack))
  {
    var s, n := m.stack, |m.stack|;
    if n >= 3 {
      assert s[..n - 1][..n - 2] == s[..n - 2] && s[..n - 2][..n - 3] == s[..n - 3];
      assert s[..n - 3] + [s[n - 2]] + [s[n - 1]] + [s[n - 3]] == s[..n - 3] + [s[n - 2], s[n - 1], s[n - 3]];
    }
  }

  lemma ShuffleMoves(m: Machine, op: byte, env: Environment)
    requires |m.stack| <= MAX_STACK_DEPTH && IsShuffle(op)
    ensures Moves(Perform(m, op, env), m, Shuffled(op, m.stack)) && Price(op) == Some(1)
  {
    if op == SWAP {
      SwapMoves(m);
    } else if op == TUCK {
      TuckMoves(m);
    } else if op == ROT {
      RotateMoves(m);
    }
  }

  /** One step of the machine at a byte boundary. */
  lemma ShufflingStep(m: Machine, env: Environment, k: nat)
    requires m.pc == 8 * k && k < |m.code.data| && IsShuffle(m.code.data[k])
    requires |m.stack| <= MAX_STACK_DEPTH && m.gasUsed < m.gasLimit
    ensures
      var moved := Shuffled(m.code.data[k], m.stack);
      if moved.Some? then
        && |moved.value| <= MAX_STACK_DEPTH
        && Step(m, env) == Good(true, m.(pc := 8 * (k + 1), gasUsed := m.gasUsed + 1, stack := moved.value))
      else Step(m, env).Raised?
  {
    hide Perform, Shuffled, Price, Octet, BitsOf;
    ReadAligned(m, k);
    var paid := m.(pc := 8 * (k + 1), gasUsed := m.gasUsed + 1);
    ShuffleMoves(paid, m.code.data[k], env);
  }

  /** Decoded, paid for and executed step by step, such code does to the stack what its instructions do one after the
       other. */
  lemma {:induction false} ShufflingCode(m: Machine, env: Environment, k: nat, ops: seq<byte>)
    requires m.pc == 8 * k && k + |ops| <= |m.code.data| && m.code.data[k..k + |ops|] == ops
    requires forall i :: 0 <= i < |ops| ==> IsShuffle(ops[i])
    requires |m.stack| <= MAX_STACK_DEPTH && m.gasUsed + |ops| <= m.gasLimit
    ensures
      var moved := ShuffledAll(ops, m.stack);
      After(m, env, |ops|) == if moved.None? then None
        else Some(m.(pc := 8 * (k + |ops|), gasUsed := m.gasUsed + |ops|, stack := moved.value))
    decreases |ops|
  {
    hide Step, Shuffled, IsShuffle;
    if ops != [] {
      assert ops[0] == m.code.data[k];
      assert IsShuffle(ops[0]);
      ShufflingStep(m, env, k);
      if Shuffled(ops[0], m.stack).Some? {
        var next := Step(m, env).machine;
        assert next.code.data[k + 1..k + 1 + |ops[1..]|] == ops[1..];
        ShufflingCode(next, env, k + 1, ops[1..]);
      }
    }
  }

  /** Two pieces of code do the same to every stack, exceptions included. */
  ghost predicate SameEffect(x: seq<byte>, y: seq<byte>) {
    forall s: Values :: |s| <= MAX_STACK_DEPTH ==> ShuffledAll(x, s) == ShuffledAll(y, s)
  }

  lemma OneOp(op: byte, s: Values)
    ensures ShuffledAll([op], s) == Shuffled(op, s)
  {
    assert [op][1..] == [];
  }

  lemma TwoOps(op: byte, next: byte, s: Values)
    ensures ShuffledAll([op, next], s) == if Shuffled(op, s).None? then None else Shuffled(next, Shuffled(op, s).value)
  {
    assert [op, next][1..] == [next];
    if Shuffled(op, s).Some? {
      OneOp(next, Shuffled(op, s).value);
    }
  }

  lemma NipIsSwapDrop()
    ensures SameEffect([NIP], [SWAP, DROP])
  {
    forall s: Values | |s| <= MAX_STACK_DEPTH
      ensures ShuffledAll([NIP], s) == ShuffledAll([SWAP, DROP], s)
    {
      OneOp(NIP, s);
      TwoOps(SWAP, DROP, s);
      if |s| >= 2 {
        var a, b := s[|s| - 2], s[|s| - 1];
        assert (s[..|s| - 2] + [b, a])[..|s| - 1] == s[..|s| - 2] + [b];
      }
    }
  }

  lemma TuckIsSwapOver()
    ensures SameEffect([TUCK], [SWAP, OVER])
  {
    forall s: Values | |s| <= MAX_STACK_DEPTH
      ensures ShuffledAll([TUCK], s) == ShuffledAll([SWAP, OVER], s)
    {
      hide ShuffledAll, Shuffled;
      OneOp(TUCK, s);
      TwoOps(SWAP, OVER, s);
      TuckOnce(s);
    }
  }

  lemma TuckOnce(s: Values)
    requires |s| <= MAX_STACK_DEPTH
    ensures Shuffled(TUCK, s) ==
      if Shuffled(SWAP, s).None? then None else Shuffled(OVER, Shuffled(SWAP, s).value)
  {
    if |s| >= 2 {
      var a, b := s[|s| - 2], s[|s| - 1];
      assert s[..|s| - 2] + [b, a] + [b] == s[..|s| - 2] + [b, a, b];
    }
  }

  lemma {:induction false} ShuffledFits(ops: seq<byte>, s: Values)
    requires |s| <= MAX_STACK_DEPTH && ShuffledAll(ops, s).Some?
    ensures |ShuffledAll(ops, s).value| <= MAX_STACK_DEPTH
    decreases |ops|
  {
    if ops != [] {
      ShuffledFits(ops[1..], Shuffled(ops[0], s).value);
    }
  }

  lemma {:induction false} ShuffledInParts(x: seq<byte>, y: seq<byte>, s: Values)
    ensures ShuffledAll(x + y, s) == if ShuffledAll(x, s).None? then None else ShuffledAll(y, ShuffledAll(x, s).value)
    decreases |x|
  {
    hide Shuffled;
    if x == [] {
      assert x + y == y;
    } else {
      assert (x + y)[1..] == x[1..] + y && (x + y)[0] == x[0];
      if Shuffled(x[0], s).Some? {
        ShuffledInParts(x[1..], y, Shuffled(x[0], s).value);
      }
    }
  }

  /** Replacing a piece of code by one of the same effect changes nothing. */
  lemma SameEffectInside(before: seq<byte>, x: seq<byte>, y: seq<byte>, after: seq<byte>)
    requires SameEffect(x, y)
    ensures SameEffect(before + x + after, before + y + after)
  {
    hide Shuffled;
    forall s: Values | |s| <= MAX_STACK_DEPTH
      ensures ShuffledAll(before + x + after, s) == ShuffledAll(before + y + after, s)
    {
      ShuffledInParts(before + x, after, s);
      ShuffledInParts(before + y, after, s);
      ShuffledInParts(before, x, s);
      ShuffledInParts(before, y, s);
      if ShuffledAll(before, s).Some? {
        ShuffledFits(before, s);
      }
    }
  }

  ghost predicate RunsFrom(m: Machine, k: nat, ops: seq<byte>) {
    && m.pc == 8 * k && k + |ops| <= |m.code.data| && m.code.data[k..k + |ops|] == ops
    && (forall i :: 0 <= i < |ops| ==> IsShuffle(ops[i]))
    && |m.stack| <= MAX_STACK_DEPTH && m.gasUsed + |ops| <= m.gasLimit
  }

  /** Two machines with enough gas, one of whose code has been rewritten: the same stack in the end, or both fail. */
  lemma RewritingKeepsStacks(m: Machine, n: Machine, env: Environment, k: nat, x: seq<byte>, y: seq<byte>)
    requires RunsFrom(m, k, x) && RunsFrom(n, k, y) && m.stack == n.stack && SameEffect(x, y)
    ensures
      var p, q := After(m, env, |x|), After(n, env, |y|);
      p.Some? == q.Some? && (p.Some? ==> p.value.stack == q.value.stack)
  {
    hide Step;
    ShufflingCode(m, env, k, x);
    ShufflingCode(n, env, k, y);
  }

  // ---------- Division ----------

  lemma NatDivision(a: nat, b: nat)
    requires b > 0
    ensures 0 <= a - b * (a / b) < b
  {
  }

  lemma NatProduct(x: nat, y: nat)
    ensures x * y >= 0
  {
  }

  /** The product of divisor and quotient has the size and the sign of what is divided out. */
  lemma QuotientProduct(a: int, b: int)
    requires b != 0
    ensures
      var whole := Abs(b) * (Abs(a) / Abs(b));
      b * Quotient(a, b) == if a < 0 then -whole else whole
  {
    Negations(b, Abs(a) / Abs(b));
  }

  lemma Negations(b: int, q: int)
    ensures b * -q == -(b * q) && -b * q == -(b * q) && -b * -q == b * q
  {
  }

  lemma RemainderSign(a: int, whole: int, product: int, size: nat)
    requires 0 <= whole && 0 <= Abs(a) - whole < size && product == (if a < 0 then -whole else whole)
    ensures Abs(a - product) < size && (a - product > 0 ==> a > 0) && (a - product < 0 ==> a < 0)
  {
  }

  lemma DivisionParts(a: int, b: int) returns (whole: int, product: int)
    requires b != 0
    ensures product == b * Quotient(a, b) && product == (if a < 0 then -whole else whole)
    ensures 0 <= whole && 0 <= Abs(a) - whole < Abs(b)
  {
    hide Quotient;
    NatDivision(Abs(a), Abs(b));
    QuotientProduct(a, b);
    NatProduct(Abs(b), Abs(a) / Abs(b));
    whole, product := Abs(b) * (Abs(a) / Abs(b)), b * Quotient(a, b);
  }

  /** Quotient and remainder make up the dividend; the remainder is small and has the sign of the dividend. */
  lemma DivisionTowardsZero(a: int, b: int)
    requires b != 0
    ensures
      var r := a - b * Quotient(a, b);
      Abs(r) < Abs(b) && (r > 0 ==> a > 0) && (r < 0 ==> a < 0)
  {
    var whole, product := DivisionParts(a, b);
    RemainderSign(a, whole, product, Abs(b));
  }

  // ---------- Builders ----------

  lemma WriteOneBit(data: seq<byte>, at: nat, bits: Bits)
    requires bits != [] && at < 8 * |Grown(data, at)|
    ensures WriteBits(data, at, bits)
         == WriteBits(if bits[0] then SetBit(Grown(data, at), at) else Grown(data, at), at + 1, bits[1..])
  {
  }

  lemma WriteNothing(data: seq<byte>, at: nat)
    ensures WriteBits(data, at, []) == Some(data)
  {
  }

  /** Storing bits behind packed bits yields the packed bits of both, and the host never panics. */
  lemma {:induction false} WriteBitsPacks(before: Bits, bits: Bits)
    ensures WriteBits(Pack(before), |before|, bits) == Some(Pack(before + bits))
    decreases |bits|
  {
    hide *;
    if bits == [] {
      WriteNothing(Pack(before), |before|);
      assert before + bits == before;
    } else {
      PackOneMore(before, bits[0]);
      WriteOneBit(Pack(before), |before|, bits);
      WriteBitsPacks(before + [bits[0]], bits[1..]);
      assert before + [bits[0]] + bits[1..] == before + bits;
    }
  }

  /** What STBITS writes into a new cell, LDU reads from it: the low bits of the number. */
  lemma StoredBitsAreLoaded(value: bytes32, width: nat)
    requires width <= 256
    ensures
      var data := WriteBits([], 0, LowBits(value, width));
      data.Some? && ReadAt(data.value, 0, width) == Ok(NumberOf(LowBits(value, width)))
  {
    var bits := LowBits(value, width);
    assert Pack([]) == [];
    WriteBitsPacks([], bits);
    assert [] + bits == bits && bits + [] == bits;
    ReadsWhatIsThere([], bits, []);
  }
}
