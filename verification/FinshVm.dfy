/** The FinSH stack machine: the operations of the opcode table on 32-bit slots, the fetch loop, and
    operand encoding. Byte and half-word operations are outside the model and stop it. */
module FinshVm {
  import opened FinshTree
  import opened FinshWords

  /** One byte of the text segment. */
  newtype Octet = i: int | 0 <= i < 256

  type Code = seq<Octet>

  const STACK_MAX := 64
  const TEXT_MAX := 128
  const NODE_MAX := 16
  const MAX_PARAMETERS := 16

  const OP_NOOP: Octet := 0x00
  const OP_LD_BYTE: Octet := 0x22
  const OP_LD_WORD: Octet := 0x23
  const OP_LD_DWORD: Octet := 0x24
  const OP_LD_VALUE_BYTE: Octet := 0x25
  const OP_LD_VALUE_DWORD: Octet := 0x27
  const OP_ST_BYTE: Octet := 0x28
  const OP_ST_DWORD: Octet := 0x2A
  const OP_POP: Octet := 0x2B
  const OP_SYSCALL: Octet := 0x2C
  const OP_LD_VALUE_BYTE_STACK: Octet := 0x2D
  const OP_LD_VALUE_DWORD_STACK: Octet := 0x2F
  const OP_BITWISE_BYTE: Octet := 0x19
  const OP_BITWISE_DWORD: Octet := 0x1B

  /** The operator of a 32-bit arithmetic opcode: the opcode table's entries 3, 6, 9, ... */
  function Alu(op: Octet): (r: seq<BinOp>)
    ensures |r| <= 1
  {
    if op == 0x03 then [Add] else if op == 0x06 then [Sub] else if op == 0x09 then [Div]
    else if op == 0x0C then [Mod] else if op == 0x0F then [Mul] else if op == 0x12 then [And]
    else if op == 0x15 then [Or] else if op == 0x18 then [Xor] else if op == 0x1E then [Shl]
    else if op == 0x21 then [Shr] else []
  }

  // ---- little-endian operands ----

  /** Byte `k` of a number, the lowest first. */
  function ByteOf(n: nat, k: nat): Octet
    decreases k
  {
    if k == 0 then (n % 256) as Octet else ByteOf(n / 256, k - 1)
  }

  function Set32(w: Word): (code: Code)
    ensures |code| == 4
  {
    seq(4, k requires 0 <= k < 4 => ByteOf(w as nat, k))
  }

  function Get32(b0: Octet, b1: Octet, b2: Octet, b3: Octet): Word
  {
    (b0 as int + b1 as int * 0x100 + b2 as int * 0x1_0000 + b3 as int * 0x100_0000) as Word
  }

  lemma OperandRoundTrip(w: Word)
    ensures var b := Set32(w); Get32(b[0], b[1], b[2], b[3]) == w
  {
    var n: nat := w as nat;
    var n1, n2, n3 := n / 256, n / 256 / 256, n / 256 / 256 / 256;
    assert ByteOf(n, 1) == ByteOf(n1, 0) && ByteOf(n, 2) == ByteOf(n1, 1) && ByteOf(n, 3) == ByteOf(n1, 2);
    assert ByteOf(n1, 1) == ByteOf(n2, 0) && ByteOf(n1, 2) == ByteOf(n2, 1) && ByteOf(n2, 1) == ByteOf(n3, 0);
    assert n3 < 256;
  }

  // ---- one operation, and running a stretch of code ----

  datatype State = State(stack: seq<Word>, mem: Memory)
  datatype Outcome = Stopped | Running(s: State)

  function Push(s: State, w: Word): Outcome
  {
    if |s.stack| < STACK_MAX then Running(s.(stack := s.stack + [w])) else Stopped
  }

  /** Bytes of operand an opcode is followed by. */
  function OperandLength(op: Octet): nat
  {
    if op == OP_LD_DWORD || op == OP_LD_VALUE_DWORD then 4 else if op == OP_SYSCALL then 1 else 0
  }

  /** OP_BIN_DWORD: the two topmost slots become one. */
  function Binary(h: Host, op: BinOp, s: State): Outcome
  {
    var n := |s.stack|;
    if n < 2 then Stopped
    else Running(s.(stack := s.stack[..n - 2] + [h.alu(op, s.stack[n - 2], s.stack[n - 1])]))
  }

  /** The operations that need no operand. */
  function StackOnly(h: Host, op: Octet, s: State): Outcome
  {
    var n := |s.stack|;
    if op == OP_NOOP then Running(s)
    else if Alu(op) != [] then Binary(h, Alu(op)[0], s)
    else if n < 1 then Stopped
    else if op == OP_BITWISE_DWORD then Running(s.(stack := s.stack[..n - 1] + [Complement(s.stack[n - 1])]))
    else if op == OP_LD_VALUE_DWORD_STACK then
      Running(s.(stack := s.stack[..n - 1] + [Read(s.mem, s.stack[n - 1])]))
    else if op == OP_POP then Running(s.(stack := s.stack[..n - 1]))
    else if op == OP_ST_DWORD && n >= 2 then
      Running(State(s.stack[..n - 1], Write(s.mem, s.stack[n - 2], s.stack[n - 1])))
    else Stopped
  }

  /** OP_call with `k` parameters: function and parameters become the result. */
  function CallWith(h: Host, k: nat, s: State): Outcome
  {
    var n := |s.stack|;
    if k > MAX_PARAMETERS || n < k + 1 then Stopped
    else
      var r := h.call(s.stack[n - k - 1], s.stack[n - k..], s.mem);
      Running(State(s.stack[..n - k - 1] + [r.0], r.1))
  }

  /** The effect of one operation; Stopped where the C code would leave the stack or is outside the model. */
  function Operation(h: Host, op: Octet, operand: Code, s: State): Outcome
  {
    if |operand| != OperandLength(op) then Stopped
    else if op == OP_LD_DWORD then
      Push(s, Get32(operand[0], operand[1], operand[2], operand[3]))
    else if op == OP_LD_VALUE_DWORD then
      Push(s, Read(s.mem, Get32(operand[0], operand[1], operand[2], operand[3])))
    else if op == OP_SYSCALL then CallWith(h, operand[0] as nat, s)
    else StackOnly(h, op, s)
  }

  /** op_table: what to do for an opcode with its operand. */
  type OpTable = (Octet, Code, State) -> Outcome

  function Table(h: Host): OpTable
  {
    (op, operand, s) => Operation(h, op, operand, s)
  }

  /** Fetch an opcode, run its table entry, repeat, to the end of the code. */
  function Run(table: OpTable, code: Code, s: State): Outcome
    decreases |code|
  {
    if code == [] then Running(s)
    else
      var k := OperandLength(code[0]);
      if |code| < k + 1 then Stopped
      else
        match table(code[0], code[1..k + 1], s)
        case Stopped => Stopped
        case Running(t) => Run(table, code[k + 1..], t)
  }

  /** There are no jumps: running two stretches of code is running one after the other. */
  lemma {:induction false} RunAppend(table: OpTable, a: Code, b: Code, s: State)
    requires Run(table, a, s).Running?
    ensures Run(table, a + b, s) == Run(table, b, Run(table, a, s).s)
    decreases |a|
  {
    if a == [] {
      assert a + b == b;
    } else {
      var k := OperandLength(a[0]);
      var t := table(a[0], a[1..k + 1], s).s;
      CutAppend(a, b, k + 1);
      RunAppend(table, a[k + 1..], b, t);
    }
  }

  lemma CutAppend(a: Code, b: Code, n: nat)
    requires 0 < n <= |a|
    ensures (a + b)[0] == a[0] && (a + b)[1..n] == a[1..n] && (a + b)[n..] == a[n..] + b
  {
  }

  /** The cleared rest of the text segment does nothing. */
  lemma {:induction false} RunNoops(h: Host, n: nat, s: State)
    ensures Run(Table(h), seq(n, i => OP_NOOP), s) == Running(s)
  {
    if n > 0 {
      RunNoops(h, n - 1, s);
      assert seq(n, i => OP_NOOP)[1..] == seq(n - 1, i => OP_NOOP);
    }
  }

  // ---- the machine's own registers ----

  class Vm {
    const host: Host
    const text: array<Octet>
    const stack: array<Word>
    var sp: nat
    var pc: nat
    var mem: Memory

    ghost predicate Valid()
      reads this
    {
      text.Length == TEXT_MAX && stack.Length == STACK_MAX && sp <= STACK_MAX && pc <= TEXT_MAX
    }

    ghost function View(): State
      reads this, stack
      requires Valid()
    {
      State(stack[..sp], mem)
    }

    constructor (host: Host, text: array<Octet>, mem: Memory)
      requires text.Length == TEXT_MAX
      ensures Valid() && fresh(stack) && this.host == host && this.text == text
      ensures View() == State([], mem) && pc == 0
    {
      this.host, this.text := host, text;
      stack := new Word[STACK_MAX];
      sp, pc := 0, 0;
      this.mem := mem;
    }

    method PushWord(w: Word) returns (ok: bool)
      requires Valid()
      modifies this`sp, stack
      ensures Valid()
      ensures ok == Push(old(View()), w).Running?
      ensures ok ==> Push(old(View()), w) == Running(View())
    {
      if sp == STACK_MAX {
        return false;
      }
      stack[sp] := w;
      sp := sp + 1;
      ok := true;
    }

    method FetchDword() returns (w: Word)
      requires Valid() && pc + 4 <= TEXT_MAX
      modifies this`pc
      ensures Valid() && pc == old(pc) + 4
      ensures var o := text[old(pc)..old(pc) + 4]; w == Get32(o[0], o[1], o[2], o[3])
    {
      w := Get32(text[pc], text[pc + 1], text[pc + 2], text[pc + 3]);
      pc := pc + 4;
    }

    method SetTop(w: Word)
      requires Valid() && sp > 0
      modifies stack
      ensures View() == old(View()).(stack := old(View()).stack[..sp - 1] + [w])
    {
      stack[sp - 1] := w;
    }

    method Pop()
      requires Valid() && sp > 0
      modifies this`sp
      ensures Valid() && sp == old(sp) - 1
      ensures View() == old(View()).(stack := old(View()).stack[..sp])
    {
      sp := sp - 1;
    }

    method Store()
      requires Valid() && sp >= 2
      modifies this`sp, this`mem
      ensures Valid() && sp == old(sp) - 1
      ensures View() == State(old(View()).stack[..sp], Write(old(mem), stack[sp - 1], stack[sp]))
    {
      mem := Write(mem, stack[sp - 2], stack[sp - 1]);
      sp := sp - 1;
    }

    method BinaryOperation(op: BinOp) returns (ok: bool)
      requires Valid()
      modifies this`sp, stack
      ensures Valid()
      ensures ok == Binary(host, op, old(View())).Running?
      ensures ok ==> Binary(host, op, old(View())) == Running(View())
    {
      if sp < 2 {
        return false;
      }
      var w := host.alu(op, stack[sp - 2], stack[sp - 1]);
      Pop();
      SetTop(w);
      ok := true;
    }

    /** OP_bw, OP_ld_value_stack, OP_st, OP_pop and the binary operations: no operand follows. */
    method StackOperation(op: Octet) returns (ok: bool)
      requires Valid()
      modifies this`sp, this`mem, stack
      ensures Valid()
      ensures ok == StackOnly(host, op, old(View())).Running?
      ensures ok ==> StackOnly(host, op, old(View())) == Running(View())
    {
      if op == OP_NOOP {
        return true;
      }
      if Alu(op) != [] {
        ok := BinaryOperation(Alu(op)[0]);
        return;
      }
      if sp < 1 {
        return false;
      }
      ok := true;
      if op == OP_BITWISE_DWORD {
        SetTop(Complement(stack[sp - 1]));
      } else if op == OP_LD_VALUE_DWORD_STACK {
        SetTop(Read(mem, stack[sp - 1]));
      } else if op == OP_POP {
        Pop();
      } else if op == OP_ST_DWORD && sp >= 2 {
        Store();
      } else {
        ok := false;
      }
    }

    /** OP_call: the parameters are popped last to first, then the function address. */
    method CallOperation(k: nat) returns (ok: bool)
      requires Valid()
      modifies this`sp, this`mem, stack
      ensures Valid()
      ensures ok == CallWith(host, k, old(View())).Running?
      ensures ok ==> CallWith(host, k, old(View())) == Running(View())
    {
      if k > MAX_PARAMETERS || sp < k + 1 {
        return false;
      }
      var parameters: seq<Word>, i, top := [], 0, sp - 1;
      while i < k
        invariant 0 <= i <= k && top == sp - 1 - i
        invariant parameters == stack[top + 1..sp]
      {
        parameters := [stack[top]] + parameters;
        top := top - 1;
        i := i + 1;
      }
      var r := host.call(stack[top], parameters, mem);
      stack[top] := r.0;
      sp := top + 1;
      mem := r.1;
      ok := true;
    }

    /** One table entry, its operand fetched from the text. */
    method OperationAt(op: Octet) returns (ok: bool)
      requires Valid() && pc + OperandLength(op) <= TEXT_MAX
      modifies this`sp, this`pc, this`mem, stack
      ensures Valid() && pc == old(pc) + OperandLength(op)
      ensures ok == Operation(host, op, text[old(pc)..pc], old(View())).Running?
      ensures ok ==> Operation(host, op, text[old(pc)..pc], old(View())) == Running(View())
    {
      if op == OP_LD_DWORD || op == OP_LD_VALUE_DWORD {
        var w := FetchDword();
        ok := PushWord(if op == OP_LD_DWORD then w else Read(mem, w));
      } else if op == OP_SYSCALL {
        pc := pc + 1;
        ok := CallOperation(text[pc - 1] as nat);
      } else {
        ok := StackOperation(op);
      }
    }

    /** finsh_vm_run: from the start of the text segment to its end. */
    method Execute() returns (ok: bool)
      requires Valid() && pc == 0 && sp == 0
      modifies this`sp, this`pc, this`mem, stack
      ensures Valid()
      ensures ok == Run(Table(host), text[..], State([], old(mem))).Running?
      ensures ok ==> Run(Table(host), text[..], State([], old(mem))) == Running(View())
    {
      ghost var whole := Run(Table(host), text[..], View());
      assert text[0..] == text[..];
      ok := true;
      while pc < TEXT_MAX
        invariant Valid()
        invariant Run(Table(host), text[pc..], View()) == whole
        decreases TEXT_MAX - pc
      {
        var op := text[pc];
        ghost var code, at := text[pc..], pc;
        pc := pc + 1;
        if pc + OperandLength(op) > TEXT_MAX {
          return false;
        }
        ok := OperationAt(op);
        assert code[1..OperandLength(op) + 1] == text[at + 1..pc] && code[OperandLength(op) + 1..] == text[pc..];
        if !ok {
          return;
        }
      }
      assert text[TEXT_MAX..] == [];
    }
  }
}
