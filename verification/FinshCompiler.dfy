/** The FinSH compiler: from the annotated syntax tree to byte code, and its correctness against the
    meaning of expressions, with the exact limits of that correctness. */
module FinshCompiler {
  import opened FinshTree
  import opened FinshWords
  import opened FinshVm

  // ---- finsh_compile ----

  /** Opcodes come in byte, word and dword versions side by side; a void operand selects none. */
  function Sized(byteOp: Octet, t: DataType): Code
    requires byteOp < 0x80
  {
    match t
    case Void => []
    case Byte => [byteOp]
    case Half => [byteOp + 1]
    case Dword => [byteOp + 2]
  }

  function BinCode(op: BinOp): (code: Octet)
    ensures code < 0x20
  {
    match op
    case Add => 0x01
    case Sub => 0x04
    case Div => 0x07
    case Mod => 0x0A
    case Mul => 0x0D
    case And => 0x10
    case Or => 0x13
    case Xor => 0x16
    case Shl => 0x1C
    case Shr => 0x1F
  }

  /** The load width the compiler itself gives an identifier: it has no case for `void *`. */
  function LoadedType(ty: VarType): DataType
  {
    match ty
    case VoidT => Void
    case VoidPtr => Void
    case CharT => Byte
    case UChar => Byte
    case ShortT => Half
    case UShort => Half
    case _ => Dword
  }

  /** The constant 1 in the width of an increment. */
  function One(t: DataType): Code
  {
    match t
    case Void => []
    case Byte => [OP_LD_BYTE, 1]
    case Half => [OP_LD_WORD, 1, 0]
    case Dword => [OP_LD_DWORD] + Set32(1)
  }

  /** Load, add or subtract one, store: what the four increment nodes share. */
  function Adjust(addr: Word, op: BinOp, t: DataType): Code
  {
    Sized(OP_LD_VALUE_BYTE, t) + Set32(addr) + One(t) + Sized(BinCode(op), t) + Sized(OP_ST_BYTE, t)
  }

  function PreAdjust(n: Node, op: BinOp): Code
  {
    if n.Node? && n.child.Node? && n.child.kind.Id? && n.child.sym.Variable? && n.dataType != Void
    then Adjust(n.child.sym.addr, op, n.dataType) + [OP_LD_VALUE_DWORD_STACK]
    else []
  }

  function PostAdjust(n: Node, op: BinOp): Code
  {
    if n.Node? && n.child.Node? && n.child.kind.Id? && n.child.sym.Variable? && n.dataType != Void
    then [OP_LD_DWORD] + Set32(n.child.sym.addr) + Adjust(n.child.sym.addr, op, n.dataType) + [OP_POP]
    else []
  }

  function Siblings(n: Node): nat
  {
    if n.Null? then 0 else 1 + Siblings(n.sibling)
  }

  /** The count of parameters in one byte. */
  function CountByte(n: nat): (b: Octet)
    ensures n < 256 ==> b as nat == n
  {
    (n % 256) as Octet
  }

  /** The bytes a node itself adds, between those of its child and those of its sibling. */
  function Own(n: Node): Code
    requires n.Node?
  {
    match n.kind
    case Id =>
      (match n.sym
       case NoSymbol => []
       case Syscall(f) => [OP_LD_DWORD] + Set32(f)
       case Variable(addr, ty) =>
         if LoadedType(ty) == Void then []
         else (if n.address then [OP_LD_DWORD] else Sized(OP_LD_VALUE_BYTE, LoadedType(ty))) + Set32(addr))
    case ValueLong => [OP_LD_DWORD] + Set32(n.value)
    case SysBin(op) => Sized(BinCode(op), n.dataType)
    case SysBitwise => Sized(OP_BITWISE_BYTE, n.dataType)
    case SysFunc =>
      if n.child.Null? then [] else [OP_SYSCALL, CountByte(Siblings(n.child.sibling))]
    case SysAssign =>
      if n.child.Node? && n.child.kind.Id?
      then Sized(OP_ST_BYTE, n.child.dataType) + Sized(OP_LD_VALUE_BYTE_STACK, n.child.dataType)
      else []
    case SysPreInc => PreAdjust(n, Add)
    case SysPreDec => PreAdjust(n, Sub)
    case SysInc => PostAdjust(n, Add)
    case SysDec => PostAdjust(n, Sub)
    case SysGetAddr => []
  }

  /** Child first, then the node, then its siblings. */
  function TreeCode(n: Node): Code
    decreases n
  {
    if n.Null? then [] else TreeCode(n.child) + Own(n) + TreeCode(n.sibling)
  }

  /** The statements of a program: siblings at the top, their values popped in between. */
  function ListCode(n: Node): Code
    decreases n
  {
    if n.Null? then []
    else if n.sibling.Null? then TreeCode(n)
    else TreeCode(n.(sibling := Null)) + [OP_POP] + ListCode(n.sibling)
  }

  lemma Associate(a: Code, b: Code, c: Code, d: Code)
    ensures a + b + c + d == a + (b + c + d)
  {
  }

  /** One statement more: its code, and a pop when another follows. */
  lemma ListStep(n: Node, before: Code)
    requires n.Node?
    ensures var done := before + TreeCode(n.(sibling := Null));
            before + ListCode(n) == if n.sibling.Null? then done + [] else done + [OP_POP] + ListCode(n.sibling)
    ensures |ListCode(n)| == |TreeCode(n.(sibling := Null))| + if n.sibling.Null? then 0 else 1 + |ListCode(n.sibling)|
  {
    if n.sibling.Null? {
      assert n.(sibling := Null) == n;
      NothingMore(before + TreeCode(n));
    } else {
      Associate(before, TreeCode(n.(sibling := Null)), [OP_POP], ListCode(n.sibling));
    }
  }

  lemma NothingMore(a: Code)
    ensures a + [] == a
  {
  }

  /** The compiler's registers: the text segment and the place the next byte goes to. */
  class Compiler {
    const text: array<Octet>
    var pc: nat

    constructor ()
      ensures fresh(text) && text.Length == TEXT_MAX && pc == 0
    {
      text := new Octet[TEXT_MAX](_ => 0);
      pc := 0;
    }

    method CodeBytes(code: Code)
      requires pc + |code| <= text.Length
      modifies this, text
      ensures pc == old(pc) + |code| && text[..pc] == old(text[..pc]) + code && text[pc..] == old(text[..])[pc..]
    {
      ghost var start := pc;
      for i := 0 to |code|
        invariant pc == start + i && text[..pc] == old(text[..pc]) + code[..i]
        invariant forall k :: pc <= k < text.Length ==> text[k] == old(text[k])
      {
        text[pc] := code[i];
        pc := pc + 1;
      }
    }

    /** finsh_compile. The source does not check the text segment's end; its callers must. */
    method Compile(n: Node)
      requires pc + |TreeCode(n)| <= text.Length
      modifies this, text
      ensures pc == old(pc) + |TreeCode(n)| && text[..pc] == old(text[..pc]) + TreeCode(n)
      ensures text[pc..] == old(text[..])[pc..]
      decreases n
    {
      if n.Node? {
        ghost var before := text[..pc];
        Compile(n.child);
        CodeBytes(Own(n));
        Compile(n.sibling);
        Associate(before, TreeCode(n.child), Own(n), TreeCode(n.sibling));
      }
    }

    /** finsh_compiler_run: type check, cleared text, then statement after statement with a pop in between. */
    method CompilerRun(root: Node)
      requires |ListCode(TypeCheck(root, false))| <= text.Length
      modifies this, text
      ensures pc == |ListCode(TypeCheck(root, false))|
      ensures text[..] == ListCode(TypeCheck(root, false)) + seq(text.Length - pc, i => OP_NOOP)
    {
      var rest := TypeCheck(root, false);
      ghost var all := ListCode(rest);
      Clear();
      pc := 0;
      assert text[..0] == [];
      while rest.Node?
        invariant pc + |ListCode(rest)| <= text.Length
        invariant text[..pc] + ListCode(rest) == all
        invariant Idle(text[pc..])
        decreases rest
      {
        ghost var before := text[..pc];
        ListStep(rest, before);
        var current := rest.(sibling := Null);
        rest := rest.sibling;
        CompileNext(current, rest.Node?);
      }
      assert text[..] == text[..pc] + text[pc..];
    }

    method Clear()
      modifies text
      ensures Idle(text[..])
    {
      for i := 0 to text.Length
        invariant forall k :: 0 <= k < i ==> text[k] == OP_NOOP
      {
        text[i] := OP_NOOP;
      }
    }

    /** One statement, and a pop when another follows. */
    method CompileNext(current: Node, more: bool)
      requires pc + |TreeCode(current)| + (if more then 1 else 0) <= text.Length && Idle(text[pc..])
      modifies this, text
      ensures var code := TreeCode(current);
              && pc == old(pc) + |code| + (if more then 1 else 0)
              && text[..pc] == old(text[..pc]) + code + if more then [OP_POP] else []
      ensures Idle(text[pc..])
    {
      ghost var was, from := text[..], pc;
      Compile(current);
      if more {
        CodeBytes([OP_POP]);
      }
      assert text[pc..] == was[pc..];
      StillIdle(was, from, pc);
    }
  }

  lemma StillIdle(text: Code, from: nat, to: nat)
    requires from <= to <= |text| && Idle(text[from..])
    ensures Idle(text[to..])
  {
    assert text[to..] == text[from..][to - from..];
  }

  /** Nothing but no-operations. */
  ghost predicate Idle(code: Code)
  {
    forall i :: 0 <= i < |code| ==> code[i] == OP_NOOP
  }
}
