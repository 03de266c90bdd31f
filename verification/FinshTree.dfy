/** FinSH syntax trees: the node table's first-child / next-sibling trees, the type check that annotates
    them, and the expressions they stand for. Only the 32-bit (DWORD) fragment is modelled. */
module FinshTree {
  import opened FinshWords

  datatype Address = At(w: Word)
  type Memory = map<Address, Word>

  /** finsh_type of a declared variable. */
  datatype VarType = VoidT | VoidPtr | CharT | UChar | CharPtr | ShortT | UShort | ShortPtr
                   | IntT | UInt | IntPtr | LongT | ULong | LongPtr

  datatype DataType = Void | Byte | Half | Dword

  datatype NodeType =
    | Id | ValueLong
    | SysBin(op: BinOp) | SysBitwise | SysFunc | SysAssign
    | SysPreInc | SysPreDec | SysInc | SysDec | SysGetAddr

  /** What an identifier node points at: a variable, at its address, or a system call. */
  datatype Symbol = NoSymbol | Variable(addr: Word, ty: VarType) | Syscall(func: Word)

  datatype Node = Null | Node(kind: NodeType, value: Word, sym: Symbol, address: bool, dataType: DataType,
                              child: Node, sibling: Node)

  // ---- finsh_type_check ----

  /** The load width the type check gives a variable. */
  function CheckedType(ty: VarType): DataType
  {
    match ty
    case VoidT => Void
    case CharT => Byte
    case UChar => Byte
    case ShortT => Half
    case UShort => Half
    case _ => Dword
  }

  /** The tree with every node's address flag and data type set: children of an assignment, of a
      pre-increment or -decrement and of `&` are addresses, a sibling never is, and a node with a child
      takes over the child's data type. */
  function TypeCheck(n: Node, isAddr: bool): (r: Node)
    ensures r.Null? <==> n.Null?
    decreases n
  {
    if n.Null? then Null
    else
      var wantsAddress := n.kind.SysAssign? || n.kind.SysPreInc? || n.kind.SysPreDec? || n.kind.SysGetAddr?;
      var child := TypeCheck(n.child, wantsAddress || isAddr);
      var sibling := TypeCheck(n.sibling, false);
      var address := n.address || (isAddr && !n.sym.Syscall?);
      var dataType :=
        if child.Node? then child.dataType
        else if n.kind.Id? && n.sym.Variable? then CheckedType(n.sym.ty)
        else if n.kind.ValueLong? then Dword
        else n.dataType;
      n.(address := address, dataType := dataType, child := child, sibling := sibling)
  }

  // ---- the expressions, and the trees the parser makes of them ----

  datatype Var = Var(addr: Word, ty: VarType)

  datatype Expr =
    | Const(w: Word)
    | Load(v: Var)
    | AddrOf(v: Var)
    | Bin(op: BinOp, left: Expr, right: Expr)
    | Not(arg: Expr)
    | Assign(v: Var, rhs: Expr)
    | PreInc(v: Var) | PreDec(v: Var) | Inc(v: Var) | Dec(v: Var)
    | Call(func: Word, args: Args)

  datatype Args = NoArgs | Arg(first: Expr, rest: Args)

  function Leaf(kind: NodeType, value: Word, sym: Symbol, sibling: Node): Node
  {
    Node(kind, value, sym, false, Void, Null, sibling)
  }

  function VarNode(v: Var, sibling: Node): Node
  {
    Leaf(Id, 0, Variable(v.addr, v.ty), sibling)
  }

  function SysNode(kind: NodeType, child: Node, sibling: Node): Node
  {
    Node(kind, 0, NoSymbol, false, Void, child, sibling)
  }

  /** The parser's tree of `e`, with `sibling` hung beside its root. */
  function Tree(e: Expr, sibling: Node): Node
    decreases e
  {
    match e
    case Const(w) => Leaf(ValueLong, w, NoSymbol, sibling)
    case Load(v) => VarNode(v, sibling)
    case AddrOf(v) => SysNode(SysGetAddr, VarNode(v, Null), sibling)
    case Bin(op, l, r) => SysNode(SysBin(op), Tree(l, Tree(r, Null)), sibling)
    case Not(a) => SysNode(SysBitwise, Tree(a, Null), sibling)
    case Assign(v, rhs) => SysNode(SysAssign, VarNode(v, Tree(rhs, Null)), sibling)
    case PreInc(v) => SysNode(SysPreInc, VarNode(v, Null), sibling)
    case PreDec(v) => SysNode(SysPreDec, VarNode(v, Null), sibling)
    case Inc(v) => SysNode(SysInc, VarNode(v, Null), sibling)
    case Dec(v) => SysNode(SysDec, VarNode(v, Null), sibling)
    case Call(f, args) => SysNode(SysFunc, Leaf(Id, 0, Syscall(f), TreeArgs(args)), sibling)
  }

  function TreeArgs(args: Args): Node
    decreases args
  {
    match args
    case NoArgs => Null
    case Arg(e, rest) => Tree(e, TreeArgs(rest))
  }

  /** How many entries of the node table an expression takes. */
  function Nodes(e: Expr): nat
    decreases e
  {
    match e
    case Const(_) => 1
    case Load(_) => 1
    case Bin(_, l, r) => 1 + Nodes(l) + Nodes(r)
    case Not(a) => 1 + Nodes(a)
    case Assign(_, rhs) => 2 + Nodes(rhs)
    case Call(_, args) => 2 + NodesArgs(args)
    case _ => 2
  }

  function NodesArgs(args: Args): nat
    decreases args
  {
    match args
    case NoArgs => 0
    case Arg(e, rest) => Nodes(e) + NodesArgs(rest)
  }

  function CountArgs(args: Args): nat
  {
    match args
    case NoArgs => 0
    case Arg(_, rest) => 1 + CountArgs(rest)
  }

  /** The data type the type check gives the root of `e`'s tree: that of its leftmost leaf. */
  function RootType(e: Expr): DataType
    decreases e
  {
    match e
    case Const(_) => Dword
    case Bin(_, l, _) => RootType(l)
    case Not(a) => RootType(a)
    case Call(_, _) => Void
    case Load(v) => CheckedType(v.ty)
    case AddrOf(v) => CheckedType(v.ty)
    case Assign(v, _) => CheckedType(v.ty)
    case PreInc(v) => CheckedType(v.ty)
    case PreDec(v) => CheckedType(v.ty)
    case Inc(v) => CheckedType(v.ty)
    case Dec(v) => CheckedType(v.ty)
  }

  // ---- the meaning of expressions ----

  /** What the program text leaves to the machine: system calls, which see and may change the memory, and
      the arithmetic. Everything below holds for every host; CHost is the one the C operators give. */
  datatype Host = Host(
    call: (Word, seq<Word>, Memory) -> (Word, Memory),
    alu: (BinOp, Word, Word) -> Word)

  function Read(mem: Memory, addr: Word): Word
  {
    if At(addr) in mem then mem[At(addr)] else 0
  }

  function Write(mem: Memory, addr: Word, w: Word): Memory
  {
    mem[At(addr) := w]
  }

  function CHost(call: (Word, seq<Word>, Memory) -> (Word, Memory), undefined: (BinOp, Word, Word) -> Word): Host
  {
    Host(call, (op, a, b) => Operate(undefined, op, a, b))
  }

  datatype Value = Value(w: Word, mem: Memory)
  datatype Values = Values(ws: seq<Word>, mem: Memory)

  /** The value of an expression and the memory it leaves, operands and arguments taken left to right. */
  function Eval(h: Host, e: Expr, mem: Memory): Value
    decreases e
  {
    match e
    case Const(w) => Value(w, mem)
    case Load(v) => Value(Read(mem, v.addr), mem)
    case AddrOf(v) => Value(v.addr, mem)
    case Bin(op, l, r) =>
      var x := Eval(h, l, mem);
      var y := Eval(h, r, x.mem);
      Value(h.alu(op, x.w, y.w), y.mem)
    case Not(a) =>
      var x := Eval(h, a, mem);
      Value(Complement(x.w), x.mem)
    case Assign(v, rhs) =>
      var x := Eval(h, rhs, mem);
      Value(x.w, Write(x.mem, v.addr, x.w))
    case PreInc(v) => var w := h.alu(Add, Read(mem, v.addr), 1); Value(w, Write(mem, v.addr, w))
    case PreDec(v) => var w := h.alu(Sub, Read(mem, v.addr), 1); Value(w, Write(mem, v.addr, w))
    case Inc(v) => var w := Read(mem, v.addr); Value(w, Write(mem, v.addr, h.alu(Add, w, 1)))
    case Dec(v) => var w := Read(mem, v.addr); Value(w, Write(mem, v.addr, h.alu(Sub, w, 1)))
    case Call(f, args) =>
      var xs := EvalArgs(h, args, mem);
      var r := h.call(f, xs.ws, xs.mem);
      Value(r.0, r.1)
  }

  function EvalArgs(h: Host, args: Args, mem: Memory): (r: Values)
    ensures |r.ws| == CountArgs(args)
    decreases args
  {
    match args
    case NoArgs => Values([], mem)
    case Arg(e, rest) =>
      var x := Eval(h, e, mem);
      var xs := EvalArgs(h, rest, x.mem);
      Values([x.w] + xs.ws, xs.mem)
  }

  /** An assignment stores its right side, has its value and touches nothing else; the increments are such
      assignments, and their postfix forms have the value from before. */
  lemma UpdatesAreAssignments(h: Host, v: Var, e: Expr, mem: Memory, a: Word)
    ensures var x, r := Eval(h, e, mem), Eval(h, Assign(v, e), mem);
            && r.w == x.w == Eval(h, Load(v), r.mem).w
            && (a != v.addr ==> Read(r.mem, a) == Read(x.mem, a))
    ensures Eval(h, PreInc(v), mem) == Eval(h, Assign(v, Bin(Add, Load(v), Const(1))), mem)
    ensures Eval(h, PreDec(v), mem) == Eval(h, Assign(v, Bin(Sub, Load(v), Const(1))), mem)
    ensures Eval(h, Inc(v), mem) == Value(Eval(h, Load(v), mem).w, Eval(h, PreInc(v), mem).mem)
    ensures Eval(h, Dec(v), mem) == Value(Eval(h, Load(v), mem).w, Eval(h, PreDec(v), mem).mem)
  {
    var one := Const(1);
    assert Eval(h, one, mem) == Value(1, mem) && Eval(h, Load(v), mem) == Value(Read(mem, v.addr), mem);
    assert Eval(h, Bin(Add, Load(v), one), mem).mem == Eval(h, Bin(Sub, Load(v), one), mem).mem == mem;
  }
}
