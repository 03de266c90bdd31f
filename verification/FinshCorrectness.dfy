/** The FinSH compiler preserves meaning: running the emitted bytes computes exactly what the expression
    means, precisely when no operator stands on a value the type check calls void and no variable is a
    `void *`. */
module FinshCorrectness {
  import opened FinshTree
  import opened FinshWords
  import opened FinshVm
  import opened FinshCompiler

  // ---- the code of an expression ----

  function Compiled(e: Expr): Code
  {
    TreeCode(TypeCheck(Tree(e, Null), false))
  }

  function CompiledArgs(args: Args): Code
    decreases args
  {
    match args
    case NoArgs => []
    case Arg(e, rest) => Compiled(e) + CompiledArgs(rest)
  }

  /** Variables of 32 bits, by their declared type: integers, longs and pointers. */
  predicate Wide(ty: VarType)
  {
    ty !in {VoidT, CharT, UChar, ShortT, UShort}
  }

  /** The type check takes every one of them, and nothing else, for a 32-bit value. */
  lemma WideIsDword(ty: VarType)
    ensures CheckedType(ty).Dword? <==> Wide(ty)
  {
  }

  /** The expressions of the fragment: all their variables are of 32 bits. */
  predicate InFragment(e: Expr)
    decreases e
  {
    match e
    case Const(_) => true
    case Load(v) => Wide(v.ty)
    case AddrOf(v) => Wide(v.ty)
    case Bin(_, l, r) => InFragment(l) && InFragment(r)
    case Not(a) => InFragment(a)
    case Assign(v, rhs) => Wide(v.ty) && InFragment(rhs)
    case PreInc(v) => Wide(v.ty)
    case PreDec(v) => Wide(v.ty)
    case Inc(v) => Wide(v.ty)
    case Dec(v) => Wide(v.ty)
    case Call(_, args) => ArgsInFragment(args) && CountArgs(args) <= MAX_PARAMETERS
  }

  predicate ArgsInFragment(args: Args)
    decreases args
  {
    match args
    case NoArgs => true
    case Arg(e, rest) => InFragment(e) && ArgsInFragment(rest)
  }

  lemma {:induction false} RootTypeIsChecked(e: Expr, sibling: Node)
    ensures TypeCheck(Tree(e, sibling), false).dataType == RootType(e)
    ensures !TypeCheck(Tree(e, sibling), false).address
    decreases e
  {
    match e {
      case Bin(op, l, r) => RootTypeIsChecked(l, Tree(r, Null));
      case Not(a) => RootTypeIsChecked(a, Null);
      case _ =>
    }
  }

  /** The first thing an expression evaluates is a call. */
  predicate BeginsWithCall(e: Expr)
    decreases e
  {
    match e
    case Bin(_, l, _) => BeginsWithCall(l)
    case Not(a) => BeginsWithCall(a)
    case Call(_, _) => true
    case _ => false
  }

  /** In the fragment the type check makes exactly the expressions that begin with a call void. */
  lemma {:induction false} FragmentRootType(e: Expr)
    requires InFragment(e)
    ensures RootType(e) == if BeginsWithCall(e) then Void else Dword
    decreases e
  {
    match e {
      case Bin(op, l, r) => FragmentRootType(l);
      case Not(a) => FragmentRootType(a);
      case Call(_, _) =>
      case Const(_) =>
      case _ => WideIsDword(e.v.ty);
    }
  }

  /** A sibling only adds its own code at the end. */
  lemma SiblingCode(e: Expr, sibling: Node)
    ensures TreeCode(TypeCheck(Tree(e, sibling), false)) == Compiled(e) + TreeCode(TypeCheck(sibling, false))
  {
    TreeSibling(e, sibling);
    TypeCheckSibling(Tree(e, Null), sibling);
    TreeCodeSibling(TypeCheck(Tree(e, Null), false), TypeCheck(sibling, false));
  }

  lemma TreeSibling(e: Expr, sibling: Node)
    ensures Tree(e, Null).Node? && Tree(e, Null).sibling == Null
    ensures Tree(e, sibling) == Tree(e, Null).(sibling := sibling)
  {
  }

  lemma TypeCheckSibling(n: Node, sibling: Node)
    requires n.Node? && n.sibling == Null
    ensures TypeCheck(n, false).sibling == Null
    ensures TypeCheck(n.(sibling := sibling), false) == TypeCheck(n, false).(sibling := TypeCheck(sibling, false))
  {
  }

  lemma TreeCodeSibling(n: Node, sibling: Node)
    requires n.Node? && n.sibling == Null
    ensures TreeCode(n.(sibling := sibling)) == TreeCode(n) + TreeCode(sibling)
  {
    OwnIgnoresSibling(n, sibling);
    AppendNothing(TreeCode(n.child) + Own(n));
  }

  lemma AppendNothing(c: Code)
    ensures c + [] == c
  {
  }

  lemma OwnIgnoresSibling(n: Node, sibling: Node)
    requires n.Node?
    ensures Own(n.(sibling := sibling)) == Own(n)
  {
  }

  lemma {:induction false} ArgsCode(args: Args)
    ensures TreeCode(TypeCheck(TreeArgs(args), false)) == CompiledArgs(args)
    decreases args
  {
    match args {
      case NoArgs =>
      case Arg(e, rest) =>
        ArgsCode(rest);
        SiblingCode(e, TreeArgs(rest));
    }
  }

  lemma {:induction false} ArgsSiblings(args: Args)
    ensures Siblings(TypeCheck(TreeArgs(args), false)) == CountArgs(args)
    decreases args
  {
    match args {
      case NoArgs =>
      case Arg(e, rest) =>
        ArgsSiblings(rest);
        TreeSibling(e, TreeArgs(rest));
    }
  }

  // ---- what each kind of expression compiles to ----

  function LoadConst(w: Word): Code { [OP_LD_DWORD] + Set32(w) }

  function LoadVar(v: Var): Code
  {
    if v.ty.VoidPtr? then [] else [OP_LD_VALUE_DWORD] + Set32(v.addr)
  }

  function LoadAddr(v: Var): Code
  {
    if v.ty.VoidPtr? then [] else LoadConst(v.addr)
  }

  /** Load the variable plus or minus one. */
  function Sum(addr: Word, op: BinOp): Code
  {
    [OP_LD_VALUE_DWORD] + Set32(addr) + LoadConst(1) + [BinCode(op) + 2]
  }

  /** ... and store it: what the increments share. */
  function Bump(addr: Word, op: BinOp): Code { Sum(addr, op) + [OP_ST_DWORD] }

  lemma AppendToNothing(c: Code)
    ensures [] + c == c && c + [] == c
  {
  }

  lemma VarCode(v: Var, sibling: Node, isAddr: bool)
    requires Wide(v.ty)
    ensures var n := TypeCheck(VarNode(v, sibling), isAddr);
            && n.dataType == Dword && n.kind == Id && n.sym == Variable(v.addr, v.ty)
            && TreeCode(n) == (if isAddr then LoadAddr(v) else LoadVar(v)) + TreeCode(TypeCheck(sibling, false))
  {
    var n := TypeCheck(VarNode(v, sibling), isAddr);
    AppendToNothing(Own(n));
    assert Own(n) == if isAddr then LoadAddr(v) else LoadVar(v);
  }

  lemma LeafShapes(w: Word, v: Var)
    requires Wide(v.ty)
    ensures Compiled(Const(w)) == LoadConst(w)
    ensures Compiled(Load(v)) == LoadVar(v)
    ensures Compiled(AddrOf(v)) == LoadAddr(v)
  {
    var n := TypeCheck(Tree(Const(w), Null), false);
    AppendToNothing(Own(n));
    VarCode(v, Null, false);
    VarCode(v, Null, true);
    AppendToNothing(LoadVar(v));
    AppendToNothing(LoadAddr(v));
  }

  /** A node without siblings: its children's code, then its own. */
  lemma AloneCode(n: Node, child: Code, own: Code)
    requires n.Node? && n.sibling == Null && TreeCode(n.child) == child && Own(n) == own
    ensures TreeCode(n) == child + own
  {
    AppendNothing(child + own);
  }

  lemma BinNode(op: BinOp, l: Expr, r: Expr)
    ensures var n := TypeCheck(Tree(Bin(op, l, r), Null), false);
            && n.Node? && n.kind == SysBin(op) && n.sibling == Null && n.dataType == RootType(l)
            && n.child == TypeCheck(Tree(l, Tree(r, Null)), false)
  {
    RootTypeIsChecked(l, Tree(r, Null));
  }

  lemma BinShape(op: BinOp, l: Expr, r: Expr)
    requires InFragment(l)
    ensures Compiled(Bin(op, l, r)) ==
            Compiled(l) + Compiled(r) + (if !BeginsWithCall(l) then [BinCode(op) + 2] else [])
  {
    BinNode(op, l, r);
    SiblingCode(l, Tree(r, Null));
    FragmentRootType(l);
    AloneCode(TypeCheck(Tree(Bin(op, l, r), Null), false), Compiled(l) + Compiled(r),
              if !BeginsWithCall(l) then [BinCode(op) + 2] else []);
  }

  lemma NotNode(a: Expr)
    ensures var n := TypeCheck(Tree(Not(a), Null), false);
            && n.Node? && n.kind == SysBitwise && n.sibling == Null && n.dataType == RootType(a)
            && n.child == TypeCheck(Tree(a, Null), false)
  {
    RootTypeIsChecked(a, Null);
  }

  lemma NotShape(a: Expr)
    requires InFragment(a)
    ensures Compiled(Not(a)) == Compiled(a) + (if !BeginsWithCall(a) then [OP_BITWISE_DWORD] else [])
  {
    NotNode(a);
    FragmentRootType(a);
    AloneCode(TypeCheck(Tree(Not(a), Null), false), Compiled(a), if !BeginsWithCall(a) then [OP_BITWISE_DWORD] else []);
  }

  lemma AssignShape(v: Var, rhs: Expr)
    requires Wide(v.ty)
    ensures Compiled(Assign(v, rhs)) == LoadAddr(v) + Compiled(rhs) + [OP_ST_DWORD, OP_LD_VALUE_DWORD_STACK]
  {
    var n := TypeCheck(Tree(Assign(v, rhs), Null), false);
    VarCode(v, Tree(rhs, Null), true);
    assert Own(n) == [OP_ST_DWORD, OP_LD_VALUE_DWORD_STACK];
    AppendToNothing(TreeCode(n.child) + Own(n));
  }

  lemma PreShape(v: Var)
    requires Wide(v.ty)
    ensures Compiled(PreInc(v)) == LoadAddr(v) + (Bump(v.addr, Add) + [OP_LD_VALUE_DWORD_STACK])
    ensures Compiled(PreDec(v)) == LoadAddr(v) + (Bump(v.addr, Sub) + [OP_LD_VALUE_DWORD_STACK])
  {
    VarCode(v, Null, true);
    AppendToNothing(LoadAddr(v));
    var i := TypeCheck(Tree(PreInc(v), Null), false);
    var d := TypeCheck(Tree(PreDec(v), Null), false);
    assert Own(i) == Bump(v.addr, Add) + [OP_LD_VALUE_DWORD_STACK];
    assert Own(d) == Bump(v.addr, Sub) + [OP_LD_VALUE_DWORD_STACK];
    AppendToNothing(LoadAddr(v) + Own(i));
    AppendToNothing(LoadAddr(v) + Own(d));
  }

  lemma PostShape(v: Var)
    requires Wide(v.ty)
    ensures Compiled(Inc(v)) == LoadVar(v) + (LoadConst(v.addr) + Bump(v.addr, Add) + [OP_POP])
    ensures Compiled(Dec(v)) == LoadVar(v) + (LoadConst(v.addr) + Bump(v.addr, Sub) + [OP_POP])
  {
    VarCode(v, Null, false);
    AppendToNothing(LoadVar(v));
    var i := TypeCheck(Tree(Inc(v), Null), false);
    var d := TypeCheck(Tree(Dec(v), Null), false);
    assert Own(i) == LoadConst(v.addr) + Bump(v.addr, Add) + [OP_POP];
    assert Own(d) == LoadConst(v.addr) + Bump(v.addr, Sub) + [OP_POP];
    AppendToNothing(LoadVar(v) + Own(i));
    AppendToNothing(LoadVar(v) + Own(d));
  }

  lemma FuncCode(f: Word, sibling: Node)
    ensures var n := TypeCheck(Leaf(Id, 0, Syscall(f), sibling), false);
            && n.Node? && n.sibling == TypeCheck(sibling, false)
            && TreeCode(n) == LoadConst(f) + TreeCode(TypeCheck(sibling, false))
  {
    var n := TypeCheck(Leaf(Id, 0, Syscall(f), sibling), false);
    AppendToNothing(Own(n));
    assert Own(n) == LoadConst(f);
  }

  lemma CallNode(f: Word, args: Args)
    ensures var n := TypeCheck(Tree(Call(f, args), Null), false);
            && n.Node? && n.kind == SysFunc && n.sibling == Null
            && n.child == TypeCheck(Leaf(Id, 0, Syscall(f), TreeArgs(args)), false)
  {
  }

  lemma CallShape(f: Word, args: Args)
    requires CountArgs(args) <= MAX_PARAMETERS
    ensures Compiled(Call(f, args)) == LoadConst(f) + CompiledArgs(args) + [OP_SYSCALL, CountByte(CountArgs(args))]
  {
    CallNode(f, args);
    var n := TypeCheck(Tree(Call(f, args), Null), false);
    ArgsCode(args);
    ArgsSiblings(args);
    FuncCode(f, TreeArgs(args));
    FuncOwn(n, CountArgs(args));
    AloneCode(n, LoadConst(f) + CompiledArgs(args), [OP_SYSCALL, CountByte(CountArgs(args))]);
  }

  lemma FuncOwn(n: Node, k: nat)
    requires n.Node? && n.kind == SysFunc && n.child.Node? && Siblings(n.child.sibling) == k < 256
    ensures Own(n) == [OP_SYSCALL, CountByte(k)]
  {
  }

  /** The code of an expression by its kind, once type check and tree walk are worked out. */
  function Emit(e: Expr): Code
    decreases e
  {
    match e
    case Const(w) => LoadConst(w)
    case Load(v) => LoadVar(v)
    case AddrOf(v) => LoadAddr(v)
    case Bin(op, l, r) => Emit(l) + Emit(r) + (if !BeginsWithCall(l) then [BinCode(op) + 2] else [])
    case Not(a) => Emit(a) + (if !BeginsWithCall(a) then [OP_BITWISE_DWORD] else [])
    case Assign(v, rhs) => LoadAddr(v) + Emit(rhs) + [OP_ST_DWORD, OP_LD_VALUE_DWORD_STACK]
    case PreInc(v) => LoadAddr(v) + PreTail(v.addr, Add)
    case PreDec(v) => LoadAddr(v) + PreTail(v.addr, Sub)
    case Inc(v) => LoadVar(v) + PostTail(v.addr, Add)
    case Dec(v) => LoadVar(v) + PostTail(v.addr, Sub)
    case Call(f, args) => LoadConst(f) + EmitArgs(args) + [OP_SYSCALL, CountByte(CountArgs(args))]
  }

  function EmitArgs(args: Args): Code
    decreases args
  {
    match args
    case NoArgs => []
    case Arg(e, rest) => Emit(e) + EmitArgs(rest)
  }

  function PreTail(a: Word, op: BinOp): Code { Bump(a, op) + [OP_LD_VALUE_DWORD_STACK] }

  function PostTail(a: Word, op: BinOp): Code { LoadConst(a) + Bump(a, op) + [OP_POP] }

  lemma {:induction false} EmitIsCompiled(e: Expr)
    requires InFragment(e)
    ensures Compiled(e) == Emit(e)
    decreases e
  {
    match e {
      case Const(w) => LeafShapes(w, Var(0, LongT));
      case Load(v) => LeafShapes(0, v);
      case AddrOf(v) => LeafShapes(0, v);
      case Bin(op, l, r) =>
        EmitIsCompiled(l);
        EmitIsCompiled(r);
        BinShape(op, l, r);
      case Not(a) =>
        EmitIsCompiled(a);
        NotShape(a);
      case Assign(v, rhs) =>
        EmitIsCompiled(rhs);
        AssignShape(v, rhs);
      case PreInc(v) => PreShape(v);
      case PreDec(v) => PreShape(v);
      case Inc(v) => PostShape(v);
      case Dec(v) => PostShape(v);
      case Call(f, args) =>
        EmitArgsIsCompiled(args);
        CallShape(f, args);
    }
  }

  lemma {:induction false} EmitArgsIsCompiled(args: Args)
    requires ArgsInFragment(args)
    ensures CompiledArgs(args) == EmitArgs(args)
    decreases args
  {
    match args {
      case NoArgs =>
      case Arg(e, rest) =>
        EmitIsCompiled(e);
        EmitArgsIsCompiled(rest);
    }
  }

  // ---- running the code ----

  predicate Runs(h: Host, code: Code, s: State, t: State)
  {
    Run(Table(h), code, s) == Running(t)
  }

  lemma Then(h: Host, a: Code, b: Code, s: State, t: State)
    requires Runs(h, a, s, t)
    ensures Run(Table(h), a + b, s) == Run(Table(h), b, t)
  {
    RunAppend(Table(h), a, b, s);
  }

  lemma ThenTo(h: Host, a: Code, b: Code, s: State, t: State, u: State)
    requires Runs(h, a, s, t) && Runs(h, b, t, u)
    ensures Runs(h, a + b, s, u)
  {
    Then(h, a, b, s, t);
  }

  lemma RunFetch(table: OpTable, op: Octet, operand: Code, s: State)
    requires |operand| == OperandLength(op)
    ensures Run(table, [op] + operand, s) == table(op, operand, s)
  {
    var code := [op] + operand;
    assert code[1..|operand| + 1] == operand && code[|operand| + 1..] == [];
  }

  lemma RunOne(h: Host, op: Octet, s: State)
    requires OperandLength(op) == 0
    ensures Run(Table(h), [op], s) == StackOnly(h, op, s)
  {
    RunFetch(Table(h), op, [], s);
    assert [op] + [] == [op];
  }

  lemma RunLoads(h: Host, w: Word, stack: seq<Word>, mem: Memory)
    requires |stack| < STACK_MAX
    ensures Runs(h, LoadConst(w), State(stack, mem), State(stack + [w], mem))
    ensures Runs(h, [OP_LD_VALUE_DWORD] + Set32(w), State(stack, mem), State(stack + [Read(mem, w)], mem))
  {
    OperandRoundTrip(w);
    RunFetch(Table(h), OP_LD_DWORD, Set32(w), State(stack, mem));
    RunFetch(Table(h), OP_LD_VALUE_DWORD, Set32(w), State(stack, mem));
  }

  lemma RunAlu(h: Host, op: BinOp, base: seq<Word>, x: Word, y: Word, mem: Memory)
    ensures Runs(h, [BinCode(op) + 2], State(base + [x] + [y], mem), State(base + [h.alu(op, x, y)], mem))
  {
    RunOne(h, BinCode(op) + 2, State(base + [x] + [y], mem));
    assert Alu(BinCode(op) + 2) == [op];
    assert (base + [x] + [y])[..|base|] == base;
  }

  lemma RunStore(h: Host, base: seq<Word>, a: Word, w: Word, mem: Memory)
    ensures Runs(h, [OP_ST_DWORD], State(base + [a] + [w], mem), State(base + [a], Write(mem, a, w)))
  {
    RunOne(h, OP_ST_DWORD, State(base + [a] + [w], mem));
    assert (base + [a] + [w])[..|base| + 1] == base + [a];
  }

  lemma RunTop(h: Host, base: seq<Word>, a: Word, mem: Memory)
    ensures Runs(h, [OP_LD_VALUE_DWORD_STACK], State(base + [a], mem), State(base + [Read(mem, a)], mem))
    ensures Runs(h, [OP_BITWISE_DWORD], State(base + [a], mem), State(base + [Complement(a)], mem))
    ensures Runs(h, [OP_POP], State(base + [a], mem), State(base, mem))
  {
    var s := State(base + [a], mem);
    RunOne(h, OP_LD_VALUE_DWORD_STACK, s);
    RunOne(h, OP_BITWISE_DWORD, s);
    RunOne(h, OP_POP, s);
    assert (base + [a])[..|base|] == base;
  }

  lemma RunSum(h: Host, op: BinOp, base: seq<Word>, a: Word, mem: Memory)
    requires |base| + 2 <= STACK_MAX
    ensures Runs(h, Sum(a, op), State(base, mem), State(base + [h.alu(op, Read(mem, a), 1)], mem))
  {
    var x := Read(mem, a);
    var load, s := [OP_LD_VALUE_DWORD] + Set32(a), State(base, mem);
    RunLoads(h, a, base, mem);
    RunLoads(h, 1, base + [x], mem);
    Then(h, load, LoadConst(1), s, State(base + [x], mem));
    RunAlu(h, op, base, x, 1, mem);
    Then(h, load + LoadConst(1), [BinCode(op) + 2], s, State(base + [x] + [1], mem));
  }

  lemma RunBump(h: Host, op: BinOp, base: seq<Word>, a: Word, mem: Memory)
    requires |base| + 3 <= STACK_MAX
    ensures Runs(h, Bump(a, op), State(base + [a], mem), State(base + [a], Write(mem, a, h.alu(op, Read(mem, a), 1))))
  {
    var w := h.alu(op, Read(mem, a), 1);
    RunSum(h, op, base + [a], a, mem);
    RunStore(h, base, a, w, mem);
    Then(h, Sum(a, op), [OP_ST_DWORD], State(base + [a], mem), State(base + [a] + [w], mem));
  }

  lemma RunCall(h: Host, base: seq<Word>, f: Word, k: Octet, ws: seq<Word>, mem: Memory)
    requires k as nat == |ws| <= MAX_PARAMETERS
    ensures var r := h.call(f, ws, mem);
            Runs(h, [OP_SYSCALL, k], State(base + [f] + ws, mem), State(base + [r.0], r.1))
  {
    RunFetch(Table(h), OP_SYSCALL, [k], State(base + [f] + ws, mem));
    assert [OP_SYSCALL] + [k] == [OP_SYSCALL, k];
    CallEffect(h, base, f, ws, mem);
  }

  lemma CallEffect(h: Host, base: seq<Word>, f: Word, ws: seq<Word>, mem: Memory)
    requires |ws| <= MAX_PARAMETERS
    ensures var r := h.call(f, ws, mem);
            CallWith(h, |ws|, State(base + [f] + ws, mem)) == Running(State(base + [r.0], r.1))
  {
    CallSlots(base, f, ws);
  }

  lemma CallSlots(base: seq<Word>, f: Word, ws: seq<Word>)
    ensures var stack := base + [f] + ws;
            && |stack| == |base| + 1 + |ws| && stack[|base|] == f
            && stack[|base| + 1..] == ws && stack[..|base|] == base
  {
  }

  // ---- the theorem ----

  /** The compiled code of `e` does at `s` what the meaning of `e` says: one more slot, and the memory. */
  predicate Correct(h: Host, e: Expr, s: State)
  {
    var v := Eval(h, e, s.mem);
    Runs(h, Emit(e), s, State(s.stack + [v.w], v.mem))
  }

  /** The condition: no variable is a `void *`, no operator's first operand begins with a call. */
  predicate WellCompiled(e: Expr)
    decreases e
  {
    match e
    case Const(_) => true
    case Load(v) => !v.ty.VoidPtr?
    case AddrOf(v) => !v.ty.VoidPtr?
    case Bin(_, l, r) => !BeginsWithCall(l) && WellCompiled(l) && WellCompiled(r)
    case Not(a) => !BeginsWithCall(a) && WellCompiled(a)
    case Assign(v, rhs) => !v.ty.VoidPtr? && WellCompiled(rhs)
    case PreInc(v) => !v.ty.VoidPtr?
    case PreDec(v) => !v.ty.VoidPtr?
    case Inc(v) => !v.ty.VoidPtr?
    case Dec(v) => !v.ty.VoidPtr?
    case Call(_, args) => ArgsWellCompiled(args)
  }

  predicate ArgsWellCompiled(args: Args)
    decreases args
  {
    match args
    case NoArgs => true
    case Arg(e, rest) => WellCompiled(e) && ArgsWellCompiled(rest)
  }

  /** Room for the deepest the code of `e` can go: two slots more than the expression has nodes. */
  predicate Room(e: Expr, s: State)
  {
    |s.stack| + Nodes(e) + 2 <= STACK_MAX
  }

  lemma PreTailRuns(h: Host, op: BinOp, a: Word, base: seq<Word>, mem: Memory)
    requires |base| + 3 <= STACK_MAX
    ensures var w := h.alu(op, Read(mem, a), 1);
            Runs(h, PreTail(a, op), State(base + [a], mem), State(base + [w], Write(mem, a, w)))
  {
    var w := h.alu(op, Read(mem, a), 1);
    RunBump(h, op, base, a, mem);
    Then(h, Bump(a, op), [OP_LD_VALUE_DWORD_STACK], State(base + [a], mem), State(base + [a], Write(mem, a, w)));
    RunTop(h, base, a, Write(mem, a, w));
    assert Read(Write(mem, a, w), a) == w;
  }

  lemma PostTailRuns(h: Host, op: BinOp, a: Word, base: seq<Word>, mem: Memory)
    requires |base| + 3 <= STACK_MAX
    ensures Runs(h, PostTail(a, op), State(base, mem), State(base, Write(mem, a, h.alu(op, Read(mem, a), 1))))
  {
    var s, t := State(base, mem), State(base + [a], Write(mem, a, h.alu(op, Read(mem, a), 1)));
    RunLoads(h, a, base, mem);
    RunBump(h, op, base, a, mem);
    Then(h, LoadConst(a), Bump(a, op), s, State(base + [a], mem));
    Then(h, LoadConst(a) + Bump(a, op), [OP_POP], s, t);
    RunTop(h, base, a, t.mem);
  }

  lemma PreCorrect(h: Host, v: Var, op: BinOp, s: State)
    requires !v.ty.VoidPtr? && |s.stack| + 4 <= STACK_MAX
    ensures var w := h.alu(op, Read(s.mem, v.addr), 1);
            Runs(h, LoadAddr(v) + PreTail(v.addr, op), s, State(s.stack + [w], Write(s.mem, v.addr, w)))
  {
    RunLoads(h, v.addr, s.stack, s.mem);
    PreTailRuns(h, op, v.addr, s.stack, s.mem);
    Then(h, LoadAddr(v), PreTail(v.addr, op), s, State(s.stack + [v.addr], s.mem));
  }

  lemma PostCorrect(h: Host, v: Var, op: BinOp, s: State)
    requires !v.ty.VoidPtr? && |s.stack| + 4 <= STACK_MAX
    ensures var w := Read(s.mem, v.addr);
            Runs(h, LoadVar(v) + PostTail(v.addr, op), s, State(s.stack + [w], Write(s.mem, v.addr, h.alu(op, w, 1))))
  {
    var on := State(s.stack + [Read(s.mem, v.addr)], s.mem);
    RunLoads(h, v.addr, s.stack, s.mem);
    PostTailRuns(h, op, v.addr, on.stack, s.mem);
    Then(h, LoadVar(v), PostTail(v.addr, op), s, on);
  }

  lemma BinCorrect(h: Host, op: BinOp, l: Expr, r: Expr, s: State)
    requires InFragment(l) && Correct(h, l, s)
    requires var x := Eval(h, l, s.mem); Correct(h, r, State(s.stack + [x.w], x.mem))
    ensures !BeginsWithCall(l) ==> Correct(h, Bin(op, l, r), s)
    ensures BeginsWithCall(l) ==>
            var x := Eval(h, l, s.mem);
            var y := Eval(h, r, x.mem);
            Runs(h, Emit(Bin(op, l, r)), s, State(s.stack + [x.w] + [y.w], y.mem))
  {
    var x := Eval(h, l, s.mem);
    var y := Eval(h, r, x.mem);
    var t := State(s.stack + [x.w], x.mem);
    var u := State(s.stack + [x.w] + [y.w], y.mem);
    Then(h, Emit(l), Emit(r), s, t);
    if !BeginsWithCall(l) {
      Then(h, Emit(l) + Emit(r), [BinCode(op) + 2], s, u);
      RunAlu(h, op, s.stack, x.w, y.w, y.mem);
    } else {
      AppendToNothing(Emit(l) + Emit(r));
    }
  }

  lemma NotCorrect(h: Host, a: Expr, s: State)
    requires InFragment(a) && Correct(h, a, s)
    ensures !BeginsWithCall(a) ==> Correct(h, Not(a), s)
    ensures BeginsWithCall(a) ==> !Correct(h, Not(a), s)
  {
    var x := Eval(h, a, s.mem);
    if !BeginsWithCall(a) {
      Then(h, Emit(a), [OP_BITWISE_DWORD], s, State(s.stack + [x.w], x.mem));
      RunTop(h, s.stack, x.w, x.mem);
    } else {
      AppendToNothing(Emit(a));
      assert (s.stack + [x.w])[|s.stack|] != (s.stack + [Complement(x.w)])[|s.stack|];
    }
  }

  lemma StoreAndReload(h: Host, base: seq<Word>, a: Word, w: Word, mem: Memory)
    ensures Runs(h, [OP_ST_DWORD, OP_LD_VALUE_DWORD_STACK], State(base + [a] + [w], mem), State(base + [w], Write(mem, a, w)))
  {
    var s := State(base + [a] + [w], mem);
    RunStore(h, base, a, w, mem);
    Then(h, [OP_ST_DWORD], [OP_LD_VALUE_DWORD_STACK], s, State(base + [a], Write(mem, a, w)));
    RunTop(h, base, a, Write(mem, a, w));
    assert [OP_ST_DWORD] + [OP_LD_VALUE_DWORD_STACK] == [OP_ST_DWORD, OP_LD_VALUE_DWORD_STACK];
    assert Read(Write(mem, a, w), a) == w;
  }

  lemma AssignCorrect(h: Host, v: Var, rhs: Expr, s: State)
    requires !v.ty.VoidPtr? && |s.stack| < STACK_MAX
    requires Correct(h, rhs, State(s.stack + [v.addr], s.mem))
    ensures Correct(h, Assign(v, rhs), s)
  {
    var x := Eval(h, rhs, s.mem);
    var t := State(s.stack + [v.addr] + [x.w], x.mem);
    RunLoads(h, v.addr, s.stack, s.mem);
    Then(h, LoadAddr(v), Emit(rhs), s, State(s.stack + [v.addr], s.mem));
    StoreAndReload(h, s.stack, v.addr, x.w, x.mem);
    ThenTo(h, LoadAddr(v) + Emit(rhs), [OP_ST_DWORD, OP_LD_VALUE_DWORD_STACK], s, t,
           State(s.stack + [x.w], Write(x.mem, v.addr, x.w)));
  }

  /** Compiler correctness: the code of a well-compiled expression raises the stack by exactly its value,
      leaves the memory its meaning says, and never needs more than two slots beyond its node count. */
  lemma {:induction false} CompilerCorrect(h: Host, e: Expr, s: State)
    requires InFragment(e) && WellCompiled(e) && Room(e, s)
    ensures Correct(h, e, s)
    decreases e
  {
    match e {
      case Const(w) =>
        RunLoads(h, w, s.stack, s.mem);
      case Load(v) =>
        RunLoads(h, v.addr, s.stack, s.mem);
      case AddrOf(v) =>
        RunLoads(h, v.addr, s.stack, s.mem);
      case Bin(op, l, r) =>
        CompilerCorrect(h, l, s);
        var x := Eval(h, l, s.mem);
        CompilerCorrect(h, r, State(s.stack + [x.w], x.mem));
        BinCorrect(h, op, l, r, s);
      case Not(a) =>
        CompilerCorrect(h, a, s);
        NotCorrect(h, a, s);
      case Assign(v, rhs) =>
        CompilerCorrect(h, rhs, State(s.stack + [v.addr], s.mem));
        AssignCorrect(h, v, rhs, s);
      case PreInc(v) => PreCorrect(h, v, Add, s);
      case PreDec(v) => PreCorrect(h, v, Sub, s);
      case Inc(v) => PostCorrect(h, v, Add, s);
      case Dec(v) => PostCorrect(h, v, Sub, s);
      case Call(f, args) =>
        var xs := EvalArgs(h, args, s.mem);
        RunLoads(h, f, s.stack, s.mem);
        ArgsCorrect(h, args, s.stack + [f], s.mem);
        Then(h, LoadConst(f), EmitArgs(args), s, State(s.stack + [f], s.mem));
        Then(h, LoadConst(f) + EmitArgs(args), [OP_SYSCALL, CountByte(CountArgs(args))], s,
             State(s.stack + [f] + xs.ws, xs.mem));
        RunCall(h, s.stack, f, CountByte(CountArgs(args)), xs.ws, xs.mem);
    }
  }

  lemma {:induction false} ArgsCorrect(h: Host, args: Args, base: seq<Word>, mem: Memory)
    requires ArgsInFragment(args) && ArgsWellCompiled(args) && |base| + NodesArgs(args) + 2 <= STACK_MAX
    ensures var xs := EvalArgs(h, args, mem);
            Runs(h, EmitArgs(args), State(base, mem), State(base + xs.ws, xs.mem))
    decreases args
  {
    match args {
      case NoArgs =>
        assert base + [] == base;
      case Arg(e, rest) =>
        var x := Eval(h, e, mem);
        var xs := EvalArgs(h, rest, x.mem);
        CompilerCorrect(h, e, State(base, mem));
        NodesPositive(e);
        ArgsCorrect(h, rest, base + [x.w], x.mem);
        ThenTo(h, Emit(e), EmitArgs(rest), State(base, mem), State(base + [x.w], x.mem), State(base + [x.w] + xs.ws, xs.mem));
        PushFirst(base, x.w, xs.ws);
    }
  }

  lemma PushFirst(base: seq<Word>, w: Word, ws: seq<Word>)
    ensures base + [w] + ws == base + ([w] + ws)
  {
  }

  lemma NodesPositive(e: Expr)
    ensures Nodes(e) >= 1
  {
  }

  // ---- programs ----

  /** A program's meaning: its statements in order, the last one's value. */
  function EvalProgram(h: Host, stmts: Args, mem: Memory): Value
    requires stmts.Arg?
    decreases stmts
  {
    var v := Eval(h, stmts.first, mem);
    if stmts.rest.NoArgs? then v else EvalProgram(h, stmts.rest, v.mem)
  }

  function ProgramCode(stmts: Args): Code
  {
    ListCode(TypeCheck(TreeArgs(stmts), false))
  }

  lemma ProgramShape(stmts: Args)
    requires stmts.Arg?
    ensures ProgramCode(stmts) ==
            if stmts.rest.NoArgs? then Compiled(stmts.first)
            else Compiled(stmts.first) + [OP_POP] + ProgramCode(stmts.rest)
  {
    var alone := Tree(stmts.first, Null);
    TreeSibling(stmts.first, TreeArgs(stmts.rest));
    TypeCheckSibling(alone, TreeArgs(stmts.rest));
    assert TypeCheck(alone, false).(sibling := Null) == TypeCheck(alone, false);
    if stmts.rest.Arg? {
      TreeSibling(stmts.rest.first, TreeArgs(stmts.rest.rest));
    }
  }

  /** The whole pipeline: for every program whose syntax tree fits the node table, the compiled text, run
      from an empty stack and padded with the cleared rest of the text segment, leaves the memory the
      statements leave and the last statement's value in stack slot 0. */
  lemma {:induction false} ProgramCorrect(h: Host, stmts: Args, mem: Memory)
    requires stmts.Arg? && ArgsInFragment(stmts) && ArgsWellCompiled(stmts) && NodesArgs(stmts) <= NODE_MAX
    ensures var v := EvalProgram(h, stmts, mem);
            Runs(h, ProgramCode(stmts), State([], mem), State([v.w], v.mem))
    decreases stmts
  {
    var e, rest := stmts.first, stmts.rest;
    var v := Eval(h, e, mem);
    ProgramShape(stmts);
    EmitIsCompiled(e);
    CompilerCorrect(h, e, State([], mem));
    assert [] + [v.w] == [v.w];
    if rest.Arg? {
      NodesPositive(e);
      ProgramCorrect(h, rest, v.mem);
      Then(h, Compiled(e), [OP_POP], State([], mem), State([v.w], v.mem));
      RunTop(h, [], v.w, v.mem);
      Then(h, Compiled(e) + [OP_POP], ProgramCode(rest), State([], mem), State([], v.mem));
    }
  }

  lemma ExecutedProgram(h: Host, stmts: Args, mem: Memory, padding: nat)
    requires stmts.Arg? && ArgsInFragment(stmts) && ArgsWellCompiled(stmts) && NodesArgs(stmts) <= NODE_MAX
    ensures var v := EvalProgram(h, stmts, mem);
            Runs(h, ProgramCode(stmts) + seq(padding, i => OP_NOOP), State([], mem), State([v.w], v.mem))
  {
    var v := EvalProgram(h, stmts, mem);
    ProgramCorrect(h, stmts, mem);
    Then(h, ProgramCode(stmts), seq(padding, i => OP_NOOP), State([], mem), State([v.w], v.mem));
    RunNoops(h, padding, State([v.w], v.mem));
  }

  // ---- exactly which expressions are compiled correctly ----

  /** `e` and everything inside it is compiled correctly, wherever there is room. */
  ghost predicate Sound(h: Host, e: Expr)
    decreases e
  {
    && (forall s :: Room(e, s) ==> Correct(h, e, s))
    && match e
       case Bin(_, l, r) => Sound(h, l) && Sound(h, r)
       case Not(a) => Sound(h, a)
       case Assign(_, rhs) => Sound(h, rhs)
       case Call(_, args) => ArgsSound(h, args)
       case _ => true
  }

  ghost predicate ArgsSound(h: Host, args: Args)
    decreases args
  {
    match args
    case NoArgs => true
    case Arg(e, rest) => Sound(h, e) && ArgsSound(h, rest)
  }

  /** On any host, an expression of the fragment is compiled correctly throughout if and only if it is
      WellCompiled: `f() + 1` and `~f()` lose their operator, a `void *` variable loses its load. */
  lemma {:induction false} ExactlyWellCompiled(h: Host, e: Expr)
    requires InFragment(e) && Nodes(e) + 2 <= STACK_MAX
    ensures Sound(h, e) <==> WellCompiled(e)
    decreases e
  {
    if WellCompiled(e) {
      forall s | Room(e, s)
        ensures Correct(h, e, s)
      {
        CompilerCorrect(h, e, s);
      }
    }
    match e {
      case Bin(op, l, r) =>
        ExactlyWellCompiled(h, l);
        ExactlyWellCompiled(h, r);
        if WellCompiled(l) && WellCompiled(r) && BeginsWithCall(l) {
          VoidOperandFails(h, op, l, r);
        }
      case Not(a) =>
        ExactlyWellCompiled(h, a);
        if WellCompiled(a) && BeginsWithCall(a) {
          CompilerCorrect(h, a, State([], map[]));
          NotCorrect(h, a, State([], map[]));
          assert Room(e, State([], map[]));
        }
      case Assign(v, rhs) =>
        ExactlyWellCompiled(h, rhs);
        if WellCompiled(rhs) && v.ty.VoidPtr? {
          VoidPointerAssignFails(h, v, rhs);
        }
      case Call(_, args) =>
        ExactlyWellCompiledArgs(h, args);
      case _ =>
        if !WellCompiled(e) {
          VoidPointerFails(h, e);
        }
    }
  }

  lemma {:induction false} ExactlyWellCompiledArgs(h: Host, args: Args)
    requires ArgsInFragment(args) && NodesArgs(args) + 2 <= STACK_MAX
    ensures ArgsSound(h, args) <==> ArgsWellCompiled(args)
    decreases args
  {
    match args {
      case NoArgs =>
      case Arg(e, rest) =>
        ExactlyWellCompiled(h, e);
        ExactlyWellCompiledArgs(h, rest);
    }
  }

  /** With a void first operand no operator is emitted: both operands stay on the stack. */
  lemma VoidOperandFails(h: Host, op: BinOp, l: Expr, r: Expr)
    requires InFragment(l) && InFragment(r) && WellCompiled(l) && WellCompiled(r) && BeginsWithCall(l)
    requires Nodes(l) + Nodes(r) + 3 <= STACK_MAX
    ensures Room(Bin(op, l, r), State([], map[])) && !Correct(h, Bin(op, l, r), State([], map[]))
  {
    var s := State([], map[]);
    var x := Eval(h, l, s.mem);
    NodesPositive(l);
    CompilerCorrect(h, l, s);
    CompilerCorrect(h, r, State(s.stack + [x.w], x.mem));
    BinCorrect(h, op, l, r, s);
  }

  /** Nothing is emitted for the address: the store finds no second slot. */
  lemma VoidPointerAssignFails(h: Host, v: Var, rhs: Expr)
    requires v.ty.VoidPtr? && InFragment(rhs) && WellCompiled(rhs) && Nodes(rhs) + 4 <= STACK_MAX
    ensures Room(Assign(v, rhs), State([], map[])) && !Correct(h, Assign(v, rhs), State([], map[]))
  {
    var s := State([], map[]);
    var x := Eval(h, rhs, s.mem);
    var tail := [OP_ST_DWORD, OP_LD_VALUE_DWORD_STACK];
    CompilerCorrect(h, rhs, s);
    AppendToNothing(Emit(rhs));
    Then(h, Emit(rhs), tail, s, State(s.stack + [x.w], x.mem));
    assert tail[1..1] == [];
  }

  lemma VoidPointerFails(h: Host, e: Expr)
    requires e.Load? || e.AddrOf? || e.PreInc? || e.PreDec? || e.Inc? || e.Dec?
    requires e.v.ty.VoidPtr?
    ensures Room(e, State([], map[])) && !Correct(h, e, State([], map[]))
  {
    var s := State([], map[]);
    match e {
      case Load(v) =>
      case AddrOf(v) =>
      case PreInc(v) => PreTailStops(h, Add, v.addr);
      case PreDec(v) => PreTailStops(h, Sub, v.addr);
      case Inc(v) =>
        AppendToNothing(PostTail(v.addr, Add));
        PostTailRuns(h, Add, v.addr, [], s.mem);
      case Dec(v) =>
        AppendToNothing(PostTail(v.addr, Sub));
        PostTailRuns(h, Sub, v.addr, [], s.mem);
    }
  }

  lemma PreTailStops(h: Host, op: BinOp, a: Word)
    ensures [] + PreTail(a, op) == PreTail(a, op)
    ensures Run(Table(h), PreTail(a, op), State([], map[])).Stopped?
  {
    var s := State([], map[]);
    var t := State([] + [h.alu(op, Read(s.mem, a), 1)], s.mem);
    var store := [OP_ST_DWORD] + [OP_LD_VALUE_DWORD_STACK];
    AppendToNothing(PreTail(a, op));
    RunSum(h, op, [], a, s.mem);
    Then(h, Sum(a, op), store, s, t);
    RunOne(h, OP_ST_DWORD, t);
    RunAppendStops(Table(h), [OP_ST_DWORD], [OP_LD_VALUE_DWORD_STACK], t);
    assert PreTail(a, op) == Sum(a, op) + store;
  }

  lemma {:induction false} RunAppendStops(table: OpTable, a: Code, b: Code, s: State)
    requires |a| == 1 && OperandLength(a[0]) == 0 && Run(table, a, s).Stopped?
    ensures Run(table, a + b, s).Stopped?
  {
    assert (a + b)[1..1] == a[1..1] && a[1..] == [];
  }
}
