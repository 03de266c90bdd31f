/** A line of the FinSH shell from end to end: compiled into the text segment and executed from it. */
module FinshShell {
  import opened FinshTree
  import opened FinshWords
  import opened FinshVm
  import opened FinshCompiler
  import opened FinshCorrectness

  /** The line's code runs in the text segment the compiler filled; its value is left in slot 0 and the memory
      is what the line means. */
  method RunLine(host: Host, stmts: Args, mem: Memory) returns (value: Word, mem': Memory)
    requires stmts.Arg? && ArgsInFragment(stmts) && ArgsWellCompiled(stmts) && NodesArgs(stmts) <= NODE_MAX
    requires |ProgramCode(stmts)| <= TEXT_MAX
    ensures value == EvalProgram(host, stmts, mem).w && mem' == EvalProgram(host, stmts, mem).mem
  {
    var compiler := new Compiler();
    compiler.CompilerRun(TreeArgs(stmts));
    var vm := new Vm(host, compiler.text, mem);
    ExecutedProgram(host, stmts, mem, TEXT_MAX - |ProgramCode(stmts)|);
    var ok := vm.Execute();
    assert vm.View().stack == [EvalProgram(host, stmts, mem).w];
    return vm.stack[0], vm.mem;
  }

  /** Where C defines the result, that is the result, whatever happens elsewhere. */
  lemma DefinedAlike(u: (BinOp, Word, Word) -> Word, v: (BinOp, Word, Word) -> Word, op: BinOp, a: Word, b: Word)
    requires Defined(op, a, b)
    ensures Operate(u, op, a, b) == Operate(v, op, a, b)
  {
  }

  /** On the board: the code of an operator on two constants leaves the C result in slot 0, and for a defined one
      the same on every such machine. */
  lemma ConstantsOnBoard(call: (Word, seq<Word>, Memory) -> (Word, Memory), u: (BinOp, Word, Word) -> Word,
                         v: (BinOp, Word, Word) -> Word, op: BinOp, a: Word, b: Word, mem: Memory)
    ensures var code := ProgramCode(Arg(Bin(op, Const(a), Const(b)), NoArgs));
            && Runs(CHost(call, u), code, State([], mem), State([Operate(u, op, a, b)], mem))
            && (Defined(op, a, b) ==> Runs(CHost(call, v), code, State([], mem), State([Operate(u, op, a, b)], mem)))
  {
    var e := Bin(op, Const(a), Const(b));
    var stmts := Arg(e, NoArgs);
    OneStatement(CHost(call, u), e, mem);
    OneStatement(CHost(call, v), e, mem);
    ConstantsValue(CHost(call, u), op, a, b, mem);
    ConstantsValue(CHost(call, v), op, a, b, mem);
    if Defined(op, a, b) {
      DefinedAlike(u, v, op, a, b);
    }
  }

  lemma ConstantsValue(h: Host, op: BinOp, a: Word, b: Word, mem: Memory)
    ensures Eval(h, Bin(op, Const(a), Const(b)), mem) == Value(h.alu(op, a, b), mem)
  {
    assert Eval(h, Const(a), mem) == Value(a, mem) && Eval(h, Const(b), mem) == Value(b, mem);
  }

  lemma OneStatement(h: Host, e: Expr, mem: Memory)
    requires InFragment(e) && WellCompiled(e) && Nodes(e) <= NODE_MAX
    ensures Runs(h, ProgramCode(Arg(e, NoArgs)), State([], mem), State([Eval(h, e, mem).w], Eval(h, e, mem).mem))
  {
    ProgramCorrect(h, Arg(e, NoArgs), mem);
  }
}
