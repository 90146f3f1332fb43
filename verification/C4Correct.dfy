/** c4 preserves meaning: the code of an expression or statement, run by the machine from a state
    that holds the variables, ends where the tree says, with the tree's value in `a`, the frame
    registers as before, and the variables as the tree leaves them. */
module C4Correct {
  import opened Layout
  import opened C4Syntax
  import opened C4Machine
  import opened C4Frames
  import opened C4Print

  // The text, the functions in it, and the frame of the function whose body is running.
  datatype Ctx = Ctx(text: seq<int>, prog: Program, env: Env, n: nat, m: nat)

  function FnCode(fn: Fn, entry: nat): seq<int>
    requires GoodStmts(fn.env, fn.body)
  {
    [iENT, fn.vars] + GenStmts(fn.env, fn.body, entry + 2) + [iLEV]
  }

  ghost predicate LinkedAt(text: seq<int>, fn: Fn, entry: int) {
    && entry >= 0 && GoodStmts(fn.env, fn.body) && FnEnv(fn.env, fn.params, fn.vars)
    && At(text, entry, FnCode(fn, entry))
  }

  /** Every function of the program is compiled at its entry. */
  ghost predicate Linked(text: seq<int>, prog: Program) {
    forall entry | entry in prog :: LinkedAt(text, prog[entry], entry)
  }

  ghost predicate Ready(c: Ctx) { Linked(c.text, c.prog) && FnEnv(c.env, c.n, c.m) }

  /** From `vm`, the machine gets to `vm'` at `at`, with the value `v` and the variables `st`. */
  ghost predicate Evaluated(c: Ctx, vm: Vm, vm': Vm, at: int, v: Option<int>, st: St) {
    && Reaches(c.text, vm, vm')
    && vm'.pc == at && vm'.sp == vm.sp && vm'.bp == vm.bp && (v.Some? ==> vm'.a == v.value)
    && Rel(st, vm', c.n, c.m) && Kept(vm.mem, vm'.mem, vm.sp, vm.bp, c.n, c.m)
  }

  /** The same for a statement, which may also have left its function. */
  ghost predicate Executed(c: Ctx, vm: Vm, vm': Vm, at: int, out: Ended) {
    && Reaches(c.text, vm, vm') && Kept(vm.mem, vm'.mem, vm.sp, vm.bp, c.n, c.m)
    && match out
       case Failed => false
       case Normal(st) => vm'.pc == at && vm'.sp == vm.sp && vm'.bp == vm.bp && Rel(st, vm', c.n, c.m)
       case Returned(v, st) =>
         && vm'.pc == Get(vm'.mem, vm.bp + 1) && vm'.bp == Get(vm'.mem, vm.bp) && vm'.sp == vm.bp + 2
         && (v.Some? ==> vm'.a == v.value) && forall x | x > TOP :: Get(vm'.mem, x) == Get(st.globals, x)
  }

  // ---- joining runs ---------------------------------------------------------------------------

  lemma EvaluatedFacts(c: Ctx, vm: Vm, vm': Vm, at: int, v: Option<int>, st: St)
    requires Evaluated(c, vm, vm', at, v, st)
    ensures Rel(st, vm', c.n, c.m) && vm'.pc == at && vm'.sp == vm.sp && vm'.bp == vm.bp
        && (v.Some? ==> vm'.a == v.value)
    ensures Reaches(c.text, vm, vm')
  { }

  // An instruction that changes only `pc` and `a`.
  lemma OneStep(c: Ctx, vm: Vm, pc: int, a: int, st: St)
    requires Reaches(c.text, vm, vm.(pc := pc, a := a)) && Rel(st, vm, c.n, c.m)
    ensures Evaluated(c, vm, vm.(pc := pc, a := a), pc, Some(a), st)
  { hide Reaches; }

  lemma EvaluatedThen(c: Ctx, vm: Vm, vm': Vm, vm'': Vm, at: int, v: Option<int>, st: St, at': int, v': Option<int>,
      st': St)
    requires Evaluated(c, vm, vm', at, v, st) && Evaluated(c, vm', vm'', at', v', st')
    ensures Evaluated(c, vm, vm'', at', v', st')
  {
    hide Reaches, Rel;
    ReachTrans(c.text, vm, vm', vm'');
    KeptTrans(vm.mem, vm'.mem, vm''.mem, vm.sp, vm'.sp, vm.bp, c.n, c.m);
  }

  lemma ExecutedThen(c: Ctx, vm: Vm, vm': Vm, vm'': Vm, at: int, v: Option<int>, st: St, at': int, out: Ended)
    requires Evaluated(c, vm, vm', at, v, st) && Executed(c, vm', vm'', at', out)
    ensures Executed(c, vm, vm'', at', out)
  {
    hide Reaches, Rel;
    ReachTrans(c.text, vm, vm', vm'');
    KeptTrans(vm.mem, vm'.mem, vm''.mem, vm.sp, vm'.sp, vm.bp, c.n, c.m);
  }

  lemma NormalIs(c: Ctx, vm: Vm, vm': Vm, at: int, st: St)
    ensures Executed(c, vm, vm', at, Normal(st)) <==> Evaluated(c, vm, vm', at, None, st)
  { hide Reaches, Rel, Kept; }

  lemma Forget(c: Ctx, vm: Vm, vm': Vm, at: int, v: Option<int>, st: St)
    requires Evaluated(c, vm, vm', at, v, st)
    ensures Evaluated(c, vm, vm', at, None, st)
  { hide Reaches, Rel, Kept; }

  lemma Stay(c: Ctx, vm: Vm, st: St)
    requires Rel(st, vm, c.n, c.m)
    ensures Evaluated(c, vm, vm, vm.pc, None, st)
  { ReachSelf(c.text, vm); hide Reaches; }

  // A jump; `a` is kept.
  lemma JumpRuns(c: Ctx, vm: Vm, i: int, target: int, pc: int, st: St)
    requires At(c.text, vm.pc, [i, target]) && i in {iJMP, iBZ, iBNZ} && Rel(st, vm, c.n, c.m)
    requires pc == if i == iJMP || (i == iBZ && vm.a == 0) || (i == iBNZ && vm.a != 0) then target else vm.pc + 2
    ensures Evaluated(c, vm, vm.(pc := pc), pc, Some(vm.a), st)
  {
    StepOperand(c.text, vm, i, target, vm.(pc := pc));
    hide Reaches;
  }

  /** Two operands and an operation: the left value waits on the stack while the right one is
      computed. */
  lemma JoinOperands(c: Ctx, vm: Vm, vm1: Vm, vm3: Vm, op: Op, at1: int, at3: int, x: int, y: int, v: int, st1: St,
      st3: St)
    requires Strict(op) && Evaluated(c, vm, vm1, at1, Some(x), st1) && At(c.text, at1, [iPSH])
    requires Evaluated(c, Pushed(vm1), vm3, at3, Some(y), st3) && At(c.text, at3, [OpCode(op)])
    requires Binary(op, x, y) == Some(v)
    ensures Evaluated(c, vm, Popped(vm3, v), at3 + 1, Some(v), st3)
  {
    hide Binary, OpCode;
    var vm2 := Pushed(vm1);
    PushRuns(c.text, vm1);
    PushKeeps(st1, vm1, c.n, c.m);
    assert Get(vm3.mem, vm3.sp) == x;
    OpRuns(c.text, vm3, op, v);
    ReachTrans(c.text, vm, vm1, vm2);
    ReachTrans(c.text, vm, vm2, vm3);
    ReachTrans(c.text, vm, vm3, Popped(vm3, v));
    hide Reaches;
    KeptTrans(vm.mem, vm1.mem, vm2.mem, vm.sp, vm1.sp, vm.bp, c.n, c.m);
    KeptTrans(vm.mem, vm2.mem, vm3.mem, vm.sp, vm2.sp, vm.bp, c.n, c.m);
  }

  /** The address of a variable waits on the stack while its new value is computed. */
  lemma JoinStore(c: Ctx, x: string, vm: Vm, vm1: Vm, vm3: Vm, at1: int, at3: int, v: int, st1: St, st3: St)
      returns (vm': Vm)
    requires FnEnv(c.env, c.n, c.m) && IsVar(c.env, x)
    requires Evaluated(c, vm, vm1, at1, Some(VarAddr(c.env, x, vm.bp)), st1) && At(c.text, at1, [iPSH])
    requires Evaluated(c, Pushed(vm1), vm3, at3, Some(v), st3) && At(c.text, at3, [iSI])
    ensures Evaluated(c, vm, vm', at3 + 1, Some(v), Store(c.env, x, st3, v))
  {
    hide Store;
    var p := VarAddr(c.env, x, vm.bp);
    hide VarAddr;
    var vm2 := Pushed(vm1);
    PushRuns(c.text, vm1);
    PushKeeps(st1, vm1, c.n, c.m);
    assert Get(vm3.mem, vm3.sp) == p;
    vm' := vm3.(pc := vm3.pc + 1, sp := vm3.sp + 1, mem := vm3.mem[p := v]);
    StepPlain(c.text, vm3, iSI, vm');
    ReachTrans(c.text, vm, vm1, vm2);
    ReachTrans(c.text, vm, vm2, vm3);
    ReachTrans(c.text, vm, vm3, vm');
    hide Reaches;
    KeptTrans(vm.mem, vm1.mem, vm2.mem, vm.sp, vm1.sp, vm.bp, c.n, c.m);
    KeptTrans(vm.mem, vm2.mem, vm3.mem, vm.sp, vm2.sp, vm.bp, c.n, c.m);
    VarStored(c.env, x, st3, vm3.(sp := vm3.sp + 1), v, c.n, c.m);
    KeptTrans(vm.mem, vm3.mem, vm'.mem, vm.sp, vm.sp, vm.bp, c.n, c.m);
  }

  // ---- the meaning of compound expressions ------------------------------------------------------

  lemma EvalNeg(prog: Program, env: Env, a: Expr, st: St, fuel: nat)
    requires Good(env, a) && Eval(prog, env, Neg(a), st, fuel).Value?
    ensures var o := Eval(prog, env, a, st, fuel);
            o.Value? && o.v.Some? && Eval(prog, env, Neg(a), st, fuel) == Value(Some(Wrap32(-o.v.value)), o.st)
  { }

  lemma EvalPlus(prog: Program, env: Env, a: Expr, st: St, fuel: nat, at: nat)
    requires Good(env, a) && Eval(prog, env, Plus(a), st, fuel).Value?
    ensures Eval(prog, env, Plus(a), st, fuel) == Eval(prog, env, a, st, fuel)
    ensures Gen(env, Plus(a), at) == Gen(env, a, at) && Size(Plus(a)) == Size(a)
  { }

  lemma EvalPrefix(prog: Program, env: Env, e: Expr, a: Expr, st: St, fuel: nat)
    requires e in {Not(a), BitNot(a)} && Good(env, a) && Good(env, e) && Eval(prog, env, e, st, fuel).Value?
    ensures var o := Eval(prog, env, a, st, fuel);
            && o.Value? && o.v.Some?
            && Eval(prog, env, e, st, fuel) ==
               Value(Some(if e.Not? then Truth(o.v.value == 0) else Complement(o.v.value)), o.st)
  { hide Complement; }

  lemma EvalBin(prog: Program, env: Env, op: Op, l: Expr, r: Expr, st: St, fuel: nat)
    requires Strict(op) && Good(env, l) && Good(env, r) && Eval(prog, env, Bin(op, l, r), st, fuel).Value?
    ensures var o1 := Eval(prog, env, l, st, fuel);
            && o1.Value? && o1.v.Some?
            && var o2 := Eval(prog, env, r, o1.st, fuel);
            && o2.Value? && o2.v.Some? && Binary(op, o1.v.value, o2.v.value).Some?
            && Eval(prog, env, Bin(op, l, r), st, fuel) == Value(Binary(op, o1.v.value, o2.v.value), o2.st)
  { hide Binary; }

  lemma EvalLogic(prog: Program, env: Env, or: bool, l: Expr, r: Expr, st: St, fuel: nat)
    requires Good(env, l) && Good(env, r) && Eval(prog, env, if or then LogOr(l, r) else LogAnd(l, r), st, fuel).Value?
    ensures var o1 := Eval(prog, env, l, st, fuel);
            && o1.Value? && o1.v.Some?
            && Eval(prog, env, if or then LogOr(l, r) else LogAnd(l, r), st, fuel) ==
               if (o1.v.value != 0) == or then o1 else Eval(prog, env, r, o1.st, fuel)
  { }

  lemma EvalIf(prog: Program, env: Env, b: Expr, t: Expr, f: Expr, st: St, fuel: nat)
    requires Good(env, b) && Good(env, t) && Good(env, f) && Eval(prog, env, If(b, t, f), st, fuel).Value?
    ensures var o1 := Eval(prog, env, b, st, fuel);
            && o1.Value? && o1.v.Some?
            && Eval(prog, env, If(b, t, f), st, fuel) == Eval(prog, env, if o1.v.value != 0 then t else f, o1.st, fuel)
    ensures Size(If(b, t, f)) == Size(b) + 2 + Size(t) + 2 + Size(f)
  { }

  lemma EvalSet(prog: Program, env: Env, x: string, a: Expr, st: St, fuel: nat)
    requires IsVar(env, x) && Good(env, a) && Eval(prog, env, Set(x, a), st, fuel).Value?
    ensures var o := Eval(prog, env, a, st, fuel);
            && o.Value? && o.v.Some?
            && Eval(prog, env, Set(x, a), st, fuel) == Value(o.v, Store(env, x, o.st, o.v.value))
    ensures Size(Set(x, a)) == 4 + Size(a)
  { hide Store; }

  // ---- expressions ----------------------------------------------------------------------------

  /** The code of an expression computes its value. */
  lemma {:induction false} EvalRuns(c: Ctx, e: Expr, at: nat, st: St, vm: Vm, fuel: nat) returns (vm': Vm)
    requires Ready(c) && Good(c.env, e) && At(c.text, at, Gen(c.env, e, at)) && vm.pc == at && Rel(st, vm, c.n, c.m)
    requires Eval(c.prog, c.env, e, st, fuel).Value?
    ensures var o := Eval(c.prog, c.env, e, st, fuel); Evaluated(c, vm, vm', at + Size(e), o.v, o.st)
    decreases fuel, e, 1
  {
    hide Evaluated, Ready, Rel, At, Eval, Gen, Size;
    match e {
      case Num(_) => vm' := LeafRuns(c, e, at, st, vm, fuel);
      case Var(_) => vm' := LeafRuns(c, e, at, st, vm, fuel);
      case PreStep(_, _) => vm' := LeafRuns(c, e, at, st, vm, fuel);
      case PostStep(_, _) => vm' := LeafRuns(c, e, at, st, vm, fuel);
      case Neg(a) => vm' := NegRuns(c, a, at, st, vm, fuel);
      case Not(a) => vm' := PrefixRuns(c, e, a, at, st, vm, fuel);
      case BitNot(a) => vm' := PrefixRuns(c, e, a, at, st, vm, fuel);
      case Plus(a) => EvalPlus(c.prog, c.env, a, st, fuel, at); vm' := EvalRuns(c, a, at, st, vm, fuel);
      case Bin(op, l, r) => vm' := BinRuns(c, op, l, r, at, st, vm, fuel);
      case LogOr(l, r) => vm' := LogicRuns(c, true, l, r, at, st, vm, fuel);
      case LogAnd(l, r) => vm' := LogicRuns(c, false, l, r, at, st, vm, fuel);
      case If(b, t, f) => vm' := IfRuns(c, b, t, f, at, st, vm, fuel);
      case Set(x, a) => vm' := SetRuns(c, x, a, at, st, vm, fuel);
      case Call(f, args) => vm' := CallRuns(c, f, args, at, st, vm, fuel);
    }
  }

  lemma LeafRuns(c: Ctx, e: Expr, at: nat, st: St, vm: Vm, fuel: nat) returns (vm': Vm)
    requires e.Num? || e.Var? || e.PreStep? || e.PostStep?
    requires Ready(c) && Good(c.env, e) && At(c.text, at, Gen(c.env, e, at)) && vm.pc == at && Rel(st, vm, c.n, c.m)
    requires Eval(c.prog, c.env, e, st, fuel).Value?
    ensures var o := Eval(c.prog, c.env, e, st, fuel); Evaluated(c, vm, vm', at + Size(e), o.v, o.st)
  {
    ReadyEnv(c);
    hide Evaluated, Ready, Rel, At, FnEnv, Lookup, Store, Wrap32, AddrCode, StepCode;
    match e {
      case Num(n) => vm' := NumRuns(c, n, at, st, vm);
      case Var(x) => vm' := VarRuns(c, x, at, st, vm);
      case PreStep(x, up) => vm' := PreRuns(c, x, up, at, st, vm);
      case PostStep(x, up) => vm' := PostRuns(c, x, up, at, st, vm);
    }
  }

  lemma NumRuns(c: Ctx, n: int, at: nat, st: St, vm: Vm) returns (vm': Vm)
    requires At(c.text, at, [iIMM, n]) && vm.pc == at && Rel(st, vm, c.n, c.m)
    ensures vm' == Loaded(vm, n) && Evaluated(c, vm, vm', at + 2, Some(n), st)
  {
    vm' := Loaded(vm, n);
    ImmRuns(c.text, vm, n);
    OneStep(c, vm, at + 2, n, st);
  }

  lemma LoadAddr(c: Ctx, x: string, at: nat, st: St, vm: Vm)
    requires IsVar(c.env, x) && At(c.text, at, AddrCode(c.env, x)) && vm.pc == at && Rel(st, vm, c.n, c.m)
    ensures var p := VarAddr(c.env, x, vm.bp); Evaluated(c, vm, Loaded(vm, p), at + 2, Some(p), st)
  {
    AddrRuns(c.text, c.env, x, vm);
    OneStep(c, vm, at + 2, VarAddr(c.env, x, vm.bp), st);
  }

  // LI with the address in `a`.
  lemma LoadRuns(c: Ctx, x: string, at: nat, st: St, vm: Vm)
    requires FnEnv(c.env, c.n, c.m) && IsVar(c.env, x) && Lookup(c.env, x, st).Some?
    requires At(c.text, at, [iLI]) && vm.pc == at && Rel(st, vm, c.n, c.m) && vm.a == VarAddr(c.env, x, vm.bp)
    ensures var v := Lookup(c.env, x, st).value; Evaluated(c, vm, vm.(pc := at + 1, a := v), at + 1, Some(v), st)
  {
    VarHolds(c.env, x, st, vm, c.n, c.m);
    var v := Lookup(c.env, x, st).value;
    hide VarAddr, Lookup;
    StepPlain(c.text, vm, iLI, vm.(pc := at + 1, a := v));
    OneStep(c, vm, at + 1, v, st);
  }

  lemma VarRuns(c: Ctx, x: string, at: nat, st: St, vm: Vm) returns (vm': Vm)
    requires FnEnv(c.env, c.n, c.m) && IsVar(c.env, x) && Lookup(c.env, x, st).Some?
    requires At(c.text, at, AddrCode(c.env, x) + [iLI]) && vm.pc == at && Rel(st, vm, c.n, c.m)
    ensures Evaluated(c, vm, vm', at + 3, Lookup(c.env, x, st), st)
  {
    hide Evaluated, At;
    AtSplit(c.text, at, AddrCode(c.env, x), [iLI]);
    LoadAddr(c, x, at, st, vm);
    var p := VarAddr(c.env, x, vm.bp);
    var vm1 := Loaded(vm, p);
    var v := Lookup(c.env, x, st).value;
    EvaluatedFacts(c, vm, vm1, at + 2, Some(p), st);
    LoadRuns(c, x, at + 2, st, vm1);
    vm' := vm1.(pc := at + 3, a := v);
    EvaluatedThen(c, vm, vm1, vm', at + 2, Some(p), st, at + 3, Some(v), st);
  }

  // PSH, IMM k, operation: the value in `a` with a literal.
  lemma WithLiteral(c: Ctx, vm: Vm, vm1: Vm, op: Op, k: int, at1: nat, x: int, v: int, st: St) returns (vm': Vm)
    requires Strict(op) && Evaluated(c, vm, vm1, at1, Some(x), st) && At(c.text, at1, [iPSH, iIMM, k, OpCode(op)])
    requires Binary(op, x, k) == Some(v)
    ensures Evaluated(c, vm, vm', at1 + 4, Some(v), st)
  {
    hide Binary, OpCode;
    hide Evaluated, At;
    assert [iPSH, iIMM, k, OpCode(op)] == [iPSH] + ([iIMM, k] + [OpCode(op)]);
    AtSplit(c.text, at1, [iPSH], [iIMM, k] + [OpCode(op)]);
    AtSplit(c.text, at1 + 1, [iIMM, k], [OpCode(op)]);
    EvaluatedFacts(c, vm, vm1, at1, Some(x), st);
    PushKeeps(st, vm1, c.n, c.m);
    var vm3 := NumRuns(c, k, at1 + 1, st, Pushed(vm1));
    JoinOperands(c, vm, vm1, vm3, op, at1, at1 + 3, x, k, v, st, st);
    vm' := Popped(vm3, v);
  }

  lemma {:induction false} NegRuns(c: Ctx, a: Expr, at: nat, st: St, vm: Vm, fuel: nat) returns (vm': Vm)
    requires Ready(c) && Good(c.env, a) && At(c.text, at, Gen(c.env, Neg(a), at)) && vm.pc == at
        && Rel(st, vm, c.n, c.m)
    requires Eval(c.prog, c.env, Neg(a), st, fuel).Value?
    ensures var o := Eval(c.prog, c.env, Neg(a), st, fuel); Evaluated(c, vm, vm', at + Size(Neg(a)), o.v, o.st)
    decreases fuel, Neg(a), 0
  {
    hide Evaluated, Ready, Rel, At;
    if a.Num? {
      vm' := NumRuns(c, Wrap32(-a.n), at, st, vm);
    } else {
      vm' := NegTree(c, a, at, st, vm, fuel);
    }
  }

  lemma {:induction false} NegTree(c: Ctx, a: Expr, at: nat, st: St, vm: Vm, fuel: nat) returns (vm': Vm)
    requires Ready(c) && Good(c.env, a) && At(c.text, at, Gen(c.env, Neg(a), at)) && vm.pc == at
        && Rel(st, vm, c.n, c.m)
    requires Eval(c.prog, c.env, Neg(a), st, fuel).Value? && !a.Num?
    ensures var o := Eval(c.prog, c.env, Neg(a), st, fuel); Evaluated(c, vm, vm', at + Size(Neg(a)), o.v, o.st)
    decreases fuel, a, 2
  {
    hide Evaluated, Ready, Rel, At, Eval, Gen, Binary, Wrap32;
    EvalNeg(c.prog, c.env, a, st, fuel);
    var o := Eval(c.prog, c.env, a, st, fuel);
    var v := Wrap32(-o.v.value);
    NegByMul(o.v.value);
    GenNeg(c.env, a, at);
    var body := Gen(c.env, a, at + 3);
    assert [iIMM, -1, iPSH] + body + [iMUL] == [iIMM, -1] + ([iPSH] + (body + [iMUL]));
    AtSplit(c.text, at, [iIMM, -1], [iPSH] + (body + [iMUL]));
    AtSplit(c.text, at + 2, [iPSH], body + [iMUL]);
    AtSplit(c.text, at + 3, body, [iMUL]);
    var vm1 := NumRuns(c, -1, at, st, vm);
    EvaluatedFacts(c, vm, vm1, at + 2, Some(-1), st);
    PushKeeps(st, vm1, c.n, c.m);
    var vm3 := EvalRuns(c, a, at + 3, st, Pushed(vm1), fuel);
    JoinOperands(c, vm, vm1, vm3, Mul, at + 2, at + 3 + Size(a), -1, o.v.value, v, st, o.st);
    vm' := Popped(vm3, v);
  }

  lemma NegByMul(v: int)
    ensures Binary(Mul, -1, v) == Some(Wrap32(-v))
  { }

  lemma XorOnes(b: bv32)
    ensures b ^ 0xFFFF_FFFF == !b
  { }

  lemma BitsOfMinusOne()
    ensures Bits(-1) == 0xFFFF_FFFF
  {
    assert -1 % 0x1_0000_0000 == 0xFFFF_FFFF;
    assert (0xFFFF_FFFF as bv32) == 0xFFFF_FFFF;
  }

  // Flipping every bit is exclusive-or with -1.
  lemma NotByXor(v: int)
    ensures BitXor(v, -1) == Complement(v)
  {
    hide Bits, Signed;
    BitsOfMinusOne();
    XorOnes(Bits(v));
  }

  // ! and ~
  lemma {:induction false} PrefixRuns(c: Ctx, e: Expr, a: Expr, at: nat, st: St, vm: Vm, fuel: nat) returns (vm': Vm)
    requires e in {Not(a), BitNot(a)} && Ready(c) && Good(c.env, a) && Good(c.env, e)
    requires At(c.text, at, Gen(c.env, e, at)) && vm.pc == at && Rel(st, vm, c.n, c.m)
    requires Eval(c.prog, c.env, e, st, fuel).Value?
    ensures var o := Eval(c.prog, c.env, e, st, fuel); Evaluated(c, vm, vm', at + Size(e), o.v, o.st)
    decreases fuel, e, 0
  {
    hide Evaluated, Ready, Rel, At, Eval, Gen, Binary, Complement;
    EvalPrefix(c.prog, c.env, e, a, st, fuel);
    var o := Eval(c.prog, c.env, a, st, fuel);
    var v := if e.Not? then Truth(o.v.value == 0) else Complement(o.v.value);
    var op, k := if e.Not? then Eq else Xor, if e.Not? then 0 else -1;
    PrefixCode(c.env, e, a, at, o.v.value);
    AtSplit(c.text, at, Gen(c.env, a, at), [iPSH, iIMM, k, OpCode(op)]);
    var vm1 := EvalRuns(c, a, at, st, vm, fuel);
    vm' := WithLiteral(c, vm, vm1, op, k, at + Size(a), o.v.value, v, o.st);
  }

  lemma PrefixCode(env: Env, e: Expr, a: Expr, at: nat, x: int)
    requires e in {Not(a), BitNot(a)} && Good(env, a) && Good(env, e)
    ensures var op, k := if e.Not? then Eq else Xor, if e.Not? then 0 else -1;
            && Gen(env, e, at) == Gen(env, a, at) + [iPSH, iIMM, k, OpCode(op)]
            && Binary(op, x, k) == Some(if e.Not? then Truth(x == 0) else Complement(x))
  {
    hide Gen, BitXor, Complement;
    BarePrefix(env, e, a, if e.Not? then TNot else TTilde, at);
    NotByXor(x);
  }

  lemma {:induction false} BinRuns(c: Ctx, op: Op, l: Expr, r: Expr, at: nat, st: St, vm: Vm, fuel: nat)
      returns (vm': Vm)
    requires Strict(op) && Good(c.env, l) && Good(c.env, r)
    requires Ready(c) && At(c.text, at, Gen(c.env, Bin(op, l, r), at)) && vm.pc == at && Rel(st, vm, c.n, c.m)
    requires Eval(c.prog, c.env, Bin(op, l, r), st, fuel).Value?
    ensures var o := Eval(c.prog, c.env, Bin(op, l, r), st, fuel); Evaluated(c, vm, vm', at + Size(Bin(op, l, r)),
        o.v, o.st)
    decreases fuel, Bin(op, l, r), 0
  {
    hide Evaluated, Ready, Rel, At, Binary, OpCode, Eval, Gen;
    EvalBin(c.prog, c.env, op, l, r, st, fuel);
    var o1 := Eval(c.prog, c.env, l, st, fuel);
    var o2 := Eval(c.prog, c.env, r, o1.st, fuel);
    var v := Binary(op, o1.v.value, o2.v.value).value;
    var L, R := Gen(c.env, l, at), Gen(c.env, r, at + Size(l) + 1);
    BareBin(c.env, op, l, r, at);
    AtSplit(c.text, at, L + [iPSH] + R, [OpCode(op)]);
    AtSplit(c.text, at, L + [iPSH], R);
    AtSplit(c.text, at, L, [iPSH]);
    var vm1 := EvalRuns(c, l, at, st, vm, fuel);
    EvaluatedFacts(c, vm, vm1, at + Size(l), o1.v, o1.st);
    PushKeeps(o1.st, vm1, c.n, c.m);
    var vm3 := EvalRuns(c, r, at + Size(l) + 1, o1.st, Pushed(vm1), fuel);
    JoinOperands(c, vm, vm1, vm3, op, at + Size(l), at + Size(l) + 1 + Size(r), o1.v.value, o2.v.value, v, o1.st,
      o2.st);
    vm' := Popped(vm3, v);
  }

  // || and &&: the right operand is skipped when the left one decides.
  lemma {:induction false} LogicRuns(c: Ctx, or: bool, l: Expr, r: Expr, at: nat, st: St, vm: Vm, fuel: nat)
      returns (vm': Vm)
    requires Good(c.env, l) && Good(c.env, r) && Ready(c) && vm.pc == at && Rel(st, vm, c.n, c.m)
    requires var e := if or then LogOr(l, r) else LogAnd(l, r);
             At(c.text, at, Gen(c.env, e, at)) && Eval(c.prog, c.env, e, st, fuel).Value?
    ensures var e := if or then LogOr(l, r) else LogAnd(l, r);
            var o := Eval(c.prog, c.env, e, st, fuel); Evaluated(c, vm, vm', at + Size(e), o.v, o.st)
    decreases fuel, (if or then LogOr(l, r) else LogAnd(l, r)), 0
  {
    hide Evaluated, Ready, Rel, At, Eval, Gen;
    var jump := if or then iBNZ else iBZ;
    EvalLogic(c.prog, c.env, or, l, r, st, fuel);
    var o1 := Eval(c.prog, c.env, l, st, fuel);
    var skip := (o1.v.value != 0) == or;
    BareLogic(c.env, or, l, r, at);
    var L, R := Gen(c.env, l, at), Gen(c.env, r, at + Size(l) + 2);
    var end := at + |L| + 2 + |R|;
    AtSplit(c.text, at, L + [jump, end], R);
    AtSplit(c.text, at, L, [jump, end]);
    var vm1 := EvalRuns(c, l, at, st, vm, fuel);
    EvaluatedFacts(c, vm, vm1, at + Size(l), o1.v, o1.st);
    var vm2 := vm1.(pc := if skip then end else vm1.pc + 2);
    JumpRuns(c, vm1, jump, end, vm2.pc, o1.st);
    EvaluatedThen(c, vm, vm1, vm2, vm1.pc, o1.v, o1.st, vm2.pc, o1.v, o1.st);
    vm' := vm2;
    if !skip {
      EvaluatedFacts(c, vm1, vm2, vm2.pc, o1.v, o1.st);
      vm' := EvalRuns(c, r, at + Size(l) + 2, o1.st, vm2, fuel);
      var o2 := Eval(c.prog, c.env, r, o1.st, fuel);
      EvaluatedThen(c, vm, vm2, vm', vm2.pc, o1.v, o1.st, end, o2.v, o2.st);
    }
  }

  // A test that has been run: the machine is at the branch the value takes.
  lemma TestRuns(c: Ctx, vm: Vm, vm1: Vm, at1: int, x: int, st1: St, target: int) returns (vm2: Vm)
    requires Evaluated(c, vm, vm1, at1, Some(x), st1) && At(c.text, at1, [iBZ, target])
    ensures Evaluated(c, vm, vm2, if x != 0 then at1 + 2 else target, Some(x), st1) && Rel(st1, vm2, c.n, c.m)
  {
    hide Evaluated, Rel, At;
    EvaluatedFacts(c, vm, vm1, at1, Some(x), st1);
    vm2 := vm1.(pc := if x != 0 then at1 + 2 else target);
    JumpRuns(c, vm1, iBZ, target, vm2.pc, st1);
    EvaluatedThen(c, vm, vm1, vm2, at1, Some(x), st1, vm2.pc, Some(x), st1);
    EvaluatedFacts(c, vm1, vm2, vm2.pc, Some(x), st1);
  }

  // The words of a test with two branches.
  lemma ChooseAt(text: seq<int>, at: nat, test: seq<int>, yes: seq<int>, no: seq<int>)
    requires At(text, at, ChooseCode(at, test, yes, no))
    ensures var mid := at + |test| + 2 + |yes| + 2;
            && At(text, at, test) && At(text, at + |test|, [iBZ, mid]) && At(text, at + |test| + 2, yes)
            && At(text, mid - 2, [iJMP, mid + |no|]) && At(text, mid, no)
  {
    var mid := at + |test| + 2 + |yes| + 2;
    assert ChooseCode(at, test, yes, no) == test + [iBZ, mid] + yes + [iJMP, mid + |no|] + no;
    hide At, ChooseCode;
    AtSplit(text, at, test + [iBZ, mid] + yes + [iJMP, mid + |no|], no);
    AtSplit(text, at, test + [iBZ, mid] + yes, [iJMP, mid + |no|]);
    AtSplit(text, at, test + [iBZ, mid], yes);
    AtSplit(text, at, test, [iBZ, mid]);
  }

  lemma {:induction false} IfRuns(c: Ctx, b: Expr, t: Expr, f: Expr, at: nat, st: St, vm: Vm, fuel: nat)
      returns (vm': Vm)
    requires Good(c.env, b) && Good(c.env, t) && Good(c.env, f) && Ready(c)
    requires At(c.text, at, Gen(c.env, If(b, t, f), at)) && vm.pc == at && Rel(st, vm, c.n, c.m)
    requires Eval(c.prog, c.env, If(b, t, f), st, fuel).Value?
    ensures var o := Eval(c.prog, c.env, If(b, t, f), st, fuel); Evaluated(c, vm, vm', at + Size(If(b, t, f)), o.v,
        o.st)
    decreases fuel, If(b, t, f), 0
  {
    hide *;
    EvalIf(c.prog, c.env, b, t, f, st, fuel);
    var o1 := Eval(c.prog, c.env, b, st, fuel);
    var x := o1.v.value;
    var o2 := Eval(c.prog, c.env, if x != 0 then t else f, o1.st, fuel);
    BareIf(c.env, b, t, f, at);
    var mid := at + Size(b) + 2 + Size(t) + 2;
    ChooseAt(c.text, at, Gen(c.env, b, at), Gen(c.env, t, at + Size(b) + 2), Gen(c.env, f, mid));
    var vm1 := EvalRuns(c, b, at, st, vm, fuel);
    var vm2 := TestRuns(c, vm, vm1, at + Size(b), x, o1.st, mid);
    var at2 := if x != 0 then at + Size(b) + 2 else mid;
    EvaluatedFacts(c, vm, vm2, at2, o1.v, o1.st);
    var vm3 := EvalRuns(c, if x != 0 then t else f, at2, o1.st, vm2, fuel);
    var at3 := at2 + Size(if x != 0 then t else f);
    EvaluatedThen(c, vm, vm2, vm3, at2, o1.v, o1.st, at3, o2.v, o2.st);
    vm' := vm3;
    if x != 0 {
      EvaluatedFacts(c, vm, vm3, at3, o2.v, o2.st);
      vm' := vm3.(pc := mid + Size(f));
      JumpRuns(c, vm3, iJMP, mid + Size(f), mid + Size(f), o2.st);
      JoinJump(c, vm, vm3, at3, mid + Size(f), o2.v, o2.st);
    }
  }

  lemma JoinJump(c: Ctx, vm: Vm, vm3: Vm, at3: int, at4: int, v: Option<int>, st: St)
    requires Evaluated(c, vm, vm3, at3, v, st) && Evaluated(c, vm3, vm3.(pc := at4), at4, Some(vm3.a), st)
    ensures Evaluated(c, vm, vm3.(pc := at4), at4, v, st)
  {
    EvaluatedThen(c, vm, vm3, vm3.(pc := at4), at3, v, st, at4, Some(vm3.a), st);
    hide Reaches, Rel, Kept;
  }

  lemma {:induction false} SetRuns(c: Ctx, x: string, a: Expr, at: nat, st: St, vm: Vm, fuel: nat) returns (vm': Vm)
    requires IsVar(c.env, x) && Good(c.env, a) && Ready(c)
    requires At(c.text, at, Gen(c.env, Set(x, a), at)) && vm.pc == at && Rel(st, vm, c.n, c.m)
    requires Eval(c.prog, c.env, Set(x, a), st, fuel).Value?
    ensures var o := Eval(c.prog, c.env, Set(x, a), st, fuel); Evaluated(c, vm, vm', at + Size(Set(x, a)), o.v, o.st)
    decreases fuel, Set(x, a), 0
  {
    hide *;
    ReadyEnv(c);
    EvalSet(c.prog, c.env, x, a, st, fuel);
    var o := Eval(c.prog, c.env, a, st, fuel);
    var v := o.v.value;
    BareSet(c.env, x, a, at);
    var A, G := AddrCode(c.env, x), Gen(c.env, a, at + 3);
    AtSplit(c.text, at, A + [iPSH] + G, [iSI]);
    AtSplit(c.text, at, A + [iPSH], G);
    AtSplit(c.text, at, A, [iPSH]);
    LoadAddr(c, x, at, st, vm);
    var p := VarAddr(c.env, x, vm.bp);
    var vm1 := Loaded(vm, p);
    EvaluatedFacts(c, vm, vm1, at + 2, Some(p), st);
    PushKeeps(st, vm1, c.n, c.m);
    var vm3 := EvalRuns(c, a, at + 3, st, Pushed(vm1), fuel);
    vm' := JoinStore(c, x, vm, vm1, vm3, at + 2, at + 3 + Size(a), v, st, o.st);
  }

  lemma ReadyEnv(c: Ctx)
    requires Ready(c)
    ensures FnEnv(c.env, c.n, c.m) && Linked(c.text, c.prog)
  { }

  // The address, then StepCode: the variable and `a` get the new value.
  lemma StepRuns(c: Ctx, x: string, up: bool, at: nat, st: St, vm: Vm) returns (vm': Vm)
    requires FnEnv(c.env, c.n, c.m) && IsVar(c.env, x) && Lookup(c.env, x, st).Some?
    requires At(c.text, at, AddrCode(c.env, x) + StepCode(up)) && vm.pc == at && Rel(st, vm, c.n, c.m)
    ensures var v' := Wrap32(Lookup(c.env, x, st).value + (if up then 1 else -1));
            Evaluated(c, vm, vm', at + 9, Some(v'), Store(c.env, x, st, v'))
  {
    hide Evaluated, Rel, At, FnEnv, Store, Lookup, AddrCode, Binary, OpCode, Wrap32, StepCode;
    var op := if up then Add else Sub;
    var v := Lookup(c.env, x, st).value;
    var v' := Wrap32(v + (if up then 1 else -1));
    StepWords(v, up);
    AtSplit(c.text, at, AddrCode(c.env, x), StepCode(up));
    AtSplit(c.text, at + 2, [iPSH], [iLI] + ([iPSH, iIMM, 1, OpCode(op)] + [iSI]));
    AtSplit(c.text, at + 3, [iLI], [iPSH, iIMM, 1, OpCode(op)] + [iSI]);
    AtSplit(c.text, at + 4, [iPSH, iIMM, 1, OpCode(op)], [iSI]);
    LoadAddr(c, x, at, st, vm);
    var p := VarAddr(c.env, x, vm.bp);
    var vm1 := Loaded(vm, p);
    EvaluatedFacts(c, vm, vm1, at + 2, Some(p), st);
    PushKeeps(st, vm1, c.n, c.m);
    var vm2 := Pushed(vm1);
    LoadRuns(c, x, at + 3, st, vm2);
    var vm3 := WithLiteral(c, vm2, vm2.(pc := at + 4, a := v), op, 1, at + 4, v, v', st);
    vm' := JoinStore(c, x, vm, vm1, vm3, at + 2, at + 8, v', st, st);
  }

  lemma StepWords(v: int, up: bool)
    ensures var op := if up then Add else Sub;
            && StepCode(up) == [iPSH] + ([iLI] + ([iPSH, iIMM, 1, OpCode(op)] + [iSI]))
            && Binary(op, v, 1) == Some(Wrap32(v + (if up then 1 else -1)))
  { }

  lemma PreRuns(c: Ctx, x: string, up: bool, at: nat, st: St, vm: Vm) returns (vm': Vm)
    requires FnEnv(c.env, c.n, c.m) && IsVar(c.env, x) && Lookup(c.env, x, st).Some?
    requires At(c.text, at, AddrCode(c.env, x) + StepCode(up)) && vm.pc == at && Rel(st, vm, c.n, c.m)
    ensures var v' := Wrap32(if up then Lookup(c.env, x, st).value + 1 else Lookup(c.env, x, st).value - 1);
            Evaluated(c, vm, vm', at + 9, Some(v'), Store(c.env, x, st, v'))
  {
    hide Evaluated, Rel, At, FnEnv, Store, Lookup, AddrCode, Wrap32;
    vm' := StepRuns(c, x, up, at, st, vm);
  }

  lemma StepBack(v: int, up: bool)
    ensures Binary(if up then Sub else Add, Wrap32(v + (if up then 1 else -1)), 1) == Some(Wrap32(v))
    ensures OpCode(if up then Sub else Add) == if up then iSUB else iADD
  { }

  lemma PostRuns(c: Ctx, x: string, up: bool, at: nat, st: St, vm: Vm) returns (vm': Vm)
    requires FnEnv(c.env, c.n, c.m) && IsVar(c.env, x) && Lookup(c.env, x, st).Some?
    requires At(c.text, at, AddrCode(c.env, x) + StepCode(up) + [iPSH, iIMM, 1, if up then iSUB else iADD])
    requires vm.pc == at && Rel(st, vm, c.n, c.m)
    ensures var v := Lookup(c.env, x, st).value;
            Evaluated(c, vm, vm', at + 13, Some(Wrap32(v)), Store(c.env, x, st, Wrap32(if up then v + 1 else v - 1)))
  {
    hide Evaluated, Rel, At, FnEnv, Store, Lookup, AddrCode, Binary, OpCode, Wrap32;
    var v := Lookup(c.env, x, st).value;
    var v' := Wrap32(v + (if up then 1 else -1));
    var op := if up then Sub else Add;
    StepBack(v, up);
    AtSplit(c.text, at, AddrCode(c.env, x) + StepCode(up), [iPSH, iIMM, 1, OpCode(op)]);
    var vm1 := StepRuns(c, x, up, at, st, vm);
    vm' := WithLiteral(c, vm, vm1, op, 1, at + 9, v', Wrap32(v), Store(c.env, x, st, v'));
  }

  // ---- calls ----------------------------------------------------------------------------------

  // The arguments lie below the old top of the stack, the first one highest.
  ghost predicate Passed(mem: map<int, int>, sp: int, vs: seq<int>) {
    forall i | 0 <= i < |vs| :: Get(mem, sp - 1 - i) == vs[i]
  }

  ghost predicate Passing(c: Ctx, vm: Vm, vm': Vm, at: int, vs: seq<int>, st: St) {
    && Reaches(c.text, vm, vm') && vm'.pc == at && vm'.sp == vm.sp - |vs| && vm'.bp == vm.bp
    && Rel(st, vm', c.n, c.m) && Kept(vm.mem, vm'.mem, vm.sp, vm.bp, c.n, c.m) && Passed(vm'.mem, vm.sp, vs)
  }

  lemma {:induction false} ArgsRun(c: Ctx, args: seq<Expr>, at: nat, st: St, vm: Vm, fuel: nat) returns (vm': Vm)
    requires Ready(c) && GoodAll(c.env, args) && At(c.text, at, GenArgs(c.env, args, at)) && vm.pc == at
        && Rel(st, vm, c.n, c.m)
    requires EvalArgs(c.prog, c.env, args, st, fuel).Values?
    ensures var o := EvalArgs(c.prog, c.env, args, st, fuel); Passing(c, vm, vm', at + SizeArgs(args), o.vs, o.st)
    decreases fuel, args, 2
  {
    if args == [] {
      ReachSelf(c.text, vm);
      vm' := vm;
    } else {
      vm' := ArgsMore(c, args, at, st, vm, fuel);
    }
  }

  lemma {:induction false} ArgsMore(c: Ctx, args: seq<Expr>, at: nat, st: St, vm: Vm, fuel: nat) returns (vm': Vm)
    requires Ready(c) && GoodAll(c.env, args) && At(c.text, at, GenArgs(c.env, args, at)) && vm.pc == at
        && Rel(st, vm, c.n, c.m)
    requires EvalArgs(c.prog, c.env, args, st, fuel).Values? && args != []
    ensures var o := EvalArgs(c.prog, c.env, args, st, fuel); Passing(c, vm, vm', at + SizeArgs(args), o.vs, o.st)
    decreases fuel, args, 1
  {
    hide Evaluated, Passing, Ready, Rel, At, Eval, EvalArgs, Gen, GenArgs, Size;
    EvalArgsMore(c.prog, c.env, args, st, fuel, at);
    var o1 := Eval(c.prog, c.env, args[0], st, fuel);
    var o2 := EvalArgs(c.prog, c.env, args[1..], o1.st, fuel);
    var at1 := at + Size(args[0]);
    var G, R := Gen(c.env, args[0], at), GenArgs(c.env, args[1..], at1 + 1);
    AtSplit(c.text, at, G + [iPSH], R);
    AtSplit(c.text, at, G, [iPSH]);
    var vm1 := EvalRuns(c, args[0], at, st, vm, fuel);
    EvaluatedFacts(c, vm, vm1, at1, o1.v, o1.st);
    PushKeeps(o1.st, vm1, c.n, c.m);
    vm' := ArgsRun(c, args[1..], at1 + 1, o1.st, Pushed(vm1), fuel);
    JoinArgs(c, vm, vm1, vm', at1, at1 + 1 + SizeArgs(args[1..]), o1.v.value, o2.vs, o1.st, o2.st);
  }

  lemma EvalArgsMore(prog: Program, env: Env, args: seq<Expr>, st: St, fuel: nat, at: nat)
    requires args != [] && GoodAll(env, args) && EvalArgs(prog, env, args, st, fuel).Values?
    ensures Good(env, args[0]) && GoodAll(env, args[1..])
    ensures var o1 := Eval(prog, env, args[0], st, fuel);
            && o1.Value? && o1.v.Some?
            && var o2 := EvalArgs(prog, env, args[1..], o1.st, fuel);
            o2.Values? && EvalArgs(prog, env, args, st, fuel) == Values([o1.v.value] + o2.vs, o2.st)
    ensures GenArgs(env, args, at) == Gen(env, args[0], at) + [iPSH] + GenArgs(env, args[1..], at + Size(args[0]) + 1)
    ensures SizeArgs(args) == Size(args[0]) + 1 + SizeArgs(args[1..])
  { }

  lemma JoinArgs(c: Ctx, vm: Vm, vm1: Vm, vm': Vm, at1: int, at': int, v: int, vs: seq<int>, st1: St, st': St)
    requires Evaluated(c, vm, vm1, at1, Some(v), st1) && At(c.text, at1, [iPSH])
    requires Passing(c, Pushed(vm1), vm', at', vs, st')
    ensures Passing(c, vm, vm', at', [v] + vs, st')
  {
    PushRuns(c.text, vm1);
    ReachTrans(c.text, vm, vm1, Pushed(vm1));
    ReachTrans(c.text, vm, Pushed(vm1), vm');
    hide Reaches;
    PushKeeps(st1, vm1, c.n, c.m);
    KeptTrans(vm.mem, vm1.mem, Pushed(vm1).mem, vm.sp, vm1.sp, vm.bp, c.n, c.m);
    KeptTrans(vm.mem, Pushed(vm1).mem, vm'.mem, vm.sp, vm.sp - 1, vm.bp, c.n, c.m);
    assert Get(vm'.mem, vm.sp - 1) == v;
    forall i | 0 <= i < |[v] + vs| ensures Get(vm'.mem, vm.sp - 1 - i) == ([v] + vs)[i] {
      if i > 0 { assert Get(vm'.mem, vm.sp - 1 - 1 - (i - 1)) == vs[i - 1]; }
    }
  }

  function Jumped(vm: Vm, entry: int): Vm {
    vm.(pc := entry, sp := vm.sp - 1, mem := vm.mem[vm.sp - 1 := vm.pc + 2])
  }

  /** The state after ENT. */
  function Entered(vm: Vm, vars: int): Vm {
    Vm(vm.pc + 2, vm.sp - 1 - vars, vm.sp - 1, vm.a, vm.mem[vm.sp - 1 := vm.bp])
  }

  lemma EnterRuns(text: seq<int>, vm: Vm, vars: int)
    requires At(text, vm.pc, [iENT, vars])
    ensures Reaches(text, vm, Entered(vm, vars)) && Entered(vm, vars).pc == vm.pc + 2
  {
    StepOperand(text, vm, iENT, vars, Entered(vm, vars));
  }

  /** The new frame holds exactly the arguments, above the saved `bp` and the return address. */
  lemma FrameHolds(vm: Vm, sp: int, vs: seq<int>, vars: nat, globals: map<int, int>)
    requires vm.sp == sp - |vs| - 1 && sp <= TOP + 1 && Passed(vm.mem, sp, vs)
    requires forall x | x > TOP :: Get(vm.mem, x) == Get(globals, x)
    ensures Rel(St(Params(vs), globals), Entered(vm, vars), |vs|, vars)
    ensures var vm2 := Entered(vm, vars);
            Get(vm2.mem, vm2.bp) == vm.bp && Get(vm2.mem, vm2.bp + 1) == Get(vm.mem, vm.sp)
  {
    var vm2 := Entered(vm, vars);
    forall k | k in Params(vs)
      ensures InFrame(k, |vs|, vars) && Get(vm2.mem, CellOf(vm2.bp, |vs|, k)) == Params(vs)[k]
    {
      assert CellOf(vm2.bp, |vs|, k) == sp - 1 - k;
    }
  }

  /** A finished call: the machine is behind the JSR, the caller's registers are back, and nothing
      from `sp` up has changed but global data. */
  ghost predicate Called(text: seq<int>, vm: Vm, vm': Vm, sp: int, v: Option<int>, globals: map<int, int>) {
    && Reaches(text, vm, vm')
    && vm'.pc == vm.pc + 2 && vm'.sp == vm.sp && vm'.bp == vm.bp && (v.Some? ==> vm'.a == v.value)
    && (forall x | sp <= x <= TOP :: Get(vm'.mem, x) == Get(vm.mem, x))
    && (forall x | x > TOP :: Get(vm'.mem, x) == Get(globals, x))
  }

  /** The same from the entry of the function, with the return address on top of the stack. */
  ghost predicate Served(text: seq<int>, vm: Vm, vm': Vm, sp: int, v: Option<int>, globals: map<int, int>) {
    && Reaches(text, vm, vm')
    && vm'.pc == Get(vm.mem, vm.sp) && vm'.sp == vm.sp + 1 && vm'.bp == vm.bp && (v.Some? ==> vm'.a == v.value)
    && (forall x | sp <= x <= TOP :: Get(vm'.mem, x) == Get(vm.mem, x))
    && (forall x | x > TOP :: Get(vm'.mem, x) == Get(globals, x))
  }

  lemma {:induction false} CallRuns(c: Ctx, f: string, args: seq<Expr>, at: nat, st: St, vm: Vm, fuel: nat)
      returns (vm': Vm)
    requires IsFun(c.env, f) && GoodAll(c.env, args) && Ready(c)
    requires At(c.text, at, Gen(c.env, Call(f, args), at)) && vm.pc == at && Rel(st, vm, c.n, c.m)
    requires Eval(c.prog, c.env, Call(f, args), st, fuel).Value?
    ensures var o := Eval(c.prog, c.env, Call(f, args), st, fuel); Evaluated(c, vm, vm', at + Size(Call(f, args)),
        o.v, o.st)
    decreases fuel, Call(f, args), 0
  {
    hide *;
    ReadyEnv(c);
    RelBounds(st, vm, c.n, c.m);
    EvalCall(c.prog, c.env, f, args, st, fuel);
    var o1 := EvalArgs(c.prog, c.env, args, st, fuel);
    var entry := c.env.ids[f].entry;
    var o2 := Invoke(c.prog, entry, o1.vs, o1.st, fuel - 1);
    var G, adj := GenArgs(c.env, args, at), if args == [] then [] else [iADJ, |args|];
    BareCall(c.env, f, args, at);
    AtSplit(c.text, at, G + [iJSR, entry], adj);
    AtSplit(c.text, at, G, [iJSR, entry]);
    var vm1 := ArgsRun(c, args, at, st, vm, fuel);
    var at1 := at + SizeArgs(args);
    PassingFacts(c, vm, vm1, at1, o1.vs, o1.st);
    JumpKeeps(c.text, vm1, entry, vm.sp, o1.vs, o1.st.globals);
    var vm2 := InvokeRuns(c.text, c.prog, Jumped(vm1, entry), vm.sp, o1.vs, o1.st, fuel - 1);
    ServedCalled(c.text, vm1, vm2, entry, vm.sp, o2.v, o2.st.globals);
    AdjustRuns(c.text, vm1, vm2, vm.sp, |args|, at1, o2.v, o2.st.globals);
    vm' := vm2.(pc := at1 + 2 + |adj|, sp := vm.sp);
    InvokeLocals(c.prog, entry, o1.vs, o1.st, fuel - 1);
    JoinCall(c, vm, vm1, vm2, vm', at1, o1.vs, o1.st, o2.v, o2.st.globals);
  }

  lemma EvalCall(prog: Program, env: Env, f: string, args: seq<Expr>, st: St, fuel: nat)
    requires IsFun(env, f) && GoodAll(env, args) && Eval(prog, env, Call(f, args), st, fuel).Value?
    ensures f in env.ids && env.ids[f].Fun?
    ensures var o1 := EvalArgs(prog, env, args, st, fuel);
            && o1.Values? && fuel > 0 && |o1.vs| == |args|
            && Eval(prog, env, Call(f, args), st, fuel) == Invoke(prog, env.ids[f].entry, o1.vs, o1.st, fuel - 1)
    ensures Size(Call(f, args)) == SizeArgs(args) + 2 + (if args == [] then 0 else 2)
  { hide Invoke; }

  lemma RelBounds(st: St, vm: Vm, n: nat, m: nat)
    requires Rel(st, vm, n, m)
    ensures vm.sp <= vm.bp - m <= TOP
  { }

  lemma InvokeLocals(prog: Program, entry: int, vs: seq<int>, st: St, fuel: nat)
    requires Invoke(prog, entry, vs, st, fuel).Value?
    ensures Invoke(prog, entry, vs, st, fuel).st.locals == st.locals
  { }

  lemma PassingFacts(c: Ctx, vm: Vm, vm': Vm, at: int, vs: seq<int>, st: St)
    requires Passing(c, vm, vm', at, vs, st) && vm.sp <= TOP
    ensures vm'.pc == at && vm'.sp == vm.sp - |vs| && vm'.bp == vm.bp && Passed(vm'.mem, vm.sp, vs)
    ensures Rel(st, vm', c.n, c.m) && forall x | x > TOP :: Get(vm'.mem, x) == Get(st.globals, x)
  { }

  // ADJ, when there are arguments to drop.
  lemma AdjustRuns(text: seq<int>, vm: Vm, vm2: Vm, sp: int, n: nat, at: int, v: Option<int>, globals: map<int, int>)
    requires Called(text, vm, vm2, sp, v, globals) && vm.pc == at && vm.sp == sp - n
    requires At(text, at + 2, if n == 0 then [] else [iADJ, n])
    ensures Reaches(text, vm, vm2.(pc := at + 2 + (if n == 0 then 0 else 2), sp := sp))
  {
    hide At;
    if n == 0 {
      assert vm2 == vm2.(pc := at + 2, sp := sp);
    } else {
      var vm' := vm2.(pc := at + 4, sp := sp);
      StepOperand(text, vm2, iADJ, n, vm');
      ReachTrans(text, vm, vm2, vm');
    }
  }

  lemma JoinCall(c: Ctx, vm: Vm, vm1: Vm, vm2: Vm, vm': Vm, at1: int, vs: seq<int>, st1: St, v: Option<int>,
      globals: map<int, int>)
    requires Passing(c, vm, vm1, at1, vs, st1) && Called(c.text, vm1, vm2, vm.sp, v, globals)
    requires Reaches(c.text, vm1, vm') && vm' == vm2.(pc := vm'.pc, sp := vm.sp) && Rel(st1, vm1, c.n, c.m)
    requires vm.sp <= vm.bp - c.m
    ensures Evaluated(c, vm, vm', vm'.pc, v, St(st1.locals, globals))
  {
    ReachTrans(c.text, vm, vm1, vm');
    hide Reaches, Passed;
    assert Kept(vm1.mem, vm'.mem, vm.sp, vm.bp, c.n, c.m);
    KeptTrans(vm.mem, vm1.mem, vm'.mem, vm.sp, vm.sp, vm.bp, c.n, c.m);
    forall val | val in st1.locals
      ensures InFrame(val, c.n, c.m) && Get(vm'.mem, CellOf(vm.bp, c.n, val)) == st1.locals[val]
    {
      assert Get(vm1.mem, CellOf(vm1.bp, c.n, val)) == st1.locals[val];
    }
  }

  // JSR leaves the arguments and the data alone.
  lemma JumpKeeps(text: seq<int>, vm: Vm, entry: int, sp: int, vs: seq<int>, globals: map<int, int>)
    requires At(text, vm.pc, [iJSR, entry]) && vm.sp == sp - |vs| && sp <= TOP && Passed(vm.mem, sp, vs)
    requires forall x | x > TOP :: Get(vm.mem, x) == Get(globals, x)
    ensures var vm1 := Jumped(vm, entry);
            && Reaches(text, vm, vm1) && vm1.pc == entry && vm1.sp == sp - |vs| - 1 && Passed(vm1.mem, sp, vs)
            && forall x | x > TOP :: Get(vm1.mem, x) == Get(globals, x)
  {
    StepOperand(text, vm, iJSR, entry, Jumped(vm, entry));
    hide Reaches;
  }

  lemma ServedCalled(text: seq<int>, vm: Vm, vm': Vm, entry: int, sp: int, v: Option<int>, globals: map<int, int>)
    requires Reaches(text, vm, Jumped(vm, entry)) && Served(text, Jumped(vm, entry), vm', sp, v, globals) && vm.sp <= sp
    ensures Called(text, vm, vm', sp, v, globals)
  {
    ReachTrans(text, vm, Jumped(vm, entry), vm');
    hide Reaches;
    forall x | sp <= x <= TOP ensures Get(vm'.mem, x) == Get(vm.mem, x) {
      assert Get(vm'.mem, x) == Get(Jumped(vm, entry).mem, x);
    }
  }

  /** Calls of any depth: the arguments are found in the new frame, and LEV restores the caller. */
  lemma {:induction false} InvokeRuns(text: seq<int>, prog: Program, vm: Vm, sp: int, vs: seq<int>, st: St, fuel: nat)
    returns (vm': Vm)
    requires Linked(text, prog) && Invoke(prog, vm.pc, vs, st, fuel).Value?
    requires vm.sp == sp - |vs| - 1 && sp <= TOP && Passed(vm.mem, sp, vs)
    requires forall x | x > TOP :: Get(vm.mem, x) == Get(st.globals, x)
    ensures var o := Invoke(prog, vm.pc, vs, st, fuel); Served(text, vm, vm', sp, o.v, o.st.globals)
    decreases fuel
  {
    hide *;
    var entry := vm.pc;
    InvokeBody(prog, entry, vs, st, fuel);
    var fn := prog[entry];
    var c := Ctx(text, prog, fn.env, fn.params, fn.vars);
    var end := entry + 2 + SizeStmts(fn.body);
    FnWords(text, prog, entry);
    EnterRuns(text, vm, fn.vars);
    FrameHolds(vm, sp, vs, fn.vars, st.globals);
    var vm2 := Entered(vm, fn.vars);
    var st2 := St(Params(vs), st.globals);
    var vm3 := ExecAllRuns(c, fn.body, entry + 2, st2, vm2, fuel);
    var out := ExecAll(prog, fn.env, fn.body, st2, fuel);
    var v := if out.Normal? then None else out.v;
    vm' := vm3;
    if out.Normal? {
      NormalIs(c, vm2, vm3, end, out.st);
      vm' := LeaveRuns(c, vm2, vm3, end, None, out.st);
    }
    LeaveFrame(c, vm, vm2, vm', sp, end, v, out.st);
  }

  // Where the parts of a compiled function lie.
  lemma FnWords(text: seq<int>, prog: Program, entry: int)
    requires Linked(text, prog) && entry in prog
    ensures var fn := prog[entry];
            && entry >= 0 && GoodStmts(fn.env, fn.body) && Ready(Ctx(text, prog, fn.env, fn.params, fn.vars))
            && At(text, entry, [iENT, fn.vars]) && At(text, entry + 2, GenStmts(fn.env, fn.body, entry + 2))
            && At(text, entry + 2 + SizeStmts(fn.body), [iLEV])
  {
    var fn := prog[entry];
    assert LinkedAt(text, fn, entry);
    hide At, FnEnv, GenStmts;
    var G := GenStmts(fn.env, fn.body, entry + 2);
    AtSplit(text, entry, [iENT, fn.vars] + G, [iLEV]);
    AtSplit(text, entry, [iENT, fn.vars], G);
  }

  lemma InvokeBody(prog: Program, entry: int, vs: seq<int>, st: St, fuel: nat)
    requires Invoke(prog, entry, vs, st, fuel).Value?
    ensures entry in prog && |vs| == prog[entry].params && GoodStmts(prog[entry].env, prog[entry].body)
    ensures var out := ExecAll(prog, prog[entry].env, prog[entry].body, St(Params(vs), st.globals), fuel);
            && !out.Failed?
            && Invoke(prog, entry, vs, st, fuel) ==
               Value(if out.Normal? then None else out.v, St(st.locals, out.st.globals))
  { hide ExecAll; }

  // The end of a function body.
  lemma LeaveRuns(c: Ctx, vm: Vm, vm': Vm, at: int, v: Option<int>, st: St) returns (vm'': Vm)
    requires Evaluated(c, vm, vm', at, v, st) && At(c.text, at, [iLEV])
    ensures forall end :: Executed(c, vm, vm'', end, Returned(v, st))
  {
    vm'' := vm'.(pc := Get(vm'.mem, vm'.bp + 1), sp := vm'.bp + 2, bp := Get(vm'.mem, vm'.bp));
    StepPlain(c.text, vm', iLEV, vm'');
    ReachTrans(c.text, vm, vm', vm'');
    hide Reaches;
  }

  lemma LeaveFrame(c: Ctx, vm: Vm, vm2: Vm, vm': Vm, sp: int, at: int, v: Option<int>, st: St)
    requires vm2 == Entered(vm, c.m) && vm.sp == sp - c.n - 1 && sp <= TOP
    requires Reaches(c.text, vm, vm2) && Executed(c, vm2, vm', at, Returned(v, st))
    requires Get(vm2.mem, vm2.bp) == vm.bp && Get(vm2.mem, vm2.bp + 1) == Get(vm.mem, vm.sp)
    ensures Served(c.text, vm, vm', sp, v, st.globals)
  {
    ReachTrans(c.text, vm, vm2, vm');
    hide Reaches;
    forall x | sp <= x <= TOP ensures Get(vm'.mem, x) == Get(vm.mem, x) {
      assert Get(vm'.mem, x) == Get(vm2.mem, x);
    }
  }

  // ---- statements -----------------------------------------------------------------------------

  /** The code of a statement does what the statement does. */
  lemma {:induction false} ExecRuns(c: Ctx, s: Stmt, at: nat, st: St, vm: Vm, fuel: nat) returns (vm': Vm)
    requires Ready(c) && GoodStmt(c.env, s) && At(c.text, at, GenStmt(c.env, s, at)) && vm.pc == at
        && Rel(st, vm, c.n, c.m)
    requires !Exec(c.prog, c.env, s, st, fuel).Failed?
    ensures Executed(c, vm, vm', at + SizeStmt(s), Exec(c.prog, c.env, s, st, fuel))
    decreases fuel, s, 3
  {
    hide Executed, Ready, Rel, At, Exec, ExecAll, GenStmt, GenStmts, SizeStmt;
    match s {
      case When(b, body) => vm' := WhenRuns(c, b, body, at, st, vm, fuel);
      case Choose(b, yes, no) => vm' := ChooseRuns(c, b, yes, no, at, st, vm, fuel);
      case Loop(b, body) => vm' := LoopRuns(c, b, body, at, st, vm, fuel);
      case Return(e) => vm' := ReturnRuns(c, e, at, st, vm, fuel);
      case Block(ss) => ExecBlock(c.prog, c.env, ss, st, fuel, at); vm' := ExecAllRuns(c, ss, at, st, vm, fuel);
      case Do(e) => vm' := DoRuns(c, e, at, st, vm, fuel);
      case ReturnNone => vm' := PlainRuns(c, s, at, st, vm, fuel);
      case Nop => vm' := PlainRuns(c, s, at, st, vm, fuel);
    }
  }

  lemma {:induction false} ExecAllRuns(c: Ctx, ss: seq<Stmt>, at: nat, st: St, vm: Vm, fuel: nat) returns (vm': Vm)
    requires Ready(c) && GoodStmts(c.env, ss) && At(c.text, at, GenStmts(c.env, ss, at)) && vm.pc == at
        && Rel(st, vm, c.n, c.m)
    requires !ExecAll(c.prog, c.env, ss, st, fuel).Failed?
    ensures Executed(c, vm, vm', at + SizeStmts(ss), ExecAll(c.prog, c.env, ss, st, fuel))
    decreases fuel, ss, 4
  {
    if ss == [] {
      vm' := vm;
      Stay(c, vm, st);
      NormalIs(c, vm, vm, at, st);
    } else {
      vm' := SeqRuns(c, ss, at, st, vm, fuel);
    }
  }

  lemma {:induction false} SeqRuns(c: Ctx, ss: seq<Stmt>, at: nat, st: St, vm: Vm, fuel: nat) returns (vm': Vm)
    requires Ready(c) && GoodStmts(c.env, ss) && At(c.text, at, GenStmts(c.env, ss, at)) && vm.pc == at
        && Rel(st, vm, c.n, c.m)
    requires !ExecAll(c.prog, c.env, ss, st, fuel).Failed? && ss != []
    ensures Executed(c, vm, vm', at + SizeStmts(ss), ExecAll(c.prog, c.env, ss, st, fuel))
    decreases fuel, ss, 3
  {
    hide Executed, Ready, Rel, At, Exec, ExecAll, GenStmt, GenStmts, SizeStmt, SizeStmts, Evaluated;
    ExecSeq(c.prog, c.env, ss, st, fuel, at);
    var at1 := at + SizeStmt(ss[0]);
    AtSplit(c.text, at, GenStmt(c.env, ss[0], at), GenStmts(c.env, ss[1..], at1));
    var o1 := Exec(c.prog, c.env, ss[0], st, fuel);
    vm' := ExecRuns(c, ss[0], at, st, vm, fuel);
    if o1.Normal? {
      var vm1 := vm';
      NormalIs(c, vm, vm1, at1, o1.st);
      EvaluatedFacts(c, vm, vm1, at1, None, o1.st);
      vm' := ExecAllRuns(c, ss[1..], at1, o1.st, vm1, fuel);
      ExecutedThen(c, vm, vm1, vm', at1, None, o1.st, at + SizeStmts(ss), ExecAll(c.prog, c.env, ss[1..], o1.st, fuel));
    } else {
      ReturnedAnywhere(c, vm, vm', at1, at + SizeStmts(ss), o1);
    }
  }

  lemma ReturnedAnywhere(c: Ctx, vm: Vm, vm': Vm, at: int, at': int, out: Ended)
    requires Executed(c, vm, vm', at, out) && out.Returned?
    ensures Executed(c, vm, vm', at', out)
  { hide Reaches, Kept; }

  lemma ExecBlock(prog: Program, env: Env, ss: seq<Stmt>, st: St, fuel: nat, at: nat)
    requires GoodStmts(env, ss)
    ensures Exec(prog, env, Block(ss), st, fuel) == ExecAll(prog, env, ss, st, fuel)
    ensures GenStmt(env, Block(ss), at) == GenStmts(env, ss, at) && SizeStmt(Block(ss)) == SizeStmts(ss)
  { }

  lemma ExecSeq(prog: Program, env: Env, ss: seq<Stmt>, st: St, fuel: nat, at: nat)
    requires GoodStmts(env, ss) && ss != [] && !ExecAll(prog, env, ss, st, fuel).Failed?
    ensures GoodStmt(env, ss[0]) && GoodStmts(env, ss[1..])
    ensures var o := Exec(prog, env, ss[0], st, fuel);
            && !o.Failed?
            && ExecAll(prog, env, ss, st, fuel) == if o.Normal? then ExecAll(prog, env, ss[1..], o.st, fuel) else o
    ensures GenStmts(env, ss, at) == GenStmt(env, ss[0], at) + GenStmts(env, ss[1..], at + SizeStmt(ss[0]))
    ensures SizeStmts(ss) == SizeStmt(ss[0]) + SizeStmts(ss[1..])
  { }

  lemma PlainRuns(c: Ctx, s: Stmt, at: nat, st: St, vm: Vm, fuel: nat) returns (vm': Vm)
    requires s in {ReturnNone, Nop}
    requires At(c.text, at, GenStmt(c.env, s, at)) && vm.pc == at && Rel(st, vm, c.n, c.m)
    ensures Executed(c, vm, vm', at + SizeStmt(s), Exec(c.prog, c.env, s, st, fuel))
  {
    Stay(c, vm, st);
    hide Executed, Evaluated, Rel, At;
    if s == Nop {
      vm' := vm;
      NormalIs(c, vm, vm, at, st);
    } else {
      vm' := LeaveRuns(c, vm, vm, at, None, st);
    }
  }

  lemma {:induction false} DoRuns(c: Ctx, e: Expr, at: nat, st: St, vm: Vm, fuel: nat) returns (vm': Vm)
    requires Ready(c) && Good(c.env, e) && At(c.text, at, GenStmt(c.env, Do(e), at)) && vm.pc == at
        && Rel(st, vm, c.n, c.m)
    requires !Exec(c.prog, c.env, Do(e), st, fuel).Failed?
    ensures Executed(c, vm, vm', at + SizeStmt(Do(e)), Exec(c.prog, c.env, Do(e), st, fuel))
    decreases fuel, Do(e), 2
  {
    hide Executed, Evaluated, Ready, Rel, At;
    hide Eval, Gen, Size;
    vm' := EvalRuns(c, e, at, st, vm, fuel);
    var o := Eval(c.prog, c.env, e, st, fuel);
    Forget(c, vm, vm', at + Size(e), o.v, o.st);
    NormalIs(c, vm, vm', at + Size(e), o.st);
  }

  lemma {:induction false} ReturnRuns(c: Ctx, e: Expr, at: nat, st: St, vm: Vm, fuel: nat) returns (vm': Vm)
    requires Ready(c) && Good(c.env, e) && At(c.text, at, GenStmt(c.env, Return(e), at)) && vm.pc == at
        && Rel(st, vm, c.n, c.m)
    requires !Exec(c.prog, c.env, Return(e), st, fuel).Failed?
    ensures Executed(c, vm, vm', at + SizeStmt(Return(e)), Exec(c.prog, c.env, Return(e), st, fuel))
    decreases fuel, Return(e), 2
  {
    hide Executed, Evaluated, Ready, Rel, At;
    hide Eval, Gen, Size;
    AtSplit(c.text, at, Gen(c.env, e, at), [iLEV]);
    var vm1 := EvalRuns(c, e, at, st, vm, fuel);
    var o := Eval(c.prog, c.env, e, st, fuel);
    vm' := LeaveRuns(c, vm, vm1, at + Size(e), o.v, o.st);
  }

  lemma ExecWhen(prog: Program, env: Env, b: Expr, body: Stmt, st: St, fuel: nat)
    requires Good(env, b) && GoodStmt(env, body) && !Exec(prog, env, When(b, body), st, fuel).Failed?
    ensures var o := Eval(prog, env, b, st, fuel);
            && o.Value? && o.v.Some?
            && Exec(prog, env, When(b, body), st, fuel) ==
               if o.v.value != 0 then Exec(prog, env, body, o.st, fuel) else Normal(o.st)
  { hide Eval; }

  lemma ExecChoose(prog: Program, env: Env, b: Expr, yes: Stmt, no: Stmt, st: St, fuel: nat)
    requires Good(env, b) && GoodStmt(env, yes) && GoodStmt(env, no)
    requires !Exec(prog, env, Choose(b, yes, no), st, fuel).Failed?
    ensures var o := Eval(prog, env, b, st, fuel);
            && o.Value? && o.v.Some?
            && Exec(prog, env, Choose(b, yes, no), st, fuel) ==
                Exec(prog, env, if o.v.value != 0 then yes else no, o.st, fuel)
  { hide Eval; }

  lemma ExecLoop(prog: Program, env: Env, b: Expr, body: Stmt, st: St, fuel: nat)
    requires Good(env, b) && GoodStmt(env, body) && !Exec(prog, env, Loop(b, body), st, fuel).Failed?
    ensures var o := Eval(prog, env, b, st, fuel);
            && o.Value? && o.v.Some?
            && (o.v.value == 0 ==> Exec(prog, env, Loop(b, body), st, fuel) == Normal(o.st))
            && (o.v.value != 0 ==>
                  var o2 := Exec(prog, env, body, o.st, fuel);
                  && !o2.Failed? && (o2.Normal? ==> fuel > 0)
                  && Exec(prog, env, Loop(b, body), st, fuel) ==
                     if o2.Normal? then Exec(prog, env, Loop(b, body), o2.st, fuel - 1) else o2)
  { hide Eval; }

  lemma {:induction false} WhenRuns(c: Ctx, b: Expr, body: Stmt, at: nat, st: St, vm: Vm, fuel: nat) returns (vm': Vm)
    requires Good(c.env, b) && GoodStmt(c.env, body) && Ready(c)
    requires At(c.text, at, GenStmt(c.env, When(b, body), at)) && vm.pc == at && Rel(st, vm, c.n, c.m)
    requires !Exec(c.prog, c.env, When(b, body), st, fuel).Failed?
    ensures Executed(c, vm, vm', at + SizeStmt(When(b, body)), Exec(c.prog, c.env, When(b, body), st, fuel))
    decreases fuel, When(b, body), 2
  {
    hide Evaluated, Executed, Ready, Rel, At, Eval, Exec, Gen, GenStmt;
    ExecWhen(c.prog, c.env, b, body, st, fuel);
    var o1 := Eval(c.prog, c.env, b, st, fuel);
    var x, at1 := o1.v.value, at + Size(b);
    var end := at1 + 2 + SizeStmt(body);
    WhenShape(c.env, b, body, at);
    AtSplit(c.text, at, Gen(c.env, b, at) + [iBZ, end], GenStmt(c.env, body, at1 + 2));
    AtSplit(c.text, at, Gen(c.env, b, at), [iBZ, end]);
    var vm1 := EvalRuns(c, b, at, st, vm, fuel);
    var vm2 := TestRuns(c, vm, vm1, at1, x, o1.st, end);
    if x != 0 {
      EvaluatedFacts(c, vm, vm2, at1 + 2, o1.v, o1.st);
      vm' := ExecRuns(c, body, at1 + 2, o1.st, vm2, fuel);
      ExecutedThen(c, vm, vm2, vm', at1 + 2, o1.v, o1.st, end, Exec(c.prog, c.env, body, o1.st, fuel));
    } else {
      vm' := vm2;
      Forget(c, vm, vm2, end, o1.v, o1.st);
      NormalIs(c, vm, vm2, end, o1.st);
    }
  }

  // The jump at the end of a branch, unless the branch has returned.
  lemma ExecutedJump(c: Ctx, vm: Vm, vm': Vm, at: int, target: int, out: Ended) returns (vm'': Vm)
    requires Executed(c, vm, vm', at, out) && At(c.text, at, [iJMP, target])
    ensures Executed(c, vm, vm'', target, out)
    ensures out.Normal? ==> Evaluated(c, vm, vm'', target, None, out.st)
  {
    hide Evaluated, Executed, Rel, At;
    vm'' := vm';
    if out.Returned? {
      ReturnedAnywhere(c, vm, vm', at, target, out);
    } else {
      ExecutedDone(c, vm, vm', at, out);
      NormalIs(c, vm, vm', at, out.st);
      EvaluatedFacts(c, vm, vm', at, None, out.st);
      vm'' := vm'.(pc := target);
      JumpRuns(c, vm', iJMP, target, target, out.st);
      JoinJump(c, vm, vm', at, target, None, out.st);
      NormalIs(c, vm, vm'', target, out.st);
    }
  }

  lemma ExecutedDone(c: Ctx, vm: Vm, vm': Vm, at: int, out: Ended)
    requires Executed(c, vm, vm', at, out)
    ensures !out.Failed?
  { }

  lemma {:induction false} ChooseRuns(c: Ctx, b: Expr, yes: Stmt, no: Stmt, at: nat, st: St, vm: Vm, fuel: nat)
      returns (vm': Vm)
    requires Good(c.env, b) && GoodStmt(c.env, yes) && GoodStmt(c.env, no) && Ready(c)
    requires At(c.text, at, GenStmt(c.env, Choose(b, yes, no), at)) && vm.pc == at && Rel(st, vm, c.n, c.m)
    requires !Exec(c.prog, c.env, Choose(b, yes, no), st, fuel).Failed?
    ensures Executed(c, vm, vm', at + SizeStmt(Choose(b, yes, no)), Exec(c.prog, c.env, Choose(b, yes, no), st, fuel))
    decreases fuel, Choose(b, yes, no), 2
  {
    hide Evaluated, Executed, Ready, Rel, At, Eval, Exec, Gen, GenStmt, ChooseCode;
    ExecChoose(c.prog, c.env, b, yes, no, st, fuel);
    var o1 := Eval(c.prog, c.env, b, st, fuel);
    var x := o1.v.value;
    var branch := if x != 0 then yes else no;
    var o2 := Exec(c.prog, c.env, branch, o1.st, fuel);
    ChooseGen(c.env, b, yes, no, at);
    var mid := at + Size(b) + 2 + SizeStmt(yes) + 2;
    ChooseAt(c.text, at, Gen(c.env, b, at), GenStmt(c.env, yes, at + Size(b) + 2), GenStmt(c.env, no, mid));
    var vm1 := EvalRuns(c, b, at, st, vm, fuel);
    var vm2 := TestRuns(c, vm, vm1, at + Size(b), x, o1.st, mid);
    var at2 := if x != 0 then at + Size(b) + 2 else mid;
    EvaluatedFacts(c, vm, vm2, at2, o1.v, o1.st);
    vm' := ExecRuns(c, branch, at2, o1.st, vm2, fuel);
    ExecutedThen(c, vm, vm2, vm', at2, o1.v, o1.st, at2 + SizeStmt(branch), o2);
    if x != 0 {
      vm' := ExecutedJump(c, vm, vm', mid - 2, mid + SizeStmt(no), o2);
    }
  }

  lemma LoopAt(text: seq<int>, at: nat, test: seq<int>, body: seq<int>)
    requires At(text, at, LoopCode(at, test, body))
    ensures var mid := at + |test| + 2;
            && At(text, at, test) && At(text, at + |test|, [iBZ, mid + |body| + 2]) && At(text, mid, body)
            && At(text, mid + |body|, [iJMP, at])
  {
    var end := at + |test| + 2 + |body| + 2;
    hide At;
    AtSplit(text, at, test + [iBZ, end] + body, [iJMP, at]);
    AtSplit(text, at, test + [iBZ, end], body);
    AtSplit(text, at, test, [iBZ, end]);
  }

  lemma {:induction false} LoopRuns(c: Ctx, b: Expr, body: Stmt, at: nat, st: St, vm: Vm, fuel: nat) returns (vm': Vm)
    requires Good(c.env, b) && GoodStmt(c.env, body) && Ready(c)
    requires At(c.text, at, GenStmt(c.env, Loop(b, body), at)) && vm.pc == at && Rel(st, vm, c.n, c.m)
    requires !Exec(c.prog, c.env, Loop(b, body), st, fuel).Failed?
    ensures Executed(c, vm, vm', at + SizeStmt(Loop(b, body)), Exec(c.prog, c.env, Loop(b, body), st, fuel))
    decreases fuel, Loop(b, body), 2
  {
    hide Evaluated, Executed, Ready, Rel, At, Eval, Exec, Gen, GenStmt, LoopCode;
    ExecLoop(c.prog, c.env, b, body, st, fuel);
    var o1 := Eval(c.prog, c.env, b, st, fuel);
    var x, mid := o1.v.value, at + Size(b) + 2;
    var end := mid + SizeStmt(body) + 2;
    LoopGen(c.env, b, body, at);
    LoopAt(c.text, at, Gen(c.env, b, at), GenStmt(c.env, body, mid));
    var vm1 := EvalRuns(c, b, at, st, vm, fuel);
    var vm2 := TestRuns(c, vm, vm1, at + Size(b), x, o1.st, end);
    if x != 0 {
      EvaluatedFacts(c, vm, vm2, mid, o1.v, o1.st);
      var o2 := Exec(c.prog, c.env, body, o1.st, fuel);
      var vm3 := ExecRuns(c, body, mid, o1.st, vm2, fuel);
      ExecutedThen(c, vm, vm2, vm3, mid, o1.v, o1.st, end - 2, o2);
      vm' := RoundRuns(c, b, body, at, vm, vm3, end, o2, fuel);
    } else {
      vm' := vm2;
      Forget(c, vm, vm2, end, o1.v, o1.st);
      NormalIs(c, vm, vm2, end, o1.st);
    }
  }

  // The jump back and the rest of the loop, after one round.
  lemma {:induction false} RoundRuns(c: Ctx, b: Expr, body: Stmt, at: nat, vm: Vm, vm3: Vm, end: int, o2: Ended,
      fuel: nat) returns (vm': Vm)
    requires Good(c.env, b) && GoodStmt(c.env, body) && Ready(c) && end == at + SizeStmt(Loop(b, body))
    requires At(c.text, at, GenStmt(c.env, Loop(b, body), at)) && At(c.text, end - 2, [iJMP, at])
    requires Executed(c, vm, vm3, end - 2, o2) && !o2.Failed?
    requires o2.Normal? ==> fuel > 0 && !Exec(c.prog, c.env, Loop(b, body), o2.st, fuel - 1).Failed?
    ensures Executed(c, vm, vm', end, if o2.Normal? then Exec(c.prog, c.env, Loop(b, body), o2.st, fuel - 1) else o2)
    decreases fuel, Loop(b, body), 1
  {
    hide Evaluated, Executed, Ready, Rel, At, Eval, Exec, Gen, GenStmt, SizeStmt;
    if o2.Normal? {
      var vm4 := ExecutedJump(c, vm, vm3, end - 2, at, o2);
      EvaluatedFacts(c, vm, vm4, at, None, o2.st);
      vm' := ExecRuns(c, Loop(b, body), at, o2.st, vm4, fuel - 1);
      ExecutedThen(c, vm, vm4, vm', at, None, o2.st, end, Exec(c.prog, c.env, Loop(b, body), o2.st, fuel - 1));
    } else {
      vm' := vm3;
      ReturnedAnywhere(c, vm, vm3, end - 2, end, o2);
    }
  }

  // ---- the value of || and && -----------------------------------------------------------------

  // What C gives for `x || y` and `x && y`.
  function LogicValue(or: bool, x: int, y: int): int {
    Truth(if or then x != 0 || y != 0 else x != 0 && y != 0)
  }

  /** c4's `||` and `&&` decide as C's do, but give the deciding operand; the value is C's exactly
      when that operand is 0 or 1. */
  lemma LogicMeans(prog: Program, env: Env, or: bool, l: Expr, r: Expr, st: St, fuel: nat)
    requires Good(env, l) && Good(env, r)
    requires var e := if or then LogOr(l, r) else LogAnd(l, r);
             var o := Eval(prog, env, e, st, fuel); o.Value? && o.v.Some?
    ensures var o := Eval(prog, env, if or then LogOr(l, r) else LogAnd(l, r), st, fuel);
            var o1 := Eval(prog, env, l, st, fuel);
            && o1.Value? && o1.v.Some?
            && var x := o1.v.value;
            var skip := (x != 0) == or;
            var o2 := Eval(prog, env, r, o1.st, fuel);
            && (!skip ==> o2.Value? && o2.v.Some?)
            && var y := if skip then 0 else o2.v.value;
            && (o.v.value != 0 <==> LogicValue(or, x, y) != 0)
            && (o.v.value == LogicValue(or, x, y) <==> (if skip then x else y) in {0, 1})
  {
    EvalLogic(prog, env, or, l, r, st, fuel);
    hide Eval;
  }

  lemma LogicExample(prog: Program, env: Env, st: St)
    ensures Good(env, Num(2)) && Good(env, Num(0)) && Good(env, LogOr(Num(2), Num(0)))
    ensures Eval(prog, env, LogOr(Num(2), Num(0)), st, 0) == Value(Some(2), st) && LogicValue(true, 2, 0) == 1
  { }
}
