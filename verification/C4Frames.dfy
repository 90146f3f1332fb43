/** Frames of the c4 machine: where `loc - Val` puts parameters and locals, what evaluation may
    change in memory, and the instructions that read and write variables. */
module C4Frames {
  import opened Layout
  import opened C4Syntax
  import opened C4Machine

  // The Val of one of n parameters (0 .. n-1) or m locals (n+2 ..).
  predicate InFrame(val: int, n: nat, m: nat) { 0 <= val < n || n + 2 <= val < n + 2 + m }

  // The word that operand `loc - val` addresses, with loc = n + 1.
  function CellOf(bp: int, n: nat, val: int): int { bp + (n + 1) - val }

  predicate Cell(x: int, bp: int, n: nat, m: nat) { bp - m <= x < bp || bp + 2 <= x <= bp + n + 1 }

  /** Parameters and locals have distinct words, which are exactly the frame around the saved `bp`
      and the return address. */
  lemma FrameCells(bp: int, n: nat, m: nat)
    ensures forall val, val' | InFrame(val, n, m) && InFrame(val', n, m)
        && CellOf(bp, n, val) == CellOf(bp, n, val') :: val == val'
    ensures forall x :: Cell(x, bp, n, m) <==> exists val :: InFrame(val, n, m) && CellOf(bp, n, val) == x
    ensures !Cell(bp, bp, n, m) && !Cell(bp + 1, bp, n, m)
  {
    forall x ensures Cell(x, bp, n, m) <==> exists val :: InFrame(val, n, m) && CellOf(bp, n, val) == x {
      if Cell(x, bp, n, m) { assert InFrame(bp + n + 1 - x, n, m) && CellOf(bp, n, bp + n + 1 - x) == x; }
    }
  }

  /** An environment that a function with n parameters and m locals is compiled in. */
  ghost predicate FnEnv(env: Env, n: nat, m: nat) {
    && env.loc == n + 1
    && forall x | x in env.ids ::
         match env.ids[x]
         case Local(val) => InFrame(val, n, m)
         case Global(addr) => addr > TOP
         case Fun(_) => true
  }

  /** The machine holds the variables of `st`: locals in the frame, globals in the data. */
  ghost predicate Rel(st: St, vm: Vm, n: nat, m: nat) {
    && vm.sp <= vm.bp - m && vm.bp + n + 1 <= TOP
    && (forall val | val in st.locals :: InFrame(val, n, m) && Get(vm.mem, CellOf(vm.bp, n, val)) == st.locals[val])
    && (forall x | x > TOP :: Get(vm.mem, x) == Get(st.globals, x))
  }

  /** The stack from `lo` up is unchanged outside the current frame's variables. */
  ghost predicate Kept(mem: map<int, int>, mem': map<int, int>, lo: int, bp: int, n: nat, m: nat) {
    forall x | lo <= x <= TOP && !Cell(x, bp, n, m) :: Get(mem', x) == Get(mem, x)
  }

  lemma KeptTrans(mem: map<int, int>, mem': map<int, int>, mem'': map<int, int>, lo: int, lo': int, bp: int, n: nat,
      m: nat)
    requires Kept(mem, mem', lo, bp, n, m) && Kept(mem', mem'', lo', bp, n, m) && lo' <= lo
    ensures Kept(mem, mem'', lo, bp, n, m)
  { }

  // ---- code in the text -----------------------------------------------------------------------

  predicate At(text: seq<int>, at: int, words: seq<int>) {
    0 <= at && at + |words| <= |text| && text[at..at + |words|] == words
  }

  lemma AtSplit(text: seq<int>, at: int, f: seq<int>, g: seq<int>)
    requires At(text, at, f + g)
    ensures At(text, at, f) && At(text, at + |f|, g)
  {
    assert text[at..at + |f|] == text[at..at + |f + g|][..|f|] == (f + g)[..|f|] == f;
    assert text[at + |f|..at + |f + g|] == text[at..at + |f + g|][|f|..] == (f + g)[|f|..] == g;
  }

  lemma AtHead(text: seq<int>, at: int, words: seq<int>)
    requires At(text, at, words) && words != []
    ensures text[at] == words[0] && (|words| > 1 ==> text[at + 1] == words[1])
  {
    assert words[0] == text[at..at + |words|][0];
    if |words| > 1 { assert words[1] == text[at..at + |words|][1]; }
  }

  lemma StepPlain(text: seq<int>, vm: Vm, i: int, t: Vm)
    requires At(text, vm.pc, [i]) && i > iADJ && Plain(i, vm) == Some(t)
    ensures Reaches(text, vm, t)
  {
    AtHead(text, vm.pc, [i]);
    hide Plain;
    ReachStep(text, vm, t);
  }

  lemma StepOperand(text: seq<int>, vm: Vm, i: int, arg: int, t: Vm)
    requires At(text, vm.pc, [i, arg]) && i <= iADJ && WithOperand(i, arg, vm) == Some(t)
    ensures Reaches(text, vm, t)
  {
    AtHead(text, vm.pc, [i, arg]);
    hide WithOperand;
    ReachStep(text, vm, t);
  }

  // ---- single instructions ----------------------------------------------------------------------

  function Pushed(vm: Vm): Vm { vm.(pc := vm.pc + 1, sp := vm.sp - 1, mem := vm.mem[vm.sp - 1 := vm.a]) }

  function Loaded(vm: Vm, v: int): Vm { vm.(pc := vm.pc + 2, a := v) }

  function Popped(vm: Vm, v: int): Vm { vm.(pc := vm.pc + 1, sp := vm.sp + 1, a := v) }

  lemma PushRuns(text: seq<int>, vm: Vm)
    requires At(text, vm.pc, [iPSH])
    ensures Reaches(text, vm, Pushed(vm))
  { StepPlain(text, vm, iPSH, Pushed(vm)); }

  lemma ImmRuns(text: seq<int>, vm: Vm, v: int)
    requires At(text, vm.pc, [iIMM, v])
    ensures Reaches(text, vm, Loaded(vm, v))
  { StepOperand(text, vm, iIMM, v, Loaded(vm, v)); }

  lemma OpRuns(text: seq<int>, vm: Vm, op: Op, v: int)
    requires Strict(op) && At(text, vm.pc, [OpCode(op)]) && Binary(op, Get(vm.mem, vm.sp), vm.a) == Some(v)
    ensures Reaches(text, vm, Popped(vm, v))
  {
    hide Binary, OpCode, OpOf;
    OpOfCode(op);
    StepPlain(text, vm, OpCode(op), Popped(vm, v));
  }

  lemma OpOfCode(op: Op)
    requires Strict(op)
    ensures OpOf(OpCode(op)) == Some(op) && OpCode(op) > iPSH
  { }

  // A push lies below everything that counts.
  lemma PushKeeps(st: St, vm: Vm, n: nat, m: nat)
    requires Rel(st, vm, n, m)
    ensures Rel(st, Pushed(vm), n, m) && Kept(vm.mem, Pushed(vm).mem, vm.sp, vm.bp, n, m)
    ensures Pushed(vm).pc == vm.pc + 1 && Get(Pushed(vm).mem, vm.sp - 1) == vm.a && !Cell(vm.sp - 1, vm.bp, n, m)
  { }

  // ---- variables --------------------------------------------------------------------------------

  function VarAddr(env: Env, x: string, bp: int): int
    requires IsVar(env, x)
  {
    match env.ids[x] case Local(val) => bp + env.loc - val case Global(addr) => addr
  }

  lemma AddrRuns(text: seq<int>, env: Env, x: string, vm: Vm)
    requires IsVar(env, x) && At(text, vm.pc, AddrCode(env, x))
    ensures Reaches(text, vm, Loaded(vm, VarAddr(env, x, vm.bp)))
  {
    match env.ids[x] {
      case Local(val) => StepOperand(text, vm, iLEA, env.loc - val, Loaded(vm, VarAddr(env, x, vm.bp)));
      case Global(addr) => ImmRuns(text, vm, addr);
    }
  }

  /** A variable's word holds its value. */
  lemma VarHolds(env: Env, x: string, st: St, vm: Vm, n: nat, m: nat)
    requires FnEnv(env, n, m) && IsVar(env, x) && Rel(st, vm, n, m) && Lookup(env, x, st).Some?
    ensures Get(vm.mem, VarAddr(env, x, vm.bp)) == Lookup(env, x, st).value
  {
    assert x in env.ids;
    match env.ids[x] {
      case Local(val) => assert VarAddr(env, x, vm.bp) == CellOf(vm.bp, n, val);
      case Global(addr) =>
    }
  }

  /** Writing a variable's word is the assignment, and touches nothing else. */
  lemma VarStored(env: Env, x: string, st: St, vm: Vm, v: int, n: nat, m: nat)
    requires FnEnv(env, n, m) && IsVar(env, x) && Rel(st, vm, n, m)
    ensures var p := VarAddr(env, x, vm.bp);
            var vm' := vm.(mem := vm.mem[p := v]);
            Rel(Store(env, x, st, v), vm', n, m) && forall lo :: Kept(vm.mem, vm'.mem, lo, vm.bp, n, m)
    ensures VarAddr(env, x, vm.bp) >= vm.sp
  {
    FrameCells(vm.bp, n, m);
    assert x in env.ids;
    match env.ids[x] {
      case Local(val) => assert VarAddr(env, x, vm.bp) == CellOf(vm.bp, n, val)
        && Cell(CellOf(vm.bp, n, val), vm.bp, n, m);
      case Global(addr) =>
        var mem', globals' := vm.mem[addr := v], st.globals[addr := v];
        forall y | y > TOP ensures Get(mem', y) == Get(globals', y) {
          assert Get(vm.mem, y) == Get(st.globals, y);
        }
        forall val | val in st.locals ensures Get(vm.mem[addr := v], CellOf(vm.bp, n, val)) == st.locals[val] {
          assert Get(vm.mem, CellOf(vm.bp, n, val)) == st.locals[val];
        }
    }
  }
}
