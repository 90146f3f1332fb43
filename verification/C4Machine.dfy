/** The stack machine that runs c4 code, and what expression and statement trees mean.

    Memory is addressed by words.  The stack lies at addresses up to `TOP` and grows down; the
    data of global variables lies above. */
module C4Machine {
  import opened Layout
  import opened C4Syntax

  const TOP: int := 0

  // ---- arithmetic -----------------------------------------------------------------------------

  function Bits(x: int): bv32 { (x % 0x1_0000_0000) as bv32 }

  function Signed(b: bv32): int { Wrap32(b as int) }

  function BitOr(x: int, y: int): int { Signed(Bits(x) | Bits(y)) }

  function BitXor(x: int, y: int): int { Signed(Bits(x) ^ Bits(y)) }

  function BitAnd(x: int, y: int): int { Signed(Bits(x) & Bits(y)) }

  function Complement(x: int): int { Signed(!Bits(x)) }

  function Pow2(k: nat): (r: nat)
    ensures r > 0
  { if k == 0 then 1 else 2 * Pow2(k - 1) }

  function Truth(b: bool): int { if b then 1 else 0 }

  // C division truncates toward zero.
  function TruncDiv(x: int, y: int): int
    requires y != 0
  {
    var q := (if x < 0 then -x else x) / (if y < 0 then -y else y);
    if (x < 0) == (y < 0) then q else -q
  }

  /** The value of `x op y`; division by zero and the overflowing division trap. */
  function Binary(op: Op, x: int, y: int): Option<int>
    requires Strict(op)
  {
    match op
    case Or => Some(BitOr(x, y))
    case Xor => Some(BitXor(x, y))
    case And => Some(BitAnd(x, y))
    case Eq => Some(Truth(x == y))
    case Ne => Some(Truth(x != y))
    case Lt => Some(Truth(x < y))
    case Gt => Some(Truth(x > y))
    case Le => Some(Truth(x <= y))
    case Ge => Some(Truth(x >= y))
    case Shl => Some(Wrap32(x * Pow2(y % 32)))
    case Shr => Some(x / Pow2(y % 32))
    case Add => Some(Wrap32(x + y))
    case Sub => Some(Wrap32(x - y))
    case Mul => Some(Wrap32(x * y))
    case Div => if y == 0 || (x == -0x8000_0000 && y == -1) then None else Some(TruncDiv(x, y))
    case Mod => if y == 0 || (x == -0x8000_0000 && y == -1) then None else Some(x - y * TruncDiv(x, y))
  }

  // ---- the machine ------------------------------------------------------------------------------

  datatype Vm = Vm(pc: int, sp: int, bp: int, a: int, mem: map<int, int>)

  function Get(mem: map<int, int>, x: int): int { if x in mem then mem[x] else 0 }

  // The operator whose instruction is `i`.
  function OpOf(i: int): Option<Op> {
    if i == 14 then Some(Or) else if i == 15 then Some(Xor) else if i == 16 then Some(And)
    else if i == 17 then Some(Eq) else if i == 18 then Some(Ne) else if i == 19 then Some(Lt)
    else if i == 20 then Some(Gt) else if i == 21 then Some(Le) else if i == 22 then Some(Ge)
    else if i == 23 then Some(Shl) else if i == 24 then Some(Shr) else if i == 25 then Some(Add)
    else if i == 26 then Some(Sub) else if i == 27 then Some(Mul) else if i == 28 then Some(Div)
    else if i == 29 then Some(Mod) else None
  }

  /** One instruction; `None` is a trap or an instruction outside the integer subset. */
  function Step(text: seq<int>, s: Vm): Option<Vm> {
    if !(0 <= s.pc < |text|) then None
    else if text[s.pc] <= iADJ then
      if s.pc + 1 < |text| then WithOperand(text[s.pc], text[s.pc + 1], s) else None
    else Plain(text[s.pc], s)
  }

  function WithOperand(i: int, arg: int, s: Vm): Option<Vm> {
    if i == iLEA then Some(s.(pc := s.pc + 2, a := s.bp + arg))
    else if i == iIMM then Some(s.(pc := s.pc + 2, a := arg))
    else if i == iJMP then Some(s.(pc := arg))
    else if i == iJSR then Some(s.(pc := arg, sp := s.sp - 1, mem := s.mem[s.sp - 1 := s.pc + 2]))
    else if i == iBZ then Some(s.(pc := if s.a != 0 then s.pc + 2 else arg))
    else if i == iBNZ then Some(s.(pc := if s.a != 0 then arg else s.pc + 2))
    else if i == iENT then
      Some(s.(pc := s.pc + 2, sp := s.sp - 1 - arg, bp := s.sp - 1, mem := s.mem[s.sp - 1 := s.bp]))
    else if i == iADJ then Some(s.(pc := s.pc + 2, sp := s.sp + arg))
    else None
  }

  function Plain(i: int, s: Vm): Option<Vm> {
    if i == iLEV then Some(s.(pc := Get(s.mem, s.bp + 1), sp := s.bp + 2, bp := Get(s.mem, s.bp)))
    else if i == iLI then Some(s.(pc := s.pc + 1, a := Get(s.mem, s.a)))
    else if i == iSI then Some(s.(pc := s.pc + 1, sp := s.sp + 1, mem := s.mem[Get(s.mem, s.sp) := s.a]))
    else if i == iPSH then Some(s.(pc := s.pc + 1, sp := s.sp - 1, mem := s.mem[s.sp - 1 := s.a]))
    else match OpOf(i)
      case None => None
      case Some(op) =>
        match Binary(op, Get(s.mem, s.sp), s.a)
        case None => None
        case Some(v) => Some(s.(pc := s.pc + 1, sp := s.sp + 1, a := v))
  }

  function Run(text: seq<int>, s: Vm, n: nat): Option<Vm>
    decreases n
  {
    if n == 0 then Some(s)
    else match Step(text, s) case None => None case Some(t) => Run(text, t, n - 1)
  }

  ghost predicate Reaches(text: seq<int>, s: Vm, t: Vm) { exists n: nat :: Run(text, s, n) == Some(t) }

  /** The machine loop, for a bounded number of cycles. */
  method Execute(text: seq<int>, start: Vm, cycles: nat) returns (r: Option<Vm>)
    ensures r == Run(text, start, cycles)
  {
    var s, n := start, cycles;
    while n > 0
      invariant 0 <= n <= cycles && Run(text, start, cycles) == Run(text, s, n)
    {
      match Step(text, s) {
        case None => return None;
        case Some(t) => s := t;
      }
      n := n - 1;
    }
    r := Some(s);
  }

  lemma {:induction false} RunAppend(text: seq<int>, s: Vm, m: nat, n: nat)
    ensures Run(text, s, m + n) == match Run(text, s, m) case None => None case Some(t) => Run(text, t, n)
    decreases m
  {
    if m > 0 {
      match Step(text, s) {
        case None =>
        case Some(t) => RunAppend(text, t, m - 1, n);
      }
    }
  }

  lemma ReachTrans(text: seq<int>, s: Vm, t: Vm, u: Vm)
    requires Reaches(text, s, t) && Reaches(text, t, u)
    ensures Reaches(text, s, u)
  {
    var m: nat :| Run(text, s, m) == Some(t);
    var n: nat :| Run(text, t, n) == Some(u);
    RunAppend(text, s, m, n);
  }

  lemma ReachStep(text: seq<int>, s: Vm, t: Vm)
    requires Step(text, s) == Some(t)
    ensures Reaches(text, s, t)
  {
    assert Run(text, t, 0) == Some(t);
    assert Run(text, s, 1) == Some(t);
  }

  lemma ReachSelf(text: seq<int>, s: Vm)
    ensures Reaches(text, s, s)
  {
    assert Run(text, s, 0) == Some(s);
  }

  // ---- meaning ------------------------------------------------------------------------------------

  /** The variables: a missing local is not yet initialised, a missing global is zero. */
  datatype St = St(locals: map<int, int>, globals: map<int, int>)

  /** A function, by the numbers of its parameters and locals. */
  datatype Fn = Fn(params: nat, vars: nat, env: Env, body: seq<Stmt>)

  // Functions by entry address.
  type Program = map<int, Fn>

  // A call of a function that returns no value has no value.
  datatype Out = Stuck | Value(v: Option<int>, st: St)
  datatype Outs = StuckArgs | Values(vs: seq<int>, st: St)
  datatype Ended = Failed | Normal(st: St) | Returned(v: Option<int>, st: St)

  function Lookup(env: Env, x: string, st: St): Option<int>
    requires IsVar(env, x)
  {
    match env.ids[x]
    case Local(val) => if val in st.locals then Some(st.locals[val]) else None
    case Global(addr) => Some(Get(st.globals, addr))
  }

  function Store(env: Env, x: string, st: St, v: int): St
    requires IsVar(env, x)
  {
    match env.ids[x]
    case Local(val) => st.(locals := st.locals[val := v])
    case Global(addr) => st.(globals := st.globals[addr := v])
  }

  /** What an expression computes.  `||` and `&&` give the operand that decides; `fuel` bounds the
      depth of calls and the number of loop rounds. */
  function Eval(prog: Program, env: Env, e: Expr, st: St, fuel: nat): Out
    requires Good(env, e)
    decreases fuel, e, 1
  {
    match e
    case Num(n) => Value(Some(n), st)
    case Var(x) => (match Lookup(env, x, st) case None => Stuck case Some(v) => Value(Some(v), st))
    case Neg(a) =>
      (match Eval(prog, env, a, st, fuel) case Value(Some(v), st') => Value(Some(Wrap32(-v)), st') case _ => Stuck)
    case Not(a) =>
      (match Eval(prog, env, a, st, fuel) case Value(Some(v), st') => Value(Some(Truth(v == 0)), st') case _ => Stuck)
    case BitNot(a) =>
      (match Eval(prog, env, a, st, fuel) case Value(Some(v), st') => Value(Some(Complement(v)), st') case _ => Stuck)
    case Plus(a) =>
      (match Eval(prog, env, a, st, fuel) case Value(Some(v), st') => Value(Some(v), st') case _ => Stuck)
    case Bin(op, l, r) =>
      (match Eval(prog, env, l, st, fuel)
       case Value(Some(x), st') =>
         (match Eval(prog, env, r, st', fuel)
          case Value(Some(y), st'') =>
            (match Binary(op, x, y) case None => Stuck case Some(v) => Value(Some(v), st''))
          case _ => Stuck)
       case _ => Stuck)
    case LogOr(l, r) =>
      (match Eval(prog, env, l, st, fuel)
       case Value(Some(x), st') => if x != 0 then Value(Some(x), st') else Eval(prog, env, r, st', fuel)
       case _ => Stuck)
    case LogAnd(l, r) =>
      (match Eval(prog, env, l, st, fuel)
       case Value(Some(x), st') => if x == 0 then Value(Some(x), st') else Eval(prog, env, r, st', fuel)
       case _ => Stuck)
    case If(c, t, f) =>
      (match Eval(prog, env, c, st, fuel)
       case Value(Some(x), st') => Eval(prog, env, if x != 0 then t else f, st', fuel)
       case _ => Stuck)
    case Set(x, a) =>
      (match Eval(prog, env, a, st, fuel)
       case Value(Some(v), st') => Value(Some(v), Store(env, x, st', v))
       case _ => Stuck)
    case PreStep(x, up) =>
      (match Lookup(env, x, st)
       case None => Stuck
       case Some(v) => var v' := Wrap32(if up then v + 1 else v - 1); Value(Some(v'), Store(env, x, st, v')))
    case PostStep(x, up) =>
      (match Lookup(env, x, st)
       case None => Stuck
       case Some(v) => Value(Some(Wrap32(v)), Store(env, x, st, Wrap32(if up then v + 1 else v - 1))))
    case Call(f, args) =>
      (match EvalArgs(prog, env, args, st, fuel)
       case StuckArgs => Stuck
       case Values(vs, st') => if fuel == 0 then Stuck else Invoke(prog, env.ids[f].entry, vs, st', fuel - 1))
  }

  function EvalArgs(prog: Program, env: Env, args: seq<Expr>, st: St, fuel: nat): (r: Outs)
    requires GoodAll(env, args)
    ensures r.Values? ==> |r.vs| == |args|
    decreases fuel, args, 2
  {
    if args == [] then Values([], st)
    else match Eval(prog, env, args[0], st, fuel)
      case Value(Some(v), st') =>
        (match EvalArgs(prog, env, args[1..], st', fuel)
         case StuckArgs => StuckArgs
         case Values(vs, st'') => Values([v] + vs, st''))
      case _ => StuckArgs
  }

  // The parameters of a new frame; parameter k has Val k.
  function Params(vs: seq<int>): map<int, int> { map k | 0 <= k < |vs| :: vs[k] }

  /** A call: a frame with the arguments, the body, and the caller's locals back. */
  function Invoke(prog: Program, entry: int, vs: seq<int>, st: St, fuel: nat): Out
    decreases fuel
  {
    if entry !in prog || |vs| != prog[entry].params || !GoodStmts(prog[entry].env, prog[entry].body) then Stuck
    else match ExecAll(prog, prog[entry].env, prog[entry].body, St(Params(vs), st.globals), fuel)
      case Failed => Stuck
      case Normal(st') => Value(None, St(st.locals, st'.globals))
      case Returned(v, st') => Value(v, St(st.locals, st'.globals))
  }

  function Exec(prog: Program, env: Env, s: Stmt, st: St, fuel: nat): Ended
    requires GoodStmt(env, s)
    decreases fuel, s, 3
  {
    match s
    case When(c, body) =>
      (match Eval(prog, env, c, st, fuel)
       case Value(Some(x), st') => if x != 0 then Exec(prog, env, body, st', fuel) else Normal(st')
       case _ => Failed)
    case Choose(c, yes, no) =>
      (match Eval(prog, env, c, st, fuel)
       case Value(Some(x), st') => Exec(prog, env, if x != 0 then yes else no, st', fuel)
       case _ => Failed)
    case Loop(c, body) =>
      (match Eval(prog, env, c, st, fuel)
       case Value(Some(x), st') =>
         if x == 0 then Normal(st')
         else (match Exec(prog, env, body, st', fuel)
               case Failed => Failed
               case Returned(v, st'') => Returned(v, st'')
               case Normal(st'') => if fuel == 0 then Failed else Exec(prog, env, s, st'', fuel - 1))
       case _ => Failed)
    case Return(e) =>
      (match Eval(prog, env, e, st, fuel) case Stuck => Failed case Value(v, st') => Returned(v, st'))
    case ReturnNone => Returned(None, st)
    case Block(ss) => ExecAll(prog, env, ss, st, fuel)
    case Nop => Normal(st)
    case Do(e) =>
      (match Eval(prog, env, e, st, fuel) case Stuck => Failed case Value(_, st') => Normal(st'))
  }

  function ExecAll(prog: Program, env: Env, ss: seq<Stmt>, st: St, fuel: nat): Ended
    requires GoodStmts(env, ss)
    decreases fuel, ss, 4
  {
    if ss == [] then Normal(st)
    else match Exec(prog, env, ss[0], st, fuel)
      case Normal(st') => ExecAll(prog, env, ss[1..], st', fuel)
      case other => other
  }
}
