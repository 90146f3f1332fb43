/** The integer subset of the c4 language: tokens, expression and statement trees, how a tree is
    printed with only the parentheses and braces it needs, and the code c4 emits for it. */
module C4Syntax {
  import opened Layout

  // ---- tokens ---------------------------------------------------------------------------------

  // Operators in precedence order, as in the token enumeration.
  datatype Op =
    | Assign | Cond | Lor | Lan | Or | Xor | And | Eq | Ne | Lt | Gt | Le | Ge | Shl | Shr
    | Add | Sub | Mul | Div | Mod | Inc | Dec

  datatype Tok =
    | TNum(n: int) | TId(name: string) | TOp(op: Op)
    | TNot | TTilde | LPar | RPar | LBrace | RBrace | Semi | Comma | Colon
    | TInt | TIf | TElse | TWhile | TReturn

  function Rank(op: Op): (r: nat)
    ensures 1 <= r <= 22
  {
    match op
    case Assign => 1 case Cond => 2 case Lor => 3 case Lan => 4 case Or => 5 case Xor => 6
    case And => 7 case Eq => 8 case Ne => 9 case Lt => 10 case Gt => 11 case Le => 12 case Ge => 13
    case Shl => 14 case Shr => 15 case Add => 16 case Sub => 17 case Mul => 18 case Div => 19
    case Mod => 20 case Inc => 21 case Dec => 22
  }

  const ASSIGN: nat := 1
  const COND: nat := 2
  const LOR: nat := 3
  const LAN: nat := 4
  const OR: nat := 5
  const XOR: nat := 6
  const AND: nat := 7
  const EQ: nat := 8
  const LT: nat := 10
  const SHL: nat := 14
  const ADD: nat := 16
  const MUL: nat := 18
  const INC: nat := 21

  // The value of `tk` as far as `tk >= lev` can tell; all other tokens sort below the operators.
  function LevelOf(t: Tok): nat { if t.TOp? then Rank(t.op) else 0 }

  // The operators whose code is: left, PSH, right, operation.
  predicate Strict(op: Op) { op !in {Assign, Cond, Lor, Lan, Inc, Dec} }

  // The level at which the right operand of a strict operator is parsed.
  function RightLevel(op: Op): nat
    requires Strict(op)
  {
    match op
    case Or => XOR case Xor => AND case And => EQ
    case Eq => LT case Ne => LT
    case Lt => SHL case Gt => SHL case Le => SHL case Ge => SHL
    case Shl => ADD case Shr => ADD
    case Add => MUL case Sub => MUL
    case Mul => INC case Div => INC case Mod => INC
  }

  // The lowest level among the operators of the same precedence class.
  function ClassLevel(op: Op): nat
    requires Strict(op)
  {
    match op
    case Or => OR case Xor => XOR case And => AND
    case Eq => EQ case Ne => EQ
    case Lt => LT case Gt => LT case Le => LT case Ge => LT
    case Shl => SHL case Shr => SHL
    case Add => ADD case Sub => ADD
    case Mul => MUL case Div => MUL case Mod => MUL
  }

  // ---- trees ------------------------------------------------------------------------------------

  datatype Expr =
    | Num(n: int)
    | Var(name: string)
    | Neg(e: Expr) | Not(e: Expr) | BitNot(e: Expr) | Plus(e: Expr)
    | Bin(op: Op, l: Expr, r: Expr)
    | LogOr(l: Expr, r: Expr) | LogAnd(l: Expr, r: Expr)
    | If(c: Expr, t: Expr, f: Expr)
    | Set(name: string, e: Expr)
    | PreStep(name: string, up: bool)
    | PostStep(name: string, up: bool)
    | Call(name: string, args: seq<Expr>)

  datatype Stmt =
    | When(c: Expr, body: Stmt)
    | Choose(c: Expr, yes: Stmt, no: Stmt)
    | Loop(c: Expr, body: Stmt)
    | Return(e: Expr)
    | ReturnNone
    | Block(stmts: seq<Stmt>)
    | Nop
    | Do(e: Expr)

  // What an identifier names while a function body is compiled.
  datatype Ident = Local(val: int) | Global(addr: int) | Fun(entry: int)

  // `loc` is the offset base of the current function.
  datatype Env = Env(loc: int, ids: map<string, Ident>)

  predicate IsVar(env: Env, x: string) { x in env.ids && !env.ids[x].Fun? }
  predicate IsFun(env: Env, x: string) { x in env.ids && env.ids[x].Fun? }

  predicate Good(env: Env, e: Expr) {
    match e
    case Num(_) => true
    case Var(x) => IsVar(env, x)
    case Neg(a) => Good(env, a)
    case Not(a) => Good(env, a)
    case BitNot(a) => Good(env, a)
    case Plus(a) => Good(env, a)
    case Bin(op, l, r) => Strict(op) && Good(env, l) && Good(env, r)
    case LogOr(l, r) => Good(env, l) && Good(env, r)
    case LogAnd(l, r) => Good(env, l) && Good(env, r)
    case If(c, t, f) => Good(env, c) && Good(env, t) && Good(env, f)
    case Set(x, a) => IsVar(env, x) && Good(env, a)
    case PreStep(x, _) => IsVar(env, x)
    case PostStep(x, _) => IsVar(env, x)
    case Call(f, args) => IsFun(env, f) && GoodAll(env, args)
  }

  predicate GoodAll(env: Env, args: seq<Expr>) {
    args == [] || (Good(env, args[0]) && GoodAll(env, args[1..]))
  }

  predicate GoodStmt(env: Env, s: Stmt) {
    match s
    case When(c, body) => Good(env, c) && GoodStmt(env, body)
    case Choose(c, yes, no) => Good(env, c) && GoodStmt(env, yes) && GoodStmt(env, no)
    case Loop(c, body) => Good(env, c) && GoodStmt(env, body)
    case Return(e) => Good(env, e)
    case ReturnNone => true
    case Block(body) => GoodStmts(env, body)
    case Nop => true
    case Do(e) => Good(env, e)
  }

  predicate GoodStmts(env: Env, ss: seq<Stmt>) {
    ss == [] || (GoodStmt(env, ss[0]) && GoodStmts(env, ss[1..]))
  }

  // ---- printing ---------------------------------------------------------------------------------

  /** The precedence of the outermost operator of a tree. */
  function Level(e: Expr): (r: nat)
    ensures 1 <= r <= INC
  {
    match e
    case Set(_, _) => ASSIGN
    case If(_, _, _) => COND
    case LogOr(_, _) => LOR
    case LogAnd(_, _) => LAN
    case Bin(op, _, _) => if Strict(op) then ClassLevel(op) else INC
    case _ => INC
  }

  /** A tree in a place that accepts operators of level `lev` and up. */
  function Print(e: Expr, lev: nat): (r: seq<Tok>)
    ensures r != []
    decreases e, 1
  {
    if Level(e) >= lev then Bare(e) else [LPar] + Bare(e) + [RPar]
  }

  function Bare(e: Expr): (r: seq<Tok>)
    ensures r != []
    decreases e, 0
  {
    match e
    case Num(n) => [TNum(n)]
    case Var(x) => [TId(x)]
    case Neg(a) => [TOp(Sub)] + Print(a, INC)
    case Not(a) => [TNot] + Print(a, INC)
    case BitNot(a) => [TTilde] + Print(a, INC)
    case Plus(a) => [TOp(Add)] + Print(a, INC)
    case Bin(op, l, r) =>
      if Strict(op) then Print(l, ClassLevel(op)) + [TOp(op)] + Print(r, RightLevel(op)) else [Semi]
    case LogOr(l, r) => Print(l, LOR) + [TOp(Lor)] + Print(r, LAN)
    case LogAnd(l, r) => Print(l, LAN) + [TOp(Lan)] + Print(r, OR)
    case If(c, t, f) => Print(c, LOR) + [TOp(Cond)] + Print(t, ASSIGN) + [Colon] + Print(f, COND)
    case Set(x, a) => [TId(x), TOp(Assign)] + Print(a, ASSIGN)
    case PreStep(x, up) => [TOp(if up then Inc else Dec), TId(x)]
    case PostStep(x, up) => [TId(x), TOp(if up then Inc else Dec)]
    case Call(f, args) => [TId(f), LPar] + PrintArgs(args)
  }

  // The arguments and the closing parenthesis.
  function PrintArgs(args: seq<Expr>): seq<Tok>
    decreases args, 2
  {
    if args == [] then [RPar]
    else Print(args[0], ASSIGN) + (if |args| == 1 then [] else [Comma]) + PrintArgs(args[1..])
  }

  // A statement that a following `else` would attach to.
  predicate EndsOpen(s: Stmt) {
    match s
    case When(_, _) => true
    case Choose(_, _, no) => EndsOpen(no)
    case Loop(_, body) => EndsOpen(body)
    case _ => false
  }

  // The first branch of a choice, with braces when the `else` would attach inside it.
  function PrintBranch(s: Stmt): seq<Tok>
    decreases s, 1
  {
    if EndsOpen(s) then [LBrace] + PrintStmt(s) + [RBrace] else PrintStmt(s)
  }

  function PrintStmt(s: Stmt): (r: seq<Tok>)
    ensures r != []
    decreases s, 0
  {
    match s
    case When(c, body) => [TIf, LPar] + Print(c, ASSIGN) + [RPar] + PrintStmt(body)
    case Choose(c, yes, no) =>
      [TIf, LPar] + Print(c, ASSIGN) + [RPar] + PrintBranch(yes) + [TElse] + PrintStmt(no)
    case Loop(c, body) => [TWhile, LPar] + Print(c, ASSIGN) + [RPar] + PrintStmt(body)
    case Return(e) => [TReturn] + Print(e, ASSIGN) + [Semi]
    case ReturnNone => [TReturn, Semi]
    case Block(body) => [LBrace] + PrintStmts(body) + [RBrace]
    case Nop => [Semi]
    case Do(e) => Print(e, ASSIGN) + [Semi]
  }

  function PrintStmts(ss: seq<Stmt>): seq<Tok>
    decreases ss, 2
  {
    if ss == [] then [] else PrintStmt(ss[0]) + PrintStmts(ss[1..])
  }

  // ---- code -------------------------------------------------------------------------------------

  // Opcodes, by their number.
  const iLEA := 0
  const iIMM := 1
  const iJMP := 2
  const iJSR := 3
  const iBZ := 4
  const iBNZ := 5
  const iENT := 6
  const iADJ := 7
  const iLEV := 8
  const iLI := 9
  const iSI := 11
  const iPSH := 13

  // OR, XOR, ..., MOD follow PSH in the order of the operator tokens.
  function OpCode(op: Op): int
    requires Strict(op)
  {
    match op
    case Or => 14 case Xor => 15 case And => 16 case Eq => 17 case Ne => 18 case Lt => 19 case Gt => 20
    case Le => 21 case Ge => 22 case Shl => 23 case Shr => 24 case Add => 25 case Sub => 26
    case Mul => 27 case Div => 28 case Mod => 29
  }

  const iXOR := 15
  const iEQ := 17
  const iADD := 25
  const iSUB := 26
  const iMUL := 27

  // 32-bit signed wrap-around.
  function Wrap32(x: int): (r: int)
    ensures -0x8000_0000 <= r < 0x8000_0000
  {
    var u := x % 0x1_0000_0000;
    if u < 0x8000_0000 then u else u - 0x1_0000_0000
  }

  // The instruction that puts the address of a variable in `a`.
  function AddrCode(env: Env, x: string): (r: seq<int>)
    requires IsVar(env, x)
    ensures |r| == 2
  {
    match env.ids[x]
    case Local(val) => [iLEA, env.loc - val]
    case Global(addr) => [iIMM, addr]
  }

  // The increment or decrement of the variable whose address is in `a`.
  function StepCode(up: bool): (r: seq<int>)
    ensures |r| == 7
  {
    [iPSH, iLI, iPSH, iIMM, 1, if up then iADD else iSUB, iSI]
  }

  function Size(e: Expr): nat {
    match e
    case Num(_) => 2
    case Var(_) => 3
    case Neg(a) => if a.Num? then 2 else 4 + Size(a)
    case Not(a) => Size(a) + 4
    case BitNot(a) => Size(a) + 4
    case Plus(a) => Size(a)
    case Bin(_, l, r) => Size(l) + 1 + Size(r) + 1
    case LogOr(l, r) => Size(l) + 2 + Size(r)
    case LogAnd(l, r) => Size(l) + 2 + Size(r)
    case If(c, t, f) => Size(c) + 2 + Size(t) + 2 + Size(f)
    case Set(_, a) => 3 + Size(a) + 1
    case PreStep(_, _) => 9
    case PostStep(_, _) => 13
    case Call(_, args) => SizeArgs(args) + 2 + (if args == [] then 0 else 2)
  }

  function SizeArgs(args: seq<Expr>): nat {
    if args == [] then 0 else Size(args[0]) + 1 + SizeArgs(args[1..])
  }

  // A test, a jump over the rest, and the rest.
  function SkipCode(at: nat, test: seq<int>, jump: int, rest: seq<int>): seq<int> {
    test + [jump, at + |test| + 2 + |rest|] + rest
  }

  // A test and two branches.
  function ChooseCode(at: nat, test: seq<int>, yes: seq<int>, no: seq<int>): seq<int> {
    var mid := at + |test| + 2 + |yes| + 2;
    test + [iBZ, mid] + yes + [iJMP, mid + |no|] + no
  }

  // A test, a body and the jump back.
  function LoopCode(at: nat, test: seq<int>, body: seq<int>): seq<int> {
    test + [iBZ, at + |test| + 2 + |body| + 2] + body + [iJMP, at]
  }

  /** The code of an expression that starts at word `at` of the text. */
  function Gen(env: Env, e: Expr, at: nat): (r: seq<int>)
    requires Good(env, e)
    ensures |r| == Size(e)
  {
    match e
    case Num(n) => [iIMM, n]
    case Var(x) => AddrCode(env, x) + [iLI]
    case Neg(a) =>
      if a.Num? then [iIMM, Wrap32(-a.n)] else [iIMM, -1, iPSH] + Gen(env, a, at + 3) + [iMUL]
    case Not(a) => Gen(env, a, at) + [iPSH, iIMM, 0, iEQ]
    case BitNot(a) => Gen(env, a, at) + [iPSH, iIMM, -1, iXOR]
    case Plus(a) => Gen(env, a, at)
    case Bin(op, l, r) => Gen(env, l, at) + [iPSH] + Gen(env, r, at + Size(l) + 1) + [OpCode(op)]
    case LogOr(l, r) => SkipCode(at, Gen(env, l, at), iBNZ, Gen(env, r, at + Size(l) + 2))
    case LogAnd(l, r) => SkipCode(at, Gen(env, l, at), iBZ, Gen(env, r, at + Size(l) + 2))
    case If(c, t, f) =>
      ChooseCode(at, Gen(env, c, at), Gen(env, t, at + Size(c) + 2), Gen(env, f, at + Size(c) + 2 + Size(t) + 2))
    case Set(x, a) => AddrCode(env, x) + [iPSH] + Gen(env, a, at + 3) + [iSI]
    case PreStep(x, up) => AddrCode(env, x) + StepCode(up)
    case PostStep(x, up) => AddrCode(env, x) + StepCode(up) + [iPSH, iIMM, 1, if up then iSUB else iADD]
    case Call(f, args) =>
      GenArgs(env, args, at) + [iJSR, env.ids[f].entry] + (if args == [] then [] else [iADJ, |args|])
  }

  function GenArgs(env: Env, args: seq<Expr>, at: nat): (r: seq<int>)
    requires GoodAll(env, args)
    ensures |r| == SizeArgs(args)
  {
    if args == [] then []
    else Gen(env, args[0], at) + [iPSH] + GenArgs(env, args[1..], at + Size(args[0]) + 1)
  }

  function SizeStmt(s: Stmt): nat {
    match s
    case When(c, body) => Size(c) + 2 + SizeStmt(body)
    case Choose(c, yes, no) => Size(c) + 2 + SizeStmt(yes) + 2 + SizeStmt(no)
    case Loop(c, body) => Size(c) + 2 + SizeStmt(body) + 2
    case Return(e) => Size(e) + 1
    case ReturnNone => 1
    case Block(body) => SizeStmts(body)
    case Nop => 0
    case Do(e) => Size(e)
  }

  function SizeStmts(ss: seq<Stmt>): nat {
    if ss == [] then 0 else SizeStmt(ss[0]) + SizeStmts(ss[1..])
  }

  /** The code of a statement that starts at word `at` of the text. */
  function GenStmt(env: Env, s: Stmt, at: nat): (r: seq<int>)
    requires GoodStmt(env, s)
    ensures |r| == SizeStmt(s)
  {
    match s
    case When(c, body) => SkipCode(at, Gen(env, c, at), iBZ, GenStmt(env, body, at + Size(c) + 2))
    case Choose(c, yes, no) =>
      ChooseCode(at, Gen(env, c, at), GenStmt(env, yes, at + Size(c) + 2),
        GenStmt(env, no, at + Size(c) + 2 + SizeStmt(yes) + 2))
    case Loop(c, body) => LoopCode(at, Gen(env, c, at), GenStmt(env, body, at + Size(c) + 2))
    case Return(e) => Gen(env, e, at) + [iLEV]
    case ReturnNone => [iLEV]
    case Block(body) => GenStmts(env, body, at)
    case Nop => []
    case Do(e) => Gen(env, e, at)
  }

  function GenStmts(env: Env, ss: seq<Stmt>, at: nat): (r: seq<int>)
    requires GoodStmts(env, ss)
    ensures |r| == SizeStmts(ss)
  {
    if ss == [] then [] else GenStmt(env, ss[0], at) + GenStmts(env, ss[1..], at + SizeStmt(ss[0]))
  }
}
