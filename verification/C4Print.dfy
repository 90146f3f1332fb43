/** Compiling a printed tree: `expr` and `stmt` read back exactly the tokens of the tree, whatever
    follows, and append exactly the code of the tree. */
module C4Print {
  import opened Layout
  import opened C4Syntax
  import opened C4Parser

  // What may follow an operand whose last part was parsed at level `lev`.
  predicate Stops(rest: seq<Tok>, lev: nat) {
    rest == [] || (rest[0] != LPar && LevelOf(rest[0]) < lev)
  }

  // The level at which the last part of a tree is parsed; 23 when it ends by itself.
  function Tail(e: Expr): nat {
    match e
    case Neg(_) => INC
    case Not(_) => INC
    case BitNot(_) => INC
    case Plus(_) => INC
    case PreStep(_, _) => INC
    case Bin(op, _, _) => if Strict(op) then RightLevel(op) else 23
    case LogOr(_, _) => LAN
    case LogAnd(_, _) => OR
    case If(_, _, _) => COND
    case Set(_, _) => ASSIGN
    case _ => 23
  }

  // Parsing an operand hands the tokens after it to the operator loop.
  ghost predicate Reads(env: Env, e: Expr, toks: seq<Tok>, lev: nat, rest: seq<Tok>, code: seq<int>)
    requires Good(env, e)
  {
    var c := code + Gen(env, e, |code|);
    c != [] && ParseExpr(env, toks + rest, lev, code) == ParseOperators(env, rest, lev, c)
  }

  // ---- one step of the parser ---------------------------------------------------------------

  // The tokens of a primary are consumed and its code is emitted.
  lemma PrimaryReads(env: Env, e: Expr, toks: seq<Tok>, lev: nat, rest: seq<Tok>, code: seq<int>)
    requires Good(env, e) && ParsePrimary(env, toks + rest, code) == Done(rest, code + Gen(env, e, |code|))
    ensures Reads(env, e, toks, lev, rest, code)
  { }

  lemma OperatorsStop(env: Env, rest: seq<Tok>, lev: nat, code: seq<int>)
    requires code != [] && (rest == [] || LevelOf(rest[0]) < lev)
    ensures ParseOperators(env, rest, lev, code) == Done(rest, code)
  { }

  // One operator whose right part is known.
  lemma OperatorStep(env: Env, op: Op, toks: seq<Tok>, lev: nat, code: seq<int>, rest: seq<Tok>, c: seq<int>)
    requires code != [] && lev <= Rank(op) && ParseRight(env, op, toks, code) == Done(rest, c) && c != []
    ensures ParseOperators(env, [TOp(op)] + toks, lev, code) == ParseOperators(env, rest, lev, c)
  {
    assert ([TOp(op)] + toks)[1..] == toks;
  }

  lemma LogicRight(env: Env, or: bool, toks: seq<Tok>, code: seq<int>, rest: seq<Tok>, l: seq<int>, r: seq<int>)
    requires code + l != []
    requires var c := code + l + [if or then iBNZ else iBZ, 0];
             ParseExpr(env, toks, if or then LAN else OR, c) == Done(rest, c + r)
    ensures ParseRight(env, if or then Lor else Lan, toks, code + l) ==
            Done(rest, code + SkipCode(|code|, l, if or then iBNZ else iBZ, r))
  {
    hide ParseExpr;
    var jump := if or then iBNZ else iBZ;
    Patch(code + l, jump, r, |code| + |l| + 2 + |r|);
    Flat(code, l, [jump, |code| + |l| + 2 + |r|], r, [], []);
  }

  lemma CondRight(env: Env, toks: seq<Tok>, code: seq<int>, mid: seq<Tok>, g: seq<int>, yes: seq<int>,
      rest: seq<Tok>, no: seq<int>)
    requires code + g != []
    requires ParseExpr(env, toks, ASSIGN, code + g + [iBZ, 0]) == Done([Colon] + mid, code + g + [iBZ, 0] + yes)
    requires var c := code + g + [iBZ, |code| + |g| + 2 + |yes| + 2] + yes + [iJMP, 0];
             ParseExpr(env, mid, COND, c) == Done(rest, c + no)
    ensures ParseRight(env, Cond, toks, code + g) == Done(rest, code + ChooseCode(|code|, g, yes, no))
  {
    hide ParseExpr;
    var at := |code| + |g| + 2 + |yes| + 2;
    assert ([Colon] + mid)[1..] == mid;
    Patch(code + g, iBZ, yes, at);
    Patch(code + g + [iBZ, at] + yes, iJMP, no, at + |no|);
    Flat(code, g, [iBZ, at], yes, [iJMP, at + |no|], no);
  }

  // ---- trees --------------------------------------------------------------------------------

  lemma {:induction false} OperandReads(env: Env, e: Expr, plev: nat, lev: nat, rest: seq<Tok>, code: seq<int>)
    requires Good(env, e) && 1 <= lev <= plev
    requires Stops(rest, if Level(e) >= plev then Tail(e) else 23)
    ensures Reads(env, e, Print(e, plev), lev, rest, code)
    decreases e, 2
  {
    if Level(e) >= plev {
      BareReads(env, e, lev, rest, code);
    } else {
      var inner := [RPar] + rest;
      BareReads(env, e, ASSIGN, inner, code);
      ParenReads(env, e, lev, rest, code);
    }
  }

  lemma ParenReads(env: Env, e: Expr, lev: nat, rest: seq<Tok>, code: seq<int>)
    requires Good(env, e) && Reads(env, e, Bare(e), ASSIGN, [RPar] + rest, code)
    ensures Reads(env, e, [LPar] + Bare(e) + [RPar], lev, rest, code)
  {
    hide Gen, Bare, ParseExpr, ParseOperators;
    var toks := [LPar] + Bare(e) + [RPar];
    assert (toks + rest)[1..] == Bare(e) + ([RPar] + rest);
    assert ([RPar] + rest)[1..] == rest;
    OperatorsStop(env, [RPar] + rest, ASSIGN, code + Gen(env, e, |code|));
    PrimaryReads(env, e, toks, lev, rest, code);
  }

  /** A printed tree compiles to its code and leaves the tokens after it. */
  lemma {:induction false} PrintReads(env: Env, e: Expr, lev: nat, rest: seq<Tok>, code: seq<int>)
    requires Good(env, e) && 1 <= lev <= INC && Stops(rest, lev)
    ensures ParseExpr(env, Print(e, lev) + rest, lev, code) == Done(rest, code + Gen(env, e, |code|))
    decreases e, 3
  {
    hide Gen, Bare, Print, ParseExpr, ParseOperators;
    if lev <= Level(e) { TailAbove(e, lev); }
    OperandReads(env, e, lev, lev, rest, code);
    OperatorsStop(env, rest, lev, code + Gen(env, e, |code|));
  }

  // A token too weak for the whole tree is too weak for its last part.
  lemma TailAbove(e: Expr, lev: nat)
    requires lev <= Level(e)
    ensures lev <= Tail(e)
  { }

  lemma {:induction false} BareReads(env: Env, e: Expr, lev: nat, rest: seq<Tok>, code: seq<int>)
    requires Good(env, e) && 1 <= lev <= Level(e) && Stops(rest, Tail(e))
    ensures Reads(env, e, Bare(e), lev, rest, code)
    decreases e, 1
  {
    hide Gen, Bare, Reads;
    match e {
      case Num(n) => NumReads(env, n, lev, rest, code);
      case Var(x) => VarReads(env, x, lev, rest, code);
      case Neg(a) => NegReads(env, a, lev, rest, code);
      case Not(a) => PrefixReads(env, e, a, lev, rest, code);
      case BitNot(a) => PrefixReads(env, e, a, lev, rest, code);
      case Plus(a) => PrefixReads(env, e, a, lev, rest, code);
      case Bin(op, l, r) => BinReads(env, op, l, r, lev, rest, code);
      case LogOr(l, r) => LogicReads(env, true, l, r, lev, rest, code);
      case LogAnd(l, r) => LogicReads(env, false, l, r, lev, rest, code);
      case If(c, t, f) => IfReads(env, c, t, f, lev, rest, code);
      case Set(x, a) => SetReads(env, x, a, lev, rest, code);
      case PreStep(x, up) => PreReads(env, x, up, lev, rest, code);
      case PostStep(x, up) => PostReads(env, x, up, lev, rest, code);
      case Call(f, args) => CallReads(env, f, args, lev, rest, code);
    }
  }

  lemma NumReads(env: Env, n: int, lev: nat, rest: seq<Tok>, code: seq<int>)
    ensures Reads(env, Num(n), Bare(Num(n)), lev, rest, code)
  {
    assert (Bare(Num(n)) + rest)[1..] == rest;
    PrimaryReads(env, Num(n), Bare(Num(n)), lev, rest, code);
  }

  lemma VarReads(env: Env, x: string, lev: nat, rest: seq<Tok>, code: seq<int>)
    requires IsVar(env, x) && (rest == [] || rest[0] != LPar)
    ensures Reads(env, Var(x), Bare(Var(x)), lev, rest, code)
  {
    assert (Bare(Var(x)) + rest)[1..] == rest;
    PrimaryReads(env, Var(x), Bare(Var(x)), lev, rest, code);
  }

  lemma {:induction false} NegReads(env: Env, a: Expr, lev: nat, rest: seq<Tok>, code: seq<int>)
    requires Good(env, a) && 1 <= lev <= INC && Stops(rest, INC)
    ensures Reads(env, Neg(a), Bare(Neg(a)), lev, rest, code)
    decreases Neg(a), 0
  {
    var toks := [TOp(Sub)] + Print(a, INC);
    if a.Num? {
      assert Print(a, INC) == [TNum(a.n)];
      assert (toks + rest)[2..] == rest;
    } else {
      hide Gen, Bare, ParseExpr, ParseOperators, Print;
      NoLiteral(a);
      var c := code + [iIMM, -1, iPSH];
      PrintReads(env, a, INC, rest, c);
      assert (toks + rest)[1..] == Print(a, INC) + rest;
      GenNeg(env, a, |code|);
      Flat(code, [iIMM, -1, iPSH], Gen(env, a, |c|), [iMUL], [], []);
    }
    BareNeg(a);
    PrimaryReads(env, Neg(a), toks, lev, rest, code);
  }

  lemma BareNeg(a: Expr)
    ensures Bare(Neg(a)) == [TOp(Sub)] + Print(a, INC)
  { }

  lemma GenNeg(env: Env, a: Expr, at: nat)
    requires Good(env, a) && !a.Num?
    ensures Gen(env, Neg(a), at) == [iIMM, -1, iPSH] + Gen(env, a, at + 3) + [iMUL]
  { }

  // Only a literal prints as a literal at the level of a prefix operand.
  lemma NoLiteral(a: Expr)
    requires !a.Num?
    ensures !Print(a, INC)[0].TNum?
  { }

  // !, ~ and unary +
  lemma {:induction false} PrefixReads(env: Env, e: Expr, a: Expr, lev: nat, rest: seq<Tok>, code: seq<int>)
    requires e in {Not(a), BitNot(a), Plus(a)} && Good(env, a) && 1 <= lev <= INC && Stops(rest, INC)
    ensures Good(env, e) && Reads(env, e, Bare(e), lev, rest, code)
    decreases e, 0
  {
    hide Gen, Bare, ParseExpr, ParseOperators, Print;
    var tok := if e.Not? then TNot else if e.BitNot? then TTilde else TOp(Add);
    PrintReads(env, a, INC, rest, code);
    assert ([tok] + Print(a, INC) + rest)[1..] == Print(a, INC) + rest;
    BarePrefix(env, e, a, tok, |code|);
    Flat(code, Gen(env, a, |code|), if e.Not? then [iPSH, iIMM, 0, iEQ] else if e.BitNot? then [iPSH, iIMM, -1, iXOR]
      else [], [], [], []);
    PrimaryReads(env, e, [tok] + Print(a, INC), lev, rest, code);
  }

  lemma BarePrefix(env: Env, e: Expr, a: Expr, tok: Tok, at: nat)
    requires e in {Not(a), BitNot(a), Plus(a)}
        && tok == (if e.Not? then TNot else if e.BitNot? then TTilde else TOp(Add))
    requires Good(env, a)
    ensures Good(env, e) && Bare(e) == [tok] + Print(a, INC)
    ensures Gen(env, e, at) ==
            Gen(env, a, at) + (if e.Not? then [iPSH, iIMM, 0, iEQ] else if e.BitNot? then [iPSH, iIMM, -1, iXOR]
              else [])
  { }

  lemma {:induction false} BinReads(env: Env, op: Op, l: Expr, r: Expr, lev: nat, rest: seq<Tok>, code: seq<int>)
    requires Strict(op) && Good(env, l) && Good(env, r) && 1 <= lev <= ClassLevel(op) && Stops(rest, RightLevel(op))
    ensures Reads(env, Bin(op, l, r), Bare(Bin(op, l, r)), lev, rest, code)
    decreases Bin(op, l, r), 0
  {
    hide Gen, Bare, ParseExpr, ParseOperators, Print;
    var after := Print(r, RightLevel(op)) + rest;
    LevelsRise(op, l);
    OperandReads(env, l, ClassLevel(op), lev, [TOp(op)] + after, code);
    var c := code + Gen(env, l, |code|);
    PrintReads(env, r, RightLevel(op), rest, c + [iPSH]);
    OperatorStep(env, op, after, lev, c, rest, c + [iPSH] + Gen(env, r, |c| + 1) + [OpCode(op)]);
    BareBin(env, op, l, r, |code|);
    Flat(code, Gen(env, l, |code|), [iPSH], Gen(env, r, |c| + 1), [OpCode(op)], []);
    Right3(Print(l, ClassLevel(op)), [TOp(op)], Print(r, RightLevel(op)), rest);
  }

  lemma BareBin(env: Env, op: Op, l: Expr, r: Expr, at: nat)
    requires Strict(op) && Good(env, l) && Good(env, r)
    ensures Bare(Bin(op, l, r)) == Print(l, ClassLevel(op)) + [TOp(op)] + Print(r, RightLevel(op))
    ensures Gen(env, Bin(op, l, r), at) == Gen(env, l, at) + [iPSH] + Gen(env, r, at + Size(l) + 1) + [OpCode(op)]
  { }

  lemma Right3<T>(a: seq<T>, b: seq<T>, c: seq<T>, d: seq<T>)
    ensures a + b + c + d == a + (b + (c + d))
  { }

  lemma Flat<T>(z: seq<T>, a: seq<T>, b: seq<T>, c: seq<T>, d: seq<T>, e: seq<T>)
    ensures z + (a + b) == z + a + b
    ensures z + (a + b + c) == z + a + b + c
    ensures z + (a + b + c + d) == z + a + b + c + d
    ensures z + (a + b + c + d + e) == z + a + b + c + d + e
  { }

  // The operator after a left operand never belongs to the operand's last part.
  lemma LevelsRise(op: Op, l: Expr)
    requires Strict(op)
    ensures ClassLevel(op) <= Rank(op) < RightLevel(op) <= INC
    ensures Level(l) >= ClassLevel(op) ==> Rank(op) < Tail(l)
  { }

  lemma {:induction false} LogicReads(env: Env, or: bool, l: Expr, r: Expr, lev: nat, rest: seq<Tok>, code: seq<int>)
    requires Good(env, l) && Good(env, r) && 1 <= lev <= (if or then LOR else LAN)
        && Stops(rest, if or then LAN else OR)
    ensures var e := if or then LogOr(l, r) else LogAnd(l, r); Reads(env, e, Bare(e), lev, rest, code)
    decreases (if or then LogOr(l, r) else LogAnd(l, r)), 0
  {
    hide Gen, Bare, ParseExpr, ParseOperators, ParseRight, Print;
    var (left, right, op, jump) := if or then (LOR, LAN, Lor, iBNZ) else (LAN, OR, Lan, iBZ);
    var after := Print(r, right) + rest;
    LogicRises(l);
    OperandReads(env, l, left, lev, [TOp(op)] + after, code);
    var c := code + Gen(env, l, |code|);
    PrintReads(env, r, right, rest, c + [jump, 0]);
    LogicRight(env, or, after, code, rest, Gen(env, l, |code|), Gen(env, r, |c| + 2));
    OperatorStep(env, op, after, lev, c, rest,
      code + SkipCode(|code|, Gen(env, l, |code|), jump, Gen(env, r, |c| + 2)));
    BareLogic(env, or, l, r, |code|);
    Right3(Print(l, left), [TOp(op)], Print(r, right), rest);
  }

  lemma Patch(a: seq<int>, jump: int, b: seq<int>, target: int)
    ensures (a + [jump, 0] + b)[|a| + 1 := target] == a + [jump, target] + b
  { }

  lemma BareLogic(env: Env, or: bool, l: Expr, r: Expr, at: nat)
    requires Good(env, l) && Good(env, r)
    ensures var e := if or then LogOr(l, r) else LogAnd(l, r);
            && Bare(e) == Print(l, if or then LOR
                else LAN) + [TOp(if or then Lor else Lan)] + Print(r, if or then LAN else OR)
            && Gen(env, e, at) == SkipCode(at, Gen(env, l, at), if or then iBNZ else iBZ, Gen(env, r, at + Size(l) + 2))
  { }

  lemma LogicRises(l: Expr)
    ensures Level(l) >= LOR ==> LOR < Tail(l)
    ensures Level(l) >= LAN ==> LAN < Tail(l)
  { }

  lemma {:induction false} IfReads(env: Env, c: Expr, t: Expr, f: Expr, lev: nat, rest: seq<Tok>, code: seq<int>)
    requires Good(env, c) && Good(env, t) && Good(env, f) && 1 <= lev <= COND && Stops(rest, COND)
    ensures Reads(env, If(c, t, f), Bare(If(c, t, f)), lev, rest, code)
    decreases If(c, t, f), 0
  {
    hide Gen, Bare, ParseExpr, ParseOperators, ParseRight, Print, Size, ChooseCode, Stops, Level, Tail, Rank,
      LevelOf, Good;
    var mid := Print(f, COND) + rest;
    var after := Print(t, ASSIGN) + ([Colon] + mid);
    CondStops(c, after, mid);
    OperandReads(env, c, LOR, lev, [TOp(Cond)] + after, code);
    var g := Gen(env, c, |code|);
    var yes := Gen(env, t, |code| + |g| + 2);
    PrintReads(env, t, ASSIGN, [Colon] + mid, code + g + [iBZ, 0]);
    var no := Gen(env, f, |code| + |g| + 2 + |yes| + 2);
    PrintReads(env, f, COND, rest, code + g + [iBZ, |code| + |g| + 2 + |yes| + 2] + yes + [iJMP, 0]);
    CondRight(env, after, code, mid, g, yes, rest, no);
    IfJoin(env, c, t, f, lev, rest, code);
  }

  lemma CondStops(c: Expr, after: seq<Tok>, mid: seq<Tok>)
    ensures Stops([TOp(Cond)] + after, if Level(c) >= LOR then Tail(c) else 23) && Stops([Colon] + mid, ASSIGN)
  { }

  lemma IfJoin(env: Env, c: Expr, t: Expr, f: Expr, lev: nat, rest: seq<Tok>, code: seq<int>)
    requires Good(env, c) && Good(env, t) && Good(env, f) && 1 <= lev <= COND
    requires var after := Print(t, ASSIGN) + ([Colon] + (Print(f, COND) + rest));
             var g := Gen(env, c, |code|);
             && Reads(env, c, Print(c, LOR), lev, [TOp(Cond)] + after, code)
             && ParseRight(env, Cond, after, code + g) ==
                Done(rest, code + ChooseCode(|code|, g, Gen(env, t, |code| + |g| + 2),
                  Gen(env, f, |code| + |g| + 2 + Size(t) + 2)))
    ensures Reads(env, If(c, t, f), Bare(If(c, t, f)), lev, rest, code)
  {
    hide Gen, Bare, ParseExpr, ParseOperators, ParseRight, Print, Size;
    var mid := Print(f, COND) + rest;
    var after := Print(t, ASSIGN) + ([Colon] + mid);
    BareIf(env, c, t, f, |code|);
    var done := code + Gen(env, If(c, t, f), |code|);
    OperatorStep(env, Cond, after, lev, code + Gen(env, c, |code|), rest, done);
    Right3(Print(c, LOR), [TOp(Cond)], Print(t, ASSIGN), [Colon] + mid);
    Right3(Print(c, LOR) + [TOp(Cond)] + Print(t, ASSIGN), [Colon], Print(f, COND), rest);
  }

  lemma BareIf(env: Env, c: Expr, t: Expr, f: Expr, at: nat)
    requires Good(env, c) && Good(env, t) && Good(env, f)
    ensures Bare(If(c, t, f)) == Print(c, LOR) + [TOp(Cond)] + Print(t, ASSIGN) + [Colon] + Print(f, COND)
    ensures var no := at + Size(c) + 2 + Size(t) + 2;
            Gen(env, If(c, t, f), at) == ChooseCode(at, Gen(env, c, at), Gen(env, t, at + Size(c) + 2), Gen(env, f, no))
  { }

  lemma {:induction false} SetReads(env: Env, x: string, a: Expr, lev: nat, rest: seq<Tok>, code: seq<int>)
    requires IsVar(env, x) && Good(env, a) && lev == ASSIGN && Stops(rest, ASSIGN)
    ensures Reads(env, Set(x, a), Bare(Set(x, a)), lev, rest, code)
    decreases Set(x, a), 0
  {
    hide Gen, Bare, Print, ParseExpr, ParseOperators;
    var after := Print(a, ASSIGN) + rest;
    var c, c' := code + (AddrCode(env, x) + [iLI]), code + AddrCode(env, x) + [iPSH];
    PrintReads(env, a, ASSIGN, rest, c');
    IdentPrimary(env, x, [TOp(Assign)] + after, code, lev);
    assert ReplaceLoad(c, [iPSH]) == c';
    OperatorStep(env, Assign, after, lev, c, rest, c' + Gen(env, a, |c'|) + [iSI]);
    BareSet(env, x, a, |code|);
    Flat(code, AddrCode(env, x), [iPSH], Gen(env, a, |code| + 3), [iSI], []);
    assert [TId(x)] + ([TOp(Assign)] + after) == [TId(x), TOp(Assign)] + Print(a, ASSIGN) + rest;
  }

  lemma BareSet(env: Env, x: string, a: Expr, at: nat)
    requires IsVar(env, x) && Good(env, a)
    ensures Bare(Set(x, a)) == [TId(x), TOp(Assign)] + Print(a, ASSIGN)
    ensures Gen(env, Set(x, a), at) == AddrCode(env, x) + [iPSH] + Gen(env, a, at + 3) + [iSI]
  { }

  // A variable is compiled to a load before any operator is looked at.
  lemma IdentPrimary(env: Env, x: string, rest: seq<Tok>, code: seq<int>, lev: nat)
    requires IsVar(env, x) && (rest == [] || rest[0] != LPar)
    ensures ParseExpr(env, [TId(x)] + rest, lev, code) ==
        ParseOperators(env, rest, lev, code + (AddrCode(env, x) + [iLI]))
  {
    assert ([TId(x)] + rest)[1..] == rest;
  }

  lemma PreReads(env: Env, x: string, up: bool, lev: nat, rest: seq<Tok>, code: seq<int>)
    requires IsVar(env, x) && 1 <= lev <= INC && Stops(rest, INC)
    ensures Reads(env, PreStep(x, up), Bare(PreStep(x, up)), lev, rest, code)
  {
    var toks := [TOp(if up then Inc else Dec), TId(x)];
    var c := code + (AddrCode(env, x) + [iLI]);
    IdentPrimary(env, x, rest, code, INC);
    OperatorsStop(env, rest, INC, c);
    assert (toks + rest)[1..] == [TId(x)] + rest;
    assert ReplaceLoad(c, StepCode(up)) == code + (AddrCode(env, x) + StepCode(up));
    hide ParseExpr, ParseOperators;
    PrimaryReads(env, PreStep(x, up), toks, lev, rest, code);
  }

  lemma PostReads(env: Env, x: string, up: bool, lev: nat, rest: seq<Tok>, code: seq<int>)
    requires IsVar(env, x) && 1 <= lev <= INC && Stops(rest, 23)
    ensures Reads(env, PostStep(x, up), Bare(PostStep(x, up)), lev, rest, code)
  {
    hide ParseExpr, ParseOperators;
    var op := if up then Inc else Dec;
    var c := code + (AddrCode(env, x) + [iLI]);
    IdentPrimary(env, x, [TOp(op)] + rest, code, lev);
    var done := code + (AddrCode(env, x) + StepCode(up) + [iPSH, iIMM, 1, if up then iSUB else iADD]);
    assert ReplaceLoad(c, StepCode(up) + [iPSH, iIMM, 1, if up then iSUB else iADD]) == done;
    OperatorStep(env, op, rest, lev, c, rest, done);
    assert [TId(x)] + ([TOp(op)] + rest) == [TId(x), TOp(op)] + rest;
  }

  lemma {:induction false} CallReads(env: Env, f: string, args: seq<Expr>, lev: nat, rest: seq<Tok>, code: seq<int>)
    requires IsFun(env, f) && GoodAll(env, args) && 1 <= lev <= INC
    ensures Reads(env, Call(f, args), Bare(Call(f, args)), lev, rest, code)
    decreases Call(f, args), 0
  {
    ArgsRead(env, args, rest, code, 0);
    hide Gen, GenArgs, Bare, PrintArgs, ParseArgs, ParseExpr;
    var toks := [TId(f), LPar] + PrintArgs(args);
    assert (toks + rest)[2..] == PrintArgs(args) + rest;
    BareCall(env, f, args, |code|);
    Flat(code, GenArgs(env, args, |code|), [iJSR, env.ids[f].entry], if args == [] then [] else [iADJ, |args|], [], []);
    PrimaryReads(env, Call(f, args), toks, lev, rest, code);
  }

  lemma BareCall(env: Env, f: string, args: seq<Expr>, at: nat)
    requires IsFun(env, f) && GoodAll(env, args)
    ensures Bare(Call(f, args)) == [TId(f), LPar] + PrintArgs(args)
    ensures Gen(env, Call(f, args), at) ==
            GenArgs(env, args, at) + [iJSR, env.ids[f].entry] + (if args == [] then [] else [iADJ, |args|])
  { }

  lemma {:induction false} ArgsRead(env: Env, args: seq<Expr>, rest: seq<Tok>, code: seq<int>, t: nat)
    requires GoodAll(env, args)
    ensures ParseArgs(env, PrintArgs(args) + rest, code, t) ==
            SomeArgs(rest, code + GenArgs(env, args, |code|), t + |args|)
    decreases args, 4
  {
    hide Gen, GenArgs, PrintArgs, Print, ParseExpr, ParseArgs, Size, GoodAll;
    if args == [] {
      ArgsNone(env, rest, code, t);
    } else {
      ArgsShape(env, args, |code|);
      var g, pa := Gen(env, args[0], |code|), PrintArgs(args[1..]);
      ArgsHead(env, args, pa + rest, code);
      ArgsRead(env, args[1..], rest, code + g + [iPSH], t + 1);
      ArgsStep(env, Print(args[0], ASSIGN), CommaAfter(args), pa, rest, code, g,
               GenArgs(env, args[1..], |code| + Size(args[0]) + 1), |args[1..]|, t);
    }
  }

  lemma ArgsNone(env: Env, rest: seq<Tok>, code: seq<int>, t: nat)
    ensures ParseArgs(env, PrintArgs([]) + rest, code, t) == SomeArgs(rest, code + GenArgs(env, [], |code|), t)
  {
    assert ([RPar] + rest)[1..] == rest;
    assert code + GenArgs(env, [], |code|) == code;
  }

  function CommaAfter(args: seq<Expr>): seq<Tok> { if |args| == 1 then [] else [Comma] }

  lemma {:induction false} ArgsHead(env: Env, args: seq<Expr>, rest: seq<Tok>, code: seq<int>)
    requires args != [] && GoodAll(env, args) && (|args| == 1 ==> rest != [] && rest[0] == RPar)
    ensures var first := Print(args[0], ASSIGN);
            && first[0] != RPar
            && ParseExpr(env, first + (CommaAfter(args) + rest), ASSIGN, code) ==
               Done(CommaAfter(args) + rest, code + Gen(env, args[0], |code|))
    decreases args, 3
  {
    hide Gen, Print, ParseExpr;
    FirstToken(env, args[0], ASSIGN);
    PrintReads(env, args[0], ASSIGN, CommaAfter(args) + rest, code);
  }

  lemma ArgsStep(env: Env, first: seq<Tok>, comma: seq<Tok>, pa: seq<Tok>, rest: seq<Tok>, code: seq<int>,
                 g: seq<int>, ga: seq<int>, n: nat, t: nat)
    requires first != [] && first[0] != RPar
    requires comma == [Comma] || (comma == [] && pa != [] && pa[0] != Comma)
    requires ParseExpr(env, first + (comma + (pa + rest)), ASSIGN, code) == Done(comma + (pa + rest), code + g)
    requires ParseArgs(env, pa + rest, code + g + [iPSH], t + 1) == SomeArgs(rest, code + g + [iPSH] + ga, t + 1 + n)
    ensures ParseArgs(env, first + comma + pa + rest, code, t) == SomeArgs(rest, code + (g + [iPSH] + ga), t + 1 + n)
  {
    hide ParseExpr;
    var next := comma + (pa + rest);
    Right3(first, comma, pa, rest);
    Flat(code, g, [iPSH], ga, [], []);
    assert (if next != [] && next[0] == Comma then next[1..] else next) == pa + rest;
  }

  lemma ArgsShape(env: Env, args: seq<Expr>, at: nat)
    requires args != [] && GoodAll(env, args)
    ensures Good(env, args[0]) && GoodAll(env, args[1..])
    ensures PrintArgs(args) == Print(args[0], ASSIGN) + CommaAfter(args) + PrintArgs(args[1..])
    ensures |args| == 1 ==> PrintArgs(args[1..]) == [RPar]
    ensures GenArgs(env, args, at) == Gen(env, args[0], at) + [iPSH] + GenArgs(env, args[1..], at + Size(args[0]) + 1)
  { }

  predicate StartsExpr(t: Tok) { t !in {TInt, RPar, RBrace, TIf, TElse, TWhile, TReturn, LBrace, Semi} }

  /** No expression begins with a token that would end an argument list or start a statement. */
  lemma {:induction false} FirstToken(env: Env, e: Expr, lev: nat)
    requires Good(env, e)
    ensures StartsExpr(Print(e, lev)[0]) && StartsExpr(Bare(e)[0])
    decreases e
  {
    match e {
      case Bin(op, l, r) => FirstToken(env, l, ClassLevel(op));
      case LogOr(l, r) => FirstToken(env, l, LOR);
      case LogAnd(l, r) => FirstToken(env, l, LAN);
      case If(c, t, f) => FirstToken(env, c, LOR);
      case _ =>
    }
  }

  // ---- statements -----------------------------------------------------------------------------

  predicate NoElse(rest: seq<Tok>) { rest == [] || rest[0] != TElse }

  lemma CondReads(env: Env, c: Expr, rest: seq<Tok>, code: seq<int>)
    requires Good(env, c)
    ensures ParseCond(env, [LPar] + Print(c, ASSIGN) + [RPar] + rest, code) == Done(rest, code + Gen(env, c, |code|))
  {
    hide Gen, Print, ParseExpr, Good;
    PrintReads(env, c, ASSIGN, [RPar] + rest, code);
    ParenTokens(Print(c, ASSIGN), rest);
  }

  lemma ParenTokens(p: seq<Tok>, rest: seq<Tok>)
    ensures ([LPar] + p + [RPar] + rest)[1..] == p + ([RPar] + rest)
    ensures ([RPar] + rest)[1..] == rest && ([Semi] + rest)[1..] == rest
  { }

  /** A printed statement compiles to its code and leaves the tokens after it. */
  lemma {:induction false} StmtReads(env: Env, s: Stmt, rest: seq<Tok>, code: seq<int>)
    requires GoodStmt(env, s) && (EndsOpen(s) ==> NoElse(rest))
    ensures ParseStmt(env, PrintStmt(s) + rest, code) == Done(rest, code + GenStmt(env, s, |code|))
    decreases s, 1
  {
    hide PrintStmt, GenStmt, ParseStmt, Print, Gen;
    match s {
      case When(c, body) =>
        StmtReads(env, body, rest, code + Gen(env, c, |code|) + [iBZ, 0]);
        WhenJoin(env, c, body, rest, code);
      case Choose(c, yes, no) =>
        ChooseReads(env, c, yes, no, rest, code);
      case Loop(c, body) =>
        StmtReads(env, body, rest, code + Gen(env, c, |code|) + [iBZ, 0]);
        LoopJoin(env, c, body, rest, code);
      case Return(e) => ReturnReads(env, e, rest, code);
      case ReturnNone => PlainReads(env, s, rest, code);
      case Block(ss) =>
        BlockReads(env, ss, rest, code);
        BlockJoin(env, ss, rest, code);
      case Nop => PlainReads(env, s, rest, code);
      case Do(e) => DoReads(env, e, rest, code);
    }
  }

  lemma WhenJoin(env: Env, c: Expr, body: Stmt, rest: seq<Tok>, code: seq<int>)
    requires GoodStmt(env, When(c, body)) && NoElse(rest)
    requires var c0 := code + Gen(env, c, |code|) + [iBZ, 0];
             ParseStmt(env, PrintStmt(body) + rest, c0) == Done(rest, c0 + GenStmt(env, body, |c0|))
    ensures ParseStmt(env, PrintStmt(When(c, body)) + rest, code) ==
        Done(rest, code + GenStmt(env, When(c, body), |code|))
  {
    hide PrintStmt, GenStmt, Print, Gen, ParseCond, ParseExpr, Size, SizeStmt, ParseStmt;
    var g, b := Gen(env, c, |code|), GenStmt(env, body, |code| + Size(c) + 2);
    CondReads(env, c, PrintStmt(body) + rest, code);
    WhenShape(env, c, body, |code|);
    WhenStep(env, Print(c, ASSIGN), PrintStmt(body), rest, code, g, b);
  }

  lemma WhenStep(env: Env, p: seq<Tok>, body: seq<Tok>, rest: seq<Tok>, code: seq<int>, g: seq<int>, b: seq<int>)
    requires NoElse(rest) && ParseCond(env, [LPar] + p + [RPar] + (body + rest), code) == Done(body + rest, code + g)
    requires ParseStmt(env, body + rest, code + g + [iBZ, 0]) == Done(rest, code + g + [iBZ, 0] + b)
    ensures ParseStmt(env, [TIf, LPar] + p + [RPar] + body + rest, code) ==
        Done(rest, code + SkipCode(|code|, g, iBZ, b))
  {
    hide ParseCond, ParseExpr;
    HeadTokens(TIf, p, body, rest);
    Patch(code + g, iBZ, b, |code| + |g| + 2 + |b|);
    Flat(code, g, [iBZ, |code| + |g| + 2 + |b|], b, [], []);
  }

  lemma HeadTokens(t: Tok, p: seq<Tok>, body: seq<Tok>, rest: seq<Tok>)
    ensures ([t, LPar] + p + [RPar] + body + rest)[1..] == [LPar] + p + [RPar] + (body + rest)
  { }

  lemma WhenShape(env: Env, c: Expr, body: Stmt, at: nat)
    requires GoodStmt(env, When(c, body))
    ensures PrintStmt(When(c, body)) == [TIf, LPar] + Print(c, ASSIGN) + [RPar] + PrintStmt(body)
    ensures GenStmt(env, When(c, body), at) == SkipCode(at, Gen(env, c, at), iBZ, GenStmt(env, body, at + Size(c) + 2))
  {
    hide Gen, Print;
  }

  lemma LoopJoin(env: Env, c: Expr, body: Stmt, rest: seq<Tok>, code: seq<int>)
    requires GoodStmt(env, Loop(c, body))
    requires var c0 := code + Gen(env, c, |code|) + [iBZ, 0];
             ParseStmt(env, PrintStmt(body) + rest, c0) == Done(rest, c0 + GenStmt(env, body, |c0|))
    ensures ParseStmt(env, PrintStmt(Loop(c, body)) + rest, code) ==
        Done(rest, code + GenStmt(env, Loop(c, body), |code|))
  {
    hide PrintStmt, GenStmt, Print, Gen, ParseCond, ParseExpr, Size, SizeStmt, ParseStmt, LoopCode;
    var g, b := Gen(env, c, |code|), GenStmt(env, body, |code| + Size(c) + 2);
    CondReads(env, c, PrintStmt(body) + rest, code);
    LoopPrint(c, body);
    LoopGen(env, c, body, |code|);
    LoopStep(env, Print(c, ASSIGN), PrintStmt(body), rest, code, g, b);
  }

  lemma LoopStep(env: Env, p: seq<Tok>, body: seq<Tok>, rest: seq<Tok>, code: seq<int>, g: seq<int>, b: seq<int>)
    requires ParseCond(env, [LPar] + p + [RPar] + (body + rest), code) == Done(body + rest, code + g)
    requires ParseStmt(env, body + rest, code + g + [iBZ, 0]) == Done(rest, code + g + [iBZ, 0] + b)
    ensures ParseStmt(env, [TWhile, LPar] + p + [RPar] + body + rest, code) == Done(rest, code + LoopCode(|code|, g, b))
  {
    hide ParseCond, ParseExpr;
    var end := |code| + |g| + 2 + |b| + 2;
    HeadTokens(TWhile, p, body, rest);
    Flat(code + g + [iBZ, 0], b, [iJMP, |code|], [], [], []);
    Patch(code + g, iBZ, b + [iJMP, |code|], end);
    Flat(code, g, [iBZ, end], b, [iJMP, |code|], []);
    Flat(code + g + [iBZ, end], b, [iJMP, |code|], [], [], []);
  }

  lemma LoopPrint(c: Expr, body: Stmt)
    ensures PrintStmt(Loop(c, body)) == [TWhile, LPar] + Print(c, ASSIGN) + [RPar] + PrintStmt(body)
  {
    hide Print;
  }

  lemma LoopGen(env: Env, c: Expr, body: Stmt, at: nat)
    requires GoodStmt(env, Loop(c, body))
    ensures GenStmt(env, Loop(c, body), at) == LoopCode(at, Gen(env, c, at), GenStmt(env, body, at + Size(c) + 2))
  {
    hide Gen, Size;
  }

  lemma {:induction false} ChooseReads(env: Env, c: Expr, yes: Stmt, no: Stmt, rest: seq<Tok>, code: seq<int>)
    requires GoodStmt(env, Choose(c, yes, no)) && (EndsOpen(no) ==> NoElse(rest))
    ensures ParseStmt(env, PrintStmt(Choose(c, yes, no)) + rest, code) ==
            Done(rest, code + GenStmt(env, Choose(c, yes, no), |code|))
    decreases Choose(c, yes, no), 0
  {
    hide PrintStmt, GenStmt, ParseStmt, Print, Gen;
    var c0 := code + Gen(env, c, |code|);
    var later := [TElse] + PrintStmt(no) + rest;
    if EndsOpen(yes) {
      StmtReads(env, yes, [RBrace] + later, c0 + [iBZ, 0]);
      BraceReads(env, yes, later, c0 + [iBZ, 0]);
    } else {
      StmtReads(env, yes, later, c0 + [iBZ, 0]);
    }
    var y := GenStmt(env, yes, |c0| + 2);
    var c1 := c0 + [iBZ, |c0| + 4 + |y|] + y;
    StmtReads(env, no, rest, c1 + [iJMP, 0]);
    ChooseJoin(env, c, yes, no, rest, code);
  }

  lemma BraceReads(env: Env, s: Stmt, rest: seq<Tok>, code: seq<int>)
    requires GoodStmt(env, s)
    requires ParseStmt(env, PrintStmt(s) + ([RBrace] + rest), code) ==
        Done([RBrace] + rest, code + GenStmt(env, s, |code|))
    ensures ParseStmt(env, [LBrace] + PrintStmt(s) + [RBrace] + rest, code) ==
        Done(rest, code + GenStmt(env, s, |code|))
  {
    hide PrintStmt, GenStmt, ParseStmt, ParseBlock;
    FirstOfStmt(env, s);
    var c := code + GenStmt(env, s, |code|);
    BlockStep(env, PrintStmt(s), [RBrace] + rest, code, c);
    OpenBrace(env, PrintStmt(s), rest, code);
    CloseBrace(env, rest, c);
  }

  lemma OpenBrace(env: Env, p: seq<Tok>, rest: seq<Tok>, code: seq<int>)
    ensures ParseStmt(env, [LBrace] + p + [RBrace] + rest, code) == ParseBlock(env, p + ([RBrace] + rest), code)
  {
    hide ParseBlock, ParseCond, ParseExpr;
    BraceTokens(p, rest);
  }

  lemma CloseBrace(env: Env, rest: seq<Tok>, code: seq<int>)
    ensures ParseBlock(env, [RBrace] + rest, code) == Done(rest, code)
  {
    hide ParseStmt;
    assert ([RBrace] + rest)[1..] == rest;
  }

  lemma FirstOfStmt(env: Env, s: Stmt)
    requires GoodStmt(env, s)
    ensures PrintStmt(s)[0] != RBrace
  {
    if s.Do? { FirstToken(env, s.e, ASSIGN); }
  }

  lemma ChooseJoin(env: Env, c: Expr, yes: Stmt, no: Stmt, rest: seq<Tok>, code: seq<int>)
    requires GoodStmt(env, Choose(c, yes, no))
    requires var c0 := code + Gen(env, c, |code|) + [iBZ, 0];
             var later := [TElse] + PrintStmt(no) + rest;
             ParseStmt(env, PrintBranch(yes) + later, c0) == Done(later, c0 + GenStmt(env, yes, |c0|))
    requires var at := |code| + Size(c) + 2;
             var c1 := code + Gen(env, c, |code|) + [iBZ, at + SizeStmt(yes) + 2] + GenStmt(env, yes, at) + [iJMP, 0];
             ParseStmt(env, PrintStmt(no) + rest, c1) == Done(rest, c1 + GenStmt(env, no, |c1|))
    ensures ParseStmt(env, PrintStmt(Choose(c, yes, no)) + rest, code) ==
            Done(rest, code + GenStmt(env, Choose(c, yes, no), |code|))
  {
    hide PrintStmt, PrintBranch, GenStmt, Print, Gen, ParseCond, ParseExpr, Size, SizeStmt, ParseStmt;
    var p, b, later := Print(c, ASSIGN), PrintBranch(yes), [TElse] + PrintStmt(no) + rest;
    var g, y := Gen(env, c, |code|), GenStmt(env, yes, |code| + Size(c) + 2);
    var mid := |code| + |g| + 2 + |y| + 2;
    CondReads(env, c, b + later, code);
    ElseStep(env, p, b, PrintStmt(no), rest, code, g, y, GenStmt(env, no, mid));
    ChoosePrint(c, yes, no);
    ChooseGen(env, c, yes, no, |code|);
  }

  lemma ElseStep(env: Env, p: seq<Tok>, b: seq<Tok>, no: seq<Tok>, rest: seq<Tok>, code: seq<int>, g: seq<int>,
      y: seq<int>, n: seq<int>)
    requires ParseCond(env, [LPar] + p + [RPar] + (b + ([TElse] + no + rest)), code) ==
        Done(b + ([TElse] + no + rest), code + g)
    requires ParseStmt(env, b + ([TElse] + no + rest), code + g + [iBZ, 0]) ==
        Done([TElse] + no + rest, code + g + [iBZ, 0] + y)
    requires var c := code + g + [iBZ, |code| + |g| + 2 + |y| + 2] + y + [iJMP, 0];
             ParseStmt(env, no + rest, c) == Done(rest, c + n)
    ensures var mid := |code| + |g| + 2 + |y| + 2;
            ParseStmt(env, [TIf, LPar] + p + [RPar] + b + [TElse] + no + rest, code) ==
            Done(rest, code + (g + [iBZ, mid] + y + [iJMP, mid + |n|] + n))
  {
    hide ParseCond, ParseExpr;
    var mid := |code| + |g| + 2 + |y| + 2;
    ChooseTokens(p, b, no, rest);
    Patch(code + g, iBZ, y, mid);
    Patch(code + g + [iBZ, mid] + y, iJMP, n, mid + |n|);
    Flat(code, g, [iBZ, mid], y, [iJMP, mid + |n|], n);
  }

  lemma ChooseTokens(p: seq<Tok>, b: seq<Tok>, no: seq<Tok>, rest: seq<Tok>)
    ensures ([TIf, LPar] + p + [RPar] + b + [TElse] + no + rest)[1..] ==
        [LPar] + p + [RPar] + (b + ([TElse] + no + rest))
    ensures ([TElse] + no + rest)[1..] == no + rest
  { }

  lemma ChoosePrint(c: Expr, yes: Stmt, no: Stmt)
    ensures PrintStmt(Choose(c, yes, no)) ==
            [TIf, LPar] + Print(c, ASSIGN) + [RPar] + PrintBranch(yes) + [TElse] + PrintStmt(no)
  {
    hide Print, PrintBranch;
  }

  lemma ChooseGen(env: Env, c: Expr, yes: Stmt, no: Stmt, at: nat)
    requires GoodStmt(env, Choose(c, yes, no))
    ensures var mid := at + Size(c) + 2 + SizeStmt(yes) + 2;
            GenStmt(env, Choose(c, yes, no), at) ==
              ChooseCode(at, Gen(env, c, at), GenStmt(env, yes, at + Size(c) + 2), GenStmt(env, no, mid))
  {
    hide Gen, Size;
  }

  lemma ReturnReads(env: Env, e: Expr, rest: seq<Tok>, code: seq<int>)
    requires Good(env, e)
    ensures ParseStmt(env, PrintStmt(Return(e)) + rest, code) == Done(rest, code + GenStmt(env, Return(e), |code|))
  {
    hide Print, Gen, ParseExpr, PrintStmt, GenStmt, Good, ParseStmt;
    PrintReads(env, e, ASSIGN, [Semi] + rest, code);
    FirstToken(env, e, ASSIGN);
    SimpleShape(env, e, |code|);
    ReturnStep(env, Print(e, ASSIGN), rest, code, Gen(env, e, |code|));
  }

  lemma ReturnStep(env: Env, p: seq<Tok>, rest: seq<Tok>, code: seq<int>, g: seq<int>)
    requires p != [] && p[0] != Semi
        && ParseExpr(env, p + ([Semi] + rest), ASSIGN, code) == Done([Semi] + rest, code + g)
    ensures ParseStmt(env, [TReturn] + p + [Semi] + rest, code) == Done(rest, code + (g + [iLEV]))
  {
    hide ParseExpr;
    SemiTokens(p, rest);
    Flat(code, g, [iLEV], [], [], []);
  }

  lemma DoStep(env: Env, p: seq<Tok>, rest: seq<Tok>, code: seq<int>, g: seq<int>)
    requires p != [] && StartsExpr(p[0])
        && ParseExpr(env, p + ([Semi] + rest), ASSIGN, code) == Done([Semi] + rest, code + g)
    ensures ParseStmt(env, p + [Semi] + rest, code) == Done(rest, code + g)
  {
    hide ParseExpr;
    SemiTokens(p, rest);
  }

  lemma SimpleShape(env: Env, e: Expr, at: nat)
    requires Good(env, e)
    ensures PrintStmt(Return(e)) == [TReturn] + Print(e, ASSIGN) + [Semi]
        && PrintStmt(Do(e)) == Print(e, ASSIGN) + [Semi]
    ensures GenStmt(env, Return(e), at) == Gen(env, e, at) + [iLEV] && GenStmt(env, Do(e), at) == Gen(env, e, at)
  {
    hide Gen, Print;
  }

  lemma SemiTokens(p: seq<Tok>, rest: seq<Tok>)
    ensures ([TReturn] + p + [Semi] + rest)[1..] == p + ([Semi] + rest)
    ensures p + [Semi] + rest == p + ([Semi] + rest)
    ensures ([Semi] + rest)[1..] == rest
  { }

  lemma PlainReads(env: Env, s: Stmt, rest: seq<Tok>, code: seq<int>)
    requires s.ReturnNone? || s.Nop?
    ensures ParseStmt(env, PrintStmt(s) + rest, code) == Done(rest, code + GenStmt(env, s, |code|))
  {
    var toks := PrintStmt(s) + rest;
    if s.Nop? {
      assert toks[1..] == rest;
      assert code + [] == code;
    } else {
      assert toks[2..] == rest;
    }
  }

  lemma DoReads(env: Env, e: Expr, rest: seq<Tok>, code: seq<int>)
    requires Good(env, e)
    ensures ParseStmt(env, PrintStmt(Do(e)) + rest, code) == Done(rest, code + GenStmt(env, Do(e), |code|))
  {
    hide Print, Gen, ParseExpr, PrintStmt, GenStmt, Good, ParseStmt;
    PrintReads(env, e, ASSIGN, [Semi] + rest, code);
    FirstToken(env, e, ASSIGN);
    SimpleShape(env, e, |code|);
    DoStep(env, Print(e, ASSIGN), rest, code, Gen(env, e, |code|));
  }

  lemma {:induction false} BlockReads(env: Env, ss: seq<Stmt>, rest: seq<Tok>, code: seq<int>)
    requires GoodStmts(env, ss)
    ensures ParseBlock(env, PrintStmts(ss) + ([RBrace] + rest), code) == Done(rest, code + GenStmts(env, ss, |code|))
    decreases ss, 2
  {
    hide ParseStmt, PrintStmt, GenStmt, ParseBlock, PrintStmts, GenStmts, GoodStmts, SizeStmt, EndsOpen;
    if ss == [] {
      BlockNone(env, rest, code);
    } else {
      StmtsShape(env, ss, |code|);
      var later, g := PrintStmts(ss[1..]) + ([RBrace] + rest), GenStmt(env, ss[0], |code|);
      BlockNoElse(env, ss[1..], rest);
      StmtReads(env, ss[0], later, code);
      BlockReads(env, ss[1..], rest, code + g);
      FirstOfStmt(env, ss[0]);
      BlockStep(env, PrintStmt(ss[0]), later, code, code + g);
      Regroup(PrintStmt(ss[0]), PrintStmts(ss[1..]), [RBrace] + rest);
      Flat(code, g, GenStmts(env, ss[1..], |code| + |g|), [], [], []);
    }
  }

  lemma BlockNone(env: Env, rest: seq<Tok>, code: seq<int>)
    ensures ParseBlock(env, PrintStmts([]) + ([RBrace] + rest), code) == Done(rest, code + GenStmts(env, [], |code|))
  {
    assert PrintStmts([]) + ([RBrace] + rest) == [RBrace] + rest;
    assert ([RBrace] + rest)[1..] == rest;
    assert code + [] == code;
  }

  lemma StmtsShape(env: Env, ss: seq<Stmt>, at: nat)
    requires ss != [] && GoodStmts(env, ss)
    ensures GoodStmt(env, ss[0]) && GoodStmts(env, ss[1..])
    ensures PrintStmts(ss) == PrintStmt(ss[0]) + PrintStmts(ss[1..])
    ensures GenStmts(env, ss, at) == GenStmt(env, ss[0], at) + GenStmts(env, ss[1..], at + SizeStmt(ss[0]))
  {
    hide PrintStmt, GenStmt, SizeStmt;
  }

  lemma BlockStep(env: Env, first: seq<Tok>, later: seq<Tok>, code: seq<int>, c: seq<int>)
    requires first != [] && first[0] != RBrace && ParseStmt(env, first + later, code) == Done(later, c)
    ensures ParseBlock(env, first + later, code) == ParseBlock(env, later, c)
  {
    hide ParseStmt;
  }

  lemma BlockNoElse(env: Env, ss: seq<Stmt>, rest: seq<Tok>)
    requires GoodStmts(env, ss)
    ensures NoElse(PrintStmts(ss) + ([RBrace] + rest))
  {
    if ss != [] && ss[0].Do? { FirstToken(env, ss[0].e, ASSIGN); }
  }

  lemma BlockJoin(env: Env, ss: seq<Stmt>, rest: seq<Tok>, code: seq<int>)
    requires GoodStmts(env, ss)
    requires ParseBlock(env, PrintStmts(ss) + ([RBrace] + rest), code) == Done(rest, code + GenStmts(env, ss, |code|))
    ensures ParseStmt(env, PrintStmt(Block(ss)) + rest, code) == Done(rest, code + GenStmt(env, Block(ss), |code|))
  {
    hide PrintStmts, GenStmts, ParseBlock, PrintStmt, GenStmt;
    BlockShape(env, ss, |code|);
    BraceTokens(PrintStmts(ss), rest);
  }

  lemma BlockShape(env: Env, ss: seq<Stmt>, at: nat)
    requires GoodStmts(env, ss)
    ensures PrintStmt(Block(ss)) == [LBrace] + PrintStmts(ss) + [RBrace]
        && GenStmt(env, Block(ss), at) == GenStmts(env, ss, at)
  {
    hide Gen, Print;
  }

  lemma BraceTokens(p: seq<Tok>, rest: seq<Tok>)
    ensures ([LBrace] + p + [RBrace] + rest)[1..] == p + ([RBrace] + rest)
  { }
}
