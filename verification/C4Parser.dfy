/** The one-pass compiler of c4: precedence climbing over the tokens, with code appended to the
    text as it goes and jump operands patched once their target is known.  `ParseExpr` and
    `ParseStmt` are `expr` and `stmt` as functions from the remaining tokens and the text so far. */
module C4Parser {
  import opened Layout
  import opened C4Syntax

  // `Fail` is an error exit of the compiler.
  datatype Parsed = Fail | Done(rest: seq<Tok>, code: seq<int>)
  datatype Args = NoArgs | SomeArgs(rest: seq<Tok>, code: seq<int>, count: nat)

  predicate EndsInLoad(code: seq<int>) { code != [] && code[|code| - 1] == iLI }

  // The final LI gives way to other words.
  function ReplaceLoad(code: seq<int>, words: seq<int>): seq<int>
    requires code != []
  { code[..|code| - 1] + words }

  function Extend(p: Parsed, words: seq<int>): Parsed {
    match p case Fail => Fail case Done(rest, code) => Done(rest, code + words)
  }

  function Expect(p: Parsed, t: Tok): Parsed {
    match p
    case Fail => Fail
    case Done(rest, code) => if rest != [] && rest[0] == t then Done(rest[1..], code) else Fail
  }

  function ParseExpr(env: Env, toks: seq<Tok>, lev: nat, code: seq<int>): (r: Parsed)
    ensures r.Done? ==> |r.rest| < |toks| && |r.code| > |code|
    decreases |toks|, 2
  {
    match ParsePrimary(env, toks, code)
    case Fail => Fail
    case Done(rest, c) => ParseOperators(env, rest, lev, c)
  }

  /** The part of `expr` before its loop: literals, identifiers, calls, parentheses, prefixes. */
  function ParsePrimary(env: Env, toks: seq<Tok>, code: seq<int>): (r: Parsed)
    ensures r.Done? ==> |r.rest| < |toks| && |r.code| > |code|
    decreases |toks|, 1
  {
    if toks == [] then Fail
    else match toks[0]
      case TNum(n) => Done(toks[1..], code + [iIMM, n])
      case TId(x) =>
        if |toks| > 1 && toks[1] == LPar then
          match ParseArgs(env, toks[2..], code, 0)
          case NoArgs => Fail
          case SomeArgs(rest, c, t) =>
            if IsFun(env, x) then Done(rest, c + [iJSR, env.ids[x].entry] + (if t == 0 then [] else [iADJ, t]))
            else Fail
        else if IsVar(env, x) then Done(toks[1..], code + (AddrCode(env, x) + [iLI]))
        else Fail
      case LPar => Expect(ParseExpr(env, toks[1..], ASSIGN, code), RPar)
      case TNot => Extend(ParseExpr(env, toks[1..], INC, code), [iPSH, iIMM, 0, iEQ])
      case TTilde => Extend(ParseExpr(env, toks[1..], INC, code), [iPSH, iIMM, -1, iXOR])
      case TOp(Add) => ParseExpr(env, toks[1..], INC, code)
      case TOp(Sub) =>
        if |toks| > 1 && toks[1].TNum? then Done(toks[2..], code + [iIMM, Wrap32(-toks[1].n)])
        else Extend(ParseExpr(env, toks[1..], INC, code + [iIMM, -1, iPSH]), [iMUL])
      case TOp(Inc) => StepPrefix(ParseExpr(env, toks[1..], INC, code), true)
      case TOp(Dec) => StepPrefix(ParseExpr(env, toks[1..], INC, code), false)
      case _ => Fail
  }

  function StepPrefix(p: Parsed, up: bool): Parsed {
    match p
    case Fail => Fail
    case Done(rest, code) => if EndsInLoad(code) then Done(rest, ReplaceLoad(code, StepCode(up))) else Fail
  }

  function ParseArgs(env: Env, toks: seq<Tok>, code: seq<int>, t: nat): (r: Args)
    ensures r.SomeArgs? ==> |r.rest| < |toks| && |r.code| >= |code|
    decreases |toks|, 3
  {
    if toks != [] && toks[0] == RPar then SomeArgs(toks[1..], code, t)
    else match ParseExpr(env, toks, ASSIGN, code)
      case Fail => NoArgs
      case Done(rest, c) =>
        ParseArgs(env, if rest != [] && rest[0] == Comma then rest[1..] else rest, c + [iPSH], t + 1)
  }

  /** The loop of `expr`: operators of level `lev` and up. */
  function ParseOperators(env: Env, toks: seq<Tok>, lev: nat, code: seq<int>): (r: Parsed)
    requires code != []
    ensures r.Done? ==> |r.rest| <= |toks| && |r.code| >= |code|
    decreases |toks|, 1
  {
    if toks == [] || LevelOf(toks[0]) < lev || !toks[0].TOp? then Done(toks, code)
    else match ParseRight(env, toks[0].op, toks[1..], code)
      case Fail => Fail
      case Done(rest, c) => ParseOperators(env, rest, lev, c)
  }

  /** The body of the loop: one operator, with the code of its left operand at the end of the text. */
  function ParseRight(env: Env, op: Op, toks: seq<Tok>, code: seq<int>): (r: Parsed)
    requires code != []
    ensures r.Done? ==> |r.rest| <= |toks| && |r.code| >= |code|
    decreases |toks|, 3
  {
    match op
    case Assign =>
      if EndsInLoad(code) then Extend(ParseExpr(env, toks, ASSIGN, ReplaceLoad(code, [iPSH])), [iSI]) else Fail
    case Cond =>
      (match Expect(ParseExpr(env, toks, ASSIGN, code + [iBZ, 0]), Colon)
       case Fail => Fail
       case Done(rest, c) =>
         PatchEnd(ParseExpr(env, rest, COND, c[|code| + 1 := |c| + 2] + [iJMP, 0]), |c| + 1))
    case Lor => PatchEnd(ParseExpr(env, toks, LAN, code + [iBNZ, 0]), |code| + 1)
    case Lan => PatchEnd(ParseExpr(env, toks, OR, code + [iBZ, 0]), |code| + 1)
    case Inc =>
      if EndsInLoad(code) then Done(toks, ReplaceLoad(code, StepCode(true) + [iPSH, iIMM, 1, iSUB])) else Fail
    case Dec =>
      if EndsInLoad(code) then Done(toks, ReplaceLoad(code, StepCode(false) + [iPSH, iIMM, 1, iADD])) else Fail
    case _ => Extend(ParseExpr(env, toks, RightLevel(op), code + [iPSH]), [OpCode(op)])
  }

  // The jump operand at word `d` gets the end of the text as its target.
  function PatchEnd(p: Parsed, d: nat): Parsed
    requires p.Done? ==> d < |p.code|
  {
    match p case Fail => Fail case Done(rest, code) => Done(rest, code[d := |code|])
  }

  // A condition in parentheses.
  function ParseCond(env: Env, toks: seq<Tok>, code: seq<int>): (r: Parsed)
    ensures r.Done? ==> |r.rest| < |toks| && |r.code| > |code|
  {
    if toks != [] && toks[0] == LPar then Expect(ParseExpr(env, toks[1..], ASSIGN, code), RPar) else Fail
  }

  function ParseStmt(env: Env, toks: seq<Tok>, code: seq<int>): (r: Parsed)
    ensures r.Done? ==> |r.rest| < |toks| && |r.code| >= |code|
    decreases |toks|, 1
  {
    if toks == [] then Fail
    else match toks[0]
      case TIf =>
        (match ParseCond(env, toks[1..], code)
         case Fail => Fail
         case Done(rest, c) =>
           match ParseStmt(env, rest, c + [iBZ, 0])
           case Fail => Fail
           case Done(rest', c') =>
             if rest' != [] && rest'[0] == TElse then
               PatchEnd(ParseStmt(env, rest'[1..], c'[|c| + 1 := |c'| + 2] + [iJMP, 0]), |c'| + 1)
             else Done(rest', c'[|c| + 1 := |c'|]))
      case TWhile =>
        (match ParseCond(env, toks[1..], code)
         case Fail => Fail
         case Done(rest, c) => PatchEnd(Extend(ParseStmt(env, rest, c + [iBZ, 0]), [iJMP, |code|]), |c| + 1))
      case TReturn =>
        if |toks| > 1 && toks[1] == Semi then Done(toks[2..], code + [iLEV])
        else Expect(Extend(ParseExpr(env, toks[1..], ASSIGN, code), [iLEV]), Semi)
      case LBrace => ParseBlock(env, toks[1..], code)
      case Semi => Done(toks[1..], code)
      case _ => Expect(ParseExpr(env, toks, ASSIGN, code), Semi)
  }

  // The statements up to the closing brace.
  function ParseBlock(env: Env, toks: seq<Tok>, code: seq<int>): (r: Parsed)
    ensures r.Done? ==> |r.rest| < |toks| && |r.code| >= |code|
    decreases |toks|, 2
  {
    if toks != [] && toks[0] == RBrace then Done(toks[1..], code)
    else match ParseStmt(env, toks, code)
      case Fail => Fail
      case Done(rest, c) => ParseBlock(env, rest, c)
  }
}
