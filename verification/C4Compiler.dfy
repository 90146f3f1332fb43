/** The compiler as it works: a current position in the tokens, a text that grows word by word and
    is patched in place, and one method per recursive routine.  Each is proved to leave the tokens
    and the text that the corresponding function gives. */
module C4Compiler {
  import opened Layout
  import opened C4Syntax
  import opened C4Parser
  import opened C4Program

  // The outcome of a routine that left `toks` and `text`; an error exit leaves nothing to compare.
  predicate Outcome(r: Parsed, ok: bool, toks: seq<Tok>, text: seq<int>) {
    if ok then r == Done(toks, text) else r == Fail
  }

  // What follows the first branch of an `if`, whose jump operand is the word at `b`.
  function AfterBranch(env: Env, p: Parsed, b: nat): Parsed
    requires p.Done? ==> b < |p.code|
  {
    match p
    case Fail => Fail
    case Done(rest, c) =>
      if rest != [] && rest[0] == TElse then
        PatchEnd(ParseStmt(env, rest[1..], c[b := |c| + 2] + [iJMP, 0]), |c| + 1)
      else Done(rest, c[b := |c|])
  }

  lemma IfParts(env: Env, toks: seq<Tok>, code: seq<int>)
    requires toks != [] && toks[0] == TIf
    ensures ParseStmt(env, toks, code) ==
            match ParseCond(env, toks[1..], code)
            case Fail => Fail
            case Done(rest, c) => AfterBranch(env, ParseStmt(env, rest, c + [iBZ, 0]), |c| + 1)
  { hide ParseCond, ParseExpr; }

  class Compiler {
    var toks: seq<Tok>
    var text: seq<int>
    var env: Env

    constructor (toks: seq<Tok>)
      ensures this.toks == toks && text == [] && env == Env(0, map[])
    {
      this.toks, text, env := toks, [], Env(0, map[]);
    }

    method Next()
      requires toks != []
      modifies this`toks
      ensures toks == old(toks)[1..]
    { toks := toks[1..]; }

    method Emit(words: seq<int>)
      modifies this`text
      ensures text == old(text) + words
    { text := text + words; }

    // The word at `d` becomes the address of the next word to be emitted.
    method Patch(d: nat, extra: nat)
      requires d < |text|
      modifies this`text
      ensures text == old(text)[d := |old(text)| + extra]
    { text := text[d := |text| + extra]; }

    // The current token must be `t`.
    method Accept(t: Tok) returns (ok: bool)
      modifies this`toks
      ensures Outcome(Expect(Done(old(toks), text), t), ok, toks, text)
      ensures ok ==> |toks| < |old(toks)|
    {
      ok := toks != [] && toks[0] == t;
      if ok { Next(); }
    }

    /** expr: a primary, then operators of level `lev` and up. */
    method Expr(lev: nat) returns (ok: bool)
      modifies this`toks, this`text
      ensures Outcome(ParseExpr(env, old(toks), lev, old(text)), ok, toks, text)
      decreases |toks|, 3
    {
      hide ParsePrimary, ParseRight;
      ok := Primary();
      if !ok { return; }
      ghost var start := ParsePrimary(env, old(toks), old(text));
      while toks != [] && toks[0].TOp? && lev <= LevelOf(toks[0])
        invariant |toks| < |old(toks)|
        invariant ok && text != []
            && ParseOperators(env, start.rest, lev, start.code) == ParseOperators(env, toks, lev, text)
        decreases |toks|
      {
        var op := toks[0].op;
        Next();
        ok := Right(op);
        if !ok { return; }
      }
    }

    method Primary() returns (ok: bool)
      modifies this`toks, this`text
      ensures Outcome(ParsePrimary(env, old(toks), old(text)), ok, toks, text)
      ensures ok ==> |toks| < |old(toks)|
      decreases |toks|, 2
    {
      hide ParseExpr, ParseArgs;
      if toks == [] { return false; }
      var t := toks[0];
      Next();
      match t {
        case TNum(n) => Emit([iIMM, n]); ok := true;
        case TId(x) =>
          if toks != [] && toks[0] == LPar {
            Next();
            ok := Call(x);
          } else {
            ok := IsVar(env, x);
            if ok { Emit(AddrCode(env, x) + [iLI]); }
          }
        case LPar =>
          ok := Expr(ASSIGN);
          if ok { ok := Accept(RPar); }
        case TNot =>
          ok := Expr(INC);
          if ok { Emit([iPSH, iIMM, 0, iEQ]); }
        case TTilde =>
          ok := Expr(INC);
          if ok { Emit([iPSH, iIMM, -1, iXOR]); }
        case TOp(op) => ok := PrefixOp(op);
        case _ => ok := false;
      }
    }

    // A prefix operator that is also an infix one.
    method PrefixOp(op: Op) returns (ok: bool)
      modifies this`toks, this`text
      ensures Outcome(ParsePrimary(env, [TOp(op)] + old(toks), old(text)), ok, toks, text)
      ensures ok ==> |toks| <= |old(toks)|
      decreases |toks|, 4
    {
      hide ParseExpr, ParseArgs;
      ghost var all := [TOp(op)] + toks;
      assert all[1..] == toks;
      match op {
        case Add => ok := Expr(INC);
        case Sub =>
          if toks != [] && toks[0].TNum? {
            assert all[2..] == toks[1..];
            Emit([iIMM, Wrap32(-toks[0].n)]);
            Next();
            ok := true;
          } else {
            Emit([iIMM, -1, iPSH]);
            ok := Expr(INC);
            if ok { Emit([iMUL]); }
          }
        case Inc =>
          ok := Expr(INC);
          if ok { ok := StepVariable(StepCode(true)); }
        case Dec =>
          ok := Expr(INC);
          if ok { ok := StepVariable(StepCode(false)); }
        case _ => ok := false;
      }
    }

    // The load at the end of the text gives way to other words.
    method StepVariable(words: seq<int>) returns (ok: bool)
      modifies this`text
      ensures ok == EndsInLoad(old(text))
      ensures text == if ok then ReplaceLoad(old(text), words) else old(text)
    {
      ok := EndsInLoad(text);
      if ok { text := text[..|text| - 1] + words; }
    }

    // The arguments of a call and the call.
    method Call(x: string) returns (ok: bool)
      modifies this`toks, this`text
      ensures var r := ParseArgs(env, old(toks), old(text), 0);
              if r.NoArgs? || !IsFun(env, x) then !ok
              else
                && ok && toks == r.rest
                && text == r.code + [iJSR, env.ids[x].entry] + (if r.count == 0 then [] else [iADJ, r.count])
      ensures ok ==> |toks| < |old(toks)|
      decreases |toks|, 5
    {
      hide ParseExpr;
      var t: nat := 0;
      while !(toks != [] && toks[0] == RPar)
        invariant ParseArgs(env, old(toks), old(text), 0) == ParseArgs(env, toks, text, t)
        invariant |toks| <= |old(toks)|
        decreases |toks|
      {
        var fine := Argument();
        if !fine { return false; }
        t := t + 1;
      }
      Next();
      ok := IsFun(env, x);
      if ok {
        Emit([iJSR, env.ids[x].entry]);
        Emit(if t == 0 then [] else [iADJ, t]);
      }
    }

    // One argument, its push, and a comma if there is one.
    method Argument() returns (ok: bool)
      modifies this`toks, this`text
      ensures var r := ParseExpr(env, old(toks), ASSIGN, old(text));
              if r.Fail? then !ok else ok && toks == SkipComma(r.rest) && text == r.code + [iPSH]
      ensures ok ==> |toks| < |old(toks)|
      decreases |toks|, 4
    {
      ok := Expr(ASSIGN);
      if ok {
        Emit([iPSH]);
        if toks != [] && toks[0] == Comma { Next(); }
      }
    }

    /** One operator and its right operand, the left one being at the end of the text. */
    method Right(op: Op) returns (ok: bool)
      requires text != []
      modifies this`toks, this`text
      ensures Outcome(ParseRight(env, op, old(toks), old(text)), ok, toks, text)
      decreases |toks|, 6
    {
      hide ParseExpr;
      match op {
        case Assign =>
          ok := StepVariable([iPSH]);
          if ok { ok := Expr(ASSIGN); }
          if ok { Emit([iSI]); }
        case Cond => ok := Conditional();
        case Lor => ok := Logical(iBNZ, LAN);
        case Lan => ok := Logical(iBZ, OR);
        case Inc => ok := StepVariable(StepCode(true) + [iPSH, iIMM, 1, iSUB]);
        case Dec => ok := StepVariable(StepCode(false) + [iPSH, iIMM, 1, iADD]);
        case _ =>
          Emit([iPSH]);
          ok := Expr(RightLevel(op));
          if ok { Emit([OpCode(op)]); }
      }
    }

    // A jump whose operand is patched once the right operand is compiled.
    method Logical(jump: int, lev: nat) returns (ok: bool)
      modifies this`toks, this`text
      ensures var n := |old(text)|;
              Outcome(PatchEnd(ParseExpr(env, old(toks), lev, old(text) + [jump, 0]), n + 1), ok, toks, text)
      decreases |toks|, 5
    {
      hide ParseExpr;
      var d := |text| + 1;
      Emit([jump, 0]);
      ok := Expr(lev);
      if ok { Patch(d, 0); }
    }

    method Conditional() returns (ok: bool)
      requires text != []
      modifies this`toks, this`text
      ensures Outcome(ParseRight(env, Cond, old(toks), old(text)), ok, toks, text)
      decreases |toks|, 5
    {
      hide ParseExpr;
      var d := |text| + 1;
      Emit([iBZ, 0]);
      ok := Expr(ASSIGN);
      if !ok { return; }
      ok := Accept(Colon);
      if !ok { return; }
      Patch(d, 2);
      d := |text| + 1;
      Emit([iJMP, 0]);
      ok := Expr(COND);
      if ok { Patch(d, 0); }
    }

    method Condition() returns (ok: bool)
      modifies this`toks, this`text
      ensures Outcome(ParseCond(env, old(toks), old(text)), ok, toks, text)
    {
      hide ParseExpr;
      ok := Accept(LPar);
      if ok { ok := Expr(ASSIGN); }
      if ok { ok := Accept(RPar); }
    }

    /** stmt */
    method Stmt() returns (ok: bool)
      modifies this`toks, this`text
      ensures Outcome(ParseStmt(env, old(toks), old(text)), ok, toks, text)
      decreases |toks|, 1
    {
      hide ParseExpr, ParseCond;
      if toks == [] { return false; }
      match toks[0] {
        case TIf => ok := If();
        case TWhile => ok := While();
        case TReturn =>
          Next();
          if toks != [] && toks[0] == Semi {
            Next();
            Emit([iLEV]);
            ok := true;
          } else {
            ok := Expr(ASSIGN);
            if ok {
              Emit([iLEV]);
              ok := Accept(Semi);
            }
          }
        case LBrace =>
          Next();
          ok := Block();
        case Semi =>
          Next();
          ok := true;
        case _ =>
          ok := Expr(ASSIGN);
          if ok { ok := Accept(Semi); }
      }
    }

    method If() returns (ok: bool)
      requires toks != [] && toks[0] == TIf
      modifies this`toks, this`text
      ensures Outcome(ParseStmt(env, old(toks), old(text)), ok, toks, text)
      decreases |toks|, 0
    {
      hide ParseExpr, ParseCond, ParseStmt;
      IfParts(env, toks, text);
      Next();
      ok := Condition();
      if !ok { return; }
      var b := |text| + 1;
      Emit([iBZ, 0]);
      ok := Stmt();
      if ok { ok := Else(b); }
    }

    // The jump over the branch is patched, and a second branch compiled if there is one.
    method Else(b: nat) returns (ok: bool)
      requires b < |text|
      modifies this`toks, this`text
      ensures Outcome(AfterBranch(env, Done(old(toks), old(text)), b), ok, toks, text)
      decreases |toks|, 2
    {
      hide ParseStmt;
      var d := b;
      ok := true;
      if toks != [] && toks[0] == TElse {
        Patch(d, 2);
        d := |text| + 1;
        Emit([iJMP, 0]);
        Next();
        ok := Stmt();
      }
      if ok { Patch(d, 0); }
    }

    method While() returns (ok: bool)
      requires toks != [] && toks[0] == TWhile
      modifies this`toks, this`text
      ensures Outcome(ParseStmt(env, old(toks), old(text)), ok, toks, text)
      decreases |toks|, 0
    {
      hide ParseExpr, ParseCond;
      Next();
      var a := |text|;
      ok := Condition();
      if !ok { return; }
      var b := |text| + 1;
      Emit([iBZ, 0]);
      ok := Stmt();
      if !ok { return; }
      Emit([iJMP, a]);
      Patch(b, 0);
    }

    // The statements up to the closing brace.
    method Block() returns (ok: bool)
      modifies this`toks, this`text
      ensures Outcome(ParseBlock(env, old(toks), old(text)), ok, toks, text)
      decreases |toks|, 2
    {
      hide ParseStmt;
      while !(toks != [] && toks[0] == RBrace)
        invariant |toks| <= |old(toks)|
        invariant ParseBlock(env, old(toks), old(text)) == ParseBlock(env, toks, text)
        decreases |toks|
      {
        ok := Stmt();
        if !ok { return; }
      }
      Next();
      ok := true;
    }

    // ---- declarations -------------------------------------------------------------------------

    /** The parameters, up to the closing parenthesis. */
    method Params() returns (ok: bool, i: nat)
      modifies this`toks, this`env
      ensures env.loc == old(env.loc)
      ensures var r := ParseParams(old(toks), old(env.ids), 0);
              if r.BadNames? then !ok else ok && r == Names(toks, env.ids, i)
    {
      i := 0;
      while !(toks != [] && toks[0] == RPar)
        invariant env.loc == old(env.loc)
        invariant ParseParams(old(toks), old(env.ids), 0) == ParseParams(toks, env.ids, i)
        decreases |toks|
      {
        if toks != [] && toks[0] == TInt { Next(); }
        if toks == [] || !toks[0].TId? || IsLocal(env.ids, toks[0].name) { return false, i; }
        env := env.(ids := env.ids[toks[0].name := Local(i)]);
        i := i + 1;
        Next();
        if toks != [] && toks[0] == Comma { Next(); }
      }
      Next();
      ok := true;
    }

    // One declaration of locals after its type.
    method LocalNames(from: nat) returns (ok: bool, i: nat)
      modifies this`toks, this`env
      ensures env.loc == old(env.loc)
      ensures var r := ParseNames(old(toks), old(env.ids), from);
              if r.BadNames? then !ok else ok && r == Names(toks, env.ids, i)
      ensures ok ==> i >= from
    {
      i := from;
      while !(toks != [] && toks[0] == Semi)
        invariant env.loc == old(env.loc) && i >= from
        invariant ParseNames(old(toks), old(env.ids), from) == ParseNames(toks, env.ids, i)
        decreases |toks|
      {
        if toks == [] || !toks[0].TId? || IsLocal(env.ids, toks[0].name) { return false, i; }
        i := i + 1;
        env := env.(ids := env.ids[toks[0].name := Local(i)]);
        Next();
        if toks != [] && toks[0] == Comma { Next(); }
      }
      Next();
      ok := true;
    }

    /** The local declarations. */
    method Locals(from: nat) returns (ok: bool, i: nat)
      modifies this`toks, this`env
      ensures env.loc == old(env.loc)
      ensures var r := ParseLocals(old(toks), old(env.ids), from);
              if r.BadNames? then !ok else ok && r == Names(toks, env.ids, i)
    {
      hide ParseNames;
      i, ok := from, true;
      while toks != [] && toks[0] == TInt
        invariant env.loc == old(env.loc) && ok
        invariant ParseLocals(old(toks), old(env.ids), from) == ParseLocals(toks, env.ids, i)
        decreases |toks|
      {
        Next();
        ok, i := LocalNames(i);
        if !ok { return; }
      }
    }

    /** A function definition after its name and opening parenthesis; afterwards the parameters and
        locals are unwound. */
    method Function() returns (ok: bool)
      modifies this
      ensures Outcome(ParseFunction(old(env.ids), old(toks), old(text)), ok, toks, text)
      ensures env.ids == old(env.ids)
    {
      hide ParseParams, ParseLocals, ParseBlock;
      var outer := env.ids;
      var n, i;
      ok, n := Params();
      if ok { ok := Accept(LBrace); }
      if ok {
        env := env.(loc := n + 1);
        ok, i := Locals(n + 1);
      }
      if ok {
        Emit([iENT, i - (n + 1)]);
        ok := Block();
      }
      if ok { Emit([iLEV]); }
      env := env.(ids := outer);
    }

    /** The declaration loop. */
    method Compile() returns (ok: bool)
      modifies this
      ensures var r := ParseDecls(old(env.ids), 1, old(toks), old(text));
              if r.NoProgram? then !ok else ok && r == Compiled(env.ids, text)
    {
      hide ParseFunction;
      var data := 1;
      while toks != []
        invariant ParseDecls(old(env.ids), 1, old(toks), old(text)) == ParseDecls(env.ids, data, toks, text)
        decreases |toks|
      {
        if toks[0] == TInt { Next(); }
        ok, data := Declarators(data);
        if !ok { return; }
      }
      ok := true;
    }

    // The declarators of one declaration, with the token that ends it.
    method Declarators(from: int) returns (ok: bool, data: int)
      modifies this
      ensures if ok then ParseDeclarators(old(env.ids), from, old(toks), old(text)) ==
          ParseDecls(env.ids, data, toks, text)
              else ParseDeclarators(old(env.ids), from, old(toks), old(text)) == NoProgram
      ensures ok ==> |toks| < |old(toks)|
    {
      hide ParseFunction;
      data := from;
      while !(toks != [] && (toks[0] == Semi || toks[0] == RBrace))
        invariant |toks| <= |old(toks)|
        invariant ParseDeclarators(old(env.ids), from, old(toks), old(text)) ==
            ParseDeclarators(env.ids, data, toks, text)
        decreases |toks|
      {
        if toks == [] || !toks[0].TId? || toks[0].name in env.ids { return false, data; }
        var x := toks[0].name;
        Next();
        if toks != [] && toks[0] == LPar {
          Next();
          env := env.(ids := env.ids[x := Fun(|text|)]);
          ok := Function();
          return;
        }
        env := env.(ids := env.ids[x := Global(data)]);
        data := data + 1;
        if toks != [] && toks[0] == Comma { Next(); }
      }
      Next();
      ok := true;
    }
  }
}
