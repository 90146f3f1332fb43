/** Whole c4 programs: the declaration loop of the compiler, where parameters, locals, globals and
    functions get their places, and the theorem that calling a function of the compiled program
    computes what its source says. */
module C4Program {
  import opened Layout
  import opened C4Syntax
  import opened C4Parser
  import opened C4Print
  import opened C4Machine
  import opened C4Frames
  import opened C4Correct

  type Ids = map<string, Ident>

  // ---- the compiler's declaration loop ----------------------------------------------------------

  datatype Names = BadNames | Names(rest: seq<Tok>, ids: Ids, next: nat)

  datatype Compiled = NoProgram | Compiled(ids: Ids, text: seq<int>)

  predicate IsLocal(ids: Ids, x: string) { x in ids && ids[x].Local? }

  function SkipComma(toks: seq<Tok>): (r: seq<Tok>)
    ensures |r| <= |toks|
  { if toks != [] && toks[0] == Comma then toks[1..] else toks }

  /** The parameters, up to the closing parenthesis; the k-th one gets Val k. */
  function ParseParams(toks: seq<Tok>, ids: Ids, i: nat): (r: Names)
    ensures r.Names? ==> |r.rest| < |toks|
    decreases |toks|
  {
    if toks == [] then BadNames
    else if toks[0] == RPar then Names(toks[1..], ids, i)
    else
      var t := if toks[0] == TInt then toks[1..] else toks;
      if t == [] || !t[0].TId? || IsLocal(ids, t[0].name) then BadNames
      else ParseParams(SkipComma(t[1..]), ids[t[0].name := Local(i)], i + 1)
  }

  // The names of one local declaration, up to the semicolon.
  function ParseNames(toks: seq<Tok>, ids: Ids, i: nat): (r: Names)
    ensures r.Names? ==> |r.rest| < |toks|
    decreases |toks|
  {
    if toks == [] then BadNames
    else if toks[0] == Semi then Names(toks[1..], ids, i)
    else if !toks[0].TId? || IsLocal(ids, toks[0].name) then BadNames
    else ParseNames(SkipComma(toks[1..]), ids[toks[0].name := Local(i + 1)], i + 1)
  }

  function ParseLocals(toks: seq<Tok>, ids: Ids, i: nat): (r: Names)
    ensures r.Names? ==> |r.rest| <= |toks| && r.next >= i
    decreases |toks|
  {
    if toks == [] || toks[0] != TInt then Names(toks, ids, i)
    else match ParseNames(toks[1..], ids, i)
      case BadNames => BadNames
      case Names(rest, ids', i') => if i' < i then BadNames else ParseLocals(rest, ids', i')
  }

  /** A function definition after its name and opening parenthesis. */
  function ParseFunction(ids: Ids, toks: seq<Tok>, code: seq<int>): (r: Parsed)
    ensures r.Done? ==> |r.rest| < |toks|
  {
    match ParseParams(toks, ids, 0)
    case BadNames => Fail
    case Names(rest, ids1, n) =>
      if rest == [] || rest[0] != LBrace then Fail
      else match ParseLocals(rest[1..], ids1, n + 1)
        case BadNames => Fail
        case Names(rest', ids2, i) =>
          Extend(ParseBlock(Env(n + 1, ids2), rest', code + [iENT, i - (n + 1)]), [iLEV])
  }

  /** The loop over the declarations; `data` is the next free word of global data. */
  function ParseDecls(ids: Ids, data: int, toks: seq<Tok>, code: seq<int>): Compiled
    decreases |toks|, 1
  {
    if toks == [] then Compiled(ids, code)
    else ParseDeclarators(ids, data, if toks[0] == TInt then toks[1..] else toks, code)
  }

  function ParseDeclarators(ids: Ids, data: int, toks: seq<Tok>, code: seq<int>): Compiled
    decreases |toks|, 0
  {
    if toks == [] then NoProgram
    else if toks[0] == Semi || toks[0] == RBrace then ParseDecls(ids, data, toks[1..], code)
    else if !toks[0].TId? || toks[0].name in ids then NoProgram
    else if |toks| > 1 && toks[1] == LPar then
      match ParseFunction(ids[toks[0].name := Fun(|code|)], toks[2..], code)
      case Fail => NoProgram
      case Done(rest, code') => ParseDecls(ids[toks[0].name := Fun(|code|)], data, rest, code')
    else ParseDeclarators(ids[toks[0].name := Global(data)], data + 1, SkipComma(toks[1..]), code)
  }

  // ---- programs ---------------------------------------------------------------------------------

  datatype Decl =
    | GlobalVar(name: string)
    | FnDecl(name: string, params: seq<string>, locals: seq<string>, body: seq<Stmt>)

  function PrintParams(params: seq<string>): seq<Tok> {
    if params == [] then [RPar]
    else [TInt, TId(params[0])] + (if |params| == 1 then [] else [Comma]) + PrintParams(params[1..])
  }

  function PrintLocals(locals: seq<string>): seq<Tok> {
    if locals == [] then [] else [TInt, TId(locals[0]), Semi] + PrintLocals(locals[1..])
  }

  // A function after its name and opening parenthesis.
  function PrintFunction(d: Decl): seq<Tok>
    requires d.FnDecl?
  {
    PrintParams(d.params) + ([LBrace] + (PrintLocals(d.locals) + (PrintStmts(d.body) + [RBrace])))
  }

  function PrintDecls(ds: seq<Decl>): seq<Tok> {
    if ds == [] then []
    else if ds[0].GlobalVar? then [TInt, TId(ds[0].name), Semi] + PrintDecls(ds[1..])
    else [TInt, TId(ds[0].name), LPar] + PrintFunction(ds[0]) + PrintDecls(ds[1..])
  }

  // Names bound to consecutive Vals, starting at `i`.
  function Bind(ids: Ids, names: seq<string>, i: nat): Ids
    decreases names
  {
    if names == [] then ids else Bind(ids[names[0] := Local(i)], names[1..], i + 1)
  }

  /** The environment of a function body: its parameters and locals over what is declared so far,
      itself included. */
  function BodyEnv(ids: Ids, d: Decl): Env
    requires d.FnDecl?
  {
    var n := |d.params|;
    Env(n + 1, Bind(Bind(ids, d.params, 0), d.locals, n + 2))
  }

  function FnOf(ids: Ids, d: Decl): Fn
    requires d.FnDecl?
  { Fn(|d.params|, |d.locals|, BodyEnv(ids, d), d.body) }

  predicate Distinct(names: seq<string>) {
    forall i, j | 0 <= i < j < |names| :: names[i] != names[j]
  }

  // What is declared after `d`, when `at` is the end of the text.
  function After(ids: Ids, data: int, at: nat, d: Decl): Ids {
    ids[d.name := if d.GlobalVar? then Global(data) else Fun(at)]
  }

  predicate GoodDecl(ids: Ids, at: nat, d: Decl) {
    && d.name !in ids
    && (d.FnDecl? ==>
          Distinct(d.params + d.locals) && GoodStmts(BodyEnv(ids[d.name := Fun(at)], d), d.body))
  }

  function DeclCode(ids: Ids, at: nat, d: Decl): seq<int>
    requires GoodDecl(ids, at, d)
  {
    if d.GlobalVar? then [] else FnCode(FnOf(ids[d.name := Fun(at)], d), at)
  }

  function DeclData(data: int, d: Decl): int { if d.GlobalVar? then data + 1 else data }

  /** Every name is declared once and before its use. */
  predicate GoodDecls(ids: Ids, data: int, at: nat, ds: seq<Decl>)
    decreases ds
  {
    ds == [] ||
    (GoodDecl(ids, at, ds[0]) &&
     GoodDecls(After(ids, data, at, ds[0]), DeclData(data, ds[0]), at + |DeclCode(ids, at, ds[0])|, ds[1..]))
  }

  function TextOf(ids: Ids, data: int, at: nat, ds: seq<Decl>): seq<int>
    requires GoodDecls(ids, data, at, ds)
    decreases ds
  {
    if ds == [] then []
    else var c := DeclCode(ids, at, ds[0]);
      c + TextOf(After(ids, data, at, ds[0]), DeclData(data, ds[0]), at + |c|, ds[1..])
  }

  function IdsOf(ids: Ids, data: int, at: nat, ds: seq<Decl>): Ids
    requires GoodDecls(ids, data, at, ds)
    decreases ds
  {
    if ds == [] then ids
    else IdsOf(After(ids, data, at, ds[0]), DeclData(data, ds[0]), at + |DeclCode(ids, at, ds[0])|, ds[1..])
  }

  /** The functions of the program, by entry. */
  function FnsOf(ids: Ids, data: int, at: nat, ds: seq<Decl>): Program
    requires GoodDecls(ids, data, at, ds)
    decreases ds
  {
    if ds == [] then map[]
    else
      var c := DeclCode(ids, at, ds[0]);
      var later := FnsOf(After(ids, data, at, ds[0]), DeclData(data, ds[0]), at + |c|, ds[1..]);
      if ds[0].GlobalVar? then later else later[at as int := FnOf(ids[ds[0].name := Fun(at)], ds[0])]
  }

  // ---- names and frames ---------------------------------------------------------------------------

  // Every identifier has the class and place the compiler keeps it in.
  ghost predicate Placed(ids: Ids, n: nat, m: nat) {
    forall x | x in ids ::
      match ids[x] case Local(val) => InFrame(val, n, m) case Global(addr) => addr > TOP case Fun(_) => true
  }

  lemma {:induction false} BindPlaced(ids: Ids, names: seq<string>, i: nat, n: nat, m: nat)
    requires Placed(ids, n, m) && (i + |names| <= n || (n + 2 <= i && i + |names| <= n + 2 + m))
    ensures Placed(Bind(ids, names, i), n, m)
    decreases names
  {
    if names != [] { BindPlaced(ids[names[0] := Local(i)], names[1..], i + 1, n, m); }
  }

  // No identifier outside a function is local.
  ghost predicate Toplevel(ids: Ids) {
    forall x | x in ids :: match ids[x] case Local(_) => false case Global(addr) => addr > TOP case Fun(_) => true
  }

  /** The operands of a body's variables lie in the frame that ENT makes. */
  lemma BodyFrame(ids: Ids, d: Decl)
    requires d.FnDecl? && Toplevel(ids)
    ensures FnEnv(BodyEnv(ids, d), |d.params|, |d.locals|)
  {
    var n, m := |d.params|, |d.locals|;
    BindPlaced(ids, d.params, 0, n, m);
    BindPlaced(Bind(ids, d.params, 0), d.locals, n + 2, n, m);
  }

  // ---- reading declarations -----------------------------------------------------------------------

  lemma {:induction false} BindLocal(ids: Ids, names: seq<string>, i: nat, x: string)
    requires !IsLocal(ids, x) && x !in names
    ensures !IsLocal(Bind(ids, names, i), x)
    decreases names
  {
    if names != [] { BindLocal(ids[names[0] := Local(i)], names[1..], i + 1, x); }
  }

  // None of the names is taken yet.
  ghost predicate Free(ids: Ids, names: seq<string>) {
    Distinct(names) && forall k | 0 <= k < |names| :: !IsLocal(ids, names[k])
  }

  lemma FreeTail(ids: Ids, names: seq<string>, i: nat)
    requires Free(ids, names) && names != []
    ensures Free(ids[names[0] := Local(i)], names[1..]) && !IsLocal(ids, names[0])
  {
    assert forall k | 0 <= k < |names[1..]| :: names[1..][k] == names[k + 1];
  }

  lemma ParamStep(ids: Ids, p: string, comma: seq<Tok>, later: seq<Tok>, i: nat)
    requires !IsLocal(ids, p) && (comma == [Comma] || (comma == [] && later != [] && later[0] != Comma))
    ensures ParseParams([TInt, TId(p)] + comma + later, ids, i) == ParseParams(later, ids[p := Local(i)], i + 1)
  {
    var toks := [TInt, TId(p)] + comma + later;
    assert toks[1..][1..] == comma + later;
    assert SkipComma(comma + later) == later by { if comma == [] { assert comma + later == later; } }
  }

  lemma ParamsNone(ids: Ids, i: nat, rest: seq<Tok>)
    ensures ParseParams(PrintParams([]) + rest, ids, i) == Names(rest, ids, i)
  { assert ([RPar] + rest)[1..] == rest; }

  lemma ParamsShape(params: seq<string>)
    ensures PrintParams(params) != [] && PrintParams(params)[0] != Comma
    ensures params != [] ==>
      PrintParams(params) == [TInt, TId(params[0])] + (if |params| == 1 then [] else [Comma]) + PrintParams(params[1..])
  { }

  lemma {:induction false} ParamsRead(ids: Ids, params: seq<string>, i: nat, rest: seq<Tok>)
    requires Free(ids, params)
    ensures ParseParams(PrintParams(params) + rest, ids, i) == Names(rest, Bind(ids, params, i), i + |params|)
    decreases params
  {
    hide ParseParams, PrintParams, Free;
    if params == [] {
      ParamsNone(ids, i, rest);
    } else {
      FreeTail(ids, params, i);
      var p, q := params[0], PrintParams(params[1..]);
      var comma := if |params| == 1 then [] else [Comma];
      ParamsShape(params);
      ParamsShape(params[1..]);
      ParamStep(ids, p, comma, q + rest, i);
      assert [TInt, TId(p)] + comma + q + rest == [TInt, TId(p)] + comma + (q + rest);
      ParamsRead(ids[p := Local(i)], params[1..], i + 1, rest);
    }
  }

  lemma LocalStep(ids: Ids, x: string, later: seq<Tok>, i: nat)
    requires !IsLocal(ids, x)
    ensures ParseLocals([TInt, TId(x), Semi] + later, ids, i) == ParseLocals(later, ids[x := Local(i + 1)], i + 1)
  {
    var ids' := ids[x := Local(i + 1)];
    var toks := [TInt, TId(x), Semi] + later;
    assert toks[1..][0] == TId(x) && toks[1..][1..] == [Semi] + later;
    assert ([Semi] + later)[1..] == later;
    assert ParseNames([Semi] + later, ids', i + 1) == Names(later, ids', i + 1);
    assert ParseNames(toks[1..], ids, i) == ParseNames([Semi] + later, ids', i + 1);
  }

  lemma LocalsNone(ids: Ids, i: nat, rest: seq<Tok>)
    requires rest == [] || rest[0] != TInt
    ensures ParseLocals([] + rest, ids, i) == Names(rest, ids, i)
  { assert [] + rest == rest; }

  lemma LocalsShape(locals: seq<string>)
    ensures PrintLocals(locals) == if locals == [] then [] else [TInt, TId(locals[0]), Semi] + PrintLocals(locals[1..])
  { }

  lemma {:induction false} LocalsRead(ids: Ids, locals: seq<string>, i: nat, rest: seq<Tok>)
    requires Free(ids, locals) && (rest == [] || rest[0] != TInt)
    ensures ParseLocals(PrintLocals(locals) + rest, ids, i) == Names(rest, Bind(ids, locals, i + 1), i + |locals|)
    decreases locals
  {
    hide ParseLocals, Free, PrintLocals;
    LocalsShape(locals);
    if locals == [] {
      LocalsNone(ids, i, rest);
    } else {
      FreeTail(ids, locals, i + 1);
      var x, q := locals[0], PrintLocals(locals[1..]);
      LocalStep(ids, x, q + rest, i);
      assert [TInt, TId(x), Semi] + q + rest == [TInt, TId(x), Semi] + (q + rest);
      LocalsRead(ids[x := Local(i + 1)], locals[1..], i + 1, rest);
    }
  }

  lemma {:induction false} BindFree(ids: Ids, names: seq<string>, i: nat, more: seq<string>)
    requires Free(ids, names + more)
    ensures Free(Bind(ids, names, i), more)
    decreases names
  {
    if names == [] {
      assert names + more == more;
    } else {
      FreeTail(ids, names + more, i);
      assert (names + more)[1..] == names[1..] + more;
      BindFree(ids[names[0] := Local(i)], names[1..], i + 1, more);
    }
  }

  lemma FreePrefix(ids: Ids, names: seq<string>, more: seq<string>)
    requires Free(ids, names + more)
    ensures Free(ids, names)
  {
    assert forall k | 0 <= k < |names| :: (names + more)[k] == names[k];
  }

  // A body does not start with a declaration.
  lemma BodyStart(env: Env, ss: seq<Stmt>, rest: seq<Tok>)
    requires GoodStmts(env, ss)
    ensures var toks := PrintStmts(ss) + ([RBrace] + rest); toks != [] && toks[0] != TInt
  {
    if ss != [] && ss[0].Do? { FirstToken(env, ss[0].e, ASSIGN); }
  }

  /** A printed function compiles to its code. */
  lemma FunctionReads(ids: Ids, d: Decl, rest: seq<Tok>, code: seq<int>)
    requires d.FnDecl? && Toplevel(ids) && Distinct(d.params + d.locals) && GoodStmts(BodyEnv(ids, d), d.body)
    ensures ParseFunction(ids, PrintFunction(d) + rest, code) == Done(rest, code + FnCode(FnOf(ids, d), |code|))
  {
    hide ParseParams, ParseLocals, ParseBlock, PrintParams, PrintLocals, PrintStmts, GenStmts, Bind;
    assert Free(ids, d.params + d.locals);
    FreePrefix(ids, d.params, d.locals);
    BindFree(ids, d.params, 0, d.locals);
    hide Free;
    var n, m, env := |d.params|, |d.locals|, BodyEnv(ids, d);
    var body := PrintStmts(d.body) + ([RBrace] + rest);
    var locals := PrintLocals(d.locals) + body;
    FunctionTokens(d, rest);
    ParamsRead(ids, d.params, 0, [LBrace] + locals);
    assert ([LBrace] + locals)[1..] == locals;
    BodyStart(env, d.body, rest);
    LocalsRead(Bind(ids, d.params, 0), d.locals, n + 1, body);
    var c := code + [iENT, m];
    BlockReads(env, d.body, rest, c);
    Flat(code, [iENT, m], GenStmts(env, d.body, |c|), [iLEV], [], []);
  }

  lemma FunctionTokens(d: Decl, rest: seq<Tok>)
    requires d.FnDecl?
    ensures PrintFunction(d) + rest ==
            PrintParams(d.params) + ([LBrace] + (PrintLocals(d.locals) + (PrintStmts(d.body) + ([RBrace] + rest))))
  {
    hide PrintParams, PrintLocals, PrintStmts;
    Regroup(PrintStmts(d.body), [RBrace], rest);
    Regroup(PrintLocals(d.locals), PrintStmts(d.body) + [RBrace], rest);
    Regroup([LBrace], PrintLocals(d.locals) + (PrintStmts(d.body) + [RBrace]), rest);
    Regroup(PrintParams(d.params), [LBrace] + (PrintLocals(d.locals) + (PrintStmts(d.body) + [RBrace])), rest);
  }

  // ---- whole programs -----------------------------------------------------------------------------

  lemma GlobalStep(ids: Ids, data: int, x: string, later: seq<Tok>, code: seq<int>)
    requires x !in ids
    ensures ParseDecls(ids, data, [TInt, TId(x), Semi] + later, code) ==
        ParseDecls(ids[x := Global(data)], data + 1, later, code)
  {
    hide ParseFunction;
    var toks := [TInt, TId(x), Semi] + later;
    assert toks[1..][1..] == [Semi] + later && toks[1..][1] == Semi;
    assert ([Semi] + later)[1..] == later;
    assert ParseDeclarators(ids[x := Global(data)], data + 1, [Semi] + later, code) ==
      ParseDecls(ids[x := Global(data)], data + 1, later, code);
  }

  lemma FunctionStep(ids: Ids, data: int, f: string, def: seq<Tok>, later: seq<Tok>, code: seq<int>, code': seq<int>)
    requires f !in ids && ParseFunction(ids[f := Fun(|code|)], def + later, code) == Done(later, code')
    ensures ParseDecls(ids, data, [TInt, TId(f), LPar] + def + later, code) ==
            ParseDecls(ids[f := Fun(|code|)], data, later, code')
  {
    hide ParseFunction;
    var toks := [TInt, TId(f), LPar] + def + later;
    assert toks[1..][2..] == def + later && toks[1..][0] == TId(f) && toks[1..][1] == LPar;
  }

  /** A printed program compiles to the code of its functions, in order. */
  lemma {:induction false} ProgramReads(ids: Ids, data: int, ds: seq<Decl>, code: seq<int>)
    requires Toplevel(ids) && data > TOP && GoodDecls(ids, data, |code|, ds)
    ensures ParseDecls(ids, data, PrintDecls(ds), code) ==
            Compiled(IdsOf(ids, data, |code|, ds), code + TextOf(ids, data, |code|, ds))
    decreases ds
  {
    hide GoodDecl, DeclCode, ParseDecls, PrintDecls, DeclTokens;
    if ds == [] {
      NoDecls(ids, data, code);
    } else {
      var d, later := ds[0], PrintDecls(ds[1..]);
      var c := DeclCode(ids, |code|, d);
      var ids' := After(ids, data, |code|, d);
      ProgramReads(ids', DeclData(data, d), ds[1..], code + c);
      DeclReads(ids, data, d, later, code);
      Flat(code, c, TextOf(ids', DeclData(data, d), |code| + |c|, ds[1..]), [], [], []);
      DeclsShape(ds);
    }
  }

  lemma NoDecls(ids: Ids, data: int, code: seq<int>)
    ensures ParseDecls(ids, data, PrintDecls([]), code) == Compiled(ids, code)
    ensures code + [] == code
  { }

  function DeclTokens(d: Decl): seq<Tok> {
    if d.GlobalVar? then [TInt, TId(d.name), Semi] else [TInt, TId(d.name), LPar] + PrintFunction(d)
  }

  lemma DeclsShape(ds: seq<Decl>)
    requires ds != []
    ensures PrintDecls(ds) == DeclTokens(ds[0]) + PrintDecls(ds[1..])
  { hide PrintFunction; }

  lemma DeclReads(ids: Ids, data: int, d: Decl, later: seq<Tok>, code: seq<int>)
    requires Toplevel(ids) && GoodDecl(ids, |code|, d)
    ensures ParseDecls(ids, data, DeclTokens(d) + later, code) ==
            ParseDecls(After(ids, data, |code|, d), DeclData(data, d), later, code + DeclCode(ids, |code|, d))
  {
    hide ParseDecls, PrintFunction, GoodStmts, FnCode, ParseFunction, BodyEnv;
    if d.GlobalVar? {
      GlobalStep(ids, data, d.name, later, code);
      assert code + [] == code;
    } else {
      var ids' := ids[d.name := Fun(|code|)];
      FunctionReads(ids', d, later, code);
      FunctionStep(ids, data, d.name, PrintFunction(d), later, code, code + FnCode(FnOf(ids', d), |code|));
    }
  }

  lemma AtPrefix(a: seq<int>, c: seq<int>, b: seq<int>)
    ensures At(a + c + b, |a|, c)
  { assert (a + c + b)[|a|..|a| + |c|] == c; }

  /** The text holds every function of the program at its entry. */
  lemma {:induction false} ProgramLinked(ids: Ids, data: int, ds: seq<Decl>, code: seq<int>)
    requires Toplevel(ids) && data > TOP && GoodDecls(ids, data, |code|, ds)
    ensures Linked(code + TextOf(ids, data, |code|, ds), FnsOf(ids, data, |code|, ds))
    decreases ds
  {
    hide GoodStmts, FnCode, FnEnv, BodyEnv, At;
    if ds != [] {
      var d := ds[0];
      var c := DeclCode(ids, |code|, d);
      var ids' := After(ids, data, |code|, d);
      ProgramLinked(ids', DeclData(data, d), ds[1..], code + c);
      var later := TextOf(ids', DeclData(data, d), |code| + |c|, ds[1..]);
      Flat(code, c, later, [], [], []);
      if d.FnDecl? {
        BodyFrame(ids', d);
        AtPrefix(code, c, later);
        assert LinkedAt(code + c + later, FnOf(ids', d), |code|);
      }
    }
  }

  /** c4 is correct for whole programs: calling a function of the compiled text, with its arguments
      and a return address on the stack, comes back to that address with the value and global data
      that the source gives, and with the caller's stack and `bp` intact. */
  lemma CompiledCall(ds: seq<Decl>, f: int, vm: Vm, sp: int, vs: seq<int>, st: St, fuel: nat) returns (vm': Vm)
    requires GoodDecls(map[], TOP + 1, 0, ds)
    requires var prog := FnsOf(map[], TOP + 1, 0, ds); Invoke(prog, f, vs, st, fuel).Value?
    requires vm.pc == f && vm.sp == sp - |vs| - 1 && sp <= TOP && Passed(vm.mem, sp, vs)
    requires forall x | x > TOP :: Get(vm.mem, x) == Get(st.globals, x)
    ensures var c := ParseDecls(map[], TOP + 1, PrintDecls(ds), []);
            var o := Invoke(FnsOf(map[], TOP + 1, 0, ds), f, vs, st, fuel);
            c.Compiled? && Served(c.text, vm, vm', sp, o.v, o.st.globals)
  {
    hide *;
    var ids: Ids := map[];
    assert Toplevel(ids) by { EmptyToplevel(); }
    ProgramReads(ids, TOP + 1, ds, []);
    ProgramLinked(ids, TOP + 1, ds, []);
    vm' := InvokeRuns([] + TextOf(ids, TOP + 1, 0, ds), FnsOf(ids, TOP + 1, 0, ds), vm, sp, vs, st, fuel);
  }

  lemma EmptyToplevel()
    ensures Toplevel(map[])
  { }
}
