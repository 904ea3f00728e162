/** A condition on the program text under which no run clobbers. */
module CallPrograms {
  import opened CallSpec
  import opened CallDiscipline

  /** No reference argument names a parameter that holds a value by then. */
  predicate ClearOfValues(params: seq<Param>, args: Args, values: set<string>)
    decreases |params|
  {
    params != [] ==>
      && (NamesVar(params[0], args) ==> args.head.name !in values)
      && ClearOfValues(params[1..], RestArgs(args),
                       if NamesVar(params[0], args) then values - {params[0].name} else values + {params[0].name})
  }

  predicate WfExpr(p: Program, e: Expr) {
    match e
    case Lit(_) => true
    case Var(_) => true
    case Binary(_, left, right) => WfExpr(p, left) && WfExpr(p, right)
    case AssignTo(_, value) => WfExpr(p, value)
    case Call(f, args) => WfArgs(p, args) && (f in p.funcs ==> ClearOfValues(p.funcs[f].params, args, {}))
  }

  predicate WfArgs(p: Program, args: Args) {
    args.Arg? ==> WfExpr(p, args.head) && WfArgs(p, args.tail)
  }

  predicate WfStmt(p: Program, st: Stmt) {
    match st
    case Do(e) => WfExpr(p, e)
    case If(cond, yes, no) => WfExpr(p, cond) && WfBlock(p, yes) && WfBlock(p, no)
    case While(cond, body) => WfExpr(p, cond) && WfBlock(p, body)
    case Return(e) => WfExpr(p, e)
    case Throw(e) => WfExpr(p, e)
    case _ => true
  }

  predicate WfBlock(p: Program, b: Block) {
    b.Then? ==> WfStmt(p, b.first) && WfBlock(p, b.rest)
  }

  predicate WfParams(p: Program, params: seq<Param>) {
    forall i :: 0 <= i < |params| && params[i].default.Some? ==> WfExpr(p, params[i].default.value)
  }

  predicate WfProgram(p: Program) {
    forall f :: f in p.funcs ==> WfBlock(p, p.funcs[f].body) && WfParams(p, p.funcs[f].params)
  }

  // ----- such a program never clobbers

  lemma {:induction false} EvalClear(p: Program, fuel: nat, e: Expr, s: State)
    requires WfProgram(p) && WfExpr(p, e)
    ensures EvalSpares(p, fuel, e, s)
    decreases fuel, 0, e
  {
    hide WfProgram, Eval, InvokeSpares;
    match e {
      case Lit(_) =>
      case Var(_) =>
      case Binary(_, left, right) =>
        EvalClear(p, fuel, left, s);
        EvalClear(p, fuel, right, Eval(p, fuel, left, s).1);
      case AssignTo(_, value) => EvalClear(p, fuel, value, s);
      case Call(f, args) =>
        if f in p.funcs && fuel > 0 {
          FuncIsWf(p, f);
          InvokeClear(p, fuel - 1, p.funcs[f], args, s);
        }
    }
  }

  lemma FuncIsWf(p: Program, f: string)
    requires WfProgram(p) && f in p.funcs
    ensures WfBlock(p, p.funcs[f].body) && WfParams(p, p.funcs[f].params)
  {
  }

  lemma {:induction false} InvokeClear(p: Program, fuel: nat, fn: Func, args: Args, s: State)
    requires WfProgram(p) && WfBlock(p, fn.body) && WfParams(p, fn.params) && WfArgs(p, args)
    requires ClearOfValues(fn.params, args, {})
    ensures InvokeSpares(p, fuel, fn, args, s)
    decreases fuel, 4
  {
    hide WfProgram, Entered, BindSpares, BlockSpares;
    BindClear(p, fuel, fn.params, args, s, WithSaved(s), map[], {});
    BlockClear(p, fuel, fn.body, Entered(p, fuel, fn, args, s).1);
  }

  lemma {:induction false} BindClear(p: Program, fuel: nat, params: seq<Param>, args: Args, s0: State, s: State,
                                     held: Bindings, values: set<string>)
    requires WfProgram(p) && WfParams(p, params) && WfArgs(p, args) && ClearOfValues(params, args, values)
    requires forall z :: z in held && held[z].None? ==> z in values
    ensures BindSpares(p, fuel, params, args, s0, s, held)
    decreases fuel, 2, |params|
  {
    hide WfProgram, EvalSpares, BoundFirst, TargetOf;
    if params != [] {
      if ArgExpr(params[0], args).Some? {
        EvalClear(p, fuel, ArgExpr(params[0], args).value, s);
      }
      var next := BoundFirst(p, fuel, params[0], args, |s0.scopes|, s);
      if next.Some? {
        BindClear(p, fuel, params[1..], RestArgs(args), s0, next.value, HeldNext(s0, params[0], args, held),
                  if NamesVar(params[0], args) then values - {params[0].name} else values + {params[0].name});
      }
    }
  }

  lemma {:induction false} StmtClear(p: Program, fuel: nat, st: Stmt, s: State)
    requires WfProgram(p) && WfStmt(p, st)
    ensures StmtSpares(p, fuel, st, s)
    decreases fuel, 1, st, 0
  {
    hide WfProgram, Eval, EvalSpares, BlockSpares, WhileSpares;
    match st {
      case Do(e) => EvalClear(p, fuel, e, s);
      case If(cond, yes, no) =>
        EvalClear(p, fuel, cond, s);
        var (v, s1) := Eval(p, fuel, cond, s);
        if v.Got? {
          BlockClear(p, fuel, if Truthy(v.val) then yes else no, s1);
        }
      case While(cond, body) => WhileClear(p, fuel, cond, body, s);
      case Return(e) => EvalClear(p, fuel, e, s);
      case Throw(e) => EvalClear(p, fuel, e, s);
      case _ =>
    }
  }

  lemma {:induction false} BlockClear(p: Program, fuel: nat, b: Block, s: State)
    requires WfProgram(p) && WfBlock(p, b)
    ensures BlockSpares(p, fuel, b, s)
    decreases fuel, 1, b, 0
  {
    hide WfProgram, Exec, StmtSpares;
    if b.Then? && !s.exiting {
      StmtClear(p, fuel, b.first, s);
      BlockClear(p, fuel, b.rest, Exec(p, fuel, b.first, s).1);
    }
  }

  lemma {:induction false} WhileClear(p: Program, fuel: nat, cond: Expr, body: Block, s: State)
    requires WfProgram(p) && WfExpr(p, cond) && WfBlock(p, body)
    ensures WhileSpares(p, fuel, cond, body, s)
    decreases fuel, 1, body, 1
  {
    hide WfProgram, Eval, ExecBlock, EvalSpares, BlockSpares;
    EvalClear(p, fuel, cond, s);
    var s1 := Eval(p, fuel, cond, s).1;
    BlockClear(p, fuel, body, s1);
    if fuel > 0 {
      WhileClear(p, fuel - 1, cond, body, ExecBlock(p, fuel, body, s1).1);
    }
  }

  /** In such a program every run of every block, from any state, clobbers nothing and keeps the frame. */
  lemma ClearProgramKeepsFrame(p: Program, fuel: nat, b: Block, s: State)
    requires WfProgram(p) && WfBlock(p, b) && RefsOk(s) && ExecBlock(p, fuel, b, s).0.Got?
    ensures BlockSpares(p, fuel, b, s) && Frame(s, ExecBlock(p, fuel, b, s).1)
  {
    BlockClear(p, fuel, b, s);
    BlockFrame(p, fuel, b, s);
  }
}
