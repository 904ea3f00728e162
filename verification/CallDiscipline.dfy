/**
 What every call keeps: the caller's slots, its references, the saved scopes further out and
 the argument stack; a reference parameter hands its last value to its argument.
 */
module CallDiscipline {
  import opened CallSpec
  import opened Wrappers

  // ----- references and what may change

  /** The cells that the running scope's references lead to. */
  function Visible(s: State): set<(nat, string)> {
    set x | x in Running(s) && Running(s)[x].Ref? :: (Running(s)[x].scope, Running(s)[x].name)
  }

  /** References lead to plain cells of scopes that are not running. */
  ghost predicate RefsOk(s: State) {
    && s.cur < |s.scopes|
    && forall x :: x in Running(s) && Running(s)[x].Ref? ==>
        var r := Running(s)[x];
        r.scope < |s.scopes| && r.scope != s.cur && !Cell(s, r.scope, r.name).Ref?
  }

  /** The same names are references, to the same cells. */
  ghost predicate SameRefs(a: State, b: State) {
    forall x :: SameRef(a, b, x)
  }

  predicate SameRef(a: State, b: State, x: string) {
    Slot(a, x).Ref? || Slot(b, x).Ref? ==> Slot(a, x) == Slot(b, x)
  }

  /** A cell may change only where a visible reference leads, and then to a plain value. */
  predicate CellKept(a: State, b: State, visible: set<(nat, string)>, i: nat, x: string) {
    Cell(b, i, x) == Cell(a, i, x) || ((i, x) in visible && !Cell(b, i, x).Ref?)
  }

  /** What running any piece of code leaves alone. */
  ghost predicate Frame(a: State, b: State) {
    && |a.scopes| <= |b.scopes|
    && (b.cur == a.cur || b.cur >= |a.scopes|)
    && b.cur < |b.scopes|
    && b.frames == a.frames
    && SameRefs(a, b)
    && forall i: nat, x :: i < |a.scopes| && i != a.cur ==> CellKept(a, b, Visible(a), i, x)
  }

  lemma FrameRefl(a: State)
    requires RefsOk(a)
    ensures Frame(a, a)
  {
  }

  lemma SameRefsVisible(a: State, b: State)
    requires SameRefs(a, b)
    ensures Visible(a) == Visible(b)
  {
    forall c | c in Visible(a) ensures c in Visible(b) {
      var x :| x in Running(a) && Running(a)[x].Ref? && c == (Running(a)[x].scope, Running(a)[x].name);
      assert SameRef(a, b, x);
    }
    forall c | c in Visible(b) ensures c in Visible(a) {
      var x :| x in Running(b) && Running(b)[x].Ref? && c == (Running(b)[x].scope, Running(b)[x].name);
      assert SameRef(a, b, x);
    }
  }

  lemma FrameTrans(a: State, b: State, c: State)
    requires Frame(a, b) && Frame(b, c)
    ensures Frame(a, c)
  {
    hide Slot, Cell, Visible;
    SameRefsVisible(a, b);
    forall x ensures SameRef(a, c, x) {
      assert SameRef(a, b, x) && SameRef(b, c, x);
    }
    forall i: nat, x | i < |a.scopes| && i != a.cur ensures CellKept(a, c, Visible(a), i, x) {
      assert CellKept(a, b, Visible(a), i, x);
      assert CellKept(b, c, Visible(b), i, x);
    }
  }

  lemma FrameKeepsRefs(a: State, b: State)
    requires RefsOk(a) && Frame(a, b)
    ensures RefsOk(b)
  {
    forall x | x in Running(b) && Running(b)[x].Ref?
      ensures var r := Running(b)[x]; r.scope < |b.scopes| && r.scope != b.cur && !Cell(b, r.scope, r.name).Ref?
    {
      var r := Running(b)[x];
      assert SameRef(a, b, x);
      assert CellKept(a, b, Visible(a), r.scope, r.name);
    }
  }

  lemma ReadIsPlain(s: State, x: string)
    requires RefsOk(s)
    ensures !Read(s, x).Ref?
  {
  }

  lemma WriteFrame(s: State, x: string, v: Value)
    requires RefsOk(s) && !v.Ref?
    ensures Frame(s, Write(s, x, v))
    ensures Read(Write(s, x, v), x) == v
  {
  }

  // ----- what a reference argument is bound to

  /** The parameters bound so far: None for a plain value, Some for a reference. */
  type Bindings = map<string, Option<Value>>

  /** Where the reference made for the argument x leads: parameters bound before hide the caller's names. */
  function TargetOf(s0: State, held: Bindings, x: string): Value {
    if x !in held then RefFor(s0, |s0.scopes|, x)
    else if held[x].Some? then held[x].value
    else Ref(|s0.scopes|, x)
  }

  /**
   The last earlier parameter named x is absent, or holds a value while the caller's own slot
   of x is plain, or holds a reference to the very cell that x stands for.
   */
  predicate Aims(s0: State, held: Bindings, x: string) {
    x !in held || (held[x].None? && !Slot(s0, x).Ref?) || held[x] == Some(RefFor(s0, |s0.scopes|, x))
  }

  /** The reference would lead to the slot in which the caller itself keeps a reference. */
  predicate Clobbers(s0: State, held: Bindings, x: string) {
    x in held && held[x].None? && Slot(s0, x).Ref?
  }

  predicate NamesVar(param: Param, args: Args) {
    param.byRef && args.Arg? && args.head.Var?
  }

  function RestArgs(args: Args): Args {
    if args.Arg? then args.tail else args
  }

  function HeldNext(s0: State, param: Param, args: Args, held: Bindings): Bindings {
    held[param.name := if NamesVar(param, args) then Some(TargetOf(s0, held, args.head.name)) else None]
  }

  function Held(s0: State, params: seq<Param>, args: Args, held: Bindings): Bindings
    decreases |params|
  {
    if params == [] then held else Held(s0, params[1..], RestArgs(args), HeldNext(s0, params[0], args, held))
  }

  function ArgNames(params: seq<Param>, args: Args): set<string>
    decreases |params|
  {
    if params == [] then {}
    else (if NamesVar(params[0], args) then {args.head.name} else {}) + ArgNames(params[1..], RestArgs(args))
  }

  // ----- runs whose calls clobber nothing

  predicate EvalSpares(p: Program, fuel: nat, e: Expr, s: State)
    decreases fuel, 0, e
  {
    match e
    case Lit(_) => true
    case Var(_) => true
    case Binary(_, left, right) =>
      EvalSpares(p, fuel, left, s) &&
      var (a, s1) := Eval(p, fuel, left, s);
      a.Got? ==> EvalSpares(p, fuel, right, s1)
    case AssignTo(_, value) => EvalSpares(p, fuel, value, s)
    case Call(f, args) => f in p.funcs && fuel > 0 ==> InvokeSpares(p, fuel - 1, p.funcs[f], args, s)
  }

  predicate BindSpares(p: Program, fuel: nat, params: seq<Param>, args: Args, s0: State, s: State, held: Bindings)
    decreases fuel, 2, |params|
  {
    params != [] ==>
      && (NamesVar(params[0], args) ==> !Clobbers(s0, held, args.head.name))
      && FirstSpares(p, fuel, params[0], args, s)
      && var next := BoundFirst(p, fuel, params[0], args, |s0.scopes|, s);
         next.Some? ==> BindSpares(p, fuel, params[1..], RestArgs(args), s0, next.value, HeldNext(s0, params[0], args, held))
  }

  /** The calls inside the first argument, or default, clobber nothing. */
  predicate FirstSpares(p: Program, fuel: nat, param: Param, args: Args, s: State)
    decreases fuel, 1
  {
    ArgExpr(param, args).Some? ==> EvalSpares(p, fuel, ArgExpr(param, args).value, s)
  }

  predicate InvokeSpares(p: Program, fuel: nat, fn: Func, args: Args, s: State)
    decreases fuel, 4
  {
    BindSpares(p, fuel, fn.params, args, s, WithSaved(s), map[]) &&
    var (b, s1) := Entered(p, fuel, fn, args, s);
    b.Got? ==> BlockSpares(p, fuel, fn.body, s1)
  }

  predicate StmtSpares(p: Program, fuel: nat, st: Stmt, s: State)
    decreases fuel, 1, st, 0
  {
    match st
    case Do(e) => EvalSpares(p, fuel, e, s)
    case If(cond, yes, no) =>
      EvalSpares(p, fuel, cond, s) &&
      var (v, s1) := Eval(p, fuel, cond, s);
      v.Got? ==> BlockSpares(p, fuel, if Truthy(v.val) then yes else no, s1)
    case While(cond, body) => WhileSpares(p, fuel, cond, body, s)
    case Return(e) => EvalSpares(p, fuel, e, s)
    case Throw(e) => EvalSpares(p, fuel, e, s)
    case _ => true
  }

  predicate BlockSpares(p: Program, fuel: nat, b: Block, s: State)
    decreases fuel, 1, b, 0
  {
    b.Then? && !s.exiting ==>
      StmtSpares(p, fuel, b.first, s) &&
      var (r, s1) := Exec(p, fuel, b.first, s);
      r == Got(Normal) ==> BlockSpares(p, fuel, b.rest, s1)
  }

  predicate WhileSpares(p: Program, fuel: nat, cond: Expr, body: Block, s: State)
    decreases fuel, 1, body, 1
  {
    EvalSpares(p, fuel, cond, s) &&
    var (v, s1) := Eval(p, fuel, cond, s);
    v.Got? && Truthy(v.val) ==>
      BlockSpares(p, fuel, body, s1) &&
      var (r, s2) := ExecBlock(p, fuel, body, s1);
      r.Got? && AfterRound(r.val, s2.exiting).None? && fuel > 0 ==> WhileSpares(p, fuel - 1, cond, body, s2)
  }

  /** The expression that a parameter's value is computed from, if there is one. */
  function ArgExpr(param: Param, args: Args): Option<Expr> {
    if NamesVar(param, args) then None else if args.Arg? then Some(args.head) else param.default
  }

  /** The state after the first parameter is bound, if its argument evaluates. */
  function BoundFirst(p: Program, fuel: nat, param: Param, args: Args, saved: nat, s: State): Option<State>
  {
    if NamesVar(param, args) then Some(SetSlot(s, param.name, RefFor(s, saved, args.head.name)))
    else
      match ArgExpr(param, args)
      case None => Some(SetSlot(s, param.name, Null))
      case Some(e) =>
        var (v, s1) := Eval(p, fuel, e, s);
        if v.Got? then Some(SetSlot(s1, param.name, v.val)) else None
  }

  // ----- binding the parameters

  /** The cells that a call from s may change: those seen by the caller, and its own named arguments. */
  function Allowed(s: State, names: set<string>): set<(nat, string)> {
    Visible(s) + set x | x in names && !Slot(s, x).Ref? :: (|s.scopes|, x)
  }

  /** A bound name's slot is as recorded, any other is a reference exactly when it was one for the caller. */
  predicate SlotHeld(s0: State, s: State, held: Bindings, x: string) {
    if x !in held then SameRef(s0, s, x)
    else if held[x].Some? then held[x].value.Ref? && Slot(s, x) == held[x].value
    else !Slot(s, x).Ref?
  }

  /** During the binding for a call from s0, with the parameters in `held` bound so far. */
  ghost predicate Binding(s0: State, s: State, held: Bindings, names: set<string>) {
    var k := |s0.scopes|;
    && k < |s.scopes|
    && (s.cur == s0.cur || s.cur > k)
    && s.frames == s0.frames
    && RefsOk(s)
    && (forall x :: SlotHeld(s0, s, held, x))
    && Visible(s) <= Allowed(s0, names)
    && forall i: nat, x :: i <= k && i != s0.cur ==> CellKept(WithSaved(s0), s, Allowed(s0, names), i, x)
  }

  lemma BindingStarts(s0: State, names: set<string>)
    requires RefsOk(s0)
    ensures Binding(s0, WithSaved(s0), map[], names)
  {
  }

  lemma BindingRuns(s0: State, s: State, t: State, held: Bindings, names: set<string>)
    requires s0.cur < |s0.scopes|
    requires Binding(s0, s, held, names) && Frame(s, t)
    ensures Binding(s0, t, held, names)
  {
    hide Slot, Cell, Visible, Allowed;
    FrameKeepsRefs(s, t);
    SameRefsVisible(s, t);
    forall x ensures SlotHeld(s0, t, held, x) {
      assert SlotHeld(s0, s, held, x) && SameRef(s, t, x);
    }
    forall i: nat, x | i <= |s0.scopes| && i != s0.cur ensures CellKept(WithSaved(s0), t, Allowed(s0, names), i, x) {
      assert CellKept(WithSaved(s0), s, Allowed(s0, names), i, x);
      assert CellKept(s, t, Visible(s), i, x);
    }
  }

  /** Binding one more name, to a plain value or to an allowed cell. */
  lemma BindingSets(s0: State, s: State, held: Bindings, names: set<string>, x: string, v: Value)
    requires s0.cur < |s0.scopes|
    requires Binding(s0, s, held, names)
    requires v.Ref? ==>
      (v.scope, v.name) in Allowed(s0, names) && v.scope < |s.scopes| && v.scope != s.cur && !Cell(s, v.scope, v.name).Ref?
    ensures Binding(s0, SetSlot(s, x, v), held[x := if v.Ref? then Some(v) else None], names)
  {
    hide Allowed;
    var t := SetSlot(s, x, v);
    var more := held[x := if v.Ref? then Some(v) else None];
    assert Running(t) == Running(s)[x := v];
    forall y ensures SlotHeld(s0, t, more, y) {
      assert SlotHeld(s0, s, held, y);
    }
    forall c | c in Visible(t) ensures c in Allowed(s0, names) {
      var y :| y in Running(t) && Running(t)[y].Ref? && c == (Running(t)[y].scope, Running(t)[y].name);
      if y != x {
        assert c in Visible(s);
      }
    }
    forall i: nat, y | i <= |s0.scopes| && i != s0.cur ensures CellKept(WithSaved(s0), t, Allowed(s0, names), i, y) {
      assert CellKept(WithSaved(s0), s, Allowed(s0, names), i, y);
    }
  }

  /** The reference that is made leads to the target; unless it clobbers, that is an allowed, plain cell. */
  lemma RefForTarget(s0: State, s: State, held: Bindings, names: set<string>, x: string)
    requires RefsOk(s0) && Binding(s0, s, held, names) && x in names
    ensures var v := RefFor(s, |s0.scopes|, x);
      && v.Ref? && v == TargetOf(s0, held, x)
      && (!Clobbers(s0, held, x) ==>
            && (v.scope, v.name) in Allowed(s0, names) && v.scope < |s.scopes| && v.scope != s.cur
            && !Cell(s, v.scope, v.name).Ref?)
  {
    assert SlotHeld(s0, s, held, x);
    assert CellKept(WithSaved(s0), s, Allowed(s0, names), |s0.scopes|, x);
  }

  /** It is the reference that the caller's own name stands for exactly when the argument aims. */
  lemma TargetAims(s0: State, held: Bindings, x: string)
    requires RefsOk(s0)
    ensures TargetOf(s0, held, x) == RefFor(s0, |s0.scopes|, x) <==> Aims(s0, held, x)
    ensures Aims(s0, held, x) ==> !Clobbers(s0, held, x)
  {
  }

  // ----- the induction over a run

  lemma {:induction false} EvalFrame(p: Program, fuel: nat, e: Expr, s: State)
    requires EvalSpares(p, fuel, e, s) && RefsOk(s) && Eval(p, fuel, e, s).0.Got?
    ensures var (v, t) := Eval(p, fuel, e, s); Frame(s, t) && RefsOk(t) && !v.val.Ref?
    decreases fuel, 0, e
  {
    hide Frame, RefsOk, Invoke, Read, Write, InvokeSpares;
    match e {
      case Lit(_) => FrameRefl(s);
      case Var(x) =>
        FrameRefl(s);
        ReadIsPlain(s, x);
      case Binary(_, left, right) =>
        EvalFrame(p, fuel, left, s);
        var s1 := Eval(p, fuel, left, s).1;
        EvalFrame(p, fuel, right, s1);
        FrameTrans(s, s1, Eval(p, fuel, right, s1).1);
      case AssignTo(x, value) =>
        EvalFrame(p, fuel, value, s);
        var (v, s1) := Eval(p, fuel, value, s);
        WriteFrame(s1, x, v.val);
        FrameTrans(s, s1, Write(s1, x, v.val));
        FrameKeepsRefs(s1, Write(s1, x, v.val));
      case Call(f, args) =>
        if f in p.funcs {
          InvokeFrame(p, fuel - 1, p.funcs[f], args, s);
        } else {
          FrameRefl(s);
        }
    }
  }

  lemma BindStep(p: Program, fuel: nat, params: seq<Param>, args: Args, s0: State, s: State, held: Bindings, names: set<string>)
    requires params != [] && FirstSpares(p, fuel, params[0], args, s) && (NamesVar(params[0], args) ==> !Clobbers(s0, held, args.head.name))
    requires RefsOk(s0) && Binding(s0, s, held, names) && ArgNames(params, args) <= names
    requires BoundFirst(p, fuel, params[0], args, |s0.scopes|, s).Some?
    ensures Binding(s0, BoundFirst(p, fuel, params[0], args, |s0.scopes|, s).value, HeldNext(s0, params[0], args, held), names)
    decreases fuel, 1
  {
    hide Frame, RefsOk, Binding, Eval, SetSlot, Allowed, RefFor, TargetOf, Clobbers, EvalSpares;
    var name := params[0].name;
    Inside(s0);
    if NamesVar(params[0], args) {
      RefForTarget(s0, s, held, names, args.head.name);
      BindingSets(s0, s, held, names, name, RefFor(s, |s0.scopes|, args.head.name));
    } else if ArgExpr(params[0], args).None? {
      BindingSets(s0, s, held, names, name, Null);
    } else {
      var e := ArgExpr(params[0], args).value;
      BindingRefsOk(s0, s, held, names);
      EvalFrame(p, fuel, e, s);
      var (v, s1) := Eval(p, fuel, e, s);
      BindingRuns(s0, s, s1, held, names);
      BindingSets(s0, s1, held, names, name, v.val);
    }
  }

  /** The binding loop takes the parameters one after the other. */
  lemma BindFirst(p: Program, fuel: nat, params: seq<Param>, args: Args, saved: nat, s: State)
    requires params != [] && Bind(p, fuel, params, args, saved, s).0.Got?
    ensures
      var next := BoundFirst(p, fuel, params[0], args, saved, s);
      next.Some? && Bind(p, fuel, params, args, saved, s) == Bind(p, fuel, params[1..], RestArgs(args), saved, next.value)
  {
    hide Eval, SetSlot, RefFor;
  }

  lemma FrameSameRefs(s: State, t: State)
    requires Frame(s, t)
    ensures forall z :: Slot(s, z).Ref? ==> Slot(t, z) == Slot(s, z)
  {
    forall z | Slot(s, z).Ref? ensures Slot(t, z) == Slot(s, z) {
      assert SameRef(s, t, z);
    }
  }

  lemma {:induction false} BindKeeps(p: Program, fuel: nat, params: seq<Param>, args: Args, s0: State, s: State,
                                     held: Bindings, names: set<string>)
    requires BindSpares(p, fuel, params, args, s0, s, held)
    requires RefsOk(s0) && Binding(s0, s, held, names) && ArgNames(params, args) <= names
    requires Bind(p, fuel, params, args, |s0.scopes|, s).0.Got?
    ensures Binding(s0, Bind(p, fuel, params, args, |s0.scopes|, s).1, Held(s0, params, args, held), names)
    decreases fuel, 2, |params|
  {
    hide RefsOk, Binding, BoundFirst, HeldNext;
    if params != [] {
      BindFirst(p, fuel, params, args, |s0.scopes|, s);
      BindStep(p, fuel, params, args, s0, s, held, names);
      var next := BoundFirst(p, fuel, params[0], args, |s0.scopes|, s).value;
      BindKeeps(p, fuel, params[1..], RestArgs(args), s0, next, HeldNext(s0, params[0], args, held), names);
    }
  }

  lemma Inside(s: State)
    requires RefsOk(s)
    ensures s.cur < |s.scopes|
  {
  }

  lemma BindingRefsOk(s0: State, s: State, held: Bindings, names: set<string>)
    requires Binding(s0, s, held, names)
    ensures RefsOk(s)
  {
  }

  /** Leaving a call: the body ran from the bound state, and the saved copy takes over. */
  lemma LeftFrame(s0: State, s: State, params: seq<Param>, t: State, held: Bindings, names: set<string>)
    requires RefsOk(s0) && Binding(s0, s, held, names) && Frame(Pushed(s, params), t)
    ensures Frame(s0, Left(t, |s0.scopes|))
    ensures forall x :: x !in names ==> Slot(Left(t, |s0.scopes|), x) == Slot(s0, x)
  {
    hide Visible;
    var k := |s0.scopes|;
    var s1 := Pushed(s, params);
    var u := Left(t, k);
    assert Running(s1) == Running(s);
    assert Visible(s1) == Visible(s) by {
      PushedVisible(s, params);
    }
    forall i: nat, x | i <= k && i != s0.cur
      ensures CellKept(WithSaved(s0), u, Allowed(s0, names), i, x)
    {
      assert CellKept(WithSaved(s0), s, Allowed(s0, names), i, x);
      assert CellKept(s1, t, Visible(s1), i, x);
    }
    forall x ensures SameRef(s0, u, x) && (x !in names ==> Slot(u, x) == Slot(s0, x)) {
      assert CellKept(WithSaved(s0), u, Allowed(s0, names), k, x);
      NotYetSaved(s0, names, x);
    }
    forall i: nat, x | i < k && i != s0.cur ensures CellKept(s0, u, Visible(s0), i, x) {
      assert CellKept(WithSaved(s0), u, Allowed(s0, names), i, x);
    }
  }

  lemma PushedVisible(s: State, params: seq<Param>)
    ensures Visible(Pushed(s, params)) == Visible(s)
  {
    assert Running(Pushed(s, params)) == Running(s);
  }

  /** Nobody holds a reference into the copy that the call is about to make. */
  lemma NotYetSaved(s0: State, names: set<string>, x: string)
    requires RefsOk(s0)
    ensures (|s0.scopes|, x) in Allowed(s0, names) <==> x in names && !Slot(s0, x).Ref?
  {
  }

  lemma {:induction false} InvokeFrame(p: Program, fuel: nat, fn: Func, args: Args, s: State)
    requires InvokeSpares(p, fuel, fn, args, s) && RefsOk(s) && Invoke(p, fuel, fn, args, s).0.Got?
    ensures
      var (v, u) := Invoke(p, fuel, fn, args, s);
      && Frame(s, u) && RefsOk(u) && !v.val.Ref?
      && forall x :: x !in ArgNames(fn.params, args) ==> Slot(u, x) == Slot(s, x)
    decreases fuel, 4
  {
    hide Frame, RefsOk, Binding, Slot, Bind, ExecBlock, BindSpares, BlockSpares, Held;
    var names := ArgNames(fn.params, args);
    BindingStarts(s, names);
    BindKeeps(p, fuel, fn.params, args, s, WithSaved(s), map[], names);
    var s1 := Bind(p, fuel, fn.params, args, |s.scopes|, WithSaved(s)).1;
    var held := Held(s, fn.params, args, map[]);
    BindingRefsOk(s, s1, held, names);
    PushedRefs(s1, fn.params);
    BlockFrame(p, fuel, fn.body, Pushed(s1, fn.params));
    var t := ExecBlock(p, fuel, fn.body, Pushed(s1, fn.params)).1;
    LeftFrame(s, s1, fn.params, t, held, names);
    FrameKeepsRefs(s, Left(t, |s.scopes|));
  }

  lemma PushedRefs(s: State, params: seq<Param>)
    requires RefsOk(s)
    ensures RefsOk(Pushed(s, params))
  {
    assert Running(Pushed(s, params)) == Running(s);
  }

  predicate PlainFlow(f: Flow) {
    f.Returned? ==> !f.v.Ref?
  }

  lemma {:induction false} ExecFrame(p: Program, fuel: nat, st: Stmt, s: State)
    requires StmtSpares(p, fuel, st, s) && RefsOk(s) && Exec(p, fuel, st, s).0.Got?
    ensures var (r, t) := Exec(p, fuel, st, s); Frame(s, t) && RefsOk(t) && PlainFlow(r.val)
    decreases fuel, 1, st, 0
  {
    hide Frame, RefsOk, Eval, ExecBlock, ExecWhile, EvalSpares, BlockSpares, WhileSpares;
    match st {
      case Do(e) => EvalFrame(p, fuel, e, s);
      case If(cond, yes, no) =>
        EvalFrame(p, fuel, cond, s);
        var (v, s1) := Eval(p, fuel, cond, s);
        var b := if Truthy(v.val) then yes else no;
        BlockFrame(p, fuel, b, s1);
        FrameTrans(s, s1, ExecBlock(p, fuel, b, s1).1);
      case While(cond, body) => WhileFrame(p, fuel, cond, body, s);
      case Return(e) => EvalFrame(p, fuel, e, s);
      case Break(_) => FrameRefl(s);
      case Continue(_) => FrameRefl(s);
      case Throw(_) =>
      case Exit => ExitFrame(s);
    }
  }

  lemma ExitFrame(s: State)
    requires RefsOk(s)
    ensures Frame(s, s.(exiting := true)) && RefsOk(s.(exiting := true))
  {
    var t := s.(exiting := true);
    assert Running(t) == Running(s);
    forall i: nat, x | i < |s.scopes| ensures CellKept(s, t, Visible(s), i, x) {
    }
  }

  lemma {:induction false} BlockFrame(p: Program, fuel: nat, b: Block, s: State)
    requires BlockSpares(p, fuel, b, s) && RefsOk(s) && ExecBlock(p, fuel, b, s).0.Got?
    ensures var (r, t) := ExecBlock(p, fuel, b, s); Frame(s, t) && RefsOk(t) && PlainFlow(r.val)
    decreases fuel, 1, b, 0
  {
    hide Frame, RefsOk, Exec, StmtSpares;
    if b.End? || s.exiting {
      FrameRefl(s);
    } else {
      ExecFrame(p, fuel, b.first, s);
      var (r, s1) := Exec(p, fuel, b.first, s);
      if r == Got(Normal) {
        BlockFrame(p, fuel, b.rest, s1);
        FrameTrans(s, s1, ExecBlock(p, fuel, b.rest, s1).1);
      }
    }
  }

  lemma {:induction false} WhileFrame(p: Program, fuel: nat, cond: Expr, body: Block, s: State)
    requires WhileSpares(p, fuel, cond, body, s) && RefsOk(s) && ExecWhile(p, fuel, cond, body, s).0.Got?
    ensures var (r, t) := ExecWhile(p, fuel, cond, body, s); Frame(s, t) && RefsOk(t) && PlainFlow(r.val)
    decreases fuel, 1, body, 1
  {
    hide Frame, RefsOk, Eval, ExecBlock, EvalSpares, BlockSpares;
    EvalFrame(p, fuel, cond, s);
    var (v, s1) := Eval(p, fuel, cond, s);
    if Truthy(v.val) {
      BlockFrame(p, fuel, body, s1);
      var (r, s2) := ExecBlock(p, fuel, body, s1);
      FrameTrans(s, s1, s2);
      if AfterRound(r.val, s2.exiting).None? {
        WhileFrame(p, fuel - 1, cond, body, s2);
        FrameTrans(s, s2, ExecWhile(p, fuel - 1, cond, body, s2).1);
      }
    }
  }

  // ----- reference parameters and their arguments

  function ArgAt(args: Args, i: nat): Option<Expr> {
    if args.NoArgs? then None else if i == 0 then Some(args.head) else ArgAt(args.tail, i - 1)
  }

  /** No later parameter takes the same name over. */
  predicate LastOfName(params: seq<Param>, i: nat)
    requires i < |params|
  {
    forall j :: i < j < |params| ==> params[j].name != params[i].name
  }

  /** The parameters bound before parameter i. */
  function HeldBefore(s0: State, params: seq<Param>, args: Args, i: nat): Bindings
    requires i <= |params|
  {
    Held(s0, params[..i], args, map[])
  }

  /** What is held for the last parameter of its name is the reference made for its argument. */
  lemma {:induction false} HeldLast(s0: State, params: seq<Param>, args: Args, held: Bindings, i: nat, x: string)
    requires i < |params| && params[i].byRef && ArgAt(args, i) == Some(Var(x)) && LastOfName(params, i)
    ensures
      var all := Held(s0, params, args, held);
      params[i].name in all && all[params[i].name] == Some(TargetOf(s0, Held(s0, params[..i], args, held), x))
    decreases i
  {
    hide TargetOf;
    var next := HeldNext(s0, params[0], args, held);
    if i == 0 {
      assert params[..0] == [];
      HeldStays(s0, params[1..], RestArgs(args), next, params[0].name);
    } else {
      assert params[..i][1..] == params[1..][..i - 1] && params[..i][0] == params[0];
      HeldLast(s0, params[1..], RestArgs(args), next, i - 1, x);
    }
  }

  lemma {:induction false} HeldStays(s0: State, params: seq<Param>, args: Args, held: Bindings, z: string)
    requires z in held && forall j :: 0 <= j < |params| ==> params[j].name != z
    ensures z in Held(s0, params, args, held) && Held(s0, params, args, held)[z] == held[z]
    decreases |params|
  {
    if params != [] {
      HeldStays(s0, params[1..], RestArgs(args), HeldNext(s0, params[0], args, held), z);
    }
  }

  // ----- all references of a call at once

  /** Every reference argument aims. */
  predicate AllAim(s0: State, params: seq<Param>, args: Args, held: Bindings)
    decreases |params|
  {
    params != [] ==>
      (NamesVar(params[0], args) ==> Aims(s0, held, args.head.name)) &&
      AllAim(s0, params[1..], RestArgs(args), HeldNext(s0, params[0], args, held))
  }

  /** Every reference that the binding loop makes is the one that the caller's name stands for. */
  predicate RefsRight(p: Program, fuel: nat, params: seq<Param>, args: Args, s0: State, s: State)
    decreases |params|
  {
    params != [] ==>
      && (NamesVar(params[0], args) ==> RefFor(s, |s0.scopes|, args.head.name) == RefFor(s0, |s0.scopes|, args.head.name))
      && var next := BoundFirst(p, fuel, params[0], args, |s0.scopes|, s);
         next.Some? ==> RefsRight(p, fuel, params[1..], RestArgs(args), s0, next.value)
  }

  /** The calls inside the arguments clobber nothing. */
  predicate ArgsSpare(p: Program, fuel: nat, params: seq<Param>, args: Args, s0: State, s: State)
    decreases |params|
  {
    params != [] ==>
      && FirstSpares(p, fuel, params[0], args, s)
      && var next := BoundFirst(p, fuel, params[0], args, |s0.scopes|, s);
         next.Some? ==> ArgsSpare(p, fuel, params[1..], RestArgs(args), s0, next.value)
  }

  /**
   A call binds every reference parameter to the cell that its argument's name stands for in
   the caller if and only if every reference argument aims, which the caller's slots and the
   parameter list decide before the call.
   */
  lemma {:induction false} AimsExactly(p: Program, fuel: nat, params: seq<Param>, args: Args, s0: State, s: State,
                                       held: Bindings, names: set<string>)
    requires RefsOk(s0) && Binding(s0, s, held, names) && ArgNames(params, args) <= names
    requires ArgsSpare(p, fuel, params, args, s0, s) && Bind(p, fuel, params, args, |s0.scopes|, s).0.Got?
    ensures RefsRight(p, fuel, params, args, s0, s) <==> AllAim(s0, params, args, held)
    decreases |params|
  {
    hide RefsOk, Binding, BoundFirst, HeldNext, RefFor, TargetOf, Aims, Clobbers, FirstSpares;
    if params != [] {
      BindFirst(p, fuel, params, args, |s0.scopes|, s);
      if NamesVar(params[0], args) {
        RefForTarget(s0, s, held, names, args.head.name);
        TargetAims(s0, held, args.head.name);
      }
      if !NamesVar(params[0], args) || Aims(s0, held, args.head.name) {
        BindStep(p, fuel, params, args, s0, s, held, names);
        var next := BoundFirst(p, fuel, params[0], args, |s0.scopes|, s).value;
        AimsExactly(p, fuel, params[1..], RestArgs(args), s0, next, HeldNext(s0, params[0], args, held), names);
      }
    }
  }

  /** The same for a whole call. */
  lemma CallAimsExactly(p: Program, fuel: nat, fn: Func, args: Args, s: State)
    requires RefsOk(s) && ArgsSpare(p, fuel, fn.params, args, s, WithSaved(s)) && Entered(p, fuel, fn, args, s).0.Got?
    ensures RefsRight(p, fuel, fn.params, args, s, WithSaved(s)) <==> AllAim(s, fn.params, args, map[])
  {
    hide RefsOk, Binding, RefsRight, AllAim, ArgsSpare;
    var names := ArgNames(fn.params, args);
    BindingStarts(s, names);
    AimsExactly(p, fuel, fn.params, args, s, WithSaved(s), map[], names);
  }

  /** The state when the body of the call has run, before the caller's scope is restored. */
  function BodyEnd(p: Program, fuel: nat, fn: Func, args: Args, s: State): State {
    ExecBlock(p, fuel, fn.body, Entered(p, fuel, fn, args, s).1).1
  }

  /**
   At the end of the body a reference parameter still leads where it was bound to. That is
   where the caller's own name leads exactly when the argument aims, and then reading the
   argument after the call gives what the parameter read at the end of the body.
   */
  lemma ParamReachesArgument(p: Program, fuel: nat, fn: Func, args: Args, s: State, i: nat, x: string)
    requires InvokeSpares(p, fuel, fn, args, s) && RefsOk(s) && Invoke(p, fuel, fn, args, s).0.Got?
    requires i < |fn.params| && fn.params[i].byRef && ArgAt(args, i) == Some(Var(x)) && LastOfName(fn.params, i)
    ensures
      var end, aims := BodyEnd(p, fuel, fn, args, s), Aims(s, HeldBefore(s, fn.params, args, i), x);
      && (Slot(end, fn.params[i].name) == RefFor(s, |s.scopes|, x) <==> aims)
      && (aims ==> Read(Invoke(p, fuel, fn, args, s).1, x) == Read(end, fn.params[i].name))
  {
    hide Frame, RefsOk, Binding, Slot, Bind, ExecBlock, Cell, Held, BindSpares, BlockSpares, TargetOf, Aims;
    var k := |s.scopes|;
    var names := ArgNames(fn.params, args);
    var name := fn.params[i].name;
    BindingStarts(s, names);
    BindKeeps(p, fuel, fn.params, args, s, WithSaved(s), map[], names);
    var held := Held(s, fn.params, args, map[]);
    HeldLast(s, fn.params, args, map[], i, x);
    TargetAims(s, HeldBefore(s, fn.params, args, i), x);
    var s1 := Bind(p, fuel, fn.params, args, k, WithSaved(s)).1;
    BindingSlot(s, s1, held, names, name);
    BindingRefsOk(s, s1, held, names);
    PushedRefs(s1, fn.params);
    var s2 := Pushed(s1, fn.params);
    BlockFrame(p, fuel, fn.body, s2);
    var t := BodyEnd(p, fuel, fn, args, s);
    PushedSlot(s1, fn.params, name);
    FrameSameRefs(s2, t);
    InvokeFrame(p, fuel, fn, args, s);
    var u := Invoke(p, fuel, fn, args, s).1;
    assert u == Left(t, k);
    FrameSameRef(s, u, x);
    LeftCells(t, k, x);
  }

  lemma BindingSlot(s0: State, s: State, held: Bindings, names: set<string>, x: string)
    requires Binding(s0, s, held, names) && x in held && held[x].Some?
    ensures Slot(s, x).Ref? && Slot(s, x) == held[x].value
  {
    assert SlotHeld(s0, s, held, x);
  }

  lemma PushedSlot(s: State, params: seq<Param>, x: string)
    ensures Slot(Pushed(s, params), x) == Slot(s, x)
  {
  }

  lemma FrameSameRef(s: State, t: State, x: string)
    requires Frame(s, t)
    ensures Slot(s, x).Ref? || Slot(t, x).Ref? ==> Slot(s, x) == Slot(t, x)
  {
    assert SameRef(s, t, x);
  }

  lemma LeftCells(t: State, k: nat, x: string)
    ensures Slot(Left(t, k), x) == Cell(t, k, x)
    ensures forall i: nat, y :: Cell(Left(t, k), i, y) == Cell(t, i, y)
  {
  }

  lemma CallResult(p: Program, fuel: nat, f: string, args: Args, s: State)
    requires f in p.funcs && fuel > 0 && Eval(p, fuel, Call(f, args), s).0.Got?
    ensures Eval(p, fuel, Call(f, args), s).0.val ==
      match ExecBlock(p, fuel - 1, p.funcs[f].body, Entered(p, fuel - 1, p.funcs[f], args, s).1).0
      case Got(Returned(v)) => v
      case _ => Null
  {
    hide ExecBlock, Entered;
  }

  /**
   The call discipline. Whatever the body does, nested, recursive and forwarding calls
   included, as long as no call on the way clobbers: a call is worth what its body returned,
   or null, and after a call that returns, every slot of
   the caller is what it was, unless the name was passed to a reference parameter; if that
   argument aims, it reads as the parameter did when the body ended. The saved scopes further
   out change only where a reference of the caller leads, and the argument stack is as before.
   */
  lemma CallKeepsCaller(p: Program, fuel: nat, f: string, args: Args, s: State)
    requires f in p.funcs && fuel > 0 && RefsOk(s) && EvalSpares(p, fuel, Call(f, args), s)
    requires Eval(p, fuel, Call(f, args), s).0.Got?
    ensures
      var (called, u) := Eval(p, fuel, Call(f, args), s);
      var fn := p.funcs[f];
      && called.val == (match ExecBlock(p, fuel - 1, fn.body, Entered(p, fuel - 1, fn, args, s).1).0
                        case Got(Returned(v)) => v
                        case _ => Null)
      && u.frames == s.frames
      && (forall x :: x !in ArgNames(fn.params, args) || Slot(s, x).Ref? ==> Slot(u, x) == Slot(s, x))
      && (forall i: nat, x :: i < |s.scopes| && i != s.cur ==> CellKept(s, u, Visible(s), i, x))
      && (forall i, x :: 0 <= i < |fn.params| && fn.params[i].byRef && ArgAt(args, i) == Some(Var(x)) && LastOfName(fn.params, i) ==>
            Aims(s, HeldBefore(s, fn.params, args, i), x) ==>
            Read(u, x) == Read(BodyEnd(p, fuel - 1, fn, args, s), fn.params[i].name))
  {
    hide RefsOk, Slot, Invoke, Read, CellKept, BodyEnd, Cell, InvokeSpares, Aims, HeldBefore;
    var fn := p.funcs[f];
    CallResult(p, fuel, f, args, s);
    InvokeFrame(p, fuel - 1, fn, args, s);
    var u := Invoke(p, fuel - 1, fn, args, s).1;
    assert Eval(p, fuel, Call(f, args), s) == Invoke(p, fuel - 1, fn, args, s);
    forall x | x !in ArgNames(fn.params, args) || Slot(s, x).Ref? ensures Slot(u, x) == Slot(s, x) {
      FrameSameRef(s, u, x);
    }
    forall i, x | 0 <= i < |fn.params| && fn.params[i].byRef && ArgAt(args, i) == Some(Var(x)) && LastOfName(fn.params, i)
      ensures Aims(s, HeldBefore(s, fn.params, args, i), x) ==>
        Read(u, x) == Read(BodyEnd(p, fuel - 1, fn, args, s), fn.params[i].name)
    {
      ParamReachesArgument(p, fuel - 1, fn, args, s, i, x);
    }
  }

  /** Before a script runs: one empty scope. */
  const START := State([map[]], 0, map[], [], false)

  /** Statements run to their end from an empty environment leave no references and no frames behind. */
  lemma ScriptEndsClean(p: Program, fuel: nat, script: Block)
    requires BlockSpares(p, fuel, script, START) && ExecBlock(p, fuel, script, START).0.Got?
    ensures var t := ExecBlock(p, fuel, script, START).1; t.frames == [] && Visible(t) == {}
  {
    BlockFrame(p, fuel, script, START);
    SameRefsVisible(START, ExecBlock(p, fuel, script, START).1);
  }

  // ----- where the discipline breaks

  function Assigns(x: string, n: int): Block {
    Then(Do(AssignTo(x, Lit(Int(n)))), End)
  }

  /**
   A reference argument that does not aim. f(&$a, &$b) { $b = 7; } called as f($x, $a): the
   second argument is looked up after $a was bound, so $b is an alias of $x, and the
   caller's own $a never gets the 7.
   */
  lemma EarlierParameterCaptures(p: Program)
    requires p.funcs == map["f" := Func([Param("a", true, None), Param("b", true, None)], Assigns("b", 7))]
    ensures
      var s := State([map["x" := Int(0), "a" := Int(1)]], 0, map[], [], false);
      var (v, u) := Eval(p, 1, Call("f", Arg(Var("x"), Arg(Var("a"), NoArgs))), s);
      v == Got(Null) && Read(u, "a") == Int(1) && Read(u, "x") == Int(7)
  {
  }

  /**
   The name of an earlier value parameter does no harm while the caller's slot is plain:
   f($a, &$b) { $b = 7; } called as f(3, $a) sets the caller's own $a.
   */
  lemma ValueParameterPassesBy(p: Program)
    requires p.funcs == map["f" := Func([Param("a", false, None), Param("b", true, None)], Assigns("b", 7))]
    ensures
      var s := State([map["a" := Int(1)]], 0, map[], [], false);
      var (v, u) := Eval(p, 1, Call("f", Arg(Lit(Int(3)), Arg(Var("a"), NoArgs))), s);
      v == Got(Null) && Read(u, "a") == Int(7)
  {
  }

  /**
   But when the caller's $a is itself a reference, to $x further out, the same call clobbers
   it: the slot holds 7 instead of the reference, and $x stays 0.
   */
  lemma ReferenceSlotClobbered(p: Program)
    requires p.funcs == map["f" := Func([Param("a", false, None), Param("b", true, None)], Assigns("b", 7))]
    ensures
      var s := State([map["a" := Ref(1, "x")], map["x" := Int(0)]], 0, map[], [], false);
      var (v, u) := Eval(p, 1, Call("f", Arg(Lit(Int(3)), Arg(Var("a"), NoArgs))), s);
      RefsOk(s) && v == Got(Null) && Slot(u, "a") == Int(7) && Cell(u, 1, "x") == Int(0)
  {
  }

  /**
   What the caller reads can change without being passed, when its name is itself a
   reference parameter: inside f(&$n) a call g(), whose body sets its own $n, writes to f's
   argument.
   */
  lemma LocalWritesThrough(p: Program)
    requires p.funcs == map["g" := Func([], Assigns("n", 5))]
    ensures
      var s := State([map["n" := Ref(1, "x")], map["x" := Int(0)]], 0, map[], [], false);
      var (v, u) := Eval(p, 1, Call("g", NoArgs), s);
      RefsOk(s) && v == Got(Null) && Read(s, "n") == Int(0) && Read(u, "n") == Int(5)
  {
  }

  /** Only a call that returns is covered: when an argument throws, the parameters bound so far stay in the caller's scope. */
  lemma ThrowingArgumentLeaks(p: Program)
    requires p.funcs == map[
      "f" := Func([Param("a", false, None), Param("b", false, None)], End),
      "g" := Func([], Then(Throw(Lit(Null)), End))]
    ensures
      var (v, u) := Eval(p, 2, Call("f", Arg(Lit(Int(1)), Arg(Call("g", NoArgs), NoArgs))), START);
      v == Thrown && Read(u, "a") == Int(1) && Read(START, "a") == Null
  {
  }
}
