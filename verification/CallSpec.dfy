/**
 User-function calls: one running scope, the saved copies of the callers' scopes, reference
 parameters that write into such a copy, and the stack of call arguments.

 A scope is a map from names to slots; its index in the list stands for the identity of the
 Go map. A call saves a copy of the running scope and lets the callee go on in the original;
 when it returns, the copy becomes the running scope.
 */
module CallSpec {
  import opened Wrappers

  /** A slot's content; a reference names a variable of a saved scope. */
  datatype Value = Null | Bool(b: bool) | Int(n: int) | Str(s: string) | Ref(scope: nat, name: string)

  type Scalar = v: Value | !v.Ref? witness Null

  type Vars = map<string, Value>

  /** `globals` is the table behind $GLOBALS; every assignment also writes it. */
  datatype State = State(scopes: seq<Vars>, cur: nat, globals: Vars, frames: seq<seq<Value>>, exiting: bool)

  // ----- programs

  datatype Expr =
    | Lit(v: Scalar)
    | Var(name: string)
    | Binary(op: string, left: Expr, right: Expr)
    | AssignTo(target: string, value: Expr)
    | Call(fn: string, args: Args)

  datatype Args = NoArgs | Arg(head: Expr, tail: Args)

  datatype Stmt =
    | Do(e: Expr)
    | If(cond: Expr, yes: Block, no: Block)
    | While(cond: Expr, body: Block)
    | Return(e: Expr)
    | Break(count: nat)
    | Continue(count: nat)
    | Throw(e: Expr)
    | Exit

  datatype Block = End | Then(first: Stmt, rest: Block)

  datatype Param = Param(name: string, byRef: bool, default: Option<Expr>)

  datatype Func = Func(params: seq<Param>, body: Block)

  /** The functions by name, and what binary operators do with two values. */
  datatype Program = Program(funcs: map<string, Func>, apply: (string, Value, Value) -> Scalar)

  // ----- scopes and slots

  function Running(s: State): Vars {
    if s.cur < |s.scopes| then s.scopes[s.cur] else map[]
  }

  /** The raw content of a name's slot in the running scope. */
  function Slot(s: State, x: string): Value {
    if x in Running(s) then Running(s)[x] else Null
  }

  function Cell(s: State, i: nat, x: string): Value {
    if i < |s.scopes| && x in s.scopes[i] then s.scopes[i][x] else Null
  }

  function SetCell(s: State, i: nat, x: string, v: Value): State {
    if i < |s.scopes| then s.(scopes := s.scopes[i := s.scopes[i][x := v]]) else s
  }

  function SetSlot(s: State, x: string, v: Value): State {
    SetCell(s, s.cur, x, v)
  }

  /** evalVar: a reference is read through. */
  function Read(s: State, x: string): Value {
    var v := Slot(s, x);
    if v.Ref? then Cell(s, v.scope, v.name) else v
  }

  /** Assignment: a reference is written through. */
  function Write(s: State, x: string, v: Value): State {
    var now := Slot(s, x);
    var t := if now.Ref? then SetCell(s, now.scope, now.name, v) else SetSlot(s, x, v);
    t.(globals := s.globals[if now.Ref? then now.name else x := v])
  }

  function Truthy(v: Value): bool {
    match v
    case Null => false
    case Bool(b) => b
    case Int(n) => n != 0
    case Str(t) => t != "" && t != "0"
    case Ref(_, _) => true
  }

  // ----- running

  datatype Outcome<+T> = OutOfFuel | Thrown | Got(val: T)

  datatype Flow = Normal | Returned(v: Value) | Broken(count: nat) | Continued(count: nat)

  /** evalExpr. Fuel bounds the depth of calls and loop rounds. */
  function Eval(p: Program, fuel: nat, e: Expr, s: State): (Outcome<Value>, State)
    decreases fuel, 0, e
  {
    match e
    case Lit(v) => (Got(v), s)
    case Var(x) => (Got(Read(s, x)), s)
    case Binary(op, left, right) =>
      var (a, s1) := Eval(p, fuel, left, s);
      if !a.Got? then (a, s1)
      else
        var (b, s2) := Eval(p, fuel, right, s1);
        if !b.Got? then (b, s2) else (Got(p.apply(op, a.val, b.val)), s2)
    case AssignTo(x, value) =>
      var (v, s1) := Eval(p, fuel, value, s);
      if !v.Got? then (v, s1) else (v, Write(s1, x, v.val))
    case Call(f, args) =>
      if f !in p.funcs then (Got(Null), s)
      else if fuel == 0 then (OutOfFuel, s)
      else Invoke(p, fuel - 1, p.funcs[f], args, s)
  }

  /** What a by-reference parameter is bound to, for the variable x of the caller. */
  function RefFor(s: State, saved: nat, x: string): Value {
    if Slot(s, x).Ref? then Slot(s, x) else Ref(saved, x)
  }

  /** The binding loop of callFunc, one parameter after the other, in the running scope. */
  function Bind(p: Program, fuel: nat, params: seq<Param>, args: Args, saved: nat, s: State): (Outcome<()>, State)
    decreases fuel, 2, |params|
  {
    if params == [] then (Got(()), s)
    else
      var name := params[0].name;
      match args
      case Arg(head, tail) =>
        if params[0].byRef && head.Var? then
          Bind(p, fuel, params[1..], tail, saved, SetSlot(s, name, RefFor(s, saved, head.name)))
        else
          var (v, s1) := Eval(p, fuel, head, s);
          if !v.Got? then (Failed(v), s1) else Bind(p, fuel, params[1..], tail, saved, SetSlot(s1, name, v.val))
      case NoArgs =>
        if params[0].default.Some? then
          var (v, s1) := Eval(p, fuel, params[0].default.value, s);
          if !v.Got? then (Failed(v), s1) else Bind(p, fuel, params[1..], args, saved, SetSlot(s1, name, v.val))
        else Bind(p, fuel, params[1..], args, saved, SetSlot(s, name, Null))
  }

  function Failed<T, U>(o: Outcome<T>): Outcome<U>
    requires !o.Got?
  {
    if o.OutOfFuel? then OutOfFuel else Thrown
  }

  /** pushCallFrame's new frame: the parameters' values, references resolved. */
  function FrameOf(params: seq<Param>, s: State): (frame: seq<Value>)
    ensures |frame| == |params|
    ensures forall i :: 0 <= i < |params| ==> frame[i] == Read(s, params[i].name)
  {
    if params == [] then [] else [Read(s, params[0].name)] + FrameOf(params[1..], s)
  }

  function Pushed(s: State, params: seq<Param>): State {
    s.(frames := s.frames + [FrameOf(params, s)])
  }

  /** popCallFrame and the restoring of the saved scope. */
  function Left(s: State, saved: nat): State {
    s.(cur := saved, frames := if s.frames == [] then [] else s.frames[..|s.frames| - 1])
  }

  function WithSaved(s: State): State {
    s.(scopes := s.scopes + [Running(s)])
  }

  /** The state in which a call's body starts. */
  function Entered(p: Program, fuel: nat, fn: Func, args: Args, s: State): (Outcome<()>, State)
    decreases fuel, 3
  {
    var (b, s1) := Bind(p, fuel, fn.params, args, |s.scopes|, WithSaved(s));
    (b, if b.Got? then Pushed(s1, fn.params) else s1)
  }

  /** callFunc for a user function. */
  function Invoke(p: Program, fuel: nat, fn: Func, args: Args, s: State): (Outcome<Value>, State)
    decreases fuel, 4
  {
    var (b, s1) := Entered(p, fuel, fn, args, s);
    if !b.Got? then (Failed(b), s1)
    else
      var (r, s2) := ExecBlock(p, fuel, fn.body, s1);
      (ResultOf(r), Left(s2, |s.scopes|))
  }

  function ResultOf(r: Outcome<Flow>): Outcome<Value> {
    if !r.Got? then Failed(r) else if r.val.Returned? then Got(r.val.v) else Got(Null)
  }

  function Exec(p: Program, fuel: nat, st: Stmt, s: State): (Outcome<Flow>, State)
    decreases fuel, 1, st, 0
  {
    match st
    case Do(e) =>
      var (v, s1) := Eval(p, fuel, e, s);
      (if v.Got? then Got(Normal) else Failed(v), s1)
    case If(cond, yes, no) =>
      var (v, s1) := Eval(p, fuel, cond, s);
      if !v.Got? then (Failed(v), s1) else ExecBlock(p, fuel, if Truthy(v.val) then yes else no, s1)
    case While(cond, body) => ExecWhile(p, fuel, cond, body, s)
    case Return(e) =>
      var (v, s1) := Eval(p, fuel, e, s);
      (if v.Got? then Got(Returned(v.val)) else Failed(v), s1)
    case Break(n) => (Got(Broken(n)), s)
    case Continue(n) => (Got(Continued(n)), s)
    case Throw(e) =>
      var (v, s1) := Eval(p, fuel, e, s);
      (if v.Got? then Thrown else Failed(v), s1)
    case Exit => (Got(Returned(Null)), s.(exiting := true))
  }

  function ExecBlock(p: Program, fuel: nat, b: Block, s: State): (Outcome<Flow>, State)
    decreases fuel, 1, b, 0
  {
    if b.End? || s.exiting then (Got(Normal), s)
    else
      var (r, s1) := Exec(p, fuel, b.first, s);
      if r != Got(Normal) then (r, s1) else ExecBlock(p, fuel, b.rest, s1)
  }

  /** What a loop does after one round of its body; None goes on with the next round. */
  function AfterRound(r: Flow, exiting: bool): Option<Flow> {
    if exiting then Some(Normal)
    else
      match r
      case Normal => None
      case Returned(_) => Some(r)
      case Broken(n) => Some(if n > 1 then Broken(n - 1) else Normal)
      case Continued(n) => if n > 1 then Some(Continued(n - 1)) else None
  }

  function ExecWhile(p: Program, fuel: nat, cond: Expr, body: Block, s: State): (Outcome<Flow>, State)
    decreases fuel, 1, body, 1
  {
    var (v, s1) := Eval(p, fuel, cond, s);
    if !v.Got? then (Failed(v), s1)
    else if !Truthy(v.val) then (Got(Normal), s1)
    else
      var (r, s2) := ExecBlock(p, fuel, body, s1);
      if !r.Got? then (r, s2)
      else
        var stop := AfterRound(r.val, s2.exiting);
        if stop.Some? then (Got(stop.value), s2)
        else if fuel == 0 then (OutOfFuel, s2)
        else ExecWhile(p, fuel - 1, cond, body, s2)
  }
}
