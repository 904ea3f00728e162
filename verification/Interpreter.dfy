/** The interpreter as it runs: one environment that every statement and call updates. */
module Interpreter {
  import opened CallSpec

  class Env {
    var scopes: seq<Vars>
    var cur: nat
    var globals: Vars
    var callArgs: seq<seq<Value>>
    var exiting: bool

    ghost function Now(): State
      reads this
    {
      State(scopes, cur, globals, callArgs, exiting)
    }

    constructor ()
      ensures Now() == State([map[]], 0, map[], [], false)
    {
      scopes, cur, globals, callArgs, exiting := [map[]], 0, map[], [], false;
    }

    method GetSlot(x: string) returns (v: Value)
      ensures v == Slot(Now(), x)
    {
      if cur < |scopes| && x in scopes[cur] {
        return scopes[cur][x];
      }
      return Null;
    }

    /** e.vars[x] = v, or (*outer)[x] = v */
    method Put(i: nat, x: string, v: Value)
      modifies this
      ensures Now() == SetCell(old(Now()), i, x, v)
    {
      if i < |scopes| {
        scopes := scopes[i := scopes[i][x := v]];
      }
    }

    /** evalVar */
    method EvalVar(x: string) returns (v: Value)
      ensures v == Read(Now(), x)
    {
      v := GetSlot(x);
      if v.Ref? {
        if v.scope < |scopes| && v.name in scopes[v.scope] {
          return scopes[v.scope][v.name];
        }
        return Null;
      }
    }

    /** Plain assignment. */
    method Assign(x: string, v: Value)
      modifies this
      ensures Now() == Write(old(Now()), x, v)
    {
      var now := GetSlot(x);
      if now.Ref? {
        Put(now.scope, now.name, v);
        globals := globals[now.name := v];
      } else {
        Put(cur, x, v);
        globals := globals[x := v];
      }
    }

    method EvalExpr(p: Program, fuel: nat, e: Expr) returns (r: Outcome<Value>)
      modifies this
      ensures (r, Now()) == Eval(p, fuel, e, old(Now()))
      decreases fuel, 0, e
    {
      hide Invoke, Read, Write;
      match e {
        case Lit(v) => return Got(v);
        case Var(x) =>
          var v := EvalVar(x);
          return Got(v);
        case Binary(op, left, right) =>
          var a := EvalExpr(p, fuel, left);
          if !a.Got? {
            return a;
          }
          var b := EvalExpr(p, fuel, right);
          if !b.Got? {
            return b;
          }
          return Got(p.apply(op, a.val, b.val));
        case AssignTo(x, value) =>
          r := EvalExpr(p, fuel, value);
          if r.Got? {
            Assign(x, r.val);
          }
        case Call(f, args) =>
          if f !in p.funcs {
            return Got(Null);
          }
          if fuel == 0 {
            return OutOfFuel;
          }
          r := CallFunc(p, fuel - 1, p.funcs[f], args);
      }
    }

    /** The binding loop of callFunc; the remaining arguments are consumed one by one. */
    method BindParams(p: Program, fuel: nat, params: seq<Param>, args: Args, saved: nat) returns (r: Outcome<()>)
      modifies this
      ensures (r, Now()) == Bind(p, fuel, params, args, saved, old(Now()))
      decreases fuel, 2
    {
      hide Eval, SetCell;
      var i := 0;
      var rest := args;
      ghost var start := Now();
      assert params[0..] == params;
      while i < |params|
        invariant 0 <= i <= |params|
        invariant Bind(p, fuel, params[i..], rest, saved, Now()) == Bind(p, fuel, params, args, saved, start)
      {
        ghost var left := params[i..];
        assert left[0] == params[i] && left[1..] == params[i + 1..];
        var name := params[i].name;
        var byRef := params[i].byRef;
        var default := params[i].default;
        i := i + 1;
        if rest.Arg? {
          var head := rest.head;
          rest := rest.tail;
          if byRef && head.Var? {
            var now := GetSlot(head.name);
            Put(cur, name, if now.Ref? then now else Ref(saved, head.name));
            continue;
          }
          var v := EvalExpr(p, fuel, head);
          if !v.Got? {
            return Failed(v);
          }
          Put(cur, name, v.val);
        } else if default.Some? {
          var v := EvalExpr(p, fuel, default.value);
          if !v.Got? {
            return Failed(v);
          }
          Put(cur, name, v.val);
        } else {
          Put(cur, name, Null);
        }
      }
      return Got(());
    }

    /** pushCallFrame */
    method PushCallFrame(params: seq<Param>)
      modifies this
      ensures Now() == Pushed(old(Now()), params)
    {
      hide Read;
      var frame := [];
      var i := 0;
      while i < |params|
        invariant 0 <= i <= |params| && |frame| == i
        invariant Now() == old(Now())
        invariant forall j :: 0 <= j < i ==> frame[j] == Read(Now(), params[j].name)
      {
        var v := EvalVar(params[i].name);
        frame := frame + [v];
        i := i + 1;
      }
      assert frame == FrameOf(params, Now());
      callArgs := callArgs + [frame];
    }

    /** popCallFrame */
    method PopCallFrame()
      modifies this
      ensures callArgs == (if old(callArgs) == [] then [] else old(callArgs)[..|old(callArgs)| - 1])
      ensures scopes == old(scopes) && cur == old(cur) && globals == old(globals) && exiting == old(exiting)
    {
      var n := |callArgs|;
      if n > 0 {
        callArgs := callArgs[..n - 1];
      }
    }

    /** callFunc for a user function. */
    method CallFunc(p: Program, fuel: nat, fn: Func, args: Args) returns (r: Outcome<Value>)
      modifies this
      ensures (r, Now()) == Invoke(p, fuel, fn, args, old(Now()))
      decreases fuel, 3
    {
      hide Bind, ExecBlock;
      var saved := |scopes|;
      var copy := if cur < |scopes| then scopes[cur] else map[];
      scopes := scopes + [copy];
      assert Now() == WithSaved(old(Now()));
      var bound := BindParams(p, fuel, fn.params, args, saved);
      if !bound.Got? {
        return Failed(bound);
      }
      PushCallFrame(fn.params);
      var flow := RunBlock(p, fuel, fn.body);
      cur := saved;
      PopCallFrame();
      if !flow.Got? {
        return Failed(flow);
      }
      if flow.val.Returned? {
        return Got(flow.val.v);
      }
      return Got(Null);
    }

    /** execStmt */
    method ExecStmt(p: Program, fuel: nat, st: Stmt) returns (r: Outcome<Flow>)
      modifies this
      ensures (r, Now()) == Exec(p, fuel, st, old(Now()))
      decreases fuel, 1, st, 0
    {
      hide Eval, ExecBlock, ExecWhile;
      match st {
        case Do(e) =>
          var v := EvalExpr(p, fuel, e);
          return if v.Got? then Got(Normal) else Failed(v);
        case If(cond, yes, no) =>
          var v := EvalExpr(p, fuel, cond);
          if !v.Got? {
            return Failed(v);
          }
          if Truthy(v.val) {
            r := RunBlock(p, fuel, yes);
          } else {
            r := RunBlock(p, fuel, no);
          }
        case While(cond, body) =>
          r := RunWhile(p, fuel, cond, body);
        case Return(e) =>
          var v := EvalExpr(p, fuel, e);
          return if v.Got? then Got(Returned(v.val)) else Failed(v);
        case Break(n) => return Got(Broken(n));
        case Continue(n) => return Got(Continued(n));
        case Throw(e) =>
          var v := EvalExpr(p, fuel, e);
          return if v.Got? then Thrown else Failed(v);
        case Exit =>
          exiting := true;
          return Got(Returned(Null));
      }
    }

    /** execBlock */
    method RunBlock(p: Program, fuel: nat, b: Block) returns (r: Outcome<Flow>)
      modifies this
      ensures (r, Now()) == ExecBlock(p, fuel, b, old(Now()))
      decreases fuel, 1, b, 0
    {
      hide Exec;
      var rest := b;
      while rest.Then?
        invariant rest == b || rest < b
        invariant ExecBlock(p, fuel, rest, Now()) == ExecBlock(p, fuel, b, old(Now()))
        decreases rest
      {
        if exiting {
          break;
        }
        r := ExecStmt(p, fuel, rest.first);
        if !r.Got? {
          return;
        }
        if r.val != Normal {
          return;
        }
        rest := rest.rest;
      }
      return Got(Normal);
    }

    /** execWhile; each further round takes one unit of fuel. */
    method RunWhile(p: Program, fuel: nat, cond: Expr, body: Block) returns (r: Outcome<Flow>)
      modifies this
      ensures (r, Now()) == ExecWhile(p, fuel, cond, body, old(Now()))
      decreases fuel, 1, body, 1
    {
      hide Eval, ExecBlock;
      var f: nat := fuel;
      while true
        invariant f <= fuel
        invariant ExecWhile(p, f, cond, body, Now()) == ExecWhile(p, fuel, cond, body, old(Now()))
        decreases f
      {
        var v := EvalExpr(p, f, cond);
        if !v.Got? {
          return Failed(v);
        }
        if !Truthy(v.val) {
          break;
        }
        r := RunBlock(p, f, body);
        if !r.Got? {
          return;
        }
        if exiting {
          break;
        }
        match r.val {
          case Broken(n) =>
            if n > 1 {
              return Got(Broken(n - 1));
            }
            break;
          case Continued(n) =>
            if n > 1 {
              return Got(Continued(n - 1));
            }
          case Returned(_) => return;
          case Normal =>
        }
        if f == 0 {
          return OutOfFuel;
        }
        f := f - 1;
      }
      return Got(Normal);
    }
  }
}
