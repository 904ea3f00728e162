/** What a call is worth: its value, the values of its parameters, and how statements steer. */
module CallValues {
  import opened Wrappers
  import opened CallSpec

  /** The state in which the body of a call of f starts, if its arguments evaluate. */
  function BodyStart(p: Program, fuel: nat, fn: Func, args: Args, s: State): State {
    Entered(p, fuel, fn, args, s).1
  }

  /**
   A call is worth what its body returns, and null when the body ends in any other way. An
   error of the body is an error of the call.
   */
  lemma CallValue(p: Program, fuel: nat, f: string, args: Args, s: State)
    requires f in p.funcs && fuel > 0 && Entered(p, fuel - 1, p.funcs[f], args, s).0.Got?
    ensures
      var called := Eval(p, fuel, Call(f, args), s).0;
      match ExecBlock(p, fuel - 1, p.funcs[f].body, BodyStart(p, fuel - 1, p.funcs[f], args, s)).0
      case Got(Returned(v)) => called == Got(v)
      case Got(_) => called == Got(Null)
      case Thrown => called == Thrown
      case OutOfFuel => called == OutOfFuel
  {
    hide ExecBlock, Entered;
  }

  /** A body that begins with `return e` gives the value that e has when the parameters are bound. */
  lemma ReturnedValue(p: Program, fuel: nat, f: string, args: Args, s: State, e: Expr, rest: Block)
    requires f in p.funcs && fuel > 0 && p.funcs[f].body == Then(Return(e), rest)
    requires Entered(p, fuel - 1, p.funcs[f], args, s).0.Got? && !BodyStart(p, fuel - 1, p.funcs[f], args, s).exiting
    ensures Eval(p, fuel, Call(f, args), s).0 == Eval(p, fuel - 1, e, BodyStart(p, fuel - 1, p.funcs[f], args, s)).0
  {
    hide Entered, Eval;
    var t := BodyStart(p, fuel - 1, p.funcs[f], args, s);
    CallValue(p, fuel, f, args, s);
    ReturnFirst(p, fuel - 1, e, rest, t);
  }

  /** A function nobody declared is worth null and does nothing. */
  lemma UndeclaredIsNull(p: Program, fuel: nat, f: string, args: Args, s: State)
    requires f !in p.funcs
    ensures Eval(p, fuel, Call(f, args), s) == (Got(Null), s)
  {
  }

  // ----- one value parameter

  /** The value of a parameter: its argument's, else its default's, else null. */
  lemma ValueParameter(p: Program, fuel: nat, fn: Func, x: string, default: Option<Expr>, args: Args, s: State)
    requires fn.params == [Param(x, false, default)] && s.cur < |s.scopes|
    ensures
      var e := if args.Arg? then Some(args.head) else default;
      var (got, bound) := if e.Some? then Eval(p, fuel, e.value, WithSaved(s)) else (Got(Null), WithSaved(s));
      var (o, t) := Entered(p, fuel, fn, args, s);
      && o == (match got case Got(_) => Got(()) case Thrown => Thrown case OutOfFuel => OutOfFuel)
      && (got.Got? && bound.cur < |bound.scopes| ==>
            Slot(t, x) == got.val && t.frames == bound.frames + [[Read(t, x)]] && t.exiting == bound.exiting)
  {
    hide Eval;
    var rest := if args.Arg? then args.tail else args;
    var e := if args.Arg? then Some(args.head) else default;
    var (got, bound) := if e.Some? then Eval(p, fuel, e.value, WithSaved(s)) else (Got(Null), WithSaved(s));
    BindOne(p, fuel, fn.params, args, |s.scopes|, WithSaved(s));
    if got.Got? && bound.cur < |bound.scopes| {
      FrameOne(fn.params, SetSlot(bound, x, got.val));
    }
  }

  lemma BindOne(p: Program, fuel: nat, params: seq<Param>, args: Args, saved: nat, s: State)
    requires |params| == 1 && !params[0].byRef
    ensures
      var e := if args.Arg? then Some(args.head) else params[0].default;
      var (got, t) := if e.Some? then Eval(p, fuel, e.value, s) else (Got(Null), s);
      Bind(p, fuel, params, args, saved, s)
      == if got.Got? then (Got(()), SetSlot(t, params[0].name, got.val)) else (Failed(got), t)
  {
    hide Eval;
    assert params[1..] == [];
    BindNone(p, fuel, params[1..], if args.Arg? then args.tail else args, saved);
  }

  lemma BindNone(p: Program, fuel: nat, params: seq<Param>, args: Args, saved: nat)
    requires params == []
    ensures forall s :: Bind(p, fuel, params, args, saved, s) == (Got(()), s)
  {
  }

  lemma FrameOne(params: seq<Param>, s: State)
    requires |params| == 1
    ensures FrameOf(params, s) == [Read(s, params[0].name)]
  {
  }

  // ----- a recursive function

  /** Multiplication, subtraction and addition of integers, as the operators of the script. */
  ghost predicate Arithmetic(p: Program) {
    forall a: int, b: int ::
      && p.apply("*", Int(a), Int(b)) == Int(a * b)
      && p.apply("-", Int(a), Int(b)) == Int(a - b)
      && p.apply("+", Int(a), Int(b)) == Int(a + b)
  }

  function N(n: int): Expr {
    Lit(Int(n))
  }

  /** function fact($n) { if ($n) { return fact($n - 1) * $n; } return 1; } */
  function FactFunc(): Func {
    Func([Param("n", false, None)],
         Then(If(Var("n"), Then(Return(Product()), End), End), Then(Return(N(1)), End)))
  }

  /** $n - 1 */
  function Before(): Expr {
    Binary("-", Var("n"), N(1))
  }

  /** fact($n - 1) * $n */
  function Product(): Expr {
    Binary("*", FactCall(Before()), Var("n"))
  }

  function FactCall(e: Expr): Expr {
    Call("fact", Arg(e, NoArgs))
  }

  function Factorial(n: nat): nat {
    if n == 0 then 1 else Factorial(n - 1) * n
  }

  ghost predicate HasFact(p: Program) {
    Arithmetic(p) && p.funcs == map["fact" := FactFunc()]
  }

  /** The expression has the value v and no effect. */
  ghost predicate Yields(p: Program, fuel: nat, e: Expr, v: Value, s: State) {
    Eval(p, fuel, e, s) == (Got(v), s)
  }

  /** From the caller's side nothing has happened: the same variables, the same stack, the same saved scopes. */
  ghost predicate Untouched(s: State, u: State) {
    && |s.scopes| <= |u.scopes| && u.cur < |u.scopes| && (u.cur == s.cur || u.cur >= |s.scopes|)
    && Running(u) == Running(s) && u.frames == s.frames && u.exiting == s.exiting
    && forall i: nat :: i < |s.scopes| && i != s.cur ==> u.scopes[i] == s.scopes[i]
  }

  /**
   fact($n) is n!, for every n and enough fuel, and it leaves the caller untouched: the
   argument of the recursive call is computed from the caller's $n, and after that call $n
   is again what it was.
   */
  lemma {:induction false} FactIsFactorial(p: Program, fuel: nat, e: Expr, n: nat, s: State)
    requires HasFact(p) && s.cur < |s.scopes| && !s.exiting && fuel > n
    requires Yields(p, fuel - 1, e, Int(n), WithSaved(s))
    ensures Eval(p, fuel, FactCall(e), s).0 == Got(Int(Factorial(n))) && Untouched(s, Eval(p, fuel, FactCall(e), s).1)
    decreases n, 1
  {
    hide ExecBlock, Eval, Factorial;
    var fn, args := FactFunc(), Arg(e, NoArgs);
    var t := WithSaved(s).(scopes := WithSaved(s).scopes[s.cur := Running(s)["n" := Int(n)]]);
    FactBound(p, fuel - 1, e, n, s);
    var t1 := Pushed(t, fn.params);
    FactBody(p, fuel - 1, n, t1);
    CallIsInvoke(p, fuel, "fact", args, s);
  }

  lemma CallIsInvoke(p: Program, fuel: nat, f: string, args: Args, s: State)
    requires f in p.funcs && fuel > 0
    ensures Eval(p, fuel, Call(f, args), s) == Invoke(p, fuel - 1, p.funcs[f], args, s)
  {
  }

  lemma FactBound(p: Program, fuel: nat, e: Expr, n: nat, s: State)
    requires s.cur < |s.scopes| && Yields(p, fuel, e, Int(n), WithSaved(s))
    ensures
      var t := WithSaved(s).(scopes := WithSaved(s).scopes[s.cur := Running(s)["n" := Int(n)]]);
      Entered(p, fuel, FactFunc(), Arg(e, NoArgs), s) == (Got(()), Pushed(t, FactFunc().params))
  {
    hide Eval, FrameOf, Bind;
    BindOne(p, fuel, FactFunc().params, Arg(e, NoArgs), |s.scopes|, WithSaved(s));
  }

  lemma {:induction false} FactBody(p: Program, fuel: nat, n: nat, t: State)
    requires HasFact(p) && t.cur < |t.scopes| && !t.exiting && fuel >= n && Slot(t, "n") == Int(n)
    ensures
      var (r, u) := ExecBlock(p, fuel, FactFunc().body, t);
      r == Got(Returned(Int(Factorial(n)))) && Untouched(t, u)
    decreases n, 0
  {
    hide Eval, Exec, ExecBlock, Invoke, Factorial, Truthy;
    var product := Product();
    EvalVar(p, fuel, "n", t);
    FactorialStep(n);
    if n == 0 {
      IfFalls(p, fuel, Var("n"), Then(Return(product), End), Then(Return(N(1)), End), t);
      EvalLit(p, fuel, Int(1), t);
      ReturnFirst(p, fuel, N(1), End, t);
    } else {
      FactProduct(p, fuel, n, t);
      IfReturns(p, fuel, Var("n"), product, Then(Return(N(1)), End), t);
    }
  }

  lemma FactorialStep(n: nat)
    ensures Factorial(n) == if n == 0 then 1 else Factorial(n - 1) * n
    ensures Truthy(Int(n)) <==> n != 0
  {
  }

  lemma Computes(p: Program, a: int, b: int)
    requires Arithmetic(p)
    ensures p.apply("*", Int(a), Int(b)) == Int(a * b) && p.apply("-", Int(a), Int(b)) == Int(a - b)
    ensures p.apply("+", Int(a), Int(b)) == Int(a + b)
  {
  }

  lemma FactTimes(p: Program, n: nat)
    requires HasFact(p) && n > 0
    ensures Arithmetic(p) && p.apply("*", Int(Factorial(n - 1)), Int(n)) == Int(Factorial(n))
  {
    FactorialStep(n);
    Computes(p, Factorial(n - 1), n);
  }

  lemma {:induction false} FactProduct(p: Program, fuel: nat, n: nat, t: State)
    requires HasFact(p) && t.cur < |t.scopes| && !t.exiting && fuel >= n > 0 && Slot(t, "n") == Int(n)
    ensures Eval(p, fuel, Product(), t).0 == Got(Int(Factorial(n))) && Untouched(t, Eval(p, fuel, Product(), t).1)
    decreases n - 1, 2
  {
    hide Eval, Factorial, HasFact, Arithmetic, Slot, Untouched, Yields;
    FactTimes(p, n);
    OneLess(p, fuel - 1, n, t);
    FactIsFactorial(p, fuel, Before(), n - 1, t);
    TimesN(p, fuel, Factorial(n - 1), n, FactCall(Before()), t);
  }

  /** A call of value `last`, times $n. */
  lemma TimesN(p: Program, fuel: nat, last: int, n: nat, call: Expr, t: State)
    requires Slot(t, "n") == Int(n)
    requires Eval(p, fuel, call, t).0 == Got(Int(last)) && Untouched(t, Eval(p, fuel, call, t).1)
    ensures Eval(p, fuel, Binary("*", call, Var("n")), t) == (Got(p.apply("*", Int(last), Int(n))), Eval(p, fuel, call, t).1)
  {
    var u := Eval(p, fuel, call, t).1;
    UntouchedSlot(t, u, "n");
    hide Eval, Slot, Untouched;
    EvalVar(p, fuel, "n", u);
    EvalBinary(p, fuel, "*", call, Var("n"), t);
  }

  lemma UntouchedSlot(s: State, u: State, x: string)
    requires Untouched(s, u)
    ensures Slot(u, x) == Slot(s, x)
  {
  }

  /** The argument of the recursive call, in front of the saved copy. */
  lemma OneLess(p: Program, fuel: nat, n: nat, t: State)
    requires Arithmetic(p) && t.cur < |t.scopes| && Slot(t, "n") == Int(n)
    ensures Yields(p, fuel, Before(), Int(n - 1), WithSaved(t))
  {
    Computes(p, n, 1);
    var w := WithSaved(t);
    assert Slot(w, "n") == Int(n);
    hide Eval, Arithmetic, WithSaved, Slot;
    EvalVar(p, fuel, "n", w);
    EvalLit(p, fuel, Int(1), w);
    EvalBinary(p, fuel, "-", Var("n"), N(1), w);
  }

  // ----- one construct at a time

  lemma EvalLit(p: Program, fuel: nat, v: Scalar, s: State)
    ensures Eval(p, fuel, Lit(v), s) == (Got(v), s)
  {
  }

  /** A variable is its slot, read through when it holds a reference. */
  lemma EvalVar(p: Program, fuel: nat, x: string, s: State)
    requires !Slot(s, x).Ref?
    ensures Eval(p, fuel, Var(x), s) == (Got(Slot(s, x)), s)
  {
  }

  /** Operands are evaluated from left to right. */
  lemma EvalBinary(p: Program, fuel: nat, op: string, a: Expr, b: Expr, s: State)
    requires Eval(p, fuel, a, s).0.Got? && Eval(p, fuel, b, Eval(p, fuel, a, s).1).0.Got?
    ensures
      var (x, s1) := Eval(p, fuel, a, s);
      var (y, s2) := Eval(p, fuel, b, s1);
      Eval(p, fuel, Binary(op, a, b), s) == (Got(p.apply(op, x.val, y.val)), s2)
  {
  }

  lemma ReturnFirst(p: Program, fuel: nat, e: Expr, rest: Block, s: State)
    requires !s.exiting
    ensures
      var (v, s1) := Eval(p, fuel, e, s);
      ExecBlock(p, fuel, Then(Return(e), rest), s) == (if v.Got? then Got(Returned(v.val)) else Failed(v), s1)
  {
    hide Eval;
  }

  /** `if` with a condition that holds and a branch that returns. */
  lemma IfReturns(p: Program, fuel: nat, cond: Expr, e: Expr, rest: Block, s: State)
    requires !s.exiting && Eval(p, fuel, cond, s).0.Got? && Truthy(Eval(p, fuel, cond, s).0.val)
    requires var s1 := Eval(p, fuel, cond, s).1; !s1.exiting && Eval(p, fuel, e, s1).0.Got?
    ensures
      var s1 := Eval(p, fuel, cond, s).1;
      ExecBlock(p, fuel, Then(If(cond, Then(Return(e), End), End), rest), s)
      == (Got(Returned(Eval(p, fuel, e, s1).0.val)), Eval(p, fuel, e, s1).1)
  {
    hide Eval, Truthy;
    ReturnFirst(p, fuel, e, End, Eval(p, fuel, cond, s).1);
    assert Exec(p, fuel, If(cond, Then(Return(e), End), End), s)
        == ExecBlock(p, fuel, Then(Return(e), End), Eval(p, fuel, cond, s).1);
  }

  /** `if` without `else` and a condition that does not hold: the statements after it run. */
  lemma IfFalls(p: Program, fuel: nat, cond: Expr, yes: Block, rest: Block, s: State)
    requires !s.exiting && Eval(p, fuel, cond, s).0.Got? && !Truthy(Eval(p, fuel, cond, s).0.val)
    ensures ExecBlock(p, fuel, Then(If(cond, yes, End), rest), s) == ExecBlock(p, fuel, rest, Eval(p, fuel, cond, s).1)
  {
    hide Eval, Truthy;
    assert Exec(p, fuel, If(cond, yes, End), s) == ExecBlock(p, fuel, End, Eval(p, fuel, cond, s).1);
  }

  lemma EvalAssign(p: Program, fuel: nat, x: string, e: Expr, s: State)
    requires Eval(p, fuel, e, s).0.Got? && !Slot(Eval(p, fuel, e, s).1, x).Ref?
    ensures
      var (v, t) := Eval(p, fuel, e, s);
      Eval(p, fuel, AssignTo(x, e), s) == (v, SetSlot(t, x, v.val).(globals := t.globals[x := v.val]))
  {
    hide SetCell;
  }

  lemma DoFirst(p: Program, fuel: nat, e: Expr, rest: Block, s: State)
    requires !s.exiting && Eval(p, fuel, e, s).0.Got?
    ensures ExecBlock(p, fuel, Then(Do(e), rest), s) == ExecBlock(p, fuel, rest, Eval(p, fuel, e, s).1)
  {
    hide Eval;
    assert Exec(p, fuel, Do(e), s) == (Got(Normal), Eval(p, fuel, e, s).1);
  }

  /** A statement that ends in any other way than normally ends its block. */
  lemma FirstEnds(p: Program, fuel: nat, st: Stmt, rest: Block, s: State)
    requires !s.exiting && Exec(p, fuel, st, s).0 != Got(Normal)
    ensures ExecBlock(p, fuel, Then(st, rest), s) == Exec(p, fuel, st, s)
  {
    hide Exec;
  }

  /** A loop whose condition does not hold. */
  lemma WhileDone(p: Program, fuel: nat, cond: Expr, body: Block, s: State)
    requires Eval(p, fuel, cond, s).0.Got? && !Truthy(Eval(p, fuel, cond, s).0.val)
    ensures Exec(p, fuel, While(cond, body), s) == (Got(Normal), Eval(p, fuel, cond, s).1)
  {
    hide Eval;
    assert ExecWhile(p, fuel, cond, body, s) == (Got(Normal), Eval(p, fuel, cond, s).1);
  }

  /** A round that ends normally or in `continue` is followed by the rest of the loop. */
  lemma WhileAgain(p: Program, fuel: nat, cond: Expr, body: Block, s: State)
    requires fuel > 0 && Eval(p, fuel, cond, s).0.Got? && Truthy(Eval(p, fuel, cond, s).0.val)
    requires
      var (r, u) := ExecBlock(p, fuel, body, Eval(p, fuel, cond, s).1);
      (r == Got(Normal) || r == Got(Continued(1))) && !u.exiting
    ensures
      var u := ExecBlock(p, fuel, body, Eval(p, fuel, cond, s).1).1;
      Exec(p, fuel, While(cond, body), s) == Exec(p, fuel - 1, While(cond, body), u)
  {
    hide Eval, ExecBlock;
    var u := ExecBlock(p, fuel, body, Eval(p, fuel, cond, s).1).1;
    assert ExecWhile(p, fuel, cond, body, s) == ExecWhile(p, fuel - 1, cond, body, u);
  }

  /** A round that leaves the loop. */
  lemma WhileLeft(p: Program, fuel: nat, cond: Expr, body: Block, s: State)
    requires Eval(p, fuel, cond, s).0.Got? && Truthy(Eval(p, fuel, cond, s).0.val)
    requires
      var (r, u) := ExecBlock(p, fuel, body, Eval(p, fuel, cond, s).1);
      r.Got? && !u.exiting && (match r.val case Broken(_) => true case Continued(n) => n > 1 case Returned(_) => true case Normal => false)
    ensures
      var (r, u) := ExecBlock(p, fuel, body, Eval(p, fuel, cond, s).1);
      var left := match r.val
        case Broken(n) => if n > 1 then Broken(n - 1) else Normal
        case Continued(n) => Continued(if n > 0 then n - 1 else 0)
        case Returned(v) => Returned(v)
        case Normal => Normal;
      Exec(p, fuel, While(cond, body), s) == (Got(left), u)
  {
    hide Eval, ExecBlock;
    var (r, u) := ExecBlock(p, fuel, body, Eval(p, fuel, cond, s).1);
    assert ExecWhile(p, fuel, cond, body, s) == (Got(AfterRound(r.val, u.exiting).value), u);
  }

  // ----- loops

  /** $i = $i - 1 */
  function Decrement(): Expr {
    AssignTo("i", Binary("-", Var("i"), N(1)))
  }

  /** while ($i) { $s = $s + $i; $i = $i - 1; } */
  function SumLoop(): Stmt {
    While(Var("i"), Then(Do(AssignTo("s", Binary("+", Var("s"), Var("i")))), Then(Do(Decrement()), End)))
  }

  /** The running scope with x set, as an assignment leaves it. */
  function Assigned(s: State, x: string, v: Value): State {
    SetSlot(s, x, v).(globals := s.globals[x := v])
  }

  lemma AssignedSlots(s: State, x: string, v: Value)
    requires s.cur < |s.scopes|
    ensures
      var t := Assigned(s, x, v);
      && t.cur < |t.scopes| && t.exiting == s.exiting && t.cur == s.cur && t.frames == s.frames
      && forall y :: Slot(t, y) == if y == x then v else Slot(s, y)
  {
  }

  lemma Subtracts(p: Program, fuel: nat, n: int, s: State)
    requires Arithmetic(p) && s.cur < |s.scopes| && Slot(s, "i") == Int(n)
    ensures Eval(p, fuel, Decrement(), s) == (Got(Int(n - 1)), Assigned(s, "i", Int(n - 1)))
  {
    Computes(p, n, 1);
    hide Eval, Arithmetic, SetSlot;
    EvalVar(p, fuel, "i", s);
    EvalLit(p, fuel, Int(1), s);
    EvalBinary(p, fuel, "-", Var("i"), N(1), s);
    EvalAssign(p, fuel, "i", Binary("-", Var("i"), N(1)), s);
  }

  /** The loop adds the numbers from $i down to 1 to $s, for every start. */
  lemma {:induction false} LoopSums(p: Program, fuel: nat, n: nat, sum: int, s: State)
    requires Arithmetic(p) && s.cur < |s.scopes| && !s.exiting && fuel >= n
    requires Slot(s, "i") == Int(n) && Slot(s, "s") == Int(sum)
    ensures
      var (r, u) := Exec(p, fuel, SumLoop(), s);
      r == Got(Normal) && Slot(u, "i") == Int(0) && Slot(u, "s") == Int(sum + n * (n + 1) / 2)
    decreases n
  {
    FactorialStep(n);
    hide Eval, Exec, ExecBlock, Truthy, Slot, Arithmetic;
    EvalVar(p, fuel, "i", s);
    var body := SumLoop().body;
    if n == 0 {
      WhileDone(p, fuel, Var("i"), body, s);
    } else {
      var u := SumRound(p, fuel, n, sum, s);
      WhileAgain(p, fuel, Var("i"), body, s);
      LoopSums(p, fuel - 1, n - 1, sum + n, u);
      assert n * (n + 1) == (n - 1) * n + 2 * n;
    }
  }

  lemma SumRound(p: Program, fuel: nat, n: int, sum: int, s: State) returns (u: State)
    requires Arithmetic(p) && s.cur < |s.scopes| && !s.exiting && Slot(s, "i") == Int(n) && Slot(s, "s") == Int(sum)
    ensures ExecBlock(p, fuel, SumLoop().body, s) == (Got(Normal), u)
    ensures u.cur < |u.scopes| && !u.exiting && Slot(u, "i") == Int(n - 1) && Slot(u, "s") == Int(sum + n)
  {
    Computes(p, sum, n);
    hide Eval, Arithmetic, Slot, SetSlot;
    var add := Binary("+", Var("s"), Var("i"));
    EvalVar(p, fuel, "s", s);
    EvalVar(p, fuel, "i", s);
    EvalBinary(p, fuel, "+", Var("s"), Var("i"), s);
    EvalAssign(p, fuel, "s", add, s);
    AssignedSlots(s, "s", Int(sum + n));
    var t := Assigned(s, "s", Int(sum + n));
    Subtracts(p, fuel, n, t);
    AssignedSlots(t, "i", Int(n - 1));
    u := Assigned(t, "i", Int(n - 1));
    DoFirst(p, fuel, AssignTo("s", add), Then(Do(Decrement()), End), s);
    DoFirst(p, fuel, Decrement(), End, t);
    BlockEnds(p, fuel, u);
  }

  lemma BlockEnds(p: Program, fuel: nat, s: State)
    ensures ExecBlock(p, fuel, End, s) == (Got(Normal), s)
  {
  }

  /** `break 2` leaves two loops and what follows in the outer one; `break` leaves one. */
  lemma BreaksLeave(p: Program, fuel: nat, rest: Block, s: State)
    requires !s.exiting
    ensures Exec(p, fuel, While(N(1), Then(While(N(1), Then(Break(2), rest)), rest)), s) == (Got(Normal), s)
    ensures Exec(p, fuel, While(N(1), Then(While(N(1), Then(Break(1), rest)), Then(Break(1), rest))), s) == (Got(Normal), s)
  {
    EvalLit(p, fuel, Int(1), s);
    FactorialStep(1);
    JumpFirst(p, fuel, 2, rest, s);
    JumpFirst(p, fuel, 1, rest, s);
    hide Eval, Exec, ExecBlock, Truthy;
    var two, one := While(N(1), Then(Break(2), rest)), While(N(1), Then(Break(1), rest));
    WhileLeft(p, fuel, N(1), Then(Break(2), rest), s);
    FirstEnds(p, fuel, two, rest, s);
    WhileLeft(p, fuel, N(1), Then(two, rest), s);
    WhileLeft(p, fuel, N(1), Then(Break(1), rest), s);
    FirstNormal(p, fuel, one, Then(Break(1), rest), s);
    WhileLeft(p, fuel, N(1), Then(one, Then(Break(1), rest)), s);
  }

  lemma JumpFirst(p: Program, fuel: nat, n: nat, rest: Block, s: State)
    requires !s.exiting
    ensures ExecBlock(p, fuel, Then(Break(n), rest), s) == (Got(Broken(n)), s)
    ensures ExecBlock(p, fuel, Then(Continue(n), rest), s) == (Got(Continued(n)), s)
  {
  }

  lemma FirstNormal(p: Program, fuel: nat, st: Stmt, rest: Block, s: State)
    requires !s.exiting && Exec(p, fuel, st, s).0 == Got(Normal)
    ensures ExecBlock(p, fuel, Then(st, rest), s) == ExecBlock(p, fuel, rest, Exec(p, fuel, st, s).1)
  {
    hide Exec;
  }

  /** while ($i) { $i = $i - 1; jump; rest } where the jump is `continue`, or `while (1) { continue 2; }` */
  function SkipLoop(inner: bool, rest: Block): Stmt {
    var jump := if inner then While(N(1), Then(Continue(2), rest)) else Continue(1);
    While(Var("i"), Then(Do(Decrement()), Then(jump, rest)))
  }

  /** `continue`, and `continue 2` from an inner loop, go on with the next round: what follows them is never run. */
  lemma {:induction false} ContinueSkips(p: Program, fuel: nat, n: nat, inner: bool, rest: Block, s: State)
    requires Arithmetic(p) && s.cur < |s.scopes| && !s.exiting && fuel >= n && Slot(s, "i") == Int(n)
    ensures
      var (r, u) := Exec(p, fuel, SkipLoop(inner, rest), s);
      r == Got(Normal) && Slot(u, "i") == Int(0) && forall y :: y != "i" ==> Slot(u, y) == Slot(s, y)
    decreases n
  {
    FactorialStep(n);
    hide Eval, Exec, ExecBlock, Truthy, Slot, Arithmetic, SetSlot;
    EvalVar(p, fuel, "i", s);
    var loop := SkipLoop(inner, rest);
    if n == 0 {
      WhileDone(p, fuel, Var("i"), loop.body, s);
    } else {
      SkipRound(p, fuel, n, inner, rest, s);
      AssignedSlots(s, "i", Int(n - 1));
      WhileAgain(p, fuel, Var("i"), loop.body, s);
      ContinueSkips(p, fuel - 1, n - 1, inner, rest, Assigned(s, "i", Int(n - 1)));
    }
  }

  lemma SkipRound(p: Program, fuel: nat, n: int, inner: bool, rest: Block, s: State)
    requires Arithmetic(p) && s.cur < |s.scopes| && !s.exiting && Slot(s, "i") == Int(n)
    ensures ExecBlock(p, fuel, SkipLoop(inner, rest).body, s) == (Got(Continued(1)), Assigned(s, "i", Int(n - 1)))
  {
    var t := Assigned(s, "i", Int(n - 1));
    hide Eval, Exec, ExecBlock, Slot, Arithmetic, SetSlot;
    Subtracts(p, fuel, n, s);
    AssignedSlots(s, "i", Int(n - 1));
    var jump := SkipLoop(inner, rest).body.rest.first;
    Jumps(p, fuel, inner, rest, t);
    FirstEnds(p, fuel, jump, rest, t);
    DoFirst(p, fuel, Decrement(), Then(jump, rest), s);
  }

  lemma Jumps(p: Program, fuel: nat, inner: bool, rest: Block, t: State)
    requires !t.exiting
    ensures Exec(p, fuel, SkipLoop(inner, rest).body.rest.first, t) == (Got(Continued(1)), t)
  {
    if inner {
      FactorialStep(1);
      EvalLit(p, fuel, Int(1), t);
      JumpFirst(p, fuel, 2, rest, t);
      hide Eval, Exec, ExecBlock, Truthy;
      WhileLeft(p, fuel, N(1), Then(Continue(2), rest), t);
    }
  }

  /** `return` leaves every loop around it. */
  lemma ReturnLeaves(p: Program, fuel: nat, e: Expr, rest: Block, s: State)
    requires !s.exiting && Eval(p, fuel, e, s).0.Got? && !Eval(p, fuel, e, s).1.exiting
    ensures
      var (v, u) := Eval(p, fuel, e, s);
      ExecBlock(p, fuel, Then(While(N(1), Then(While(N(1), Then(Return(e), rest)), rest)), rest), s) == (Got(Returned(v.val)), u)
  {
    EvalLit(p, fuel, Int(1), s);
    FactorialStep(1);
    hide Eval, Exec, ExecBlock, Truthy;
    ReturnFirst(p, fuel, e, rest, s);
    var inner := While(N(1), Then(Return(e), rest));
    WhileLeft(p, fuel, N(1), Then(Return(e), rest), s);
    FirstEnds(p, fuel, inner, rest, s);
    WhileLeft(p, fuel, N(1), Then(inner, rest), s);
    FirstEnds(p, fuel, While(N(1), Then(inner, rest)), rest, s);
  }

  // ----- leaving the script

  /** `exit` in a function ends the function, and then nothing more is run in the block of the caller, loops included. */
  lemma ExitStops(p: Program, fuel: nat, f: string, rest: Block, s: State)
    requires f in p.funcs && p.funcs[f] == Func([], Then(Exit, rest)) && fuel > 0 && s.cur < |s.scopes| && !s.exiting
    ensures
      var (r, u) := ExecBlock(p, fuel, Then(While(N(1), Then(Do(Call(f, NoArgs)), rest)), rest), s);
      r == Got(Normal) && u.exiting && Running(u) == Running(s) && u.frames == s.frames
  {
    var fn := p.funcs[f];
    BindNone(p, fuel - 1, fn.params, NoArgs, |s.scopes|);
    var t := Pushed(WithSaved(s), fn.params);
    assert ExecBlock(p, fuel - 1, fn.body, t) == (Got(Returned(Null)), t.(exiting := true));
    EvalLit(p, fuel, Int(1), s);
    FactorialStep(1);
    CallIsInvoke(p, fuel, f, NoArgs, s);
    var u := Eval(p, fuel, Call(f, NoArgs), s).1;
    assert Entered(p, fuel - 1, fn, NoArgs, s) == (Got(()), t);
    assert u == Left(t.(exiting := true), |s.scopes|) && Eval(p, fuel, Call(f, NoArgs), s).0 == Got(Null);
    hide Exec, ExecBlock, Bind, Eval;
    var body := Then(Do(Call(f, NoArgs)), rest);
    DoFirst(p, fuel, Call(f, NoArgs), rest, s);
    NothingRuns(p, fuel, rest, u);
    WhileExits(p, fuel, N(1), body, s);
    FirstNormal(p, fuel, While(N(1), body), rest, s);
  }

  lemma NothingRuns(p: Program, fuel: nat, b: Block, s: State)
    requires s.exiting
    ensures ExecBlock(p, fuel, b, s) == (Got(Normal), s)
  {
  }

  lemma WhileExits(p: Program, fuel: nat, cond: Expr, body: Block, s: State)
    requires Eval(p, fuel, cond, s).0.Got? && Truthy(Eval(p, fuel, cond, s).0.val)
    requires var (r, u) := ExecBlock(p, fuel, body, Eval(p, fuel, cond, s).1); r.Got? && u.exiting
    ensures Exec(p, fuel, While(cond, body), s) == (Got(Normal), ExecBlock(p, fuel, body, Eval(p, fuel, cond, s).1).1)
  {
    hide Eval, ExecBlock;
    var u := ExecBlock(p, fuel, body, Eval(p, fuel, cond, s).1).1;
    assert ExecWhile(p, fuel, cond, body, s) == (Got(Normal), u);
  }

  // ----- conditions, assignments, errors

  /** Null, false, 0, the empty text and "0" take the other branch; every other value takes the first. */
  lemma IfChooses(p: Program, fuel: nat, v: Scalar, yes: Block, no: Block, s: State)
    ensures v in [Null, Bool(false), Int(0), Str(""), Str("0")] ==>
      Exec(p, fuel, If(Lit(v), yes, no), s) == ExecBlock(p, fuel, no, s)
    ensures v !in [Null, Bool(false), Int(0), Str(""), Str("0")] ==>
      Exec(p, fuel, If(Lit(v), yes, no), s) == ExecBlock(p, fuel, yes, s)
  {
    hide ExecBlock;
    EvalLit(p, fuel, v, s);
  }

  /** An assignment is worth its value and writes the variable, or what it refers to, and the table of globals under that name. */
  lemma AssignmentWrites(p: Program, fuel: nat, x: string, v: Scalar, s: State)
    requires s.cur < |s.scopes|
    ensures
      var (o, t) := Eval(p, fuel, AssignTo(x, Lit(v)), s);
      && o == Got(v)
      && (Slot(s, x).Ref? ==> t.globals == s.globals[Slot(s, x).name := v])
      && (!Slot(s, x).Ref? ==> Slot(t, x) == v && t.globals == s.globals[x := v])
  {
  }

  /** An error ends the statement, the block and every call around it; what follows is not run. */
  lemma ThrowEnds(p: Program, fuel: nat, f: string, v: Scalar, rest: Block, s: State)
    requires f in p.funcs && fuel > 0 && p.funcs[f] == Func([], Then(Throw(Lit(v)), rest)) && !s.exiting
    ensures Eval(p, fuel, Call(f, NoArgs), s).0 == Thrown
    ensures ExecBlock(p, fuel, Then(Return(Call(f, NoArgs)), rest), s).0 == Thrown
    ensures ExecBlock(p, fuel, Then(While(Lit(Int(1)), Then(Do(Call(f, NoArgs)), rest)), rest), s).0 == Thrown
  {
    NothingBound(p, fuel - 1, p.funcs[f], s);
    ThrowFirst(p, fuel - 1, v, rest, BodyStart(p, fuel - 1, p.funcs[f], NoArgs, s));
    CallValue(p, fuel, f, NoArgs, s);
    hide Eval, ExecBlock, ExecWhile, Entered;
    var call := Call(f, NoArgs);
    ErrorPasses(p, fuel, call, rest, s);
  }

  lemma NothingBound(p: Program, fuel: nat, fn: Func, s: State)
    requires fn.params == []
    ensures Entered(p, fuel, fn, NoArgs, s).0 == Got(()) && Entered(p, fuel, fn, NoArgs, s).1.exiting == s.exiting
  {
  }

  lemma ThrowFirst(p: Program, fuel: nat, v: Scalar, rest: Block, s: State)
    requires !s.exiting
    ensures ExecBlock(p, fuel, Then(Throw(Lit(v)), rest), s).0 == Thrown
  {
    EvalLit(p, fuel, v, s);
    hide Eval;
    assert Exec(p, fuel, Throw(Lit(v)), s).0 == Thrown;
    hide Exec;
    FirstEnds(p, fuel, Throw(Lit(v)), rest, s);
  }

  lemma ErrorPasses(p: Program, fuel: nat, e: Expr, rest: Block, s: State)
    requires Eval(p, fuel, e, s).0 == Thrown && !s.exiting
    ensures ExecBlock(p, fuel, Then(Return(e), rest), s).0 == Thrown
    ensures ExecBlock(p, fuel, Then(While(Lit(Int(1)), Then(Do(e), rest)), rest), s).0 == Thrown
  {
    EvalLit(p, fuel, Int(1), s);
    hide Eval, ExecBlock, ExecWhile;
    assert Exec(p, fuel, Return(e), s).0 == Thrown && Exec(p, fuel, Do(e), s).0 == Thrown;
    FirstEnds(p, fuel, Return(e), rest, s);
    FirstEnds(p, fuel, Do(e), rest, s);
    LoopFails(p, fuel, Then(Do(e), rest), s);
    hide Exec;
    assert Exec(p, fuel, While(Lit(Int(1)), Then(Do(e), rest)), s).0 == Thrown by {
      WhileIs(p, fuel, Lit(Int(1)), Then(Do(e), rest), s);
    }
    FirstEnds(p, fuel, While(Lit(Int(1)), Then(Do(e), rest)), rest, s);
  }

  lemma WhileIs(p: Program, fuel: nat, cond: Expr, body: Block, s: State)
    ensures Exec(p, fuel, While(cond, body), s) == ExecWhile(p, fuel, cond, body, s)
  {
    hide ExecWhile;
  }

  lemma LoopFails(p: Program, fuel: nat, body: Block, s: State)
    requires ExecBlock(p, fuel, body, s).0 == Thrown
    ensures ExecWhile(p, fuel, Lit(Int(1)), body, s).0 == Thrown
  {
    EvalLit(p, fuel, Int(1), s);
    hide Eval, ExecBlock;
  }
}
