/** Reference parameters at work: the function that exchanges two variables of its caller. */
module CallSwap {
  import opened Wrappers
  import opened CallSpec
  import opened CallValues

  /** $x = $y */
  function Copy(x: string, y: string): Expr {
    AssignTo(x, Var(y))
  }

  /** function swap(&$a, &$b) { $t = $a; $a = $b; $b = $t; } */
  function SwapFunc(): Func {
    Func([Param("a", true, None), Param("b", true, None)],
         Then(Do(Copy("t", "a")), Then(Do(Copy("a", "b")), Then(Do(Copy("b", "t")), End))))
  }

  /** The cell that a name of the running scope stands for. */
  function Home(s: State, x: string): (nat, string) {
    var v := Slot(s, x);
    if v.Ref? then (v.scope, v.name) else (s.cur, x)
  }

  /** Copying one variable to another sets one cell to the other's value. */
  lemma Copies(p: Program, fuel: nat, x: string, y: string, rest: Block, s: State)
    requires !s.exiting && s.cur < |s.scopes|
    ensures
      var (i, name) := Home(s, x);
      var t := SetCell(s, i, name, Read(s, y)).(globals := s.globals[name := Read(s, y)]);
      ExecBlock(p, fuel, Then(Do(Copy(x, y)), rest), s) == ExecBlock(p, fuel, rest, t) && !t.exiting && t.cur == s.cur
  {
    assert Eval(p, fuel, Var(y), s) == (Got(Read(s, y)), s);
    hide ExecBlock, SetCell, Read;
    var t := Write(s, x, Read(s, y));
    assert Eval(p, fuel, Copy(x, y), s) == (Got(Read(s, y)), t);
    hide Eval, Write;
    DoFirst(p, fuel, Copy(x, y), rest, s);
  }

  lemma CellSet(s: State, i: nat, x: string, v: Value)
    requires i < |s.scopes|
    ensures
      var t := SetCell(s, i, x, v);
      && |t.scopes| == |s.scopes| && t.frames == s.frames
      && forall j: nat, y :: Cell(t, j, y) == if j == i && y == x then v else Cell(s, j, y)
  {
  }

  /** The state in which the body starts: the names a and b refer to the caller's saved variables. */
  lemma SwapBound(p: Program, fuel: nat, x: string, y: string, s: State)
    requires s.cur < |s.scopes| && !Slot(s, x).Ref? && !Slot(s, y).Ref? && x != y && {x, y} !! {"a", "b", "t"}
    ensures
      var k := |s.scopes|;
      var args := Arg(Var(x), Arg(Var(y), NoArgs));
      var (b, t) := Entered(p, fuel, SwapFunc(), args, s);
      && b == Got(()) && t.cur == s.cur && t.exiting == s.exiting && |t.scopes| == k + 1 && |t.frames| == |s.frames| + 1
      && t.frames[..|s.frames|] == s.frames && t.scopes[k] == Running(s)
      && Slot(t, "a") == Ref(k, x) && Slot(t, "b") == Ref(k, y) && Slot(t, "t") == Slot(s, "t")
  {
    var params := SwapFunc().params;
    var one := [Param("b", true, None)];
    assert params[1..] == one && one[1..] == [];
    var w := WithSaved(s);
    var k := |s.scopes|;
    var w1 := SetSlot(w, "a", RefFor(w, k, x));
    var w2 := SetSlot(w1, "b", RefFor(w1, k, y));
    assert Slot(w1, y) == Slot(s, y);
    BindNone(p, fuel, one[1..], NoArgs, k);
    assert Bind(p, fuel, one, Arg(Var(y), NoArgs), k, w1) == Bind(p, fuel, one[1..], NoArgs, k, w2);
    assert Bind(p, fuel, params, Arg(Var(x), Arg(Var(y), NoArgs)), k, w) == Bind(p, fuel, one, Arg(Var(y), NoArgs), k, w1);
  }

  /** swap($x, $y) exchanges the values of any two variables of the caller, and changes nothing else there. */
  lemma SwapExchanges(p: Program, fuel: nat, x: string, y: string, s: State)
    requires "swap" in p.funcs && p.funcs["swap"] == SwapFunc() && fuel > 0
    requires s.cur < |s.scopes| && !s.exiting && !Slot(s, "t").Ref?
    requires !Slot(s, x).Ref? && !Slot(s, y).Ref? && x != y && {x, y} !! {"a", "b", "t"}
    ensures
      var (v, u) := Eval(p, fuel, Call("swap", Arg(Var(x), Arg(Var(y), NoArgs))), s);
      && v == Got(Null) && u.frames == s.frames
      && forall z :: Slot(u, z) == if z == x then Slot(s, y) else if z == y then Slot(s, x) else Slot(s, z)
  {
    var k, fn, args := |s.scopes|, SwapFunc(), Arg(Var(x), Arg(Var(y), NoArgs));
    hide Eval, ExecBlock, Entered;
    SwapBound(p, fuel - 1, x, y, s);
    var t := BodyStart(p, fuel - 1, fn, args, s);
    var u := SwapBody(p, fuel - 1, k, x, y, t);
    CallIsInvoke(p, fuel, "swap", args, s);
    assert Eval(p, fuel, Call("swap", args), s) == (Got(Null), Left(u, k));
    forall z ensures Slot(Left(u, k), z) == if z == x then Slot(s, y) else if z == y then Slot(s, x) else Slot(s, z) {
      assert Cell(u, k, z) == if z == x then Cell(t, k, y) else if z == y then Cell(t, k, x) else Cell(t, k, z);
    }
  }

  lemma SwapBody(p: Program, fuel: nat, k: nat, x: string, y: string, t: State) returns (u: State)
    requires t.cur < |t.scopes| && k < |t.scopes| && k != t.cur && !t.exiting && x != y
    requires Slot(t, "a") == Ref(k, x) && Slot(t, "b") == Ref(k, y) && !Slot(t, "t").Ref? && !Cell(t, k, x).Ref?
    ensures ExecBlock(p, fuel, SwapFunc().body, t) == (Got(Normal), u)
    ensures u.frames == t.frames && |u.scopes| == |t.scopes|
    ensures forall z :: Cell(u, k, z) == if z == x then Cell(t, k, y) else if z == y then Cell(t, k, x) else Cell(t, k, z)
  {
    hide ExecBlock, SetCell, Cell, Slot;
    var vx, vy := Cell(t, k, x), Cell(t, k, y);
    ReadsThrough(t, "a", k, x);
    Copies(p, fuel, "t", "a", SwapFunc().body.rest, t);
    CellSet(t, t.cur, "t", vx);
    var t1 := SetCell(t, t.cur, "t", vx).(globals := t.globals["t" := vx]);
    SameCells(SetCell(t, t.cur, "t", vx), t1);
    SlotsFrom(t, t1);
    ReadsThrough(t1, "b", k, y);
    Copies(p, fuel, "a", "b", SwapFunc().body.rest.rest, t1);
    CellSet(t1, k, x, vy);
    var t2 := SetCell(t1, k, x, vy).(globals := t1.globals[x := vy]);
    SameCells(SetCell(t1, k, x, vy), t2);
    SlotsFrom(t1, t2);
    ReadsPlain(t2, "t");
    Copies(p, fuel, "b", "t", End, t2);
    CellSet(t2, k, y, vx);
    u := SetCell(t2, k, y, vx).(globals := t2.globals[y := vx]);
    SameCells(SetCell(t2, k, y, vx), u);
    BlockEnds(p, fuel, u);
  }

  lemma SameCells(s: State, t: State)
    requires s.scopes == t.scopes
    ensures forall i: nat, x :: Cell(t, i, x) == Cell(s, i, x)
  {
  }

  lemma SlotsFrom(s: State, t: State)
    requires s.cur == t.cur
    ensures forall x :: Slot(t, x) == Cell(t, s.cur, x) && Slot(s, x) == Cell(s, s.cur, x)
  {
  }

  lemma ReadsThrough(s: State, x: string, i: nat, y: string)
    requires Slot(s, x) == Ref(i, y)
    ensures Read(s, x) == Cell(s, i, y)
  {
  }

  lemma ReadsPlain(s: State, x: string)
    requires !Slot(s, x).Ref?
    ensures Read(s, x) == Slot(s, x)
  {
  }
}
