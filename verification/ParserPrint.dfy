/**
 Precedence correctness: printing an expression with only the parentheses its precedence
 needs, and parsing the tokens, gives back the same expression.
 */
module ParserPrint {
  import opened Basics
  import opened Wrappers
  import opened ParserSpec

  /** The ladder level of an expression's outermost operator. */
  function Level(e: Expr): nat {
    match e
    case Unary(_, _) => UNARY
    case Cast(_, _) => UNARY
    case Binary(op, _, _) => BinLevel(op)
    case Assign(_, _) => 1
    case Ternary(_, _, _) => 2
    case ShortTernary(_, _) => 2
    case HalfTernary(_, _) => 2
    case Coalesce(_, _) => 3
    case InstanceOf(_, _) => COMPARE
    case Ref(_) => UNARY
    case _ => POSTFIX
  }

  /** A single word that the parser takes for a name: no constant it replaces, no operator, no namespace. */
  predicate PlainName(consts: Consts, name: string) {
    name !in consts && !IsMagic(name) && name != AT && name != DOTS && '\\' !in name
  }

  /** A static property, whose name keeps its dollar sign. */
  predicate IsStatic(x: Expr, name: string) {
    x.Const? && name != "" && name[0] == '$'
  }

  /**
   The expressions that have a source text of their own: every tree of the fragment except
   those the parser only builds for a sugared or erroneous form (a compound assignment, a
   conditional without its else part, a reference or spread outside an argument list) and
   names that it replaces or that take more than one word.
   */
  predicate Printable(consts: Consts, e: Expr) {
    match e
    case Var(name) => name != "this"
    case IntLit(n) => 0 <= n <= MAX_INT64
    case Const(name) => PlainName(consts, name)
    case Magic(name) => IsMagic(name) && name !in consts
    case Unary(_, x) => Printable(consts, x)
    case Cast(_, x) => Printable(consts, x)
    case Binary(op, l, r) => !op.Compound? && Printable(consts, l) && Printable(consts, r)
    case Assign(t, v) => Printable(consts, t) && Printable(consts, v)
    case Ternary(c, t, x) => Printable(consts, c) && Printable(consts, t) && Printable(consts, x)
    case ShortTernary(c, x) => Printable(consts, c) && Printable(consts, x)
    case HalfTernary(_, _) => false
    case Coalesce(l, r) => Printable(consts, l) && Printable(consts, r)
    case InstanceOf(x, cls) => Printable(consts, x) && '\\' !in cls
    case Index(a, k) => Printable(consts, a) && Printable(consts, k)
    case Call(_, args) => PrintableArgs(consts, args)
    case Prop(x, name) => IsStatic(x, name) || Printable(consts, x)
    case Method(x, _, args) => Printable(consts, x) && PrintableArgs(consts, args)
    case StaticCall(_, _, args) => PrintableArgs(consts, args)
    case Ref(_) => false
    case ByRef(_) => false
    case Splat(_) => false
    case _ => true
  }

  predicate PrintableArgs(consts: Consts, args: Args) {
    match args
    case NoArgs => true
    case MoreArgs(a, rest) => (a.ByRef? || (if a.Splat? then Printable(consts, a.list) else Printable(consts, a))) && PrintableArgs(consts, rest)
  }

  /** The name of a function or class in front of its arguments or `::`: quoted unless it is plain. */
  function NameTok(consts: Consts, name: string): Tok {
    if PlainName(consts, name) then TIdent(name) else TStr(name)
  }

  function UnaryTok(op: UnaryOp): Tok {
    match op
    case Not => TBang
    case Neg => TOp(Sub)
  }

  function BinTok(op: BinOp): Tok {
    match op
    case WordOr => TIdent("or")
    case WordAnd => TIdent("and")
    case WordXor => TIdent("xor")
    case _ => TOp(op)
  }

  /** The level at which a left operand is read: `instanceof` is no operand of a comparison. */
  function LeftLevel(op: BinOp, l: Expr): nat {
    if BinLevel(op) == 0 then 1
    else if BinLevel(op) == COMPARE && l.InstanceOf? then COMPARE + 1
    else BinLevel(op)
  }

  /** Tokens of e where an expression of level at least `ctx` is expected. */
  function Show(consts: Consts, e: Expr, ctx: nat): Toks
    decreases e, 1
  {
    if Level(e) < ctx then [TLParen] + Bare(consts, e) + [TRParen] else Bare(consts, e)
  }

  function Bare(consts: Consts, e: Expr): Toks
    decreases e, 0
  {
    match e
    case Var(name) => [TVar(name)]
    case This => [TVar("this")]
    case IntLit(n) => [TInt(if n < 0 then 0 else n)]
    case FloatLit(bits) => [TFloat(bits)]
    case Str(text) => [TStr(text)]
    case NullLit => [TNull]
    case BoolLit(b) => [TBool(b)]
    case Const(name) => [TIdent(name)]
    case Magic(name) => [TIdent(name)]
    case Unary(op, x) => [UnaryTok(op)] + Show(consts, x, UNARY)
    case Cast(kind, x) => [TCast(kind)] + Show(consts, x, UNARY)
    case Binary(op, l, r) =>
      if BinLevel(op) == 0 then Show(consts, l, 1) + [BinTok(op)] + Show(consts, r, 0)
      else Show(consts, l, LeftLevel(op, l)) + [BinTok(op)] + Show(consts, r, BinLevel(op) + 1)
    case Assign(t, v) => Show(consts, t, 3) + [TEquals] + Show(consts, v, 1)
    case Ternary(c, t, x) => Show(consts, c, 3) + [TQuestion] + Show(consts, t, 1) + [TColon] + Show(consts, x, 1)
    case ShortTernary(c, x) => Show(consts, c, 3) + [TQuestion, TColon] + Show(consts, x, 1)
    case HalfTernary(c, t) => Show(consts, c, 3) + [TQuestion] + Show(consts, t, 1)
    case Coalesce(l, r) => Show(consts, l, 4) + [TCoalesce] + Show(consts, r, 3)
    case InstanceOf(x, cls) => Show(consts, x, COMPARE + 1) + [TInstanceOf, TIdent(cls)]
    case Index(a, k) => Show(consts, a, POSTFIX) + [TLBracket] + (if k == NullLit then [] else Show(consts, k, 0)) + [TRBracket]
    case Call(name, args) => [NameTok(consts, name), TLParen] + ShowArgs(consts, args) + [TRParen]
    case Prop(x, name) =>
      if IsStatic(x, name) then [NameTok(consts, x.name), TDoubleColon, TVar(name[1..])]
      else Show(consts, x, POSTFIX) + [TArrow, TIdent(name)]
    case Method(x, name, args) => Show(consts, x, POSTFIX) + [TArrow, TIdent(name), TLParen] + ShowArgs(consts, args) + [TRParen]
    case StaticCall(cls, name, args) => [NameTok(consts, cls), TDoubleColon, TIdent(name), TLParen] + ShowArgs(consts, args) + [TRParen]
    case ClassConst(cls, name) => [NameTok(consts, cls), TDoubleColon, TIdent(name)]
    case Ref(x) => [TOp(BitAnd)] + Show(consts, x, POSTFIX)
    case ByRef(name) => [TOp(BitAnd), TVar(name)]
    case Splat(x) => [TIdent(DOTS)] + Show(consts, x, 0)
  }

  function ShowArgs(consts: Consts, args: Args): Toks
    decreases args, 0
  {
    match args
    case NoArgs => []
    case MoreArgs(a, NoArgs) => Show(consts, a, 0)
    case MoreArgs(a, rest) => Show(consts, a, 0) + [TComma] + ShowArgs(consts, rest)
  }

  /** The lowest level at which a token continues an expression; tokens that never do are below all levels. */
  function Joins(t: Tok): int {
    match t
    case TIdent(name) => if name == BACKSLASH then POSTFIX + 1 else if WordOp(name).Some? then 0 else -1
    case TEquals => 1
    case TCompound(_) => 1
    case TQuestion => 2
    case TCoalesce => 3
    case TOp(op) => BinLevel(op)
    case TInstanceOf => COMPARE
    case TLBracket => POSTFIX
    case TLParen => POSTFIX
    case TArrow => POSTFIX
    case TDoubleColon => POSTFIX
    case _ => -1
  }

  // ----- first tokens

  /** No token that ends an argument list, an index or a branch, and none that marks an argument. */
  predicate Starts(t: Tok) {
    match t
    case TEOF => false
    case TRParen => false
    case TRBracket => false
    case TColon => false
    case TOp(op) => op == Sub
    case TIdent(name) => name != DOTS
    case _ => true
  }

  /** Nor a token that begins a prefix expression. */
  predicate StartsPostfix(t: Tok) {
    Starts(t) && t != TIdent(AT) && !t.TBang? && !t.TOp? && !t.TIncr? && !t.TCast?
  }

  lemma {:induction false} FirstTok(consts: Consts, e: Expr, ctx: nat)
    requires Printable(consts, e)
    ensures Show(consts, e, ctx) != [] && Starts(Show(consts, e, ctx)[0])
    ensures Level(e) == POSTFIX || Level(e) < ctx ==> ctx >= UNARY ==> StartsPostfix(Show(consts, e, ctx)[0])
    decreases e, 1
  {
    hide Bare, Printable;
    if Level(e) == POSTFIX {
      FirstPostfix(consts, e);
    } else {
      FirstLow(consts, e);
    }
  }

  lemma {:induction false} FirstLow(consts: Consts, e: Expr)
    requires Printable(consts, e) && Level(e) < POSTFIX
    ensures Bare(consts, e) != [] && Starts(Bare(consts, e)[0])
    decreases e, 0
  {
    hide IsMagic, Lower, WordOp, Show, ShowArgs, PrintableArgs, BinTok;
    match e {
      case Binary(op, l, _) => FirstTok(consts, l, LeftLevel(op, l));
      case Assign(t, _) => FirstTok(consts, t, 3);
      case Ternary(c, _, _) => FirstTok(consts, c, 3);
      case ShortTernary(c, _) => FirstTok(consts, c, 3);
      case Coalesce(l, _) => FirstTok(consts, l, 4);
      case InstanceOf(x, _) => FirstTok(consts, x, COMPARE + 1);
      case _ =>
    }
  }

  lemma NameStarts(consts: Consts, name: string)
    ensures StartsPostfix(NameTok(consts, name))
    ensures PlainName(consts, name) ==> NameTok(consts, name) == TIdent(name)
    ensures IsMagic(name) ==> StartsPostfix(TIdent(name)) && name != BACKSLASH
  {
  }

  lemma {:induction false} FirstPostfix(consts: Consts, e: Expr)
    requires Printable(consts, e) && Level(e) == POSTFIX
    ensures Bare(consts, e) != [] && StartsPostfix(Bare(consts, e)[0])
    decreases e, 0
  {
    hide IsMagic, PlainName, NameTok, Show, ShowArgs, PrintableArgs;
    match e {
      case Index(a, k) =>
        FirstTok(consts, a, POSTFIX);
        FirstChain(consts, a, e);
      case Prop(x, name) =>
        if IsStatic(x, name) {
          NameStarts(consts, x.name);
        } else {
          FirstTok(consts, x, POSTFIX);
          FirstChain(consts, x, e);
        }
      case Method(x, _, _) =>
        FirstTok(consts, x, POSTFIX);
        FirstChain(consts, x, e);
      case _ =>
        FirstAtom(consts, e);
    }
  }

  lemma FirstAtom(consts: Consts, e: Expr)
    requires Printable(consts, e) && Level(e) == POSTFIX && !e.Index? && !e.Prop? && !e.Method?
    ensures Bare(consts, e) != [] && StartsPostfix(Bare(consts, e)[0])
  {
    hide IsMagic, PlainName, NameTok, ShowArgs, PrintableArgs, StartsPostfix;
    if e.Const? || e.Magic? || e.Call? {
      NameStarts(consts, e.name);
    } else if e.StaticCall? || e.ClassConst? {
      NameStarts(consts, e.cls);
    } else {
      LiteralStarts(Bare(consts, e)[0]);
    }
  }

  lemma LiteralStarts(t: Tok)
    requires t.TVar? || t.TInt? || t.TFloat? || t.TStr? || t.TNull? || t.TBool?
    ensures StartsPostfix(t)
  {
  }

  /** A chain begins with the tokens of its receiver. */
  lemma FirstChain(consts: Consts, x: Expr, e: Expr)
    requires Show(consts, x, POSTFIX) != []
    requires (e.Index? && e.arr == x) || (e.Prop? && e.recv == x && !IsStatic(x, e.name)) || (e.Method? && e.recv == x)
    ensures Bare(consts, e) != [] && Bare(consts, e)[0] == Show(consts, x, POSTFIX)[0]
  {
    hide Show, ShowArgs;
  }

  // ----- the induction

  /** What follows the operand of a left-associating level. */
  function Tail(consts: Consts, ctx: nat, e: Expr, ts: Toks): Result
    requires Ended(ts) && (4 <= ctx < UNARY || ctx == POSTFIX)
  {
    if ctx == POSTFIX then PostfixLoop(consts, e, ts) else BinLoop(consts, ctx, e, ts)
  }

  /** Tokens at or above this bound would extend an expression of level ctx: a conditional ends in an assignment. */
  function Bound(ctx: nat): nat {
    if ctx == 2 then 1 else ctx
  }

  function Rank(e: Expr, ctx: nat): nat
    requires ctx <= POSTFIX
  {
    if Level(e) < ctx then 200 - 2 * ctx else 80 - 2 * ctx
  }

  /** The printed tokens of an expression are parsed to it, at every level and before any token that does not extend it. */
  lemma {:induction false} ShowParses(consts: Consts, e: Expr, ctx: nat, rest: Toks)
    requires Printable(consts, e) && ctx <= POSTFIX && Ended(rest) && Joins(rest[0]) < Bound(ctx)
    ensures ParseAt(consts, ctx, Show(consts, e, ctx) + rest) == Some((e, rest))
    decreases e, Rank(e, ctx) + 1
  {
    hide IsMagic, Lower, WordOp, PostfixLoop, Bare, Show, ParseAt, Tail;
    if ctx == COMPARE && e.InstanceOf? {
      ShowInstance(consts, e.obj, e.cls, rest);
    } else if ctx == POSTFIX || 4 <= ctx < UNARY {
      ShowTail(consts, e, ctx, rest);
      StopTail(consts, ctx, e, rest);
    } else if Level(e) != ctx {
      ShowParses(consts, e, ctx + 1, rest);
      ShowHigher(consts, e, ctx, rest);
    } else if ctx == UNARY {
      ShowUnary(consts, e, rest);
    } else {
      ShowLow(consts, e, ctx, rest);
    }
  }

  /** An expression that is not of this level is read by the next one. */
  lemma ShowHigher(consts: Consts, e: Expr, ctx: nat, rest: Toks)
    requires Printable(consts, e) && Level(e) != ctx && (ctx < 4 || ctx == UNARY) && Ended(rest) && Joins(rest[0]) < Bound(ctx)
    requires ParseAt(consts, ctx + 1, Show(consts, e, ctx + 1) + rest) == Some((e, rest))
    ensures ParseAt(consts, ctx, Show(consts, e, ctx) + rest) == Some((e, rest))
  {
    hide Printable, Bare;
    assert Show(consts, e, ctx) == Show(consts, e, ctx + 1);
    var ts := Show(consts, e, ctx) + rest;
    if ctx == UNARY {
      FirstTok(consts, e, ctx);
      hide Show, ParseAt;
      NoPrefix(consts, ts);
      AtUnary(consts, ts);
    } else {
      hide Show, PostfixLoop, ParsePrimary;
      AtLow(consts, ctx, e, ts, rest);
    }
  }

  lemma NoPrefix(consts: Consts, ts: Toks)
    requires Ended(ts) && StartsPostfix(ts[0])
    ensures ParseUnary(consts, ts) == ParseAt(consts, POSTFIX, ts)
  {
    hide ParseAt;
  }

  lemma AtLow(consts: Consts, ctx: nat, e: Expr, ts: Toks, rest: Toks)
    requires ctx < 4 && Ended(ts) && Ended(rest) && Joins(rest[0]) < Bound(ctx)
    requires ParseAt(consts, ctx + 1, ts) == Some((e, rest))
    ensures ParseAt(consts, ctx, ts) == Some((e, rest))
  {
  }

  lemma StopTail(consts: Consts, ctx: nat, e: Expr, rest: Toks)
    requires Ended(rest) && Joins(rest[0]) < ctx && (4 <= ctx < UNARY || ctx == POSTFIX)
    ensures Tail(consts, ctx, e, rest) == Some((e, rest))
  {
  }

  lemma {:induction false} ShowUnary(consts: Consts, e: Expr, rest: Toks)
    requires Printable(consts, e) && Level(e) == UNARY && Ended(rest) && Joins(rest[0]) < UNARY
    ensures ParseAt(consts, UNARY, Show(consts, e, UNARY) + rest) == Some((e, rest))
    decreases e, Rank(e, UNARY)
  {
    hide IsMagic, Lower, WordOp, Show, ParseAt, ParseUnary;
    ShowIsBare(consts, e, UNARY);
    var x := e.operand;
    var tail := Show(consts, x, UNARY) + rest;
    assert Bare(consts, e) + rest == [Bare(consts, e)[0]] + tail;
    ShowParses(consts, x, UNARY, rest);
    AtUnary(consts, tail);
    AtPrefix(consts, e, tail, rest);
    AtUnary(consts, Bare(consts, e) + rest);
  }

  /** A prefix operator in front of its operand. */
  lemma AtPrefix(consts: Consts, e: Expr, tail: Toks, rest: Toks)
    requires Printable(consts, e) && Level(e) == UNARY && Ended(tail) && Ended(rest) && ParseUnary(consts, tail) == Some((e.operand, rest))
    ensures ParseUnary(consts, [Bare(consts, e)[0]] + tail) == Some((e, rest))
  {
    hide IsMagic, Lower, WordOp, PostfixLoop, ParsePrimary, ParseAt, Show;
    assert ([Bare(consts, e)[0]] + tail)[1..] == tail;
  }

  lemma ShowIsBare(consts: Consts, e: Expr, ctx: nat)
    requires Level(e) >= ctx
    ensures Show(consts, e, ctx) == Bare(consts, e)
  {
  }

  /** The right-associating levels 0 to 3, on an expression of that very level. */
  lemma {:induction false} ShowLow(consts: Consts, e: Expr, ctx: nat, rest: Toks)
    requires Printable(consts, e) && Level(e) == ctx <= 3 && Ended(rest) && Joins(rest[0]) < Bound(ctx)
    ensures ParseAt(consts, ctx, Show(consts, e, ctx) + rest) == Some((e, rest))
    decreases e, Rank(e, ctx)
  {
    hide IsMagic, Lower, WordOp, Show, Bare, ParseAt;
    ShowIsBare(consts, e, ctx);
    match e {
      case Binary(op, l, r) => ShowWord(consts, op, l, r, rest);
      case Assign(t, v) => ShowAssign(consts, t, v, rest);
      case Ternary(c, t, x) => ShowTernary(consts, c, t, x, rest);
      case ShortTernary(c, x) => ShowShortTernary(consts, c, x, rest);
      case Coalesce(l, r) => ShowCoalesce(consts, l, r, rest);
    }
  }

  lemma MidToks(a: Toks, m: Toks, b: Toks, rest: Toks)
    ensures a + m + b + rest == a + (m + (b + rest))
    ensures (m + (b + rest))[|m|..] == b + rest
  {
  }

  lemma {:induction false} ShowWord(consts: Consts, op: BinOp, l: Expr, r: Expr, rest: Toks)
    requires Printable(consts, Binary(op, l, r)) && BinLevel(op) == 0 && Ended(rest) && Joins(rest[0]) < 0
    ensures ParseAt(consts, 0, Bare(consts, Binary(op, l, r)) + rest) == Some((Binary(op, l, r), rest))
    decreases Binary(op, l, r), 1
  {
    hide IsMagic, PlainName, Lower, WordOp, Show, ParseAt;
    WordRead(op);
    var right := Show(consts, r, 0) + rest;
    var mid := [BinTok(op)] + right;
    MidToks(Show(consts, l, 1), [BinTok(op)], Show(consts, r, 0), rest);
    assert Bare(consts, Binary(op, l, r)) + rest == Show(consts, l, 1) + mid;
    hide Bare;
    ShowParses(consts, l, 1, mid);
    ShowParses(consts, r, 0, rest);
    AtWord(consts, l, mid, Show(consts, l, 1) + mid);
  }

  lemma AtWord(consts: Consts, l: Expr, mid: Toks, ts: Toks)
    requires Ended(ts) && Ended(mid) && ParseAt(consts, 1, ts) == Some((l, mid))
    ensures ParseAt(consts, 0, ts) == WordLoop(consts, l, mid)
  {
  }

  lemma WordRead(op: BinOp)
    requires BinLevel(op) == 0
    ensures BinTok(op).TIdent? && WordOp(BinTok(op).name) == Some(op) && BinTok(op).name != BACKSLASH
  {
    assert Lower("or") == "or";
    assert Lower("and") == "and";
    assert Lower("xor") == "xor";
  }

  lemma {:induction false} ShowAssign(consts: Consts, t: Expr, v: Expr, rest: Toks)
    requires Printable(consts, Assign(t, v)) && Ended(rest) && Joins(rest[0]) < 1
    ensures ParseAt(consts, 1, Bare(consts, Assign(t, v)) + rest) == Some((Assign(t, v), rest))
    decreases Assign(t, v), 1
  {
    hide IsMagic, PlainName, Lower, WordOp, Show, ParseAt;
    var right := Show(consts, v, 1) + rest;
    var mid := [TEquals] + right;
    MidToks(Show(consts, t, 3), [TEquals], Show(consts, v, 1), rest);
    assert Bare(consts, Assign(t, v)) + rest == Show(consts, t, 3) + mid;
    ShowParses(consts, t, 3, mid);
    ShowParses(consts, v, 1, rest);
    hide ParseAt, Bare;
    AtAssign(consts, t, mid, Show(consts, t, 3) + mid);
  }

  lemma AtAssign(consts: Consts, t: Expr, mid: Toks, ts: Toks)
    requires Ended(ts) && Ended(mid) && ParseAt(consts, 3, ts) == Some((t, mid)) && !mid[0].TQuestion?
    ensures ParseAt(consts, 1, ts) == AssignTail(consts, t, mid)
  {
    hide IsMagic, Lower, WordOp, AssignTail, CoalesceTail;
    assert ParseAt(consts, 2, ts) == TernaryTail(consts, t, mid);
  }

  lemma AtTernary(consts: Consts, c: Expr, mid: Toks, ts: Toks)
    requires Ended(ts) && Ended(mid) && ParseAt(consts, 3, ts) == Some((c, mid))
    ensures ParseAt(consts, 2, ts) == TernaryTail(consts, c, mid)
  {
  }

  lemma TernaryToks(c: Toks, t: Toks, x: Toks, rest: Toks)
    ensures c + [TQuestion] + t + [TColon] + x + rest == c + ([TQuestion] + (t + ([TColon] + (x + rest))))
  {
  }

  /** Both branches of a conditional, once they are read. */
  lemma FullTernary(consts: Consts, c: Expr, t: Expr, x: Expr, thn: Toks, els: Toks, rest: Toks)
    requires Ended(thn) && Ended(els) && Ended(rest) && !thn[0].TColon?
    requires ParseAt(consts, 1, thn) == Some((t, [TColon] + els)) && ParseAt(consts, 1, els) == Some((x, rest))
    ensures TernaryTail(consts, c, [TQuestion] + thn) == Some((Ternary(c, t, x), rest))
  {
  }

  lemma ThenStarts(consts: Consts, t: Expr, rest: Toks)
    requires Printable(consts, t)
    ensures Show(consts, t, 1) + rest != [] && !(Show(consts, t, 1) + rest)[0].TColon?
  {
    hide Show, Printable;
    FirstTok(consts, t, 1);
  }

  lemma {:induction false} ShowTernary(consts: Consts, c: Expr, t: Expr, x: Expr, rest: Toks)
    requires Printable(consts, Ternary(c, t, x)) && Ended(rest) && Joins(rest[0]) < 1
    ensures ParseAt(consts, 2, Bare(consts, Ternary(c, t, x)) + rest) == Some((Ternary(c, t, x), rest))
    decreases Ternary(c, t, x), 1
  {
    hide IsMagic, PlainName, Lower, WordOp, Show, ParseAt, TernaryTail;
    var els := Show(consts, x, 1) + rest;
    var thn := Show(consts, t, 1) + ([TColon] + els);
    var mid := [TQuestion] + thn;
    TernaryToks(Show(consts, c, 3), Show(consts, t, 1), Show(consts, x, 1), rest);
    assert Bare(consts, Ternary(c, t, x)) + rest == Show(consts, c, 3) + mid;
    hide Bare;
    ShowParses(consts, c, 3, mid);
    ThenStarts(consts, t, [TColon] + els);
    ShowParses(consts, t, 1, [TColon] + els);
    ShowParses(consts, x, 1, rest);
    FullTernary(consts, c, t, x, thn, els, rest);
    AtTernary(consts, c, mid, Show(consts, c, 3) + mid);
  }

  lemma {:induction false} ShowShortTernary(consts: Consts, c: Expr, x: Expr, rest: Toks)
    requires Printable(consts, ShortTernary(c, x)) && Ended(rest) && Joins(rest[0]) < 1
    ensures ParseAt(consts, 2, Bare(consts, ShortTernary(c, x)) + rest) == Some((ShortTernary(c, x), rest))
    decreases ShortTernary(c, x), 1
  {
    hide IsMagic, PlainName, Lower, WordOp, Show, ParseAt;
    var els := Show(consts, x, 1) + rest;
    var mid := [TQuestion, TColon] + els;
    MidToks(Show(consts, c, 3), [TQuestion, TColon], Show(consts, x, 1), rest);
    assert Bare(consts, ShortTernary(c, x)) + rest == Show(consts, c, 3) + mid;
    hide Bare;
    ShowParses(consts, c, 3, mid);
    ShowParses(consts, x, 1, rest);
    AtTernary(consts, c, mid, Show(consts, c, 3) + mid);
  }

  lemma {:induction false} ShowCoalesce(consts: Consts, l: Expr, r: Expr, rest: Toks)
    requires Printable(consts, Coalesce(l, r)) && Ended(rest) && Joins(rest[0]) < 3
    ensures ParseAt(consts, 3, Bare(consts, Coalesce(l, r)) + rest) == Some((Coalesce(l, r), rest))
    decreases Coalesce(l, r), 1
  {
    hide IsMagic, PlainName, Lower, WordOp, Show;
    var right := Show(consts, r, 3) + rest;
    var mid := [TCoalesce] + right;
    MidToks(Show(consts, l, 4), [TCoalesce], Show(consts, r, 3), rest);
    assert Bare(consts, Coalesce(l, r)) + rest == Show(consts, l, 4) + mid;
    hide Bare;
    ShowParses(consts, l, 4, mid);
    ShowParses(consts, r, 3, rest);
  }

  lemma AtBinary(consts: Consts, level: nat, l: Expr, mid: Toks, ts: Toks)
    requires 4 <= level < UNARY && (level == COMPARE ==> mid != [] && !mid[0].TInstanceOf?) && Ended(ts) && Ended(mid) && ParseAt(consts, level + 1, ts) == Some((l, mid))
    ensures ParseAt(consts, level, ts) == BinLoop(consts, level, l, mid)
  {
  }

  /** The left-associating levels: the loop takes over with the whole expression as its left operand. */
  lemma {:induction false} ShowTail(consts: Consts, e: Expr, ctx: nat, rest: Toks)
    requires Printable(consts, e) && (4 <= ctx < UNARY || ctx == POSTFIX)
    requires Ended(rest) && Joins(rest[0]) <= ctx && !rest[0].TLParen?
    requires ctx == COMPARE ==> !e.InstanceOf? && !rest[0].TInstanceOf?
    ensures ParseAt(consts, ctx, Show(consts, e, ctx) + rest) == Tail(consts, ctx, e, rest)
    decreases e, Rank(e, ctx)
  {
    hide IsMagic, Lower, WordOp, ParseAt, Bare, PostfixLoop, BinLoop;
    if ctx == POSTFIX {
      if Level(e) < ctx {
        ShowParens(consts, e, rest);
      } else {
        ShowPostfix(consts, e, rest);
      }
    } else if Level(e) != ctx {
      assert Show(consts, e, ctx) == Show(consts, e, ctx + 1);
      ShowParses(consts, e, ctx + 1, rest);
      AtBinary(consts, ctx, e, rest, Show(consts, e, ctx) + rest);
    } else {
      ShowBinary(consts, e.op, e.left, e.right, rest);
    }
  }

  lemma {:induction false} ShowBinary(consts: Consts, op: BinOp, l: Expr, r: Expr, rest: Toks)
    requires Printable(consts, Binary(op, l, r)) && 4 <= BinLevel(op)
    requires Ended(rest) && Joins(rest[0]) <= BinLevel(op) && !rest[0].TLParen?
    requires BinLevel(op) == COMPARE ==> !rest[0].TInstanceOf?
    ensures ParseAt(consts, BinLevel(op), Bare(consts, Binary(op, l, r)) + rest) == BinLoop(consts, BinLevel(op), Binary(op, l, r), rest)
    decreases Binary(op, l, r), 1
  {
    hide IsMagic, PlainName, Lower, WordOp, ParseAt, Show, BinLoop;
    var level := BinLevel(op);
    var right := Show(consts, r, level + 1) + rest;
    var mid := [TOp(op)] + right;
    MidToks(Show(consts, l, LeftLevel(op, l)), [TOp(op)], Show(consts, r, level + 1), rest);
    assert Bare(consts, Binary(op, l, r)) + rest == Show(consts, l, LeftLevel(op, l)) + mid;
    hide Bare;
    if LeftLevel(op, l) == level {
      ShowTail(consts, l, level, mid);
    } else {
      ShowInParens(consts, l, mid);
    }
    ShowParses(consts, r, level + 1, rest);
    AtOperator(consts, op, l, r, right, rest);
  }

  lemma AtOperator(consts: Consts, op: BinOp, l: Expr, r: Expr, right: Toks, rest: Toks)
    requires 4 <= BinLevel(op) < UNARY && Ended(right) && Ended(rest) && ParseAt(consts, BinLevel(op) + 1, right) == Some((r, rest))
    ensures BinLoop(consts, BinLevel(op), l, [TOp(op)] + right) == BinLoop(consts, BinLevel(op), Binary(op, l, r), rest)
  {
    hide ParseAt;
    assert ([TOp(op)] + right)[1..] == right;
  }

  /** `instanceof` as the left operand of a comparison, in parentheses. */
  lemma {:induction false} ShowInParens(consts: Consts, e: Expr, rest: Toks)
    requires Printable(consts, e) && e.InstanceOf? && Ended(rest) && Joins(rest[0]) == COMPARE && !rest[0].TInstanceOf?
    ensures ParseAt(consts, COMPARE, Show(consts, e, COMPARE + 1) + rest) == BinLoop(consts, COMPARE, e, rest)
    decreases e, 200
  {
    hide IsMagic, Lower, WordOp, ParseAt, Show, BinLoop;
    ShowParses(consts, e, COMPARE + 1, rest);
    AtBinary(consts, COMPARE, e, rest, Show(consts, e, COMPARE + 1) + rest);
  }

  lemma {:induction false} ShowInstance(consts: Consts, x: Expr, cls: string, rest: Toks)
    requires Printable(consts, InstanceOf(x, cls)) && Ended(rest) && Joins(rest[0]) < COMPARE
    ensures ParseAt(consts, COMPARE, Show(consts, InstanceOf(x, cls), COMPARE) + rest) == Some((InstanceOf(x, cls), rest))
    decreases InstanceOf(x, cls), 0
  {
    hide IsMagic, Lower, WordOp, ParseAt, Show;
    var mid := [TInstanceOf, TIdent(cls)] + rest;
    ShowIsBare(consts, InstanceOf(x, cls), COMPARE);
    assert Bare(consts, InstanceOf(x, cls)) + rest == Show(consts, x, COMPARE + 1) + mid;
    ShowParses(consts, x, COMPARE + 1, mid);
    AtInstance(consts, x, cls, rest, Show(consts, x, COMPARE + 1) + mid);
  }

  lemma AtInstance(consts: Consts, x: Expr, cls: string, rest: Toks, ts: Toks)
    requires '\\' !in cls && Ended(ts) && Ended(rest) && rest[0] != TIdent(BACKSLASH)
    requires ParseAt(consts, COMPARE + 1, ts) == Some((x, [TInstanceOf, TIdent(cls)] + rest))
    ensures ParseAt(consts, COMPARE, ts) == Some((InstanceOf(x, cls), rest))
  {
    var after := [TIdent(cls)] + rest;
    assert ([TInstanceOf, TIdent(cls)] + rest)[1..] == after;
    assert after[1..] == rest;
    assert "" + cls == cls;
    assert InstanceTail(x, after) == (InstanceOf(x, cls), rest);
    hide IsMagic, Lower, WordOp, InstanceTail;
    LevelStep(consts, COMPARE, ts);
  }

  lemma AtPostfix(consts: Consts, e: Expr, r: Toks, ts: Toks)
    requires Ended(ts) && Ended(r) && ParsePrimary(consts, ts) == Some((e, r))
    ensures ParseAt(consts, POSTFIX, ts) == PostfixLoop(consts, e, r)
  {
  }

  lemma {:induction false} ShowParens(consts: Consts, e: Expr, rest: Toks)
    requires Printable(consts, e) && Level(e) < POSTFIX && Ended(rest)
    ensures ParseAt(consts, POSTFIX, Show(consts, e, POSTFIX) + rest) == PostfixLoop(consts, e, rest)
    decreases e, 100
  {
    hide IsMagic, Lower, WordOp, ParseAt, Bare, PostfixLoop;
    var right := [TRParen] + rest;
    var ts := Show(consts, e, POSTFIX) + rest;
    assert ts[1..] == Bare(consts, e) + right;
    assert Show(consts, e, 0) == Bare(consts, e);
    ShowParses(consts, e, 0, right);
    assert right[1..] == rest;
    AtPostfix(consts, e, rest, ts);
  }

  /** Reading postfix operators again changes nothing. */
  lemma {:induction false} PostfixTwice(consts: Consts, e: Expr, ts: Toks)
    requires Ended(ts) && PostfixLoop(consts, e, ts).Some?
    ensures PostfixLoop(consts, PostfixLoop(consts, e, ts).value.0, PostfixLoop(consts, e, ts).value.1) == PostfixLoop(consts, e, ts)
    decreases |ts|, 1
  {
    hide IsMagic, Lower, WordOp, ParseAt, ParseArgs, StaticTail, ClassName, CalleeName;
    if ts[0].TLBracket? && ts[1].TRBracket? {
      PostfixGoesOn(consts, e, ts, Index(e, NullLit), ts[2..]);
    } else if ts[0].TLBracket? {
      var (key, r) := ParseAt(consts, 0, ts[1..]).value;
      PostfixGoesOn(consts, e, ts, Index(e, key), Skip(TRBracket, r));
    } else if ts[0].TLParen? {
      var (args, r) := ParseArgs(consts, ts[1..]).value;
      PostfixGoesOn(consts, e, ts, Call(CalleeName(e).value, args), r);
    } else if ts[0].TArrow? && ts[2].TLParen? {
      var (args, r) := ParseArgs(consts, ts[3..]).value;
      PostfixGoesOn(consts, e, ts, Method(e, ts[1].name, args), r);
    } else if ts[0].TArrow? {
      PostfixGoesOn(consts, e, ts, Prop(e, ts[1].name), ts[2..]);
    } else if ts[0].TDoubleColon? {
      StaticTwice(consts, e, ts);
    }
  }

  lemma {:induction false} PostfixGoesOn(consts: Consts, e: Expr, ts: Toks, next: Expr, r: Toks)
    requires Ended(ts) && Ended(r) && |r| < |ts|
    requires PostfixLoop(consts, e, ts).Some? && PostfixLoop(consts, e, ts) == PostfixLoop(consts, next, r)
    ensures PostfixLoop(consts, PostfixLoop(consts, e, ts).value.0, PostfixLoop(consts, e, ts).value.1) == PostfixLoop(consts, e, ts)
    decreases |ts|, 0, 0
  {
    hide PostfixLoop;
    PostfixTwice(consts, next, r);
  }

  lemma {:induction false} StaticTwice(consts: Consts, e: Expr, ts: Toks)
    requires Ended(ts) && ts[0].TDoubleColon? && PostfixLoop(consts, e, ts).Some?
    ensures PostfixLoop(consts, PostfixLoop(consts, e, ts).value.0, PostfixLoop(consts, e, ts).value.1) == PostfixLoop(consts, e, ts)
    decreases |ts|, 0, 1
  {
    var cls := ClassName(e);
    assert PostfixLoop(consts, e, ts) == StaticTail(consts, cls, ts[1..]);
    hide ParseAt, ParseArgs, PostfixLoop;
    match ts[1] {
      case TVar(name) => PostfixGoesOn(consts, e, ts, Prop(Const(cls), "$" + name), ts[1..][1..]);
      case TClass => PostfixGoesOn(consts, e, ts, Str(cls), ts[1..][1..]);
      case TIdent(name) =>
        if ts[1..][1].TLParen? {
          var (args, r) := ParseArgs(consts, ts[1..][2..]).value;
          PostfixGoesOn(consts, e, ts, StaticCall(cls, name, args), r);
        } else {
          PostfixGoesOn(consts, e, ts, ClassConst(cls, name), ts[1..][1..]);
        }
    }
  }

  lemma {:induction false} ShowPostfix(consts: Consts, e: Expr, rest: Toks)
    requires Printable(consts, e) && Level(e) == POSTFIX && Ended(rest) && Joins(rest[0]) <= POSTFIX && !rest[0].TLParen?
    ensures ParseAt(consts, POSTFIX, Show(consts, e, POSTFIX) + rest) == PostfixLoop(consts, e, rest)
    decreases e, 40
  {
    hide IsMagic, Lower, WordOp, ParseAt, PostfixLoop, ParsePrimary, Show;
    ShowIsBare(consts, e, POSTFIX);
    match e {
      case Index(a, k) => ShowIndex(consts, a, k, rest);
      case Call(name, args) => ShowCall(consts, name, args, rest);
      case Prop(x, name) =>
        if IsStatic(x, name) {
          ShowStaticProp(consts, x.name, name, rest);
        } else {
          ShowProp(consts, x, name, rest);
        }
      case StaticCall(cls, name, args) => ShowStaticCall(consts, cls, name, args, rest);
      case ClassConst(cls, name) => ShowClassConst(consts, cls, name, rest);
      case Method(x, name, args) => ShowMethod(consts, x, name, args, rest);
      case _ => ShowAtom(consts, e, rest);
    }
  }

  lemma ShowAtom(consts: Consts, e: Expr, rest: Toks)
    requires Printable(consts, e) && Ended(rest) && rest[0] != TIdent(BACKSLASH)
    requires e.Var? || e.This? || e.IntLit? || e.FloatLit? || e.Str? || e.NullLit? || e.BoolLit? || e.Const? || e.Magic?
    ensures ParseAt(consts, POSTFIX, Bare(consts, e) + rest) == PostfixLoop(consts, e, rest)
  {
    hide IsMagic, Lower, WordOp, PostfixLoop;
    var ts := Bare(consts, e) + rest;
    assert ts[1..] == rest;
    if e.Magic? {
      NameStarts(consts, e.name);
    }
    if e.Var? {
      if PostfixLoop(consts, e, rest).Some? {
        PostfixTwice(consts, e, rest);
      }
      assert ParsePrimary(consts, ts) == PostfixLoop(consts, e, rest);
    }
  }

  lemma IndexToks(a: Toks, k: Toks, rest: Toks)
    ensures a + [TLBracket] + k + [TRBracket] + rest == a + ([TLBracket] + (k + ([TRBracket] + rest)))
  {
  }

  lemma {:induction false} ShowIndex(consts: Consts, a: Expr, k: Expr, rest: Toks)
    requires Printable(consts, Index(a, k)) && Ended(rest)
    ensures ParseAt(consts, POSTFIX, Bare(consts, Index(a, k)) + rest) == PostfixLoop(consts, Index(a, k), rest)
    decreases Index(a, k), 1
  {
    hide IsMagic, PlainName, Lower, WordOp, ParseAt, Show, PostfixLoop;
    var right := [TRBracket] + rest;
    var inner := (if k == NullLit then [] else Show(consts, k, 0)) + right;
    var mid := [TLBracket] + inner;
    IndexToks(Show(consts, a, POSTFIX), if k == NullLit then [] else Show(consts, k, 0), rest);
    ShowTail(consts, a, POSTFIX, mid);
    if k == NullLit {
      assert inner == right;
      AtEmptyIndex(consts, a, rest);
    } else {
      FirstTok(consts, k, 0);
      ShowParses(consts, k, 0, right);
      AtIndex(consts, a, k, inner, rest);
    }
  }

  lemma AtEmptyIndex(consts: Consts, a: Expr, rest: Toks)
    requires Ended(rest)
    ensures PostfixLoop(consts, a, [TLBracket] + ([TRBracket] + rest)) == PostfixLoop(consts, Index(a, NullLit), rest)
  {
    var ts := [TLBracket] + ([TRBracket] + rest);
    assert ts[1] == TRBracket && ts[2..] == rest;
  }

  lemma AtIndex(consts: Consts, a: Expr, k: Expr, inner: Toks, rest: Toks)
    requires Ended(inner) && Ended(rest) && !inner[0].TRBracket? && ParseAt(consts, 0, inner) == Some((k, [TRBracket] + rest))
    ensures PostfixLoop(consts, a, [TLBracket] + inner) == PostfixLoop(consts, Index(a, k), rest)
  {
  }

  lemma {:induction false} ShowCall(consts: Consts, name: string, args: Args, rest: Toks)
    requires PrintableArgs(consts, args) && Ended(rest)
    ensures ParseAt(consts, POSTFIX, Bare(consts, Call(name, args)) + rest) == PostfixLoop(consts, Call(name, args), rest)
    decreases Call(name, args), 1
  {
    hide IsMagic, Lower, WordOp, ParseAt, ParseArgs;
    var right := ShowArgs(consts, args) + ([TRParen] + rest);
    var mid := [TLParen] + right;
    assert Bare(consts, Call(name, args)) + rest == [NameTok(consts, name)] + mid;
    assert mid[1..] == right;
    ShowArgsParse(consts, args, rest);
    AtName(consts, name, mid);
  }

  /** The expression that a name token is read as. */
  function NameExpr(consts: Consts, name: string): (e: Expr)
    ensures CalleeName(e) == Some(name)
  {
    if PlainName(consts, name) then Const(name) else Str(name)
  }

  lemma AtName(consts: Consts, name: string, mid: Toks)
    requires Ended(mid) && mid[0] != TIdent(BACKSLASH)
    ensures ParseAt(consts, POSTFIX, [NameTok(consts, name)] + mid) == PostfixLoop(consts, NameExpr(consts, name), mid)
  {
    hide IsMagic, Lower, WordOp, PostfixLoop;
    var ts := [NameTok(consts, name)] + mid;
    assert ts[1..] == mid;
    AtPostfix(consts, NameExpr(consts, name), mid, ts);
  }

  lemma ShowStaticProp(consts: Consts, cls: string, name: string, rest: Toks)
    requires IsStatic(Const(cls), name) && Ended(rest)
    ensures ParseAt(consts, POSTFIX, Bare(consts, Prop(Const(cls), name)) + rest) == PostfixLoop(consts, Prop(Const(cls), name), rest)
  {
    hide IsMagic, Lower, WordOp, ParseAt;
    var after := [TVar(name[1..])] + rest;
    var mid := [TDoubleColon] + after;
    assert Bare(consts, Prop(Const(cls), name)) + rest == [NameTok(consts, cls)] + mid;
    assert after[1..] == rest;
    assert "$" + name[1..] == name;
    AtName(consts, cls, mid);
    AtStatic(consts, NameExpr(consts, cls), after);
  }

  lemma ShowClassConst(consts: Consts, cls: string, name: string, rest: Toks)
    requires Ended(rest) && !rest[0].TLParen?
    ensures ParseAt(consts, POSTFIX, Bare(consts, ClassConst(cls, name)) + rest) == PostfixLoop(consts, ClassConst(cls, name), rest)
  {
    hide IsMagic, Lower, WordOp, ParseAt;
    var after := [TIdent(name)] + rest;
    var mid := [TDoubleColon] + after;
    assert Bare(consts, ClassConst(cls, name)) + rest == [NameTok(consts, cls)] + mid;
    assert after[1..] == rest;
    AtName(consts, cls, mid);
    AtStatic(consts, NameExpr(consts, cls), after);
  }

  lemma {:induction false} ShowStaticCall(consts: Consts, cls: string, name: string, args: Args, rest: Toks)
    requires PrintableArgs(consts, args) && Ended(rest)
    ensures ParseAt(consts, POSTFIX, Bare(consts, StaticCall(cls, name, args)) + rest) == PostfixLoop(consts, StaticCall(cls, name, args), rest)
    decreases StaticCall(cls, name, args), 1
  {
    hide ParseAt, ParseArgs, PostfixLoop;
    var right := ShowArgs(consts, args) + ([TRParen] + rest);
    var after := [TIdent(name), TLParen] + right;
    var mid := [TDoubleColon] + after;
    assert Bare(consts, StaticCall(cls, name, args)) + rest == [NameTok(consts, cls)] + mid;
    hide Bare, ShowArgs;
    assert after[2..] == right;
    ShowArgsParse(consts, args, rest);
    AtName(consts, cls, mid);
    AtStatic(consts, NameExpr(consts, cls), after);
  }

  lemma AtStatic(consts: Consts, e: Expr, after: Toks)
    requires Ended(after)
    ensures PostfixLoop(consts, e, [TDoubleColon] + after) == StaticTail(consts, ClassName(e), after)
  {
    hide StaticTail, ClassName, ParseArgs, ParseAt;
    assert ([TDoubleColon] + after)[1..] == after;
  }

  lemma {:induction false} ShowProp(consts: Consts, x: Expr, name: string, rest: Toks)
    requires Printable(consts, x) && !IsStatic(x, name) && Ended(rest) && !rest[0].TLParen?
    ensures ParseAt(consts, POSTFIX, Bare(consts, Prop(x, name)) + rest) == PostfixLoop(consts, Prop(x, name), rest)
    decreases Prop(x, name), 1
  {
    hide IsMagic, PlainName, Lower, WordOp, ParseAt, Show;
    var mid := [TArrow, TIdent(name)] + rest;
    assert Bare(consts, Prop(x, name)) + rest == Show(consts, x, POSTFIX) + mid;
    hide Bare;
    assert mid[2..] == rest;
    ShowTail(consts, x, POSTFIX, mid);
  }

  lemma {:induction false} ShowMethod(consts: Consts, x: Expr, name: string, args: Args, rest: Toks)
    requires Printable(consts, x) && PrintableArgs(consts, args) && Ended(rest)
    ensures ParseAt(consts, POSTFIX, Bare(consts, Method(x, name, args)) + rest) == PostfixLoop(consts, Method(x, name, args), rest)
    decreases Method(x, name, args), 1
  {
    hide IsMagic, PlainName, Lower, WordOp, ParseAt, ParseArgs, Show;
    var right := ShowArgs(consts, args) + ([TRParen] + rest);
    var mid := [TArrow, TIdent(name), TLParen] + right;
    assert Bare(consts, Method(x, name, args)) + rest == Show(consts, x, POSTFIX) + mid;
    hide Bare;
    assert mid[3..] == right;
    ShowTail(consts, x, POSTFIX, mid);
    ShowArgsParse(consts, args, rest);
  }

  lemma {:induction false} ShowArgsParse(consts: Consts, args: Args, rest: Toks)
    requires PrintableArgs(consts, args) && Ended(rest)
    ensures ParseArgs(consts, ShowArgs(consts, args) + ([TRParen] + rest)) == Some((args, rest))
    decreases args, 2
  {
    hide IsMagic, Lower, WordOp, ArgLoop, ShowArgs;
    ShowArgLoop(consts, args, [TRParen] + rest);
    assert ([TRParen] + rest)[1..] == rest;
  }

  lemma {:induction false} ShowArgLoop(consts: Consts, args: Args, rest: Toks)
    requires PrintableArgs(consts, args) && Ended(rest) && rest[0].TRParen?
    ensures ArgLoop(consts, ShowArgs(consts, args) + rest) == Some((args, rest))
    decreases args, 1
  {
    hide IsMagic, Lower, WordOp, ParseArg, Show;
    match args {
      case NoArgs =>
        assert ShowArgs(consts, args) + rest == rest;
      case MoreArgs(a, more) =>
        var after := if more.NoArgs? then rest else [TComma] + (ShowArgs(consts, more) + rest);
        assert ShowArgs(consts, args) + rest == Show(consts, a, 0) + after;
        FirstArg(consts, a);
        ShowArg(consts, a, after);
        if !more.NoArgs? {
          assert after[1..] == ShowArgs(consts, more) + rest;
          ShowArgLoop(consts, more, rest);
        }
    }
  }

  lemma FirstArg(consts: Consts, a: Expr)
    requires a.ByRef? || a.Splat? || Printable(consts, a)
    ensures Show(consts, a, 0) != [] && !Show(consts, a, 0)[0].TRParen? && !Show(consts, a, 0)[0].TEOF?
  {
    if !a.ByRef? && !a.Splat? {
      FirstTok(consts, a, 0);
    }
  }

  lemma {:induction false} ShowArg(consts: Consts, a: Expr, rest: Toks)
    requires a.ByRef? || (if a.Splat? then Printable(consts, a.list) else Printable(consts, a))
    requires Ended(rest) && Joins(rest[0]) < 0
    ensures ParseArg(consts, Show(consts, a, 0) + rest) == Some((a, rest))
    decreases a, 100
  {
    if a.ByRef? {
      hide Show, ParseAt, Printable, ParseArg;
      ShowByRef(consts, a.name, rest);
    } else if a.Splat? {
      hide Show, ParseAt, Printable, ParseArg;
      ShowParses(consts, a.list, 0, rest);
      ShowSplat(consts, a.list, rest);
    } else {
      hide Show, ParseAt, Printable, ParseArg;
      FirstTok(consts, a, 0);
      ShowParses(consts, a, 0, rest);
      AtArg(consts, Show(consts, a, 0) + rest);
    }
  }

  lemma ShowByRef(consts: Consts, name: string, rest: Toks)
    requires Ended(rest)
    ensures ParseArg(consts, Show(consts, ByRef(name), 0) + rest) == Some((ByRef(name), rest))
  {
    hide ParseAt;
    var ts := [TOp(BitAnd), TVar(name)] + rest;
    ShowIsBare(consts, ByRef(name), 0);
    assert Bare(consts, ByRef(name)) + rest == ts;
    hide Show, Bare;
    assert ts[2..] == rest;
  }

  lemma ShowSplat(consts: Consts, x: Expr, rest: Toks)
    requires Ended(rest) && ParseAt(consts, 0, Show(consts, x, 0) + rest) == Some((x, rest))
    ensures ParseArg(consts, Show(consts, Splat(x), 0) + rest) == Some((Splat(x), rest))
  {
    hide ParseAt;
    var ts := [TIdent(DOTS)] + (Show(consts, x, 0) + rest);
    ShowIsBare(consts, Splat(x), 0);
    assert Bare(consts, Splat(x)) == [TIdent(DOTS)] + Show(consts, x, 0);
    hide Show, Bare;
    Cat([TIdent(DOTS)], Show(consts, x, 0), rest);
    assert ts[1..] == Show(consts, x, 0) + rest;
  }

  lemma AtArg(consts: Consts, ts: Toks)
    requires Ended(ts) && Starts(ts[0])
    ensures ParseArg(consts, ts) == ParseAt(consts, 0, ts)
  {
    hide ParseAt;
  }

  /** Parsing the printed text of an expression gives back the expression, up to the end of the tokens. */
  lemma ParseShow(consts: Consts, e: Expr)
    requires Printable(consts, e)
    ensures ParseAt(consts, 0, Show(consts, e, 0) + [TEOF]) == Some((e, [TEOF]))
  {
    ShowParses(consts, e, 0, [TEOF]);
  }

  /** Two expressions with the same printed text are the same expression. */
  lemma ShowInjective(consts: Consts, a: Expr, b: Expr)
    requires Printable(consts, a) && Printable(consts, b) && Show(consts, a, 0) == Show(consts, b, 0)
    ensures a == b
  {
    ParseShow(consts, a);
    ParseShow(consts, b);
  }
}
