/**
 Expressions of the PHP subset, their tokens, and what the recursive-descent parser does with
 a token list: a ladder of levels, from `or` at the bottom to postfix operators at the top.
 */
module ParserSpec {
  import opened Wrappers

  datatype BinOp =
    | WordOr | WordAnd | WordXor
    | LogicalOr | LogicalAnd
    | BitOr | BitXor | BitAnd
    | Equal | Identical | NotEqual | NotIdentical | Less | Greater | LessEq | GreaterEq
    | ShiftLeft | ShiftRight
    | Add | Sub | Concat
    | Mul | Div | Mod
    | Compound(k: CompoundOp)

  datatype CompoundOp = ConcatEq | PlusEq | MinusEq | StarEq | SlashEq | CaretEq

  datatype UnaryOp = Not | Neg

  datatype CastKind = StringCast | IntCast | FloatCast | BoolCast | ArrayCast | ObjectCast

  datatype Expr =
    | Var(name: string)
    | This
    | IntLit(n: int)
    | FloatLit(bits: nat)
    | Str(text: string)
    | NullLit
    | BoolLit(b: bool)
    | Const(name: string)
    | Magic(name: string)
    | Unary(uop: UnaryOp, operand: Expr)
    | Cast(kind: CastKind, operand: Expr)
    | Binary(op: BinOp, left: Expr, right: Expr)
    | Assign(target: Expr, val: Expr)
    | Ternary(cond: Expr, thn: Expr, els: Expr)
    | ShortTernary(cond: Expr, els: Expr)
    | HalfTernary(cond: Expr, thn: Expr)
    | Coalesce(left: Expr, right: Expr)
    | InstanceOf(obj: Expr, cls: string)
    | Index(arr: Expr, key: Expr)
    | Call(name: string, args: Args)
    | Prop(recv: Expr, name: string)
    | Method(recv: Expr, name: string, args: Args)
    | StaticCall(cls: string, name: string, args: Args)
    | ClassConst(cls: string, name: string)
    | Ref(lvalue: Expr)
    | ByRef(name: string)
    | Splat(list: Expr)

  datatype Args = NoArgs | MoreArgs(first: Expr, rest: Args)

  /**
   Tokens. A literal carries what its text stands for: the number, the bit pattern of a float,
   the text of a string without interpolation. Words, `@`, `...` and the backslash are identifiers.
   */
  datatype Tok =
    | TEOF
    | TVar(name: string)
    | TInt(n: nat)
    | TFloat(bits: nat)
    | TStr(text: string)
    | TNull
    | TBool(b: bool)
    | TIdent(name: string)
    | TClass
    | TInstanceOf
    | TOp(op: BinOp)
    | TBang
    | TIncr(dec: bool)
    | TCast(kind: CastKind)
    | TEquals
    | TCompound(k: CompoundOp)
    | TQuestion
    | TColon
    | TCoalesce
    | TLParen
    | TRParen
    | TLBracket
    | TRBracket
    | TComma
    | TArrow
    | TDoubleColon

  type Toks = seq<Tok>

  /** The lexer ends every token list with an end-of-file token. */
  predicate Ended(ts: Toks) {
    ts != [] && ts[|ts| - 1] == TEOF
  }

  /** A predefined constant: the parser replaces its name by the literal. */
  datatype Constant = IntConst(n: int) | FloatConst(bits: nat) | TextConst(text: string) | BoolConst(b: bool)

  type Consts = map<string, Constant>

  const MAX_INT64 := 0x7FFF_FFFF_FFFF_FFFF
  const AT := "@"
  const DOTS := "..."
  const BACKSLASH := "\\"

  /** The ladder: parseLogicalOr is level 4, parseMul is level 12. */
  function BinLevel(op: BinOp): nat {
    match op
    case WordOr => 0
    case WordAnd => 0
    case WordXor => 0
    case Compound(_) => 1
    case LogicalOr => 4
    case LogicalAnd => 5
    case BitOr => 6
    case BitXor => 7
    case BitAnd => 8
    case Equal => 9
    case Identical => 9
    case NotEqual => 9
    case NotIdentical => 9
    case Less => 9
    case Greater => 9
    case LessEq => 9
    case GreaterEq => 9
    case ShiftLeft => 10
    case ShiftRight => 10
    case Add => 11
    case Sub => 11
    case Concat => 11
    case Mul => 12
    case Div => 12
    case Mod => 12
  }

  lemma LevelOps(t: Tok)
    ensures t.TOp? && BinLevel(t.op) == 9 <==> t.TOp? && t.op in {Equal, Identical, NotEqual, NotIdentical, Less, Greater, LessEq, GreaterEq}
    ensures t.TOp? && BinLevel(t.op) == 10 <==> t.TOp? && t.op in {ShiftLeft, ShiftRight}
    ensures t.TOp? && BinLevel(t.op) == 11 <==> t.TOp? && t.op in {Add, Sub, Concat}
    ensures t.TOp? && BinLevel(t.op) == 12 <==> t.TOp? && t.op in {Mul, Div, Mod}
  {
  }

  const COMPARE := 9
  const UNARY := 13
  const POSTFIX := 14

  function LowerChar(c: char): char {
    if 'A' <= c <= 'Z' then c + 32 as char else c
  }

  function Lower(s: string): string {
    seq(|s|, i requires 0 <= i < |s| => LowerChar(s[i]))
  }

  /** The operator that an identifier is, letter case aside. */
  function WordOp(name: string): Option<BinOp> {
    var word := Lower(name);
    if word == "or" then Some(WordOr) else
    if word == "and" then Some(WordAnd) else
    if word == "xor" then Some(WordXor) else None
  }

  predicate IsMagic(name: string) {
    name in {"__DIR__", "__FILE__", "__LINE__", "__FUNCTION__", "__CLASS__", "__METHOD__", "__NAMESPACE__"}
  }

  /** What a name stands for: a predefined constant, a magic constant, or a constant to be looked up later. */
  function Named(consts: Consts, name: string): Expr {
    if name in consts then
      match consts[name]
      case IntConst(n) => IntLit(n)
      case FloatConst(bits) => FloatLit(bits)
      case TextConst(text) => Str(text)
      case BoolConst(b) => BoolLit(b)
    else if IsMagic(name) then Magic(name)
    else Const(name)
  }

  type Result = Option<(Expr, Toks)>

  ghost predicate Advances(ts: Toks, res: Result) {
    res.Some? ==> Ended(res.value.1) && |res.value.1| < |ts|
  }

  ghost predicate Keeps(ts: Toks, res: Result) {
    res.Some? ==> Ended(res.value.1) && |res.value.1| <= |ts|
  }

  /** expect(k) where the caller ignores a mismatch. */
  function Skip(t: Tok, ts: Toks): (r: Toks)
    requires Ended(ts) && t != TEOF
    ensures Ended(r) && |r| <= |ts|
  {
    if ts[0] == t then ts[1..] else ts
  }

  /**
   The ladder function of a level: 0 parseExpr, 1 parseAssignExpr, 2 parseTernary,
   3 parseNullCoalesce, 4 to 12 the binary levels, 13 parseUnary, 14 parsePostfix.
   */
  function ParseAt(consts: Consts, level: nat, ts: Toks): (res: Result)
    requires Ended(ts) && level <= POSTFIX
    ensures Advances(ts, res)
    decreases |ts|, 100 - 2 * level
  {
    if level == 0 then
      var (left, r) :- ParseAt(consts, 1, ts);
      WordLoop(consts, left, r)
    else if level == 1 then
      var (left, r) :- ParseAt(consts, 2, ts);
      AssignTail(consts, left, r)
    else if level == 2 then
      var (left, r) :- ParseAt(consts, 3, ts);
      TernaryTail(consts, left, r)
    else if level == 3 then
      var (left, r) :- ParseAt(consts, 4, ts);
      CoalesceTail(consts, left, r)
    else if level < UNARY then
      var (left, r) :- ParseAt(consts, level + 1, ts);
      if level == COMPARE && r[0].TInstanceOf? then Some(InstanceTail(left, r[1..])) else BinLoop(consts, level, left, r)
    else if level == UNARY then
      ParseUnary(consts, ts)
    else
      var (e, r) :- ParsePrimary(consts, ts);
      PostfixLoop(consts, e, r)
  }

  function WordLoop(consts: Consts, left: Expr, ts: Toks): (res: Result)
    requires Ended(ts)
    ensures Keeps(ts, res)
    decreases |ts|, 200
  {
    if ts[0].TIdent? && WordOp(ts[0].name).Some? then
      var (right, r) :- ParseAt(consts, 0, ts[1..]);
      WordLoop(consts, Binary(WordOp(ts[0].name).value, left, right), r)
    else
      Some((left, ts))
  }

  function AssignTail(consts: Consts, left: Expr, ts: Toks): (res: Result)
    requires Ended(ts)
    ensures Keeps(ts, res)
    decreases |ts|, 200
  {
    if ts[0].TEquals? then
      var (right, r) :- ParseAt(consts, 1, ts[1..]);
      Some((Assign(left, right), r))
    else if ts[0].TCompound? then
      var (right, r) :- ParseAt(consts, 1, ts[1..]);
      Some((Assign(left, Binary(Compound(ts[0].k), left, right)), r))
    else
      Some((left, ts))
  }

  function TernaryTail(consts: Consts, left: Expr, ts: Toks): (res: Result)
    requires Ended(ts)
    ensures Keeps(ts, res)
    decreases |ts|, 200
  {
    if !ts[0].TQuestion? then
      Some((left, ts))
    else if ts[1].TColon? then
      var (els, r) :- ParseAt(consts, 1, ts[2..]);
      Some((ShortTernary(left, els), r))
    else
      var (thn, r) :- ParseAt(consts, 1, ts[1..]);
      if r[0].TColon? then
        var (els, r1) :- ParseAt(consts, 1, r[1..]);
        Some((Ternary(left, thn, els), r1))
      else
        Some((HalfTernary(left, thn), r))
  }

  function CoalesceTail(consts: Consts, left: Expr, ts: Toks): (res: Result)
    requires Ended(ts)
    ensures Keeps(ts, res)
    decreases |ts|, 200
  {
    if ts[0].TCoalesce? then
      var (right, r) :- ParseAt(consts, 3, ts[1..]);
      Some((Coalesce(left, right), r))
    else
      Some((left, ts))
  }

  /** The loop of a binary level: operators of that level associate to the left. */
  function BinLoop(consts: Consts, level: nat, left: Expr, ts: Toks): (res: Result)
    requires Ended(ts) && 4 <= level < UNARY
    ensures Keeps(ts, res)
    decreases |ts|, 200
  {
    if ts[0].TOp? && BinLevel(ts[0].op) == level then
      var (right, r) :- ParseAt(consts, level + 1, ts[1..]);
      BinLoop(consts, level, Binary(ts[0].op, left, right), r)
    else
      Some((left, ts))
  }

  /** Further segments of a class name; a separator without a name after it is dropped. */
  function ClassTail(name: string, ts: Toks): (res: (string, Toks))
    requires Ended(ts)
    ensures Ended(res.1) && |res.1| <= |ts|
    decreases |ts|
  {
    if ts[0] != TIdent(BACKSLASH) then (name, ts) else
    if ts[1].TIdent? then ClassTail(name + BACKSLASH + ts[1].name, ts[2..]) else ClassTail(name, ts[1..])
  }

  /** Leading separators of a class name. */
  function Separators(ts: Toks): (res: (string, Toks))
    requires Ended(ts)
    ensures Ended(res.1) && |res.1| <= |ts|
    decreases |ts|
  {
    if ts[0] != TIdent(BACKSLASH) then ("", ts) else
    var (name, r) := Separators(ts[1..]);
    (BACKSLASH + name, r)
  }

  /** After `instanceof`: a class name, or nothing, in which case the left side stands alone. */
  function InstanceTail(left: Expr, ts: Toks): (res: (Expr, Toks))
    requires Ended(ts)
    ensures Ended(res.1) && |res.1| <= |ts|
  {
    if !ts[0].TIdent? then (left, ts) else
    var (sep, r) := Separators(ts);
    var (head, r1) := if r[0].TIdent? then (sep + r[0].name, r[1..]) else (sep, r);
    var (cls, r2) := ClassTail(head, r1);
    (InstanceOf(left, cls), r2)
  }

  lemma LevelStep(consts: Consts, level: nat, ts: Toks)
    requires Ended(ts) && 4 <= level < UNARY
    ensures ParseAt(consts, level, ts) ==
      match ParseAt(consts, level + 1, ts) {
        case None => None
        case Some((left, r)) =>
          if level == COMPARE && r[0].TInstanceOf? then Some(InstanceTail(left, r[1..])) else BinLoop(consts, level, left, r)
      }
  {
  }

  lemma BinStep(consts: Consts, level: nat, left: Expr, ts: Toks)
    requires Ended(ts) && 4 <= level < UNARY
    ensures BinLoop(consts, level, left, ts) ==
      if ts[0].TOp? && BinLevel(ts[0].op) == level then
        match ParseAt(consts, level + 1, ts[1..]) { case None => None case Some((right, r)) => BinLoop(consts, level, Binary(ts[0].op, left, right), r) }
      else Some((left, ts))
  {
  }

  function ParseUnary(consts: Consts, ts: Toks): (res: Result)
    requires Ended(ts)
    ensures Advances(ts, res)
    decreases |ts|, 73
  {
    match ts[0]
    case TIdent(name) => if name == AT then ParseUnary(consts, ts[1..]) else ParseAt(consts, POSTFIX, ts)
    case TBang =>
      var (e, r) :- ParseUnary(consts, ts[1..]);
      Some((Unary(Not, e), r))
    case TOp(op) =>
      if op == Sub then
        var (e, r) :- ParseUnary(consts, ts[1..]);
        Some((Unary(Neg, e), r))
      else if op == BitAnd then
        if ts[1].TVar? then
          var (e, r) :- PostfixLoop(consts, if ts[1].name == "this" then This else Var(ts[1].name), ts[2..]);
          Some((Ref(e), r))
        else
          None
      else
        ParseAt(consts, POSTFIX, ts)
    case TIncr(dec) =>
      if ts[1].TVar? then
        var v := Var(ts[1].name);
        Some((Assign(v, Binary(if dec then Sub else Add, v, IntLit(1))), ts[2..]))
      else
        None
    case TCast(kind) =>
      var (e, r) :- ParseUnary(consts, ts[1..]);
      Some((Cast(kind, e), r))
    case _ => ParseAt(consts, POSTFIX, ts)
  }

  /** An integer literal over 64 bits fails to scan and leaves the zero it started with. */
  function ScanInt(n: nat): int {
    if n <= MAX_INT64 then n else 0
  }

  /** Further segments of a constant's name: every separator is kept. */
  function NameTail(name: string, ts: Toks): (res: (string, Toks))
    requires Ended(ts)
    ensures Ended(res.1) && |res.1| <= |ts|
    decreases |ts|
  {
    if ts[0] != TIdent(BACKSLASH) then (name, ts) else
    if ts[1].TIdent? then NameTail(name + BACKSLASH + ts[1].name, ts[2..]) else NameTail(name + BACKSLASH, ts[1..])
  }

  /** The name that begins with an identifier; a leading separator takes the next one along. */
  function QualifiedName(name: string, ts: Toks): (res: (string, Toks))
    requires Ended(ts)
    ensures Ended(res.1) && |res.1| <= |ts|
  {
    if name == BACKSLASH && ts[0].TIdent? then NameTail(name + ts[0].name, ts[1..]) else NameTail(name, ts)
  }

  lemma AtUnary(consts: Consts, ts: Toks)
    requires Ended(ts)
    ensures ParseAt(consts, UNARY, ts) == ParseUnary(consts, ts)
  {
  }

  function ParsePrimary(consts: Consts, ts: Toks): (res: Result)
    requires Ended(ts)
    ensures Advances(ts, res)
    decreases |ts|, 10
  {
    match ts[0]
    case TVar(name) => if name == "this" then Some((This, ts[1..])) else PostfixLoop(consts, Var(name), ts[1..])
    case TInt(n) => Some((IntLit(ScanInt(n)), ts[1..]))
    case TFloat(bits) => Some((FloatLit(bits), ts[1..]))
    case TStr(text) => Some((Str(text), ts[1..]))
    case TNull => Some((NullLit, ts[1..]))
    case TBool(b) => Some((BoolLit(b), ts[1..]))
    case TLParen =>
      var (e, r) :- ParseAt(consts, 0, ts[1..]);
      Some((e, Skip(TRParen, r)))
    case TIdent(name) =>
      var (full, r) := QualifiedName(name, ts[1..]);
      Some((Named(consts, full), r))
    case _ => None
  }

  /** The name under which an expression can be called. */
  function CalleeName(e: Expr): Option<string> {
    match e
    case Var(name) => Some(name)
    case Str(text) => Some(text)
    case Const(name) => Some(name)
    case _ => None
  }

  /** The class that an expression before `::` names; the empty name when it names none. */
  function ClassName(e: Expr): string {
    var name := CalleeName(e);
    if name.Some? then name.value else ""
  }

  /** parsePostfixFrom */
  function PostfixLoop(consts: Consts, e: Expr, ts: Toks): (res: Result)
    requires Ended(ts)
    ensures Keeps(ts, res)
    decreases |ts|, 202
  {
    match ts[0]
    case TLBracket =>
      if ts[1].TRBracket? then
        PostfixLoop(consts, Index(e, NullLit), ts[2..])
      else
        var (key, r) :- ParseAt(consts, 0, ts[1..]);
        PostfixLoop(consts, Index(e, key), Skip(TRBracket, r))
    case TLParen =>
      var name :- CalleeName(e);
      var (args, r) :- ParseArgs(consts, ts[1..]);
      PostfixLoop(consts, Call(name, args), r)
    case TArrow =>
      if !ts[1].TIdent? then None else
      var name := ts[1].name;
      if ts[2].TLParen? then
        var (args, r) :- ParseArgs(consts, ts[3..]);
        PostfixLoop(consts, Method(e, name, args), r)
      else
        PostfixLoop(consts, Prop(e, name), ts[2..])
    case TDoubleColon => StaticTail(consts, ClassName(e), ts[1..])
    case _ => Some((e, ts))
  }

  /** After `::`: a static property, the class name itself, a static method or a class constant. */
  function StaticTail(consts: Consts, cls: string, ts: Toks): (res: Result)
    requires Ended(ts)
    ensures Keeps(ts, res)
    decreases |ts|, 203
  {
    match ts[0]
    case TVar(name) => PostfixLoop(consts, Prop(Const(cls), "$" + name), ts[1..])
    case TClass => PostfixLoop(consts, Str(cls), ts[1..])
    case TIdent(name) =>
      if ts[1].TLParen? then
        var (args, r) :- ParseArgs(consts, ts[2..]);
        PostfixLoop(consts, StaticCall(cls, name, args), r)
      else
        PostfixLoop(consts, ClassConst(cls, name), ts[1..])
    case _ => None
  }

  /** The arguments after an opening parenthesis, and the closing one. */
  function ParseArgs(consts: Consts, ts: Toks): (res: Option<(Args, Toks)>)
    requires Ended(ts)
    ensures res.Some? ==> Ended(res.value.1) && |res.value.1| <= |ts|
    decreases |ts|, 201
  {
    var (args, r) :- ArgLoop(consts, ts);
    Some((args, Skip(TRParen, r)))
  }

  function ArgLoop(consts: Consts, ts: Toks): (res: Option<(Args, Toks)>)
    requires Ended(ts)
    ensures res.Some? ==> Ended(res.value.1) && |res.value.1| <= |ts|
    decreases |ts|, 200
  {
    if ts[0].TRParen? || ts[0].TEOF? then
      Some((NoArgs, ts))
    else
      var (a, r) :- ParseArg(consts, ts);
      if r[0].TComma? then
        var (rest, r1) :- ArgLoop(consts, r[1..]);
        Some((MoreArgs(a, rest), r1))
      else
        Some((MoreArgs(a, NoArgs), r))
  }

  /** One argument: `&$name`, a list to be spread, or an expression. */
  function ParseArg(consts: Consts, ts: Toks): (res: Result)
    requires Ended(ts)
    ensures Advances(ts, res)
    decreases |ts|, 190
  {
    if ts[0] == TOp(BitAnd) then
      if ts[1].TVar? then Some((ByRef(ts[1].name), ts[2..])) else None
    else if ts[0] == TIdent(DOTS) then
      var (e, r) :- ParseAt(consts, 0, ts[1..]);
      Some((Splat(e), r))
    else
      ParseAt(consts, 0, ts)
  }
}
