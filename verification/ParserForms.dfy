/**
 The forms of expressions that have no tree of their own, or that the parser forgives: what
 sugar stands for, which closing brackets may be missing, how names are put together, and
 what is refused.
 */
module ParserForms {
  import opened Wrappers
  import opened ParserSpec
  import opened ParserPrint
  import opened ParserLadder

  /** The tokens of a whole text are read as e. */
  predicate Reads(consts: Consts, ts: Toks, e: Expr) {
    ParseAt(consts, 0, ts + [TEOF]) == Some((e, [TEOF]))
  }

  predicate Refused(consts: Consts, ts: Toks) {
    ParseAt(consts, 0, ts + [TEOF]) == None
  }

  const END := [TEOF]

  lemma AtEnd()
    ensures Ended(END) && Joins(END[0]) == -1
  {
  }

  /** What is read at level `high` in front of the end is the whole expression. */
  lemma Whole(consts: Consts, high: nat, ts: Toks, e: Expr)
    requires high <= UNARY && ParseAt(consts, high, ts + END) == Some((e, END))
    ensures Reads(consts, ts, e)
  {
    hide ParseAt, Joins;
    AtEnd();
    Down(consts, high, 0, ts + END, e, END);
  }

  lemma WholeUnary(consts: Consts, ts: Toks, e: Expr)
    requires ParseUnary(consts, ts + END) == Some((e, END))
    ensures Reads(consts, ts, e)
  {
    hide ParseAt, ParseUnary, Reads;
    AtUnary(consts, ts + END);
    Whole(consts, UNARY, ts, e);
  }

  /** An operand alone. */
  lemma OperandAlone(consts: Consts, a: Expr)
    requires Printable(consts, a)
    ensures ParseUnary(consts, Operand(consts, a) + END) == Some((a, END)) && ParseAt(consts, 0, Operand(consts, a) + END) == Some((a, END))
    ensures ParseAt(consts, 1, Operand(consts, a) + END) == Some((a, END))
  {
    hide ParseAt, ParseUnary, Show;
    AtEnd();
    ShowParses(consts, a, UNARY, END);
    AtUnary(consts, Operand(consts, a) + END);
    Down(consts, UNARY, 0, Operand(consts, a) + END, a, END);
    Down(consts, UNARY, 1, Operand(consts, a) + END, a, END);
  }

  lemma Join(a: Toks, t: Tok, b: Toks)
    ensures a + [t] + b + END == a + ([t] + (b + END)) && [t] + b + END == [t] + (b + END)
  {
  }

  /** `++$x` adds 1 and `--$x` takes 1 away. */
  lemma Increments(consts: Consts, x: string)
    ensures Reads(consts, [TIncr(false), TVar(x)], Assign(Var(x), Binary(Add, Var(x), IntLit(1))))
    ensures Reads(consts, [TIncr(true), TVar(x)], Assign(Var(x), Binary(Sub, Var(x), IntLit(1))))
  {
    hide Reads, ParseAt;
    Step(consts, false, x);
    Step(consts, true, x);
    WholeUnary(consts, [TIncr(false), TVar(x)], Assign(Var(x), Binary(Add, Var(x), IntLit(1))));
    WholeUnary(consts, [TIncr(true), TVar(x)], Assign(Var(x), Binary(Sub, Var(x), IntLit(1))));
  }

  lemma Step(consts: Consts, dec: bool, x: string)
    ensures ParseUnary(consts, [TIncr(dec), TVar(x)] + END)
         == Some((Assign(Var(x), Binary(if dec then Sub else Add, Var(x), IntLit(1))), END))
  {
    hide ParseAt;
    assert ([TIncr(dec), TVar(x)] + END)[2..] == END;
  }

  /** `@` in front of an expression changes nothing, and `&$x` is a reference to the variable. */
  lemma Prefixes(consts: Consts, a: Expr, x: string)
    requires Printable(consts, a)
    ensures Reads(consts, [TIdent("@")] + Operand(consts, a), a)
    ensures Reads(consts, [TOp(BitAnd), TVar(x)], Ref(if x == "this" then This else Var(x)))
  {
    hide Reads, ParseAt, ParseUnary, Show;
    OperandAlone(consts, a);
    Join([], TIdent("@"), Operand(consts, a));
    Silenced(consts, Operand(consts, a) + END);
    WholeUnary(consts, [TIdent("@")] + Operand(consts, a), a);
    Referenced(consts, x);
    WholeUnary(consts, [TOp(BitAnd), TVar(x)], Ref(if x == "this" then This else Var(x)));
  }

  lemma Silenced(consts: Consts, ts: Toks)
    requires Ended(ts)
    ensures ParseUnary(consts, [TIdent("@")] + ts) == ParseUnary(consts, ts)
  {
    hide ParseAt;
    assert ([TIdent("@")] + ts)[1..] == ts;
  }

  lemma Referenced(consts: Consts, x: string)
    ensures ParseUnary(consts, [TOp(BitAnd), TVar(x)] + END) == Some((Ref(if x == "this" then This else Var(x)), END))
  {
    hide ParseAt;
    assert ([TOp(BitAnd), TVar(x)] + END)[2..] == END;
  }

  /** `a .= b` and its kin assign the combination; a conditional may lack its else part. */
  lemma Shorthands(consts: Consts, a: Expr, k: CompoundOp, b: Expr)
    requires Printable(consts, a) && Printable(consts, b)
    ensures Reads(consts, Operand(consts, a) + [TCompound(k)] + Operand(consts, b), Assign(a, Binary(Compound(k), a, b)))
    ensures Reads(consts, Operand(consts, a) + [TQuestion] + Operand(consts, b), HalfTernary(a, b))
  {
    hide Reads, ParseAt, Show, AssignTail, TernaryTail;
    var right := Operand(consts, b) + END;
    OperandAlone(consts, b);
    ReadsThird(consts, a, [TCompound(k)] + right);
    ReadsThird(consts, a, [TQuestion] + right);
    Tails(consts, a, k, b, right);
    Join(Operand(consts, a), TCompound(k), Operand(consts, b));
    Join(Operand(consts, a), TQuestion, Operand(consts, b));
    AtAssign(consts, a, [TCompound(k)] + right, Operand(consts, a) + ([TCompound(k)] + right));
    AtTernary(consts, a, [TQuestion] + right, Operand(consts, a) + ([TQuestion] + right));
    StartsNoColon(consts, b);
    HalfTail(consts, a, b, right);
    Whole(consts, 1, Operand(consts, a) + [TCompound(k)] + Operand(consts, b), Assign(a, Binary(Compound(k), a, b)));
    Whole(consts, 2, Operand(consts, a) + [TQuestion] + Operand(consts, b), HalfTernary(a, b));
  }

  lemma ReadsThird(consts: Consts, a: Expr, rest: Toks)
    requires Printable(consts, a) && Ended(rest) && Joins(rest[0]) < 3
    ensures ParseAt(consts, 3, Operand(consts, a) + rest) == Some((a, rest))
  {
    hide ParseAt, Show, Joins;
    ShowParses(consts, a, UNARY, rest);
    Down(consts, UNARY, 3, Operand(consts, a) + rest, a, rest);
  }

  lemma Tails(consts: Consts, a: Expr, k: CompoundOp, b: Expr, right: Toks)
    requires Ended(right) && ParseAt(consts, 1, right) == Some((b, END))
    ensures AssignTail(consts, a, [TCompound(k)] + right) == Some((Assign(a, Binary(Compound(k), a, b)), END))
  {
    hide ParseAt;
    assert ([TCompound(k)] + right)[1..] == right;
  }

  lemma HalfTail(consts: Consts, a: Expr, b: Expr, right: Toks)
    requires Ended(right) && !right[0].TColon? && ParseAt(consts, 1, right) == Some((b, END))
    ensures TernaryTail(consts, a, [TQuestion] + right) == Some((HalfTernary(a, b), END))
  {
    hide ParseAt;
    assert ([TQuestion] + right)[1..] == right;
  }

  lemma StartsNoColon(consts: Consts, b: Expr)
    requires Printable(consts, b)
    ensures Operand(consts, b) != [] && !(Operand(consts, b) + END)[0].TColon? && !(Operand(consts, b) + END)[0].TRBracket?
    ensures Starts((Operand(consts, b) + END)[0])
  {
    hide Show, Printable;
    FirstTok(consts, b, UNARY);
  }

  // ----- missing brackets

  lemma PrimaryWhole(consts: Consts, ts: Toks, e: Expr)
    requires ts != [] && StartsPostfix(ts[0]) && ParsePrimary(consts, ts + END) == Some((e, END))
    ensures Reads(consts, ts, e)
  {
    hide ParseAt, ParsePrimary, ParseUnary, Reads, StartsPostfix;
    assert (ts + END)[0] == ts[0];
    NoPrefix(consts, ts + END);
    AtPostfix(consts, e, END, ts + END);
    NoTail(consts, e);
    WholeUnary(consts, ts, e);
  }

  lemma NoTail(consts: Consts, e: Expr)
    ensures PostfixLoop(consts, e, END) == Some((e, END))
  {
  }

  /** A closing bracket may be missing, and arguments may end in a comma. */
  lemma MissingBrackets(consts: Consts, x: string, f: string, a: Expr)
    requires Printable(consts, a) && x != "this" && PlainName(consts, f)
    ensures Reads(consts, [TLParen] + Operand(consts, a), a)
    ensures Reads(consts, [TVar(x), TLBracket] + Operand(consts, a), Index(Var(x), a))
    ensures Reads(consts, [TIdent(f), TLParen] + Operand(consts, a), Call(f, MoreArgs(a, NoArgs)))
    ensures Reads(consts, [TIdent(f), TLParen] + Operand(consts, a) + [TComma], Call(f, MoreArgs(a, NoArgs)))
  {
    hide Reads, ParsePrimary, ParseAt, Show, PlainName;
    var inner := Operand(consts, a) + END;
    OperandAlone(consts, a);
    OpenParen(consts, a, inner);
    Join([], TLParen, Operand(consts, a));
    PrimaryWhole(consts, [TLParen] + Operand(consts, a), a);
    StartsNoColon(consts, a);
    OpenIndex(consts, x, a, inner);
    assert [TVar(x), TLBracket] + Operand(consts, a) + END == [TVar(x), TLBracket] + inner;
    PrimaryWhole(consts, [TVar(x), TLBracket] + Operand(consts, a), Index(Var(x), a));
    OpenCall(consts, f, a);
    OpenCallComma(consts, f, a);
  }

  lemma OpenParen(consts: Consts, a: Expr, inner: Toks)
    requires Ended(inner) && ParseAt(consts, 0, inner) == Some((a, END))
    ensures ParsePrimary(consts, [TLParen] + inner) == Some((a, END))
  {
    hide ParseAt;
    assert ([TLParen] + inner)[1..] == inner;
  }

  lemma OpenIndex(consts: Consts, x: string, a: Expr, inner: Toks)
    requires x != "this" && Ended(inner) && !inner[0].TRBracket? && ParseAt(consts, 0, inner) == Some((a, END))
    ensures ParsePrimary(consts, [TVar(x), TLBracket] + inner) == Some((Index(Var(x), a), END))
  {
    hide ParseAt, PostfixLoop;
    var mid := [TLBracket] + inner;
    assert ([TVar(x), TLBracket] + inner)[1..] == mid && mid[1..] == inner;
    OpenIndexTail(consts, Var(x), a, inner);
  }

  lemma OpenIndexTail(consts: Consts, e: Expr, a: Expr, inner: Toks)
    requires Ended(inner) && !inner[0].TRBracket? && ParseAt(consts, 0, inner) == Some((a, END))
    ensures PostfixLoop(consts, e, [TLBracket] + inner) == Some((Index(e, a), END))
  {
    hide ParseAt;
    assert ([TLBracket] + inner)[1..] == inner;
  }

  lemma NameThenCall(consts: Consts, f: string, args: Args, inner: Toks)
    requires PlainName(consts, f) && Ended(inner) && ParseArgs(consts, inner) == Some((args, END))
    ensures ParseAt(consts, POSTFIX, [TIdent(f), TLParen] + inner) == Some((Call(f, args), END))
  {
    hide ParseAt, PostfixLoop, ParseArgs, PlainName;
    var mid := [TLParen] + inner;
    assert [TIdent(f), TLParen] + inner == [NameTok(consts, f)] + mid by {
      assert NameTok(consts, f) == TIdent(f);
    }
    AtName(consts, f, mid);
    CallTail(consts, NameExpr(consts, f), f, args, inner);
  }

  lemma CallTail(consts: Consts, e: Expr, f: string, args: Args, inner: Toks)
    requires CalleeName(e) == Some(f) && Ended(inner) && ParseArgs(consts, inner) == Some((args, END))
    ensures PostfixLoop(consts, e, [TLParen] + inner) == Some((Call(f, args), END))
  {
    hide ParseArgs;
    assert ([TLParen] + inner)[1..] == inner;
  }

  lemma PostfixWhole(consts: Consts, ts: Toks, e: Expr)
    requires ts != [] && StartsPostfix(ts[0]) && ParseAt(consts, POSTFIX, ts + END) == Some((e, END))
    ensures Reads(consts, ts, e)
  {
    hide ParseAt, ParsePrimary, ParseUnary, Reads, StartsPostfix;
    assert (ts + END)[0] == ts[0];
    NoPrefix(consts, ts + END);
    WholeUnary(consts, ts, e);
  }

  lemma PlainStarts(consts: Consts, f: string)
    requires PlainName(consts, f)
    ensures StartsPostfix(TIdent(f))
  {
  }

  lemma OpenCall(consts: Consts, f: string, a: Expr)
    requires Printable(consts, a) && PlainName(consts, f)
    ensures Reads(consts, [TIdent(f), TLParen] + Operand(consts, a), Call(f, MoreArgs(a, NoArgs)))
  {
    hide Reads, ParseAt, Show, PlainName, ParseArgs;
    var inner := Operand(consts, a) + END;
    OperandAlone(consts, a);
    StartsNoColon(consts, a);
    OneArg(consts, a, inner, END);
    NameThenCall(consts, f, MoreArgs(a, NoArgs), inner);
    PlainStarts(consts, f);
    assert [TIdent(f), TLParen] + Operand(consts, a) + END == [TIdent(f), TLParen] + inner;
    PostfixWhole(consts, [TIdent(f), TLParen] + Operand(consts, a), Call(f, MoreArgs(a, NoArgs)));
  }

  lemma OneArg(consts: Consts, a: Expr, inner: Toks, after: Toks)
    requires Ended(inner) && Starts(inner[0]) && Ended(after)
    requires ParseAt(consts, 0, inner) == Some((a, after)) && after in [END, [TComma] + END]
    ensures ParseArgs(consts, inner) == Some((MoreArgs(a, NoArgs), END))
  {
    hide ParseAt;
    AtArg(consts, inner);
    hide ParseArg;
    assert ([TComma] + END)[1..] == END;
    assert ArgLoop(consts, END) == Some((NoArgs, END));
    assert ArgLoop(consts, inner) == Some((MoreArgs(a, NoArgs), END));
  }

  lemma OpenCallComma(consts: Consts, f: string, a: Expr)
    requires Printable(consts, a) && PlainName(consts, f)
    ensures Reads(consts, [TIdent(f), TLParen] + Operand(consts, a) + [TComma], Call(f, MoreArgs(a, NoArgs)))
  {
    hide Reads, ParseAt, Show, PlainName, ParseArgs;
    var after := [TComma] + END;
    var inner := Operand(consts, a) + after;
    BeforeComma(consts, a);
    StartsNoColon(consts, a);
    assert inner[0] == (Operand(consts, a) + END)[0];
    OneArg(consts, a, inner, after);
    NameThenCall(consts, f, MoreArgs(a, NoArgs), inner);
    PlainStarts(consts, f);
    assert [TIdent(f), TLParen] + Operand(consts, a) + [TComma] + END == [TIdent(f), TLParen] + inner;
    PostfixWhole(consts, [TIdent(f), TLParen] + Operand(consts, a) + [TComma], Call(f, MoreArgs(a, NoArgs)));
  }

  lemma BeforeComma(consts: Consts, a: Expr)
    requires Printable(consts, a)
    ensures ParseAt(consts, 0, Operand(consts, a) + ([TComma] + END)) == Some((a, [TComma] + END))
  {
    hide ParseAt, Show;
    var after := [TComma] + END;
    ShowParses(consts, a, UNARY, after);
    Down(consts, UNARY, 0, Operand(consts, a) + after, a, after);
  }

  /** What stands before a double colon and is no name counts as the class with the empty name. */
  lemma NamelessClass(consts: Consts, n: nat, x: string)
    ensures Reads(consts, [TInt(n), TDoubleColon, TIdent(x)], ClassConst("", x))
  {
    hide Reads, ParseAt;
    var tail := [TDoubleColon, TIdent(x)] + END;
    var ts := [TInt(n), TDoubleColon, TIdent(x)];
    assert (ts + END)[1..] == tail;
    AtPostfix(consts, IntLit(ScanInt(n)), tail, ts + END);
    NamelessTail(consts, ScanInt(n), x);
    PostfixWhole(consts, ts, ClassConst("", x));
  }

  lemma NamelessTail(consts: Consts, n: int, x: string)
    ensures PostfixLoop(consts, IntLit(n), [TDoubleColon, TIdent(x)] + END) == Some((ClassConst("", x), END))
  {
    hide ParseAt;
    var after := [TIdent(x)] + END;
    assert ([TDoubleColon, TIdent(x)] + END)[1..] == after && after[1..] == END && after[1] == TEOF;
    NoTail(consts, ClassConst("", x));
    assert StaticTail(consts, "", after) == Some((ClassConst("", x), END));
  }

  // ----- names and numbers

  /** An integer beyond 64 bits is read as 0. */
  lemma WideInteger(consts: Consts, n: nat)
    ensures Reads(consts, [TInt(n)], IntLit(if n <= 9223372036854775807 then n else 0))
  {
    hide Reads;
    assert ([TInt(n)] + END)[1..] == END;
    assert ParsePrimary(consts, [TInt(n)] + END) == Some((IntLit(if n <= 9223372036854775807 then n else 0), END));
    hide ParsePrimary;
    PrimaryWhole(consts, [TInt(n)], IntLit(if n <= 9223372036854775807 then n else 0));
  }

  /** What a name that the parser has read stands for: predefined constants first, then the magic names. */
  function Meant(consts: Consts, name: string): Expr {
    if name in consts then
      match consts[name]
      case IntConst(n) => IntLit(n)
      case FloatConst(bits) => FloatLit(bits)
      case TextConst(text) => Str(text)
      case BoolConst(b) => BoolLit(b)
    else if name in ["__DIR__", "__FILE__", "__LINE__", "__FUNCTION__", "__CLASS__", "__METHOD__", "__NAMESPACE__"] then Magic(name)
    else Const(name)
  }

  /** Names of one word, of several, and from the root; a separator at the end stays. */
  lemma Names(consts: Consts, a: string, b: string, c: string)
    requires '\\' !in a && '\\' !in b && '\\' !in c && a != "@"
    ensures Reads(consts, [TIdent(a)], Meant(consts, a))
    ensures Reads(consts, [TIdent(a), TIdent("\\"), TIdent(b)], Meant(consts, a + "\\" + b))
    ensures Reads(consts, [TIdent("\\"), TIdent(a), TIdent("\\"), TIdent(b)], Meant(consts, "\\" + a + "\\" + b))
    ensures Reads(consts, [TIdent(a), TIdent("\\")], Meant(consts, a + "\\"))
  {
    hide Reads, Meant, IsMagic, StartsPostfix;
    SeparatorStarts(a);
    TailNames(a, b);
    NamedIs(consts, a);
    NamedIs(consts, a + "\\" + b);
    NamedIs(consts, "\\" + a + "\\" + b);
    NamedIs(consts, a + "\\");
    OneName(consts, a, [], a);
    OneName(consts, a, [TIdent("\\"), TIdent(b)], a + "\\" + b);
    OneName(consts, "\\", [TIdent(a), TIdent("\\"), TIdent(b)], "\\" + a + "\\" + b);
    OneName(consts, a, [TIdent("\\")], a + "\\");
    assert [TIdent(a)] + [] == [TIdent(a)] && [TIdent(a)] + [TIdent("\\"), TIdent(b)] == [TIdent(a), TIdent("\\"), TIdent(b)];
    assert [TIdent("\\")] + [TIdent(a), TIdent("\\"), TIdent(b)] == [TIdent("\\"), TIdent(a), TIdent("\\"), TIdent(b)];
    assert [TIdent(a)] + [TIdent("\\")] == [TIdent(a), TIdent("\\")];
  }

  lemma SeparatorStarts(a: string)
    requires '\\' !in a && a != "@"
    ensures StartsPostfix(TIdent("\\")) && (a != "..." ==> StartsPostfix(TIdent(a)))
  {
  }

  lemma NamedIs(consts: Consts, name: string)
    ensures Named(consts, name) == Meant(consts, name)
  {
  }

  lemma TailNames(a: string, b: string)
    requires '\\' !in a && '\\' !in b
    ensures QualifiedName(a, [] + END) == (a, END)
    ensures QualifiedName(a, [TIdent("\\"), TIdent(b)] + END) == (a + "\\" + b, END)
    ensures QualifiedName("\\", [TIdent(a), TIdent("\\"), TIdent(b)] + END) == ("\\" + a + "\\" + b, END)
    ensures QualifiedName(a, [TIdent("\\")] + END) == (a + "\\", END)
  {
    hide NameTail;
    assert a != "\\" && [] + END == END;
    LastName(a);
    NextName(a, b);
    NextName("\\" + a, b);
    LooseSeparator(a);
    assert ([TIdent(a), TIdent("\\"), TIdent(b)] + END)[1..] == [TIdent("\\"), TIdent(b)] + END;
  }

  lemma LastName(a: string)
    ensures NameTail(a, END) == (a, END) == ClassTail(a, END)
  {
  }

  lemma NextName(a: string, b: string)
    ensures NameTail(a, [TIdent("\\"), TIdent(b)] + END) == (a + "\\" + b, END)
    ensures ClassTail(a, [TIdent("\\"), TIdent(b)] + END) == (a + "\\" + b, END)
  {
    LastName(a + "\\" + b);
    assert ([TIdent("\\"), TIdent(b)] + END)[2..] == END;
  }

  lemma LooseSeparator(a: string)
    ensures NameTail(a, [TIdent("\\")] + END) == (a + "\\", END) && ClassTail(a, [TIdent("\\")] + END) == (a, END)
  {
    LastName(a + "\\");
    LastName(a);
    assert ([TIdent("\\")] + END)[1..] == END;
  }

  lemma OneName(consts: Consts, first: string, more: Toks, full: string)
    requires first != "@" && (first == "\\" || '\\' !in first) && QualifiedName(first, more + END) == (full, END)
    ensures Reads(consts, [TIdent(first)] + more, Named(consts, full))
  {
    hide Reads, ParseAt, QualifiedName, Named;
    var ts := [TIdent(first)] + more;
    assert ts + END == [TIdent(first)] + (more + END);
    NameAlone(consts, first, more + END, full);
    AtPostfix(consts, Named(consts, full), END, ts + END);
    NoTail(consts, Named(consts, full));
    NotSilenced(consts, ts + END);
    WholeUnary(consts, ts, Named(consts, full));
  }

  lemma NotSilenced(consts: Consts, ts: Toks)
    requires Ended(ts) && ts[0].TIdent? && ts[0].name != "@"
    ensures ParseUnary(consts, ts) == ParseAt(consts, POSTFIX, ts)
  {
    hide ParseAt;
  }

  lemma NameAlone(consts: Consts, first: string, after: Toks, full: string)
    requires Ended(after) && QualifiedName(first, after) == (full, END)
    ensures ParsePrimary(consts, [TIdent(first)] + after) == Some((Named(consts, full), END))
  {
    hide QualifiedName, Named;
    assert ([TIdent(first)] + after)[1..] == after;
  }

  /** The word operators, in any letter case. */
  lemma Words(consts: Consts, w: string, a: Expr, b: Expr)
    requires Printable(consts, a) && Printable(consts, b)
    ensures w in ["or", "OR", "Or", "oR"] ==> Reads(consts, Operand(consts, a) + [TIdent(w)] + Operand(consts, b), Binary(WordOr, a, b))
    ensures w in ["and", "AND", "And"] ==> Reads(consts, Operand(consts, a) + [TIdent(w)] + Operand(consts, b), Binary(WordAnd, a, b))
    ensures w in ["xor", "XOR", "Xor"] ==> Reads(consts, Operand(consts, a) + [TIdent(w)] + Operand(consts, b), Binary(WordXor, a, b))
  {
    hide Reads, Show, WordOp, Printable;
    WordTable(w);
    if WordOp(w).Some? {
      OneWord(consts, w, a, b);
    }
  }

  lemma WordTable(w: string)
    ensures w in ["or", "OR", "Or", "oR"] ==> WordOp(w) == Some(WordOr)
    ensures w in ["and", "AND", "And"] ==> WordOp(w) == Some(WordAnd)
    ensures w in ["xor", "XOR", "Xor"] ==> WordOp(w) == Some(WordXor)
    ensures WordOp("\\") == None
  {
    assert Lower("or") == Lower("OR") == Lower("Or") == Lower("oR") == "or";
    assert Lower("and") == Lower("AND") == Lower("And") == "and";
    assert Lower("xor") == Lower("XOR") == Lower("Xor") == "xor";
    assert Lower("\\") == "\\";
  }

  lemma OneWord(consts: Consts, w: string, a: Expr, b: Expr)
    requires Printable(consts, a) && Printable(consts, b) && WordOp(w).Some?
    ensures Reads(consts, Operand(consts, a) + [TIdent(w)] + Operand(consts, b), Binary(WordOp(w).value, a, b))
  {
    hide Show, WordOp, ParseAt, WordLoop, Printable;
    var right := Operand(consts, b) + END;
    var mid := [TIdent(w)] + right;
    WordTable(w);
    OperandAlone(consts, b);
    ShowParses(consts, a, UNARY, mid);
    Down(consts, UNARY, 1, Operand(consts, a) + mid, a, mid);
    Join(Operand(consts, a), TIdent(w), Operand(consts, b));
    AtWord(consts, a, mid, Operand(consts, a) + mid);
    WordEnds(consts, w, a, b, right);
  }

  lemma WordEnds(consts: Consts, w: string, a: Expr, b: Expr, right: Toks)
    requires WordOp(w).Some? && Ended(right) && ParseAt(consts, 0, right) == Some((b, END))
    ensures WordLoop(consts, a, [TIdent(w)] + right) == Some((Binary(WordOp(w).value, a, b), END))
  {
    hide ParseAt, WordOp;
    assert ([TIdent(w)] + right)[1..] == right;
  }

  // ----- instanceof

  /** The class after `instanceof` may be written from the root or in parts; with no name the left side stands alone. */
  lemma Instances(consts: Consts, a: Expr, b: string, c: string)
    requires Printable(consts, a) && '\\' !in b && '\\' !in c
    ensures Reads(consts, Operand(consts, a) + [TInstanceOf], a)
    ensures Reads(consts, Operand(consts, a) + [TInstanceOf, TIdent(b), TIdent("\\"), TIdent(c)], InstanceOf(a, b + "\\" + c))
    ensures Reads(consts, Operand(consts, a) + [TInstanceOf, TIdent("\\"), TIdent(b)], InstanceOf(a, "\\" + b))
    ensures Reads(consts, Operand(consts, a) + [TInstanceOf, TIdent(b), TIdent("\\")], InstanceOf(a, b))
  {
    hide Reads, Show, InstanceTail;
    ClassNames(a, b, c);
    InstanceAlone(consts, a, [], a);
    InstanceAlone(consts, a, [TIdent(b), TIdent("\\"), TIdent(c)], InstanceOf(a, b + "\\" + c));
    InstanceAlone(consts, a, [TIdent("\\"), TIdent(b)], InstanceOf(a, "\\" + b));
    InstanceAlone(consts, a, [TIdent(b), TIdent("\\")], InstanceOf(a, b));
    assert [TInstanceOf] + [] == [TInstanceOf];
    assert [TInstanceOf] + [TIdent(b), TIdent("\\"), TIdent(c)] == [TInstanceOf, TIdent(b), TIdent("\\"), TIdent(c)];
    assert [TInstanceOf] + [TIdent("\\"), TIdent(b)] == [TInstanceOf, TIdent("\\"), TIdent(b)];
    assert [TInstanceOf] + [TIdent(b), TIdent("\\")] == [TInstanceOf, TIdent(b), TIdent("\\")];
  }

  lemma ClassNames(a: Expr, b: string, c: string)
    requires '\\' !in b && '\\' !in c
    ensures InstanceTail(a, [] + END) == (a, END)
    ensures InstanceTail(a, [TIdent(b), TIdent("\\"), TIdent(c)] + END) == (InstanceOf(a, b + "\\" + c), END)
    ensures InstanceTail(a, [TIdent("\\"), TIdent(b)] + END) == (InstanceOf(a, "\\" + b), END)
    ensures InstanceTail(a, [TIdent(b), TIdent("\\")] + END) == (InstanceOf(a, b), END)
  {
    hide InstanceTail, ClassTail;
    assert [] + END == END;
    NoClass(a);
    NextName(b, c);
    LooseSeparator(b);
    PlainClass(a, b, [TIdent("\\"), TIdent(c)] + END);
    PlainClass(a, b, [TIdent("\\")] + END);
    RootClass(a, b);
    assert [TIdent(b), TIdent("\\"), TIdent(c)] + END == [TIdent(b)] + ([TIdent("\\"), TIdent(c)] + END);
    assert [TIdent(b), TIdent("\\")] + END == [TIdent(b)] + ([TIdent("\\")] + END);
  }

  lemma NoClass(a: Expr)
    ensures InstanceTail(a, END) == (a, END)
  {
  }

  lemma PlainClass(a: Expr, b: string, rest: Toks)
    requires '\\' !in b && Ended(rest)
    ensures
      var (cls, r) := ClassTail(b, rest);
      InstanceTail(a, [TIdent(b)] + rest) == (InstanceOf(a, cls), r)
  {
    hide ClassTail;
    assert b != "\\" && "" + b == b && ([TIdent(b)] + rest)[1..] == rest;
  }

  lemma RootClass(a: Expr, b: string)
    requires '\\' !in b
    ensures InstanceTail(a, [TIdent("\\"), TIdent(b)] + END) == (InstanceOf(a, "\\" + b), END)
  {
    hide ClassTail;
    LastName("\\" + b);
    var named := [TIdent(b)] + END;
    assert ([TIdent("\\"), TIdent(b)] + END)[1..] == named && named[1..] == END;
    assert Separators(named) == ("", named);
    assert "\\" + "" == "\\";
  }

  lemma InstanceAlone(consts: Consts, a: Expr, name: Toks, e: Expr)
    requires Printable(consts, a) && InstanceTail(a, name + END) == (e, END)
    ensures Reads(consts, Operand(consts, a) + ([TInstanceOf] + name), e)
  {
    hide Reads, ParseAt, Show, InstanceTail;
    var mid := [TInstanceOf] + (name + END);
    OperandReads(consts, a, COMPARE + 1, mid);
    LevelStep(consts, COMPARE, Operand(consts, a) + mid);
    assert mid[1..] == name + END;
    var ts := Operand(consts, a) + ([TInstanceOf] + name);
    assert ts + END == Operand(consts, a) + mid;
    Whole(consts, COMPARE, ts, e);
  }

  // ----- what is refused

  lemma RefusedBelow(consts: Consts, high: nat, low: nat, ts: Toks)
    requires low <= high <= POSTFIX && high != POSTFIX && Ended(ts) && ParseAt(consts, high, ts) == None
    ensures ParseAt(consts, low, ts) == None
    decreases high - low
  {
    hide ParseAt;
    if low < high {
      RefusedNext(consts, high - 1, ts);
      RefusedBelow(consts, high - 1, low, ts);
    }
  }

  lemma RefusedNext(consts: Consts, level: nat, ts: Toks)
    requires level < UNARY && Ended(ts) && ParseAt(consts, level + 1, ts) == None
    ensures ParseAt(consts, level, ts) == None
  {
  }

  lemma RefusedUnary(consts: Consts, ts: Toks)
    requires ParseUnary(consts, ts + END) == None
    ensures Refused(consts, ts)
  {
    hide ParseAt, ParseUnary;
    AtUnary(consts, ts + END);
    RefusedBelow(consts, UNARY, 0, ts + END);
  }

  /** An expression does not begin with a closing bracket, a colon, a comma or an equals sign, and it is not empty. */
  lemma RefusedPrimary(consts: Consts, t: Tok)
    requires t.TEOF? || t.TRParen? || t.TRBracket? || t.TColon? || t.TComma? || t.TEquals?
    ensures Refused(consts, [t]) && Refused(consts, [])
  {
    hide Refused;
    NoPrimary(consts, [t] + END);
    NoPrimary(consts, [] + END);
    RefusedUnary(consts, [t]);
    RefusedUnary(consts, []);
  }

  lemma NoPrimary(consts: Consts, ts: Toks)
    requires Ended(ts)
    requires ts[0].TEOF? || ts[0].TRParen? || ts[0].TRBracket? || ts[0].TColon? || ts[0].TComma? || ts[0].TEquals?
    ensures ParseUnary(consts, ts) == None
  {
    hide PostfixLoop;
    assert ParsePrimary(consts, ts) == None;
    NoStart(consts, ts);
  }

  lemma NoStart(consts: Consts, ts: Toks)
    requires Ended(ts) && ParsePrimary(consts, ts) == None
    ensures ParseAt(consts, POSTFIX, ts) == None
  {
    hide ParsePrimary;
  }

  /** `++`, `--` and `&` need a variable after them. */
  lemma RefusedPrefix(consts: Consts, dec: bool, t: Tok)
    requires !t.TVar?
    ensures Refused(consts, [TIncr(dec), t]) && Refused(consts, [TOp(BitAnd), t])
  {
    hide Refused;
    NoVariable(consts, dec, t);
    RefusedUnary(consts, [TIncr(dec), t]);
    RefusedUnary(consts, [TOp(BitAnd), t]);
  }

  lemma NoVariable(consts: Consts, dec: bool, t: Tok)
    requires !t.TVar?
    ensures ParseUnary(consts, [TIncr(dec), t] + END) == None == ParseUnary(consts, [TOp(BitAnd), t] + END)
  {
  }

  /** A binary operator needs a right operand, and `->` and `::` need a name. */
  lemma RefusedRight(consts: Consts, a: Expr, op: BinOp, x: string)
    requires Printable(consts, a) && 4 <= BinLevel(op) < UNARY && x != "this"
    ensures Refused(consts, Operand(consts, a) + [TOp(op)])
    ensures Refused(consts, [TVar(x), TArrow]) && Refused(consts, [TVar(x), TDoubleColon]) && Refused(consts, [TInt(0), TLParen])
  {
    hide Refused, ParseAt, ParseUnary, Show, BinLoop;
    var ts := Operand(consts, a) + [TOp(op)];
    NoPrimary(consts, END);
    AtUnary(consts, END);
    OperandStarts(consts, a, op, END);
    RefusedBelow(consts, UNARY, BinLevel(op) + 1, END);
    NoRight(consts, BinLevel(op), a, op);
    assert ts + END == Operand(consts, a) + ([TOp(op)] + END);
    RefusedBelow(consts, BinLevel(op), 0, ts + END);
    assert Refused(consts, ts) by {
      IsRefused(consts, ts);
    }
    NoMember(consts, Var(x), TVar(x), TArrow);
    NoMember(consts, Var(x), TVar(x), TDoubleColon);
    NoMember(consts, IntLit(0), TInt(0), TLParen);
  }

  lemma IsRefused(consts: Consts, ts: Toks)
    requires ParseAt(consts, 0, ts + END) == None
    ensures Refused(consts, ts)
  {
  }

  lemma NoRight(consts: Consts, level: nat, a: Expr, op: BinOp)
    requires level == BinLevel(op) && 4 <= level < UNARY && ParseAt(consts, level + 1, END) == None
    ensures BinLoop(consts, level, a, [TOp(op)] + END) == None
  {
    hide ParseAt;
    assert ([TOp(op)] + END)[1..] == END;
  }

  lemma NoMember(consts: Consts, e: Expr, t: Tok, after: Tok)
    requires (t == TInt(0) && e == IntLit(0) && after.TLParen?)
          || (t.TVar? && t.name != "this" && e == Var(t.name) && (after.TArrow? || after.TDoubleColon?))
    ensures Refused(consts, [t, after])
  {
    hide Refused, ParseAt;
    hide ParseUnary;
    var tail := [after] + END;
    assert [t, after] + END == [t] + tail;
    NoMemberTail(consts, e, after);
    FirstAlone(consts, e, t, tail);
    RefusedUnary(consts, [t, after]);
  }

  lemma FirstAlone(consts: Consts, e: Expr, t: Tok, tail: Toks)
    requires Ended(tail) && PostfixLoop(consts, e, tail) == None
    requires (t == TInt(0) && e == IntLit(0)) || (t.TVar? && t.name != "this" && e == Var(t.name))
    ensures ParseUnary(consts, [t] + tail) == None
  {
    hide PostfixLoop, ParseAt;
    var ts := [t] + tail;
    assert ts[1..] == tail;
    if t == TInt(0) {
      AtPostfix(consts, e, tail, ts);
    } else {
      hide ParseUnary;
      NoStart(consts, ts);
      NotSilencedVar(consts, ts);
    }
  }

  lemma NotSilencedVar(consts: Consts, ts: Toks)
    requires Ended(ts) && ts[0].TVar?
    ensures ParseUnary(consts, ts) == ParseAt(consts, POSTFIX, ts)
  {
    hide ParseAt;
  }

  lemma NoMemberTail(consts: Consts, e: Expr, after: Tok)
    requires after.TArrow? || after.TDoubleColon? || (after.TLParen? && e == IntLit(0))
    ensures PostfixLoop(consts, e, [after] + END) == None
  {
    assert ([after] + END)[1..] == END;
  }
}
