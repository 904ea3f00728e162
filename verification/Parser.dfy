/** The parser object: one cursor over the token list, moved by every ladder method. */
module Parser {
  import opened Basics
  import opened Wrappers
  import opened ParserSpec

  class Parser {
    const toks: Toks
    const consts: Consts
    var pos: nat

    ghost predicate Valid()
      reads this
    {
      Ended(toks) && pos < |toks|
    }

    /** The tokens from the cursor on. */
    ghost function Rest(): (ts: Toks)
      requires Valid()
      reads this
      ensures Ended(ts)
    {
      toks[pos..]
    }

    constructor (toks: Toks, consts: Consts)
      requires Ended(toks)
      ensures Valid() && this.toks == toks && this.consts == consts && Rest() == toks
    {
      this.toks, this.consts, pos := toks, consts, 0;
    }

    function Cur(): Tok
      requires Valid()
      reads this
    {
      toks[pos]
    }

    /** adv: the cursor never moves past the end-of-file token. */
    method Adv() returns (t: Tok)
      requires Valid() && Cur() != TEOF
      modifies this
      ensures Valid() && t == old(Cur()) && pos == old(pos) + 1
      ensures Rest() == old(Rest())[1..]
    {
      t := toks[pos];
      pos := pos + 1;
    }

    /** A successful parse leaves the cursor at the specified rest. */
    ghost predicate Did(res: Result, r: Option<Expr>)
      requires Valid()
      reads this
    {
      match res
      case Some((e, rest)) => r == Some(e) && Rest() == rest
      case None => r.None?
    }

    method ParseExpr() returns (r: Option<Expr>)
      requires Valid()
      modifies this
      ensures Valid() && Did(ParseAt(consts, 0, old(Rest())), r)
      decreases |toks| - pos, 100
    {
      ghost var all := ParseAt(consts, 0, Rest());
      r := ParseAssignExpr();
      if r.None? {
        return;
      }
      while Cur().TIdent? && WordOp(Cur().name).Some?
        invariant Valid() && r.Some? && pos > old(pos)
        invariant all == WordLoop(consts, r.value, Rest())
        decreases |toks| - pos
      {
        var op := WordOp(Cur().name).value;
        var _ := Adv();
        var right := ParseExpr();
        if right.None? {
          return None;
        }
        r := Some(Binary(op, r.value, right.value));
      }
    }

    method ParseAssignExpr() returns (r: Option<Expr>)
      requires Valid()
      modifies this
      ensures Valid() && Did(ParseAt(consts, 1, old(Rest())), r)
      decreases |toks| - pos, 98
    {
      ghost var all := ParseAt(consts, 1, Rest());
      r := ParseTernary();
      if r.None? {
        return;
      }
      assert all == AssignTail(consts, r.value, Rest());
      if Cur() == TEquals {
        var _ := Adv();
        var right := ParseAssignExpr();
        if right.None? {
          return None;
        }
        return Some(Assign(r.value, right.value));
      }
      if Cur().TCompound? {
        var t := Adv();
        var right := ParseAssignExpr();
        if right.None? {
          return None;
        }
        return Some(Assign(r.value, Binary(Compound(t.k), r.value, right.value)));
      }
    }

    method ParseTernary() returns (r: Option<Expr>)
      requires Valid()
      modifies this
      ensures Valid() && Did(ParseAt(consts, 2, old(Rest())), r)
      decreases |toks| - pos, 96
    {
      ghost var all := ParseAt(consts, 2, Rest());
      r := ParseNullCoalesce();
      if r.None? {
        return;
      }
      assert all == TernaryTail(consts, r.value, Rest());
      if Cur() != TQuestion {
        return;
      }
      var cond := r.value;
      var _ := Adv();
      if Cur() == TColon {
        var _ := Adv();
        var els := ParseAssignExpr();
        if els.None? {
          return None;
        }
        return Some(ShortTernary(cond, els.value));
      }
      var thn := ParseAssignExpr();
      if thn.None? {
        return None;
      }
      if Cur() == TColon {
        var _ := Adv();
        var els := ParseAssignExpr();
        if els.None? {
          return None;
        }
        return Some(Ternary(cond, thn.value, els.value));
      }
      r := Some(HalfTernary(cond, thn.value));
    }

    method ParseNullCoalesce() returns (r: Option<Expr>)
      requires Valid()
      modifies this
      ensures Valid() && Did(ParseAt(consts, 3, old(Rest())), r)
      decreases |toks| - pos, 94
    {
      ghost var all := ParseAt(consts, 3, Rest());
      r := ParseLogicalOr();
      if r.None? {
        return;
      }
      assert all == CoalesceTail(consts, r.value, Rest());
      if Cur() != TCoalesce {
        return;
      }
      var _ := Adv();
      var right := ParseNullCoalesce();
      if right.None? {
        return None;
      }
      r := Some(Coalesce(r.value, right.value));
    }

    method ParseLogicalOr() returns (r: Option<Expr>)
      requires Valid()
      modifies this
      ensures Valid() && Did(ParseAt(consts, 4, old(Rest())), r)
      decreases |toks| - pos, 92
    {
      hide ParseAt, BinLoop;
      ghost var all := ParseAt(consts, 4, Rest());
      LevelStep(consts, 4, Rest());
      r := ParseLogicalAnd();
      if r.None? {
        return;
      }
      while Cur() == TOp(LogicalOr)
        invariant Valid() && r.Some? && pos > old(pos)
        invariant all == BinLoop(consts, 4, r.value, Rest())
        decreases |toks| - pos
      {
        BinStep(consts, 4, r.value, Rest());
        var t := Adv();
        var right := ParseLogicalAnd();
        if right.None? {
          return None;
        }
        r := Some(Binary(t.op, r.value, right.value));
      }
      BinStep(consts, 4, r.value, Rest());
    }

    method ParseLogicalAnd() returns (r: Option<Expr>)
      requires Valid()
      modifies this
      ensures Valid() && Did(ParseAt(consts, 5, old(Rest())), r)
      decreases |toks| - pos, 90
    {
      hide ParseAt, BinLoop;
      ghost var all := ParseAt(consts, 5, Rest());
      LevelStep(consts, 5, Rest());
      r := ParseBitwiseOr();
      if r.None? {
        return;
      }
      while Cur() == TOp(LogicalAnd)
        invariant Valid() && r.Some? && pos > old(pos)
        invariant all == BinLoop(consts, 5, r.value, Rest())
        decreases |toks| - pos
      {
        BinStep(consts, 5, r.value, Rest());
        var t := Adv();
        var right := ParseBitwiseOr();
        if right.None? {
          return None;
        }
        r := Some(Binary(t.op, r.value, right.value));
      }
      BinStep(consts, 5, r.value, Rest());
    }

    method ParseBitwiseOr() returns (r: Option<Expr>)
      requires Valid()
      modifies this
      ensures Valid() && Did(ParseAt(consts, 6, old(Rest())), r)
      decreases |toks| - pos, 88
    {
      hide ParseAt, BinLoop;
      ghost var all := ParseAt(consts, 6, Rest());
      LevelStep(consts, 6, Rest());
      r := ParseBitwiseXor();
      if r.None? {
        return;
      }
      while Cur() == TOp(BitOr)
        invariant Valid() && r.Some? && pos > old(pos)
        invariant all == BinLoop(consts, 6, r.value, Rest())
        decreases |toks| - pos
      {
        BinStep(consts, 6, r.value, Rest());
        var t := Adv();
        var right := ParseBitwiseXor();
        if right.None? {
          return None;
        }
        r := Some(Binary(t.op, r.value, right.value));
      }
      BinStep(consts, 6, r.value, Rest());
    }

    method ParseBitwiseXor() returns (r: Option<Expr>)
      requires Valid()
      modifies this
      ensures Valid() && Did(ParseAt(consts, 7, old(Rest())), r)
      decreases |toks| - pos, 86
    {
      hide ParseAt, BinLoop;
      ghost var all := ParseAt(consts, 7, Rest());
      LevelStep(consts, 7, Rest());
      r := ParseBitwiseAnd();
      if r.None? {
        return;
      }
      while Cur() == TOp(BitXor)
        invariant Valid() && r.Some? && pos > old(pos)
        invariant all == BinLoop(consts, 7, r.value, Rest())
        decreases |toks| - pos
      {
        BinStep(consts, 7, r.value, Rest());
        var t := Adv();
        var right := ParseBitwiseAnd();
        if right.None? {
          return None;
        }
        r := Some(Binary(t.op, r.value, right.value));
      }
      BinStep(consts, 7, r.value, Rest());
    }

    method ParseBitwiseAnd() returns (r: Option<Expr>)
      requires Valid()
      modifies this
      ensures Valid() && Did(ParseAt(consts, 8, old(Rest())), r)
      decreases |toks| - pos, 84
    {
      hide ParseAt, BinLoop;
      ghost var all := ParseAt(consts, 8, Rest());
      LevelStep(consts, 8, Rest());
      r := ParseCompare();
      if r.None? {
        return;
      }
      while Cur() == TOp(BitAnd)
        invariant Valid() && r.Some? && pos > old(pos)
        invariant all == BinLoop(consts, 8, r.value, Rest())
        decreases |toks| - pos
      {
        BinStep(consts, 8, r.value, Rest());
        var t := Adv();
        var right := ParseCompare();
        if right.None? {
          return None;
        }
        r := Some(Binary(t.op, r.value, right.value));
      }
      BinStep(consts, 8, r.value, Rest());
    }

    method ParseCompare() returns (r: Option<Expr>)
      requires Valid()
      modifies this
      ensures Valid() && Did(ParseAt(consts, 9, old(Rest())), r)
      decreases |toks| - pos, 82
    {
      hide ParseAt, BinLoop, BinLevel;
      ghost var all := ParseAt(consts, 9, Rest());
      LevelStep(consts, 9, Rest());
      r := ParseShift();
      if r.None? {
        return;
      }
      if Cur() == TInstanceOf {
        r := ParseInstanceTail(r.value);
        return;
      }
      while Cur().TOp? && Cur().op in {Equal, Identical, NotEqual, NotIdentical, Less, Greater, LessEq, GreaterEq}
        invariant Valid() && r.Some? && pos > old(pos)
        invariant all == BinLoop(consts, 9, r.value, Rest())
        decreases |toks| - pos
      {
        LevelOps(Cur());
        BinStep(consts, 9, r.value, Rest());
        var t := Adv();
        var right := ParseShift();
        if right.None? {
          return None;
        }
        r := Some(Binary(t.op, r.value, right.value));
      }
      LevelOps(Cur());
      BinStep(consts, 9, r.value, Rest());
    }

    /** The class name after `instanceof`. */
    method ParseInstanceTail(left: Expr) returns (r: Option<Expr>)
      requires Valid() && Cur() == TInstanceOf
      modifies this
      ensures Valid() && r.Some? && (r.value, Rest()) == InstanceTail(left, old(Rest())[1..])
    {
      var _ := Adv();
      if !Cur().TIdent? {
        return Some(left);
      }
      hide Separators, ClassTail;
      var sep := TakeSeparators();
      var head := sep;
      if Cur().TIdent? {
        var t := Adv();
        head := head + t.name;
      }
      var cls := TakeClassTail(head);
      r := Some(InstanceOf(left, cls));
    }

    method TakeSeparators() returns (sep: string)
      requires Valid()
      modifies this
      ensures Valid() && pos >= old(pos) && (sep, Rest()) == Separators(old(Rest()))
    {
      ghost var all := Separators(Rest());
      sep := "";
      while Cur() == TIdent(BACKSLASH)
        invariant Valid() && pos >= old(pos)
        invariant all.1 == Separators(Rest()).1 && all.0 == sep + Separators(Rest()).0
        decreases |toks| - pos
      {
        Cat(sep, BACKSLASH, Separators(Rest()[1..]).0);
        var _ := Adv();
        sep := sep + BACKSLASH;
      }
      assert sep + "" == sep;
    }

    method TakeClassTail(head: string) returns (cls: string)
      requires Valid()
      modifies this
      ensures Valid() && pos >= old(pos) && (cls, Rest()) == ClassTail(head, old(Rest()))
    {
      cls := head;
      while Cur() == TIdent(BACKSLASH)
        invariant Valid() && pos >= old(pos)
        invariant ClassTail(head, old(Rest())) == ClassTail(cls, Rest())
        decreases |toks| - pos
      {
        var _ := Adv();
        if Cur().TIdent? {
          var t := Adv();
          cls := cls + BACKSLASH + t.name;
        }
      }
    }

    method ParseShift() returns (r: Option<Expr>)
      requires Valid()
      modifies this
      ensures Valid() && Did(ParseAt(consts, 10, old(Rest())), r)
      decreases |toks| - pos, 80
    {
      hide ParseAt, BinLoop, BinLevel;
      ghost var all := ParseAt(consts, 10, Rest());
      LevelStep(consts, 10, Rest());
      r := ParseAdd();
      if r.None? {
        return;
      }
      while Cur().TOp? && Cur().op in {ShiftLeft, ShiftRight}
        invariant Valid() && r.Some? && pos > old(pos)
        invariant all == BinLoop(consts, 10, r.value, Rest())
        decreases |toks| - pos
      {
        LevelOps(Cur());
        BinStep(consts, 10, r.value, Rest());
        var t := Adv();
        var right := ParseAdd();
        if right.None? {
          return None;
        }
        r := Some(Binary(t.op, r.value, right.value));
      }
      LevelOps(Cur());
      BinStep(consts, 10, r.value, Rest());
    }

    method ParseAdd() returns (r: Option<Expr>)
      requires Valid()
      modifies this
      ensures Valid() && Did(ParseAt(consts, 11, old(Rest())), r)
      decreases |toks| - pos, 78
    {
      hide ParseAt, BinLoop, BinLevel;
      ghost var all := ParseAt(consts, 11, Rest());
      LevelStep(consts, 11, Rest());
      r := ParseMul();
      if r.None? {
        return;
      }
      while Cur().TOp? && Cur().op in {Add, Sub, Concat}
        invariant Valid() && r.Some? && pos > old(pos)
        invariant all == BinLoop(consts, 11, r.value, Rest())
        decreases |toks| - pos
      {
        LevelOps(Cur());
        BinStep(consts, 11, r.value, Rest());
        var t := Adv();
        var right := ParseMul();
        if right.None? {
          return None;
        }
        r := Some(Binary(t.op, r.value, right.value));
      }
      LevelOps(Cur());
      BinStep(consts, 11, r.value, Rest());
    }

    method ParseMul() returns (r: Option<Expr>)
      requires Valid()
      modifies this
      ensures Valid() && Did(ParseAt(consts, 12, old(Rest())), r)
      decreases |toks| - pos, 76
    {
      hide ParseAt, BinLoop, BinLevel;
      ghost var all := ParseAt(consts, 12, Rest());
      LevelStep(consts, 12, Rest());
      r := ParseUnaryExpr();
      if r.None? {
        return;
      }
      while Cur().TOp? && Cur().op in {Mul, Div, Mod}
        invariant Valid() && r.Some? && pos > old(pos)
        invariant all == BinLoop(consts, 12, r.value, Rest())
        decreases |toks| - pos
      {
        LevelOps(Cur());
        BinStep(consts, 12, r.value, Rest());
        var t := Adv();
        var right := ParseUnaryExpr();
        if right.None? {
          return None;
        }
        r := Some(Binary(t.op, r.value, right.value));
      }
      LevelOps(Cur());
      BinStep(consts, 12, r.value, Rest());
    }

    method ParseUnaryExpr() returns (r: Option<Expr>)
      requires Valid()
      modifies this
      ensures Valid() && Did(ParseAt(consts, UNARY, old(Rest())), r)
      decreases |toks| - pos, 74
    {
      AtUnary(consts, Rest());
      hide PostfixLoop, ParsePrimary, ParseAt;
      match Cur() {
        case TIdent(name) =>
          if name == AT {
            var _ := Adv();
            r := ParseUnaryExpr();
          } else {
            r := ParsePostfix();
          }
        case TBang =>
          var _ := Adv();
          r := ParseUnaryExpr();
          if r.Some? {
            r := Some(Unary(Not, r.value));
          }
        case TOp(op) =>
          if op == Sub {
            var _ := Adv();
            r := ParseUnaryExpr();
            if r.Some? {
              r := Some(Unary(Neg, r.value));
            }
          } else if op == BitAnd {
            r := ParseRefPrefix();
          } else {
            r := ParsePostfix();
          }
        case TIncr(dec) =>
          var _ := Adv();
          if !Cur().TVar? {
            return None;
          }
          var t := Adv();
          r := Some(Assign(Var(t.name), Binary(if dec then Sub else Add, Var(t.name), IntLit(1))));
        case TCast(kind) =>
          var _ := Adv();
          r := ParseUnaryExpr();
          if r.Some? {
            r := Some(Cast(kind, r.value));
          }
        case _ => r := ParsePostfix();
      }
    }

    /** The prefix `&` and its target, parseRefTarget. */
    method ParseRefPrefix() returns (r: Option<Expr>)
      requires Valid() && Cur() == TOp(BitAnd)
      modifies this
      ensures Valid() && Did(ParseUnary(consts, old(Rest())), r)
      decreases |toks| - pos, 73
    {
      var _ := Adv();
      if !Cur().TVar? {
        return None;
      }
      var t := Adv();
      r := ParsePostfixFrom(if t.name == "this" then This else Var(t.name));
      if r.Some? {
        r := Some(Ref(r.value));
      }
    }

    method ParsePostfix() returns (r: Option<Expr>)
      requires Valid()
      modifies this
      ensures Valid() && Did(ParseAt(consts, POSTFIX, old(Rest())), r)
      decreases |toks| - pos, 72
    {
      hide PostfixLoop;
      r := ParsePrimaryExpr();
      if r.Some? {
        r := ParsePostfixFrom(r.value);
      }
    }

    method ParsePrimaryExpr() returns (r: Option<Expr>)
      requires Valid()
      modifies this
      ensures Valid() && Did(ParsePrimary(consts, old(Rest())), r)
      decreases |toks| - pos, 10
    {
      hide PostfixLoop, ParseAt, Named, QualifiedName;
      match Cur() {
        case TVar(name) =>
          var _ := Adv();
          if name == "this" {
            return Some(This);
          }
          r := ParsePostfixFrom(Var(name));
        case TInt(n) =>
          var _ := Adv();
          r := Some(IntLit(ScanInt(n)));
        case TFloat(bits) =>
          var _ := Adv();
          r := Some(FloatLit(bits));
        case TStr(text) =>
          var _ := Adv();
          r := Some(Str(text));
        case TNull =>
          var _ := Adv();
          r := Some(NullLit);
        case TBool(b) =>
          var _ := Adv();
          r := Some(BoolLit(b));
        case TLParen =>
          var _ := Adv();
          r := ParseExpr();
          if r.Some? {
            SkipIf(TRParen);
          }
        case TIdent(_) =>
          var name := ParseName();
          r := Some(Named(consts, name));
        case _ => r := None;
      }
    }

    /** The segments of a qualified name. */
    method ParseName() returns (name: string)
      requires Valid() && Cur().TIdent?
      modifies this
      ensures Valid() && (name, Rest()) == QualifiedName(old(Cur()).name, old(Rest())[1..])
    {
      ghost var all := QualifiedName(Cur().name, Rest()[1..]);
      var t := Adv();
      name := t.name;
      if name == BACKSLASH && Cur().TIdent? {
        var next := Adv();
        name := name + next.name;
      }
      while Cur() == TIdent(BACKSLASH)
        invariant Valid() && all == NameTail(name, Rest())
        decreases |toks| - pos
      {
        var _ := Adv();
        name := name + BACKSLASH;
        if Cur().TIdent? {
          var next := Adv();
          name := name + next.name;
        }
      }
    }

    /** expect(k) with its error ignored. */
    method SkipIf(t: Tok)
      requires Valid() && t != TEOF
      modifies this
      ensures Valid() && pos >= old(pos) && Rest() == Skip(t, old(Rest()))
    {
      if Cur() == t {
        var _ := Adv();
      }
    }

    method ParsePostfixFrom(e0: Expr) returns (r: Option<Expr>)
      requires Valid()
      modifies this
      ensures Valid() && Did(PostfixLoop(consts, e0, old(Rest())), r)
      decreases |toks| - pos, 202
    {
      ghost var all := PostfixLoop(consts, e0, Rest());
      r := Some(e0);
      while Cur() in {TLBracket, TLParen, TArrow, TDoubleColon}
        invariant Valid() && pos >= old(pos) && r.Some?
        invariant all == PostfixLoop(consts, r.value, Rest())
        decreases |toks| - pos
      {
        if Cur() == TLBracket {
          r := ParseIndexTail(r.value);
        } else if Cur() == TLParen {
          r := ParseCallTail(r.value);
        } else if Cur() == TDoubleColon {
          r := ParseStaticTail(r.value);
        } else {
          r := ParseArrowTail(r.value);
        }
        if r.None? {
          return;
        }
      }
    }

    /** One postfix operator has been read: the rest of the chain starts from the new expression. */
    ghost predicate DidTail(res: Result, r: Option<Expr>)
      requires Valid()
      reads this
    {
      res == match r case None => None case Some(e) => PostfixLoop(consts, e, Rest())
    }

    method ParseIndexTail(e: Expr) returns (r: Option<Expr>)
      requires Valid() && Cur() == TLBracket
      modifies this
      ensures Valid() && (r.Some? ==> pos > old(pos)) && DidTail(PostfixLoop(consts, e, old(Rest())), r)
      decreases |toks| - pos, 150
    {
      hide ParseAt, ParseArgs;
      var _ := Adv();
      if Cur() == TRBracket {
        var _ := Adv();
        return Some(Index(e, NullLit));
      }
      var key := ParseExpr();
      if key.None? {
        return None;
      }
      SkipIf(TRBracket);
      r := Some(Index(e, key.value));
    }

    method ParseCallTail(e: Expr) returns (r: Option<Expr>)
      requires Valid() && Cur() == TLParen
      modifies this
      ensures Valid() && (r.Some? ==> pos > old(pos)) && DidTail(PostfixLoop(consts, e, old(Rest())), r)
      decreases |toks| - pos, 150
    {
      hide ParseAt, ParseArgs;
      var name := CalleeName(e);
      if name.None? {
        return None;
      }
      var _ := Adv();
      var args := ParseArgList();
      if args.None? {
        return None;
      }
      r := Some(Call(name.value, args.value));
    }

    method ParseArrowTail(e: Expr) returns (r: Option<Expr>)
      requires Valid() && Cur() == TArrow
      modifies this
      ensures Valid() && (r.Some? ==> pos > old(pos)) && DidTail(PostfixLoop(consts, e, old(Rest())), r)
      decreases |toks| - pos, 150
    {
      hide ParseAt, ParseArgs;
      var _ := Adv();
      if !Cur().TIdent? {
        return None;
      }
      var t := Adv();
      if Cur() != TLParen {
        return Some(Prop(e, t.name));
      }
      var _ := Adv();
      var args := ParseArgList();
      if args.None? {
        return None;
      }
      r := Some(Method(e, t.name, args.value));
    }

    method ParseStaticTail(e: Expr) returns (r: Option<Expr>)
      requires Valid() && Cur() == TDoubleColon
      modifies this
      ensures Valid() && (r.Some? ==> pos > old(pos)) && DidTail(PostfixLoop(consts, e, old(Rest())), r)
      decreases |toks| - pos, 150
    {
      hide ParseAt, ParseArgs, ClassName;
      var cls := ClassName(e);
      assert PostfixLoop(consts, e, Rest()) == StaticTail(consts, cls, Rest()[1..]);
      hide PostfixLoop;
      var _ := Adv();
      if Cur().TVar? {
        var t := Adv();
        return Some(Prop(Const(cls), "$" + t.name));
      }
      if Cur() == TClass {
        var _ := Adv();
        return Some(Str(cls));
      }
      if !Cur().TIdent? {
        return None;
      }
      var t := Adv();
      if Cur() != TLParen {
        return Some(ClassConst(cls, t.name));
      }
      var _ := Adv();
      var args := ParseArgList();
      if args.None? {
        return None;
      }
      r := Some(StaticCall(cls, t.name, args.value));
    }

    /** A successful parse of an argument list leaves the cursor at the specified rest. */
    ghost predicate DidArgs(res: Option<(Args, Toks)>, r: Option<Args>)
      requires Valid()
      reads this
    {
      match res
      case Some((args, rest)) => r == Some(args) && Rest() == rest
      case None => r.None?
    }

    /** parseArgs, after its opening parenthesis. */
    method ParseArgList() returns (r: Option<Args>)
      requires Valid()
      modifies this
      ensures Valid() && DidArgs(ParseArgs(consts, old(Rest())), r) && (r.Some? ==> pos >= old(pos))
      decreases |toks| - pos, 201
    {
      hide ParseAt;
      ghost var all := ArgLoop(consts, Rest());
      var args: seq<Expr> := [];
      while Cur() != TRParen && Cur() != TEOF
        invariant Valid() && pos >= old(pos)
        invariant all == Prepend(args, ArgLoop(consts, Rest()))
        decreases |toks| - pos
      {
        ghost var before := Rest();
        var a := ParseArgument();
        if a.None? {
          PrependNone(args);
          return None;
        }
        PrependSnoc(consts, args, a.value, before, Rest());
        args := args + [a.value];
        if Cur() != TComma {
          break;
        }
        var _ := Adv();
      }
      PrependEnd(args, Rest());
      SkipIf(TRParen);
      r := Some(ArgList(args));
    }

    method ParseArgument() returns (r: Option<Expr>)
      requires Valid()
      modifies this
      ensures Valid() && Did(ParseArg(consts, old(Rest())), r)
      decreases |toks| - pos, 190
    {
      hide ParseAt;
      if Cur() == TOp(BitAnd) {
        var _ := Adv();
        if !Cur().TVar? {
          return None;
        }
        var t := Adv();
        return Some(ByRef(t.name));
      }
      if Cur() == TIdent(DOTS) {
        var _ := Adv();
        r := ParseExpr();
        return if r.Some? then Some(Splat(r.value)) else None;
      }
      r := ParseExpr();
    }
  }

  /** The argument list that the slice of arguments stands for. */
  function ArgList(args: seq<Expr>): Args {
    if args == [] then NoArgs else MoreArgs(args[0], ArgList(args[1..]))
  }

  function Prepend(args: seq<Expr>, res: Option<(Args, Toks)>): Option<(Args, Toks)> {
    if args == [] then res else
    match Prepend(args[1..], res)
    case None => None
    case Some((rest, ts)) => Some((MoreArgs(args[0], rest), ts))
  }

  lemma {:induction false} PrependNone(args: seq<Expr>)
    ensures Prepend(args, None) == None
  {
    if args != [] {
      PrependNone(args[1..]);
    }
  }

  lemma {:induction false} PrependEnd(args: seq<Expr>, ts: Toks)
    ensures Prepend(args, Some((NoArgs, ts))) == Some((ArgList(args), ts))
  {
    if args != [] {
      PrependEnd(args[1..], ts);
    }
  }

  lemma {:induction false} PrependMore(args: seq<Expr>, a: Expr, res: Option<(Args, Toks)>)
    ensures Prepend(args + [a], res)
         == Prepend(args, match res case None => None case Some((rest, ts)) => Some((MoreArgs(a, rest), ts)))
  {
    if args == [] {
      assert args + [a] == [a];
    } else {
      assert (args + [a])[1..] == args[1..] + [a];
      PrependMore(args[1..], a, res);
    }
  }

  /** One more argument on the slice is one argument less to read. */
  lemma PrependSnoc(consts: Consts, args: seq<Expr>, a: Expr, ts: Toks, r: Toks)
    requires Ended(ts) && !ts[0].TRParen? && !ts[0].TEOF?
    requires ParseArg(consts, ts) == Some((a, r)) && Ended(r)
    ensures r[0].TComma? ==> Prepend(args, ArgLoop(consts, ts)) == Prepend(args + [a], ArgLoop(consts, r[1..]))
    ensures !r[0].TComma? ==> Prepend(args, ArgLoop(consts, ts)) == Some((ArgList(args + [a]), r))
  {
    hide ParseArg;
    if r[0].TComma? {
      PrependMore(args, a, ArgLoop(consts, r[1..]));
    } else {
      PrependMore(args, a, Some((NoArgs, r)));
      PrependEnd(args + [a], r);
    }
  }
}
