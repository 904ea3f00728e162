/**
 The precedence of the binary operators, rung by rung, without the parser's own table of
 levels: which of two operators takes the operand between them.
 */
module ParserLadder {
  import opened Wrappers
  import opened ParserSpec
  import opened ParserPrint

  /** From the loosest rung, 0, to the tightest, 8. */
  predicate OnRung(i: nat, op: BinOp) {
    match i
    case 0 => op == LogicalOr
    case 1 => op == LogicalAnd
    case 2 => op == BitOr
    case 3 => op == BitXor
    case 4 => op == BitAnd
    case 5 => op in {Equal, Identical, NotEqual, NotIdentical, Less, Greater, LessEq, GreaterEq}
    case 6 => op in {ShiftLeft, ShiftRight}
    case 7 => op in {Add, Sub, Concat}
    case 8 => op in {Mul, Div, Mod}
    case _ => false
  }

  lemma RungLevel(i: nat, op: BinOp)
    requires OnRung(i, op)
    ensures i < 9 && BinLevel(op) == i + 4
  {
  }

  /** An operand: in parentheses unless it is a unary or postfix expression. */
  function Operand(consts: Consts, e: Expr): Toks {
    Show(consts, e, UNARY)
  }

  // ----- from one level down to a lower one

  /** Tokens that are read as e at some level are read as e at every level below whose operators do not follow. */
  lemma {:induction false} Down(consts: Consts, high: nat, low: nat, ts: Toks, e: Expr, rest: Toks)
    requires low <= high <= UNARY && Ended(ts) && Ended(rest) && Joins(rest[0]) < (if low == 2 then 1 else low)
    requires ParseAt(consts, high, ts) == Some((e, rest))
    ensures ParseAt(consts, low, ts) == Some((e, rest))
    decreases high - low
  {
    hide ParseAt, ParseUnary, PostfixLoop, ParsePrimary;
    if low < high {
      OneDown(consts, high - 1, ts, e, rest);
      Down(consts, high - 1, low, ts, e, rest);
    }
  }

  lemma OneDown(consts: Consts, level: nat, ts: Toks, e: Expr, rest: Toks)
    requires level < UNARY && Ended(ts) && Ended(rest) && ParseAt(consts, level + 1, ts) == Some((e, rest))
    requires Joins(rest[0]) < (if level == 2 then 1 else level)
    ensures ParseAt(consts, level, ts) == Some((e, rest))
  {
    hide ParseUnary, PostfixLoop, ParsePrimary;
    if level < 4 {
      AtLow(consts, level, e, ts, rest);
    } else {
      AtBinary(consts, level, e, rest, ts);
    }
  }

  /** An operand in front of a token that is no postfix operator is read at every level above that token's. */
  lemma OperandReads(consts: Consts, e: Expr, level: nat, rest: Toks)
    requires Printable(consts, e) && 4 <= level <= UNARY && Ended(rest) && Joins(rest[0]) < level
    ensures ParseAt(consts, level, Operand(consts, e) + rest) == Some((e, rest))
  {
    hide ParseAt, Show;
    ShowParses(consts, e, UNARY, rest);
    Down(consts, UNARY, level, Operand(consts, e) + rest, e, rest);
  }

  /** An operand at the start of a binary level: the loop of that level goes on with it. */
  lemma OperandStarts(consts: Consts, e: Expr, op: BinOp, right: Toks)
    requires Printable(consts, e) && 4 <= BinLevel(op) < UNARY && Ended(right)
    ensures ParseAt(consts, BinLevel(op), Operand(consts, e) + ([TOp(op)] + right))
         == BinLoop(consts, BinLevel(op), e, [TOp(op)] + right)
  {
    hide ParseAt, Show, BinLoop;
    OperandReads(consts, e, BinLevel(op) + 1, [TOp(op)] + right);
    AtBinary(consts, BinLevel(op), e, [TOp(op)] + right, Operand(consts, e) + ([TOp(op)] + right));
  }

  lemma LoopEnds(consts: Consts, level: nat, e: Expr, rest: Toks)
    requires 4 <= level < UNARY && Ended(rest) && Joins(rest[0]) < level
    ensures BinLoop(consts, level, e, rest) == Some((e, rest))
  {
  }

  /** One operator between two operands, down to any lower level. */
  lemma PairReads(consts: Consts, a: Expr, op: BinOp, b: Expr, level: nat, rest: Toks)
    requires Printable(consts, a) && Printable(consts, b) && 4 <= level <= BinLevel(op) < UNARY
    requires Ended(rest) && Joins(rest[0]) < level
    ensures ParseAt(consts, level, Operand(consts, a) + ([TOp(op)] + (Operand(consts, b) + rest))) == Some((Binary(op, a, b), rest))
  {
    hide ParseAt, Show, BinLoop;
    var right := Operand(consts, b) + rest;
    var ts := Operand(consts, a) + ([TOp(op)] + right);
    OperandStarts(consts, a, op, right);
    OperandReads(consts, b, BinLevel(op) + 1, rest);
    AtOperator(consts, op, a, b, right, rest);
    LoopEnds(consts, BinLevel(op), Binary(op, a, b), rest);
    Down(consts, BinLevel(op), level, ts, Binary(op, a, b), rest);
  }

  /** The tokens of `a op1 b op2 c`. */
  function Three(consts: Consts, a: Expr, op1: BinOp, b: Expr, op2: BinOp, c: Expr): Toks {
    Operand(consts, a) + ([TOp(op1)] + (Operand(consts, b) + ([TOp(op2)] + (Operand(consts, c) + [TEOF]))))
  }

  /** Between operators of two rungs the tighter one takes the operand, whichever comes first. */
  lemma TighterTakes(consts: Consts, i: nat, loose: BinOp, j: nat, tight: BinOp, a: Expr, b: Expr, c: Expr)
    requires OnRung(i, loose) && OnRung(j, tight) && i < j
    requires Printable(consts, a) && Printable(consts, b) && Printable(consts, c)
    ensures ParseAt(consts, 0, Three(consts, a, loose, b, tight, c)) == Some((Binary(loose, a, Binary(tight, b, c)), [TEOF]))
    ensures ParseAt(consts, 0, Three(consts, a, tight, b, loose, c)) == Some((Binary(loose, Binary(tight, a, b), c), [TEOF]))
  {
    hide ParseAt, Show, BinLoop, BinLevel, OnRung;
    RungLevel(i, loose);
    RungLevel(j, tight);
    TightSecond(consts, loose, tight, a, b, c);
    TightFirst(consts, loose, tight, a, b, c);
  }

  lemma TightSecond(consts: Consts, loose: BinOp, tight: BinOp, a: Expr, b: Expr, c: Expr)
    requires 4 <= BinLevel(loose) < BinLevel(tight) < UNARY
    requires Printable(consts, a) && Printable(consts, b) && Printable(consts, c)
    ensures ParseAt(consts, 0, Three(consts, a, loose, b, tight, c)) == Some((Binary(loose, a, Binary(tight, b, c)), [TEOF]))
  {
    hide ParseAt, Show, BinLoop, BinLevel;
    var end := [TEOF];
    var right := Operand(consts, b) + ([TOp(tight)] + (Operand(consts, c) + end));
    PairReads(consts, b, tight, c, BinLevel(loose) + 1, end);
    OperandStarts(consts, a, loose, right);
    AtOperator(consts, loose, a, Binary(tight, b, c), right, end);
    var e := Binary(loose, a, Binary(tight, b, c));
    LoopEnds(consts, BinLevel(loose), e, end);
    Down(consts, BinLevel(loose), 0, Three(consts, a, loose, b, tight, c), e, end);
  }

  lemma TightFirst(consts: Consts, loose: BinOp, tight: BinOp, a: Expr, b: Expr, c: Expr)
    requires 4 <= BinLevel(loose) < BinLevel(tight) < UNARY
    requires Printable(consts, a) && Printable(consts, b) && Printable(consts, c)
    ensures ParseAt(consts, 0, Three(consts, a, tight, b, loose, c)) == Some((Binary(loose, Binary(tight, a, b), c), [TEOF]))
  {
    hide ParseAt, Show, BinLoop, BinLevel;
    var end := [TEOF];
    var right := Operand(consts, c) + end;
    var ts := Three(consts, a, tight, b, loose, c);
    var left := Binary(tight, a, b);
    LooseJoins(loose);
    PairReads(consts, a, tight, b, BinLevel(loose) + 1, [TOp(loose)] + right);
    AtBinary(consts, BinLevel(loose), left, [TOp(loose)] + right, ts);
    OperandReads(consts, c, BinLevel(loose) + 1, end);
    AtOperator(consts, loose, left, c, right, end);
    var e := Binary(loose, left, c);
    LoopEnds(consts, BinLevel(loose), e, end);
    Down(consts, BinLevel(loose), 0, ts, e, end);
  }

  lemma LooseJoins(op: BinOp)
    ensures Joins(TOp(op)) == BinLevel(op) && Joins(TEOF) == -1
  {
  }

  /** Operators of one rung associate to the left. */
  lemma SameRungLeft(consts: Consts, i: nat, op1: BinOp, op2: BinOp, a: Expr, b: Expr, c: Expr)
    requires OnRung(i, op1) && OnRung(i, op2)
    requires Printable(consts, a) && Printable(consts, b) && Printable(consts, c)
    ensures ParseAt(consts, 0, Three(consts, a, op1, b, op2, c)) == Some((Binary(op2, Binary(op1, a, b), c), [TEOF]))
  {
    hide ParseAt, Show, BinLoop, BinLevel, OnRung;
    RungLevel(i, op1);
    RungLevel(i, op2);
    var level, end := i + 4, [TEOF];
    var last := Operand(consts, c) + end;
    var e := Binary(op2, Binary(op1, a, b), c);
    FirstTwo(consts, level, a, op1, b, op2, last);
    LooseJoins(op2);
    OperandReads(consts, c, level + 1, end);
    AtOperator(consts, op2, Binary(op1, a, b), c, last, end);
    LoopEnds(consts, level, e, end);
    Down(consts, level, 0, Three(consts, a, op1, b, op2, c), e, end);
  }

  /** The loop of a level has taken two operands when it comes to the second operator. */
  lemma FirstTwo(consts: Consts, level: nat, a: Expr, op1: BinOp, b: Expr, op2: BinOp, last: Toks)
    requires level == BinLevel(op1) == BinLevel(op2) && 4 <= level < UNARY && Printable(consts, a) && Printable(consts, b) && Ended(last)
    ensures ParseAt(consts, level, Operand(consts, a) + ([TOp(op1)] + (Operand(consts, b) + ([TOp(op2)] + last))))
         == BinLoop(consts, level, Binary(op1, a, b), [TOp(op2)] + last)
  {
    hide ParseAt, Show, BinLoop, BinLevel;
    var mid := [TOp(op2)] + last;
    LooseJoins(op2);
    OperandStarts(consts, a, op1, Operand(consts, b) + mid);
    OperandReads(consts, b, level + 1, mid);
    AtOperator(consts, op1, a, b, Operand(consts, b) + mid, mid);
  }

  // ----- instanceof

  /** The tokens after an operand that is tested for a class. */
  function Tested(cls: string, rest: Toks): Toks {
    [TInstanceOf, TIdent(cls)] + rest
  }

  lemma TestReads(consts: Consts, x: Expr, cls: string, rest: Toks, ts: Toks)
    requires '\\' !in cls && Ended(ts) && Ended(rest) && rest[0] != TIdent(BACKSLASH)
    requires ParseAt(consts, 10, ts) == Some((x, Tested(cls, rest)))
    ensures ParseAt(consts, 9, ts) == Some((InstanceOf(x, cls), rest))
  {
    hide ParseAt;
    AtInstance(consts, x, cls, rest, ts);
  }

  lemma TestEnded(cls: string, rest: Toks)
    requires Ended(rest)
    ensures Ended(Tested(cls, rest)) && Joins(Tested(cls, rest)[0]) == 9
  {
  }

  /** `instanceof` tests what shifts, sums and products make. */
  lemma TestsArithmetic(consts: Consts, i: nat, op: BinOp, a: Expr, b: Expr, cls: string)
    requires OnRung(i, op) && i > 5 && Printable(consts, a) && Printable(consts, b) && '\\' !in cls
    ensures ParseAt(consts, 0, Operand(consts, a) + ([TOp(op)] + (Operand(consts, b) + Tested(cls, [TEOF]))))
         == Some((InstanceOf(Binary(op, a, b), cls), [TEOF]))
  {
    hide ParseAt, Show, BinLevel, OnRung, Tested;
    var end := [TEOF];
    RungLevel(i, op);
    LooseJoins(op);
    TestEnded(cls, end);
    var ts := Operand(consts, a) + ([TOp(op)] + (Operand(consts, b) + Tested(cls, end)));
    PairReads(consts, a, op, b, 10, Tested(cls, end));
    TestReads(consts, Binary(op, a, b), cls, end, ts);
    Down(consts, 9, 0, ts, InstanceOf(Binary(op, a, b), cls), end);
  }

  /** A test is an operand of the logical and bit operators. */
  lemma TestIsOperand(consts: Consts, i: nat, op: BinOp, a: Expr, cls: string, b: Expr)
    requires OnRung(i, op) && i < 5 && Printable(consts, a) && Printable(consts, b) && '\\' !in cls
    ensures ParseAt(consts, 0, Operand(consts, a) + Tested(cls, [TOp(op)] + (Operand(consts, b) + [TEOF])))
         == Some((Binary(op, InstanceOf(a, cls), b), [TEOF]))
  {
    hide ParseAt, Show, BinLevel, OnRung, BinLoop, Tested;
    var end := [TEOF];
    var right := Operand(consts, b) + end;
    var after := [TOp(op)] + right;
    var ts := Operand(consts, a) + Tested(cls, after);
    var level, test := BinLevel(op), InstanceOf(a, cls);
    RungLevel(i, op);
    LooseJoins(op);
    TestEnded(cls, after);
    OperandReads(consts, a, 10, Tested(cls, after));
    TestReads(consts, a, cls, after, ts);
    Down(consts, 9, level + 1, ts, test, after);
    AtBinary(consts, level, test, after, ts);
    OperandReads(consts, b, level + 1, end);
    AtOperator(consts, op, test, b, right, end);
    LoopEnds(consts, level, Binary(op, test, b), end);
    Down(consts, level, 0, ts, Binary(op, test, b), end);
  }

  /** But not of a comparison: that stays unread. */
  lemma TestIsNotCompared(consts: Consts, op: BinOp, a: Expr, cls: string, right: Toks)
    requires OnRung(5, op) && Printable(consts, a) && '\\' !in cls && Ended(right)
    ensures ParseAt(consts, 0, Operand(consts, a) + Tested(cls, [TOp(op)] + right)) == Some((InstanceOf(a, cls), [TOp(op)] + right))
  {
    hide ParseAt, Show, BinLevel, OnRung, Tested;
    var after := [TOp(op)] + right;
    var ts := Operand(consts, a) + Tested(cls, after);
    RungLevel(5, op);
    TestEnded(cls, after);
    OperandReads(consts, a, 10, Tested(cls, after));
    TestReads(consts, a, cls, after, ts);
    DownPast(consts, 9, op, ts, InstanceOf(a, cls), right);
  }

  lemma {:induction false} DownPast(consts: Consts, high: nat, op: BinOp, ts: Toks, e: Expr, right: Toks)
    requires high <= 9 && BinLevel(op) == 9 && Ended(ts) && Ended(right)
    requires ParseAt(consts, high, ts) == Some((e, [TOp(op)] + right))
    ensures ParseAt(consts, 0, ts) == Some((e, [TOp(op)] + right))
  {
    hide ParseAt, ParseUnary, PostfixLoop, ParsePrimary;
    if high > 0 {
      OnePast(consts, high - 1, op, ts, e, right);
      DownPast(consts, high - 1, op, ts, e, right);
    }
  }

  lemma OnePast(consts: Consts, level: nat, op: BinOp, ts: Toks, e: Expr, right: Toks)
    requires level < 9 == BinLevel(op) && Ended(ts) && Ended(right) && ParseAt(consts, level + 1, ts) == Some((e, [TOp(op)] + right))
    ensures ParseAt(consts, level, ts) == Some((e, [TOp(op)] + right))
  {
    hide ParseUnary, PostfixLoop, ParsePrimary, BinLevel;
  }
}
