/**
 Parser round trip: every grammar-shaped phrase, an expression with signs, printed as tokens without
 parentheses, parses back to the tree of the expression it means, using exactly its tokens and
 nodes and setting no error.
 */
module FinshRoundTrip {
  import opened FinshSyntax
  import opened FinshParser

  // ---- phrases ---------------------------------------------------------------------------

  /** Expressions as they are written: with a sign in front of any unary expression. */
  datatype Phrase =
    | Char(c: Byte)
    | Int(v: Word)
    | Long(v: Word)
    | Null
    | Str(s: string)
    | Name(id: string)
    | Unary(uop: UnOp, e: Phrase)
    | Minus(e: Phrase)
    | Plus(e: Phrase)
    | Binary(bop: BinOp, l: Phrase, r: Phrase)
    | Assign(l: Phrase, r: Phrase)
    | Call(f: Phrase, args: Phrases)

  datatype Phrases = Empty | Cons(head: Phrase, tail: Phrases)

  /** What a phrase means: -e is 0 - e with a long zero, +e is e. */
  function Meaning(e: Phrase): Expr {
    match e
    case Char(c) => Expr.Char(c)
    case Int(v) => Expr.Int(v)
    case Long(v) => Expr.Long(v)
    case Null => Expr.Null
    case Str(s) => Expr.Str(s)
    case Name(id) => Expr.Name(id)
    case Unary(op, a) => Expr.Unary(op, Meaning(a))
    case Minus(a) => Expr.Binary(Sub, Expr.Long(0), Meaning(a))
    case Plus(a) => Meaning(a)
    case Binary(op, l, r) => Expr.Binary(op, Meaning(l), Meaning(r))
    case Assign(l, r) => Expr.Assign(Meaning(l), Meaning(r))
    case Call(f, args) => Expr.Call(Meaning(f), Meanings(args))
  }

  function Meanings(es: Phrases): Exprs {
    if es.Empty? then Exprs.Empty else Exprs.Cons(Meaning(es.head), Meanings(es.tail))
  }

  predicate Known(ctx: Context, e: Phrase) {
    Resolved(ctx, Meaning(e))
  }

  predicate AllKnown(ctx: Context, es: Phrases) {
    AllResolved(ctx, Meanings(es))
  }

  function TreeOf(ctx: Context, e: Phrase): (n: Node)
    requires Known(ctx, e)
    ensures n.Node? && n.sibling == Nil
  {
    Tree(ctx, Meaning(e))
  }

  function TreesOf(ctx: Context, es: Phrases): Node
    requires AllKnown(ctx, es)
  {
    Trees(ctx, Meanings(es))
  }

  // ---- printing --------------------------------------------------------------------------

  function OpToken(op: BinOp): Token {
    match op
    case Add => TPlus
    case Sub => TMinus
    case Mul => TStar
    case Div => TSlash
    case Mod => TPercent
    case And => TAmp
    case Or => TBar
    case Xor => TCaret
    case Shl => TShl
    case Shr => TShr
  }

  function UnaryToken(op: UnOp): Token {
    match op
    case Complement => TTilde
    case GetValue => TStar
    case GetAddr => TAmp
    case PreInc => TInc
    case PostInc => TInc
    case PreDec => TDec
    case PostDec => TDec
  }

  predicate IsPostfix(op: UnOp) {
    op.PostInc? || op.PostDec?
  }

  function Print(e: Phrase): seq<Token> {
    match e
    case Char(c) => [TValueChar(c)]
    case Int(v) => [TValueInt(v)]
    case Long(v) => [TValueLong(v)]
    case Null => [TValueNull]
    case Str(s) => [TValueString(s)]
    case Name(id) => [TIdent(id)]
    case Unary(op, a) => if IsPostfix(op) then Print(a) + [UnaryToken(op)] else [UnaryToken(op)] + Print(a)
    case Minus(a) => [TMinus] + Print(a)
    case Plus(a) => [TPlus] + Print(a)
    case Binary(op, l, r) => Print(l) + [OpToken(op)] + Print(r)
    case Assign(l, r) => Print(l) + [TAssign] + Print(r)
    case Call(f, args) => Print(f) + [TLParen] + PrintArgs(args) + [TRParen]
  }

  function PrintArgs(es: Phrases): seq<Token> {
    if es.Empty? then []
    else if es.tail.Empty? then Print(es.head)
    else Print(es.head) + [TComma] + PrintArgs(es.tail)
  }

  /** Nodes a tree takes from the table. */
  function Size(e: Phrase): (r: nat)
    ensures r >= 1
  {
    match e
    case Unary(_, a) => 1 + Size(a)
    case Minus(a) => 2 + Size(a)
    case Plus(a) => Size(a)
    case Binary(_, l, r) => 1 + Size(l) + Size(r)
    case Assign(l, r) => 1 + Size(l) + Size(r)
    case Call(f, args) => 1 + Size(f) + SizeArgs(args)
    case _ => 1
  }

  function SizeArgs(es: Phrases): nat {
    if es.Empty? then 0 else Size(es.head) + SizeArgs(es.tail)
  }

  // ---- the grammar -----------------------------------------------------------------------

  /** Level of a binary operator: | is 0, * / % are 5. */
  function LevelOf(op: BinOp): (k: nat)
    ensures k <= 5
  {
    match op
    case Or => 0
    case Xor => 1
    case And => 2
    case Shl => 3
    case Shr => 3
    case Add => 4
    case Sub => 4
    case _ => 5
  }

  /** The places of the grammar an expression can stand in without parentheses: the binary
      levels 0 to 5, then casts and prefix operators (6), then postfix operators (7). */
  predicate Shaped(e: Phrase, level: nat) {
    match e
    case Unary(op, a) => if IsPostfix(op) then Shaped(a, 7) else level <= 6 && Shaped(a, 6)
    case Minus(a) => level <= 6 && Shaped(a, 6)
    case Plus(a) => level <= 6 && Shaped(a, 6)
    case Binary(op, l, r) =>
      level <= LevelOf(op) && Shaped(l, LevelOf(op)) && Shaped(r, LevelOf(op) + 1)
    case Assign(_, _) => false
    case Call(f, args) => Shaped(f, 7) && ShapedArgs(args)
    case _ => true
  }

  /** An assignment, right associative, or a binary expression. */
  predicate ShapedAssign(e: Phrase) {
    if e.Assign? then Shaped(e.l, 0) && ShapedAssign(e.r) else Shaped(e, 0)
  }

  predicate ShapedArgs(es: Phrases) {
    es.Cons? ==> ShapedAssign(es.head) && ShapedArgs(es.tail)
  }

  /** Would a parse at this level read on over t? */
  predicate Extends(level: nat, t: Token) {
    || t == TInc || t == TDec || t == TLParen
    || exists k :: level <= k <= 5 && OperatorAt(k, t).Some?
  }

  predicate Stops(level: nat, rest: seq<Token>) {
    rest == [] || !Extends(level, rest[0])
  }

  // ---- states ----------------------------------------------------------------------------

  /** The state right after reading the first token of v. */
  function Taken(p: Parse, v: seq<Token>, used: nat): Parse
    requires used <= p.free
  {
    if v == [] then Parse([], TEof, false, p.free - used, p.err)
    else Parse(v[1..], v[0], false, p.free - used, p.err)
  }

  /** p has v ahead of it, whether or not the first token is to be replayed. */
  predicate Ahead(p: Parse, v: seq<Token>) {
    Next(p) == Taken(p, v, 0)
  }

  /** The state after an expression: v ahead, its first token replayed, used nodes gone. */
  function At(p: Parse, v: seq<Token>, used: nat): (q: Parse)
    requires used <= p.free
    ensures Ahead(q, v) && q.free == p.free - used && q.err == p.err
  {
    Replay(Taken(p, v, used))
  }

  lemma AtAt(p: Parse, u: seq<Token>, v: seq<Token>, m: nat, n: nat)
    requires m + n <= p.free
    ensures At(At(p, u, m), v, n) == At(p, v, m + n)
  {
  }

  lemma {:induction false} OperatorLevel(op: BinOp, k: nat)
    ensures OperatorAt(k, OpToken(op)) == if k == LevelOf(op) then Some(op) else None
  {
  }

  // ---- the round trip --------------------------------------------------------------------

  /** A loop that does not continue returns what it has. */
  lemma LoopStops(ctx: Context, level: nat, acc: Node, p: Parse, rest: seq<Token>)
    requires level <= 5 && Ahead(p, rest) && Stops(level, rest) && p == At(p, rest, 0)
    ensures LevelLoop(ctx, level, acc, p) == (acc, p)
  {
  }

  lemma StopsHigher(level: nat, higher: nat, rest: seq<Token>)
    requires level <= higher && Stops(level, rest)
    ensures Stops(higher, rest)
  {
  }

  /** The claim at a binary level, before the loop has looked at what follows. */
  ghost predicate ParsesAt(ctx: Context, level: nat, e: Phrase, p: Parse, rest: seq<Token>)
    requires level <= 5 && Known(ctx, e) && Size(e) <= p.free
  {
    ProcLevel(ctx, level, p) == LevelLoop(ctx, level, TreeOf(ctx, e), At(p, rest, Size(e)))
  }

  ghost predicate CastParses(ctx: Context, e: Phrase, p: Parse, rest: seq<Token>)
    requires Known(ctx, e) && Size(e) <= p.free
  {
    ProcCast(ctx, p) == (TreeOf(ctx, e), At(p, rest, Size(e)))
  }

  lemma AfterToken(p: Parse, t: Token, v: seq<Token>, n: nat)
    requires n <= p.free
    ensures var q := Taken(p, [t] + v, n);
            Ahead(q, v) && q.free == p.free - n && q.cur == t && q == Next(At(p, [t] + v, n))
  {
  }

  lemma AtTaken(p: Parse, u: seq<Token>, v: seq<Token>, m: nat, n: nat)
    requires m + n < p.free
    ensures var q := At(Taken(p, u, m), v, n);
            q.free > 0 && q.(free := q.free - 1) == At(p, v, m + n + 1)
  {
  }

  /** What a binary node passes on to its parts. */
  lemma BinaryParts(ctx: Context, e: Phrase, level: nat, rest: seq<Token>)
    requires e.Binary? && LevelOf(e.bop) == level && Shaped(e, level) && Known(ctx, e)
    ensures Shaped(e.l, level) && Shaped(e.r, level + 1) && Known(ctx, e.l) && Known(ctx, e.r)
    ensures Size(e) == Size(e.l) + Size(e.r) + 1
    ensures Print(e) + rest == Print(e.l) + ([OpToken(e.bop)] + (Print(e.r) + rest))
    ensures TreeOf(ctx, e) == SysNode(SysBin(e.bop), TreeOf(ctx, e.l), TreeOf(ctx, e.r))
  {
  }

  /** The operand position of a level: the next level up, complete. */
  lemma {:induction false} OperandParses(ctx: Context, level: nat, e: Phrase, p: Parse, rest: seq<Token>)
    requires level <= 5 && Shaped(e, level + 1) && Known(ctx, e) && Size(e) <= p.free
    requires Ahead(p, Print(e) + rest) && Stops(level + 1, rest)
    ensures (if level == 5 then ProcCast(ctx, p) else ProcLevel(ctx, level + 1, p))
            == (TreeOf(ctx, e), At(p, rest, Size(e)))
    decreases e, 22 - 2 * level
  {
    hide *;
    if level == 5 {
      CastRoundTrip(ctx, e, p, rest);
      CastIs(ctx, e, p, rest);
    } else {
      StopsHigher(level + 1, level + 2, rest);
      LevelRoundTrip(ctx, level + 1, e, p, rest);
      LevelIs(ctx, level + 1, e, p, rest);
      AtAt(p, rest, rest, Size(e), 0);
      LoopStops(ctx, level + 1, TreeOf(ctx, e), At(p, rest, Size(e)), rest);
    }
  }

  lemma LevelIs(ctx: Context, level: nat, e: Phrase, p: Parse, rest: seq<Token>)
    requires level <= 5 && Known(ctx, e) && Size(e) <= p.free
    ensures ParsesAt(ctx, level, e, p, rest)
            <==> ProcLevel(ctx, level, p) == LevelLoop(ctx, level, TreeOf(ctx, e), At(p, rest, Size(e)))
  {
  }

  lemma CastIs(ctx: Context, e: Phrase, p: Parse, rest: seq<Token>)
    requires Known(ctx, e) && Size(e) <= p.free
    ensures CastParses(ctx, e, p, rest) <==> ProcCast(ctx, p) == (TreeOf(ctx, e), At(p, rest, Size(e)))
  {
  }

  lemma {:induction false} LevelRoundTrip(ctx: Context, level: nat, e: Phrase, p: Parse, rest: seq<Token>)
    requires level <= 5 && Shaped(e, level) && Known(ctx, e) && Size(e) <= p.free
    requires Ahead(p, Print(e) + rest) && Stops(level + 1, rest)
    ensures ParsesAt(ctx, level, e, p, rest)
    decreases e, 23 - 2 * level
  {
    if e.Binary? && LevelOf(e.bop) == level {
      var right := Print(e.r) + rest;
      var after := [OpToken(e.bop)] + right;
      BinaryParts(ctx, e, level, rest);
      OperatorStops(e.bop, right);
      LevelRoundTrip(ctx, level, e.l, p, after);
      AfterToken(p, OpToken(e.bop), right, Size(e.l));
      OperandParses(ctx, level, e.r, Taken(p, after, Size(e.l)), rest);
      BinaryParses(ctx, level, e, p, rest);
    } else {
      ShapedHigher(e, level);
      OperandParses(ctx, level, e, p, rest);
      LevelStarts(ctx, level, TreeOf(ctx, e), p, At(p, rest, Size(e)));
      LevelIs(ctx, level, e, p, rest);
    }
  }

  lemma TakenIsAhead(p: Parse, v: seq<Token>, n: nat)
    requires v != [] && n <= p.free
    ensures Ahead(Taken(p, v, n), v[1..])
  {
  }

  /** A level is its operand position and then its loop. */
  lemma LevelStarts(ctx: Context, level: nat, first: Node, p: Parse, p1: Parse)
    requires level <= 5
    requires (if level == 5 then ProcCast(ctx, p) else ProcLevel(ctx, level + 1, p)) == (first, p1)
    ensures ProcLevel(ctx, level, p) == LevelLoop(ctx, level, first, p1)
  {
  }

  lemma BinaryParses(ctx: Context, level: nat, e: Phrase, p: Parse, rest: seq<Token>)
    requires level <= 5 && e.Binary? && LevelOf(e.bop) == level && Shaped(e, level)
    requires Known(ctx, e) && Size(e) <= p.free
    requires var after := [OpToken(e.bop)] + (Print(e.r) + rest);
             var p2 := Taken(p, after, Size(e.l));
             && ParsesAt(ctx, level, e.l, p, after)
             && (if level == 5 then ProcCast(ctx, p2) else ProcLevel(ctx, level + 1, p2))
                == (TreeOf(ctx, e.r), At(p2, rest, Size(e.r)))
    ensures ParsesAt(ctx, level, e, p, rest)
  {
    hide *;
    var right := Print(e.r) + rest;
    var after := [OpToken(e.bop)] + right;
    BinaryParts(ctx, e, level, rest);
    var p2 := Taken(p, after, Size(e.l));
    AfterToken(p, OpToken(e.bop), right, Size(e.l));
    LevelIs(ctx, level, e.l, p, after);
    LevelIs(ctx, level, e, p, rest);
    OperatorLevel(e.bop, level);
    AtTaken(p, after, rest, Size(e.l), Size(e.r));
    LoopTakes(ctx, level, e.bop, TreeOf(ctx, e.l), TreeOf(ctx, e.r), At(p, after, Size(e.l)), p2, At(p2, rest, Size(e.r)));
  }

  /** One turn of the loop over an operator of its level. */
  lemma LoopTakes(ctx: Context, level: nat, op: BinOp, acc: Node, operand: Node, p: Parse, p1: Parse, p2: Parse)
    requires level <= 5 && OperatorAt(level, p1.cur) == Some(op)
    requires Next(p) == p1 && acc.Node? && operand.Node? && p2.free > 0
    requires (if level == 5 then ProcCast(ctx, p1) else ProcLevel(ctx, level + 1, p1)) == (operand, p2)
    ensures LevelLoop(ctx, level, acc, p)
            == LevelLoop(ctx, level, SysNode(SysBin(op), acc, operand), p2.(free := p2.free - 1))
  {
    hide ProcLevel, ProcCast, OperatorAt, Next;
  }

  lemma ShapedHigher(e: Phrase, level: nat)
    requires level <= 5 && Shaped(e, level) && !(e.Binary? && LevelOf(e.bop) == level)
    ensures Shaped(e, level + 1)
  {
  }

  /** After an operator of one level, no higher level reads on. */
  lemma OperatorStops(op: BinOp, right: seq<Token>)
    ensures Stops(LevelOf(op) + 1, [OpToken(op)] + right)
  {
  }

  // ---- prefix operators ------------------------------------------------------------------

  predicate LeafToken(t: Token) {
    t.TValueChar? || t.TValueInt? || t.TValueLong? || t.TValueString? || t.TValueNull? || t.TIdent?
  }

  lemma {:induction false} FirstToken(e: Phrase)
    requires Shaped(e, 6)
    ensures Print(e) != []
    ensures if e.Unary? && !IsPostfix(e.uop) then Print(e)[0] == UnaryToken(e.uop)
            else if e.Minus? then Print(e)[0] == TMinus
            else if e.Plus? then Print(e)[0] == TPlus
            else LeafToken(Print(e)[0])
    decreases e
  {
    match e {
      case Unary(op, a) =>
        if IsPostfix(op) {
          FirstToken(a);
        }
      case Call(f, args) => FirstToken(f);
      case _ =>
    }
  }

  lemma PrefixLevel(op: UnOp)
    requires !IsPostfix(op)
    ensures PrefixOf(UnaryToken(op)) == Some(op)
    ensures UnaryToken(op) != TPlus && UnaryToken(op) != TMinus && UnaryToken(op) != TLParen
  {
  }

  /** Without a leading parenthesis a cast expression is a unary expression. */
  lemma CastIsUnary(ctx: Context, p: Parse)
    requires Next(p).cur != TLParen
    ensures ProcCast(ctx, p) == ProcUnary(ctx, Replay(Next(p)))
  {
  }

  lemma UnaryTakesPrefix(ctx: Context, op: UnOp, operand: Node, p: Parse, p1: Parse, p2: Parse)
    requires Next(p) == p1 && PrefixOf(p1.cur) == Some(op) && p1.cur != TPlus && p1.cur != TMinus
    requires ProcCast(ctx, p1) == (operand, p2) && operand.Node? && p2.free > 0
    ensures ProcUnary(ctx, p) == (SysNode(SysUn(op), operand, Nil), p2.(free := p2.free - 1))
  {
  }

  /** A minus takes its operand, then a zero and an operator node from the table. */
  lemma UnaryTakesMinus(ctx: Context, operand: Node, p: Parse, p1: Parse, p2: Parse)
    requires Next(p) == p1 && p1.cur == TMinus && ProcCast(ctx, p1) == (operand, p2) && p2.free > 1
    ensures ProcUnary(ctx, p) == (SysNode(SysBin(Sub), LeafNode(ValueLong(0)), operand), p2.(free := p2.free - 2))
  {
  }

  lemma UnaryTakesPlus(ctx: Context, p: Parse, p1: Parse)
    requires Next(p) == p1 && p1.cur == TPlus
    ensures ProcUnary(ctx, p) == ProcCast(ctx, p1)
  {
  }

  /** What a sign passes on to its operand. */
  lemma SignParts(ctx: Context, e: Phrase, rest: seq<Token>)
    requires (e.Minus? || e.Plus?) && Shaped(e, 6) && Known(ctx, e)
    ensures Shaped(e.e, 6) && Known(ctx, e.e) && Size(e) == Size(e.e) + (if e.Minus? then 2 else 0)
    ensures Print(e) + rest == [if e.Minus? then TMinus else TPlus] + (Print(e.e) + rest)
    ensures TreeOf(ctx, e) == if e.Minus? then SysNode(SysBin(Sub), LeafNode(ValueLong(0)), TreeOf(ctx, e.e)) else TreeOf(ctx, e.e)
  {
    if e.Minus? {
      assert Tree(ctx, Meaning(e)) == SysNode(SysBin(Sub), Tree(ctx, Expr.Long(0)), Tree(ctx, Meaning(e.e)));
    }
  }

  lemma AtTakenTwo(p: Parse, u: seq<Token>, v: seq<Token>, n: nat)
    requires n + 1 < p.free
    ensures var q := At(Taken(p, u, 0), v, n); q.free > 1 && q.(free := q.free - 2) == At(p, v, n + 2)
    ensures At(Taken(p, u, 0), v, n) == At(p, v, n)
  {
  }

  lemma AtTakenNone(p: Parse, u: seq<Token>, v: seq<Token>, n: nat)
    requires n <= p.free
    ensures At(Taken(p, u, 0), v, n) == At(p, v, n)
  {
  }

  lemma UnaryIsPostfix(ctx: Context, p: Parse)
    requires LeafToken(Next(p).cur)
    ensures ProcUnary(ctx, p) == ProcPostfix(ctx, Replay(Next(p)))
  {
  }

  /** What a prefix operator passes on to its operand. */
  lemma PrefixParts(ctx: Context, e: Phrase, rest: seq<Token>)
    requires e.Unary? && !IsPostfix(e.uop) && Shaped(e, 6) && Known(ctx, e)
    ensures Shaped(e.e, 6) && Known(ctx, e.e) && Size(e) == Size(e.e) + 1
    ensures Print(e) + rest == [UnaryToken(e.uop)] + (Print(e.e) + rest)
    ensures TreeOf(ctx, e) == SysNode(SysUn(e.uop), TreeOf(ctx, e.e), Nil)
  {
  }

  lemma AheadReplayed(p: Parse, v: seq<Token>)
    requires Ahead(p, v)
    ensures Replay(Next(p)) == At(p, v, 0) && Next(At(p, v, 0)) == Next(p) == Taken(p, v, 0)
  {
  }

  lemma {:induction false} CastRoundTrip(ctx: Context, e: Phrase, p: Parse, rest: seq<Token>)
    requires Shaped(e, 6) && Known(ctx, e) && Size(e) <= p.free
    requires Ahead(p, Print(e) + rest) && Stops(6, rest)
    ensures CastParses(ctx, e, p, rest)
    decreases e, 4
  {
    hide *;
    var v := Print(e) + rest;
    FirstToken(e);
    AheadReplayed(p, v);
    TakenCur(p, v);
    CastIs(ctx, e, p, rest);
    if e.Unary? && !IsPostfix(e.uop) {
      PrefixLevel(e.uop);
      CastIsUnary(ctx, p);
      PrefixParts(ctx, e, rest);
      var p1 := Taken(p, v, 0);
      AfterToken(p, UnaryToken(e.uop), Print(e.e) + rest, 0);
      CastRoundTrip(ctx, e.e, p1, rest);
      CastIs(ctx, e.e, p1, rest);
      AtTaken(p, v, rest, 0, Size(e.e));
      UnaryTakesPrefix(ctx, e.uop, TreeOf(ctx, e.e), At(p, v, 0), p1, At(p1, rest, Size(e.e)));
    } else if e.Minus? || e.Plus? {
      SignRoundTrip(ctx, e, p, rest);
    } else {
      PlainRoundTrip(ctx, e, p, rest);
    }
  }

  /** Without a prefix operator or a sign a cast expression is a postfix expression. */
  lemma {:induction false} PlainRoundTrip(ctx: Context, e: Phrase, p: Parse, rest: seq<Token>)
    requires Shaped(e, 6) && Known(ctx, e) && Size(e) <= p.free && !(e.Unary? && !IsPostfix(e.uop)) && !e.Minus? && !e.Plus?
    requires Ahead(p, Print(e) + rest) && Stops(6, rest)
    ensures CastParses(ctx, e, p, rest)
    decreases e, 3
  {
    hide *;
    var v := Print(e) + rest;
    FirstToken(e);
    AheadReplayed(p, v);
    TakenCur(p, v);
    CastIs(ctx, e, p, rest);
    LeafTokenIsNoParen(Print(e)[0]);
    CastIsUnary(ctx, p);
    var q := At(p, v, 0);
    UnaryIsPostfix(ctx, q);
    NotPrefixIsPostfix(e);
    PostfixRoundTrip(ctx, e, q, rest);
    PostfixIs(ctx, e, q, rest);
    AtAt(p, v, rest, 0, Size(e));
    AtAt(p, rest, rest, Size(e), 0);
    PostfixStops(ctx, TreeOf(ctx, e), At(p, rest, Size(e)), rest);
  }

  lemma {:induction false} SignRoundTrip(ctx: Context, e: Phrase, p: Parse, rest: seq<Token>)
    requires (e.Minus? || e.Plus?) && Shaped(e, 6) && Known(ctx, e) && Size(e) <= p.free
    requires Ahead(p, Print(e) + rest) && Stops(6, rest)
    ensures CastParses(ctx, e, p, rest)
    decreases e, 2
  {
    hide *;
    var t := if e.Minus? then TMinus else TPlus;
    var w := Print(e.e) + rest;
    var v := [t] + w;
    SignParts(ctx, e, rest);
    AheadReplayed(p, v);
    TakenCur(p, v);
    CastIsUnary(ctx, p);
    var p1 := Taken(p, v, 0);
    AfterToken(p, t, w, 0);
    CastRoundTrip(ctx, e.e, p1, rest);
    CastIs(ctx, e.e, p1, rest);
    CastIs(ctx, e, p, rest);
    if e.Minus? {
      AtTakenTwo(p, v, rest, Size(e.e));
      UnaryTakesMinus(ctx, TreeOf(ctx, e.e), At(p, v, 0), p1, At(p1, rest, Size(e.e)));
    } else {
      AtTakenNone(p, v, rest, Size(e.e));
      UnaryTakesPlus(ctx, At(p, v, 0), p1);
    }
  }

  lemma TakenCur(p: Parse, v: seq<Token>)
    ensures v != [] ==> Taken(p, v, 0).cur == v[0]
  {
  }

  lemma LeafTokenIsNoParen(t: Token)
    requires LeafToken(t)
    ensures t != TLParen
  {
  }

  lemma NotPrefixIsPostfix(e: Phrase)
    requires Shaped(e, 6) && !(e.Unary? && !IsPostfix(e.uop)) && !e.Minus? && !e.Plus?
    ensures Shaped(e, 7)
  {
  }

  // ---- postfix operators and calls -------------------------------------------------------

  lemma PostfixStops(ctx: Context, acc: Node, p: Parse, rest: seq<Token>)
    requires p == At(p, rest, 0) && Stops(6, rest)
    ensures PostfixLoop(ctx, acc, p) == (acc, p)
  {
  }

  /** The loop only sees the next token. */
  lemma SamePostfix(ctx: Context, acc: Node, p: Parse, q: Parse)
    requires Next(p) == Next(q)
    ensures PostfixLoop(ctx, acc, p) == PostfixLoop(ctx, acc, q)
  {
  }

  lemma PostfixTakesStep(ctx: Context, op: UnOp, acc: Node, p: Parse, p1: Parse)
    requires IsPostfix(op) && Next(p) == p1 && p1.cur == UnaryToken(op) && acc.Node? && p1.free > 0
    ensures PostfixLoop(ctx, acc, p)
            == PostfixLoop(ctx, SysNode(SysUn(op), acc, Nil), p1.(free := p1.free - 1))
  {
    hide ProcParams, Match, Next;
  }

  lemma PostfixTakesEmptyCall(ctx: Context, acc: Node, p: Parse, p1: Parse, p2: Parse)
    requires Next(p) == p1 && p1.cur == TLParen && acc.Node?
    requires Next(p1) == p2 && p2.cur == TRParen && p2.free > 0
    ensures PostfixLoop(ctx, acc, p)
            == PostfixLoop(ctx, SysNode(SysFunc, acc, Nil), p2.(free := p2.free - 1))
  {
    hide ProcParams, Match, Next, Replay;
  }

  lemma PostfixTakesCall(ctx: Context, acc: Node, params: Node, p: Parse, p1: Parse, p2: Parse, p3: Parse, p4: Parse)
    requires Next(p) == p1 && p1.cur == TLParen && acc.Node?
    requires Next(p1) == p2 && p2.cur != TRParen
    requires ProcParams(ctx, Replay(p2)) == (params, p3) && Match(p3, TRParen) == p4 && p4.free > 0
    ensures PostfixLoop(ctx, acc, p)
            == PostfixLoop(ctx, SysNode(SysFunc, acc, params), p4.(free := p4.free - 1))
  {
    hide ProcParams, Match, Next, Replay;
  }

  predicate IsLeaf(e: Phrase) {
    e.Char? || e.Int? || e.Long? || e.Null? || e.Str? || e.Name?
  }

  lemma PrimaryTakesLeaf(ctx: Context, e: Phrase, p: Parse, rest: seq<Token>)
    requires IsLeaf(e) && Known(ctx, e) && p.free > 0 && Ahead(p, Print(e) + rest)
    ensures ProcPrimary(ctx, p) == (TreeOf(ctx, e), Taken(p, Print(e) + rest, 1))
  {
  }

  lemma PostfixStarts(ctx: Context, first: Node, p: Parse, p1: Parse)
    requires ProcPrimary(ctx, p) == (first, p1)
    ensures ProcPostfix(ctx, p) == PostfixLoop(ctx, first, p1)
  {
  }

  /** The claim for postfix expressions, whatever follows. */
  ghost predicate PostfixParses(ctx: Context, e: Phrase, p: Parse, rest: seq<Token>)
    requires Known(ctx, e) && Size(e) <= p.free
  {
    ProcPostfix(ctx, p) == PostfixLoop(ctx, TreeOf(ctx, e), At(p, rest, Size(e)))
  }

  lemma PostfixIs(ctx: Context, e: Phrase, p: Parse, rest: seq<Token>)
    requires Known(ctx, e) && Size(e) <= p.free
    ensures PostfixParses(ctx, e, p, rest)
            <==> ProcPostfix(ctx, p) == PostfixLoop(ctx, TreeOf(ctx, e), At(p, rest, Size(e)))
  {
  }

  lemma StepParts(ctx: Context, e: Phrase, rest: seq<Token>)
    requires e.Unary? && IsPostfix(e.uop) && Known(ctx, e)
    ensures Known(ctx, e.e) && Size(e) == Size(e.e) + 1 && (Shaped(e, 7) ==> Shaped(e.e, 7))
    ensures Print(e) + rest == Print(e.e) + ([UnaryToken(e.uop)] + rest)
    ensures TreeOf(ctx, e) == SysNode(SysUn(e.uop), TreeOf(ctx, e.e), Nil)
  {
  }

  lemma CallParts(ctx: Context, e: Phrase, rest: seq<Token>)
    requires e.Call? && Shaped(e, 7) && Known(ctx, e)
    ensures Shaped(e.f, 7) && ShapedArgs(e.args) && Known(ctx, e.f) && AllKnown(ctx, e.args)
    ensures Size(e) == Size(e.f) + SizeArgs(e.args) + 1
    ensures Print(e) + rest == Print(e.f) + ([TLParen] + (PrintArgs(e.args) + ([TRParen] + rest)))
    ensures TreeOf(ctx, e) == SysNode(SysFunc, TreeOf(ctx, e.f), TreesOf(ctx, e.args))
  {
  }

  lemma {:induction false} PostfixRoundTrip(ctx: Context, e: Phrase, p: Parse, rest: seq<Token>)
    requires Shaped(e, 7) && Known(ctx, e) && Size(e) <= p.free
    requires Ahead(p, Print(e) + rest)
    ensures PostfixParses(ctx, e, p, rest)
    decreases e, 2
  {
    if e.Unary? {
      ShapedPostfix(e);
      StepParts(ctx, e, rest);
      PostfixRoundTrip(ctx, e.e, p, [UnaryToken(e.uop)] + rest);
      StepParses(ctx, e, p, rest);
    } else if e.Call? {
      CallParts(ctx, e, rest);
      PostfixRoundTrip(ctx, e.f, p, [TLParen] + (PrintArgs(e.args) + ([TRParen] + rest)));
      CallRoundTrip(ctx, e, p, rest);
    } else {
      ShapedPostfix(e);
      LeafParses(ctx, e, p, rest);
    }
  }

  lemma ShapedPostfix(e: Phrase)
    requires Shaped(e, 7)
    ensures if e.Unary? then IsPostfix(e.uop) else IsLeaf(e) || e.Call?
  {
  }

  lemma LeafParses(ctx: Context, e: Phrase, p: Parse, rest: seq<Token>)
    requires IsLeaf(e) && Known(ctx, e) && Size(e) <= p.free && Ahead(p, Print(e) + rest)
    ensures PostfixParses(ctx, e, p, rest)
  {
    hide TreeOf, PostfixLoop, ProcPrimary, ProcPostfix, Known;
    PrimaryTakesLeaf(ctx, e, p, rest);
    var p1 := Taken(p, Print(e) + rest, 1);
    PostfixStarts(ctx, TreeOf(ctx, e), p, p1);
    SamePostfix(ctx, TreeOf(ctx, e), p1, At(p, rest, 1));
  }

  lemma {:induction false} CallRoundTrip(ctx: Context, e: Phrase, p: Parse, rest: seq<Token>)
    requires e.Call? && Shaped(e, 7) && Known(ctx, e) && Size(e) <= p.free
    requires PostfixParses(ctx, e.f, p, [TLParen] + (PrintArgs(e.args) + ([TRParen] + rest)))
    ensures PostfixParses(ctx, e, p, rest)
    decreases e, 1
  {
    hide *;
    CallParts(ctx, e, rest);
    var inner, w := PrintArgs(e.args) + ([TRParen] + rest), [TRParen] + rest;
    var p1 := Taken(p, [TLParen] + inner, Size(e.f));
    AfterToken(p, TLParen, inner, Size(e.f));
    if e.args.Cons? {
      ArgsRoundTrip(ctx, e.args, At(p1, inner, 0), rest);
      FirstOfArgs(e.args);
      AtAt(p1, inner, w, 0, SizeArgs(e.args));
      CallParses(ctx, e, p, rest);
    } else {
      NoArgs();
      assert PrintArgs(e.args) + w == w;
      EmptyCallParses(ctx, e, p, rest);
    }
  }

  lemma NoArgs()
    ensures PrintArgs(Phrases.Empty) == [] && SizeArgs(Phrases.Empty) == 0
  {
  }

  lemma StepParses(ctx: Context, e: Phrase, p: Parse, rest: seq<Token>)
    requires e.Unary? && IsPostfix(e.uop) && Known(ctx, e) && Size(e) <= p.free
    requires PostfixParses(ctx, e.e, p, [UnaryToken(e.uop)] + rest)
    ensures PostfixParses(ctx, e, p, rest)
  {
    hide *;
    StepParts(ctx, e, rest);
    var v := [UnaryToken(e.uop)] + rest;
    PostfixIs(ctx, e.e, p, v);
    PostfixIs(ctx, e, p, rest);
    AfterToken(p, UnaryToken(e.uop), rest, Size(e.e));
    var p1 := Taken(p, v, Size(e.e));
    PostfixTakesStep(ctx, e.uop, TreeOf(ctx, e.e), At(p, v, Size(e.e)), p1);
    SameAfter(ctx, TreeOf(ctx, e), p, UnaryToken(e.uop), rest, Size(e.e));
  }

  /** After one more node, whether or not the next token is marked for replay. */
  lemma SameAfter(ctx: Context, acc: Node, p: Parse, t: Token, rest: seq<Token>, n: nat)
    requires n < p.free
    ensures var p1 := Taken(p, [t] + rest, n);
            p1.free > 0 && PostfixLoop(ctx, acc, p1.(free := p1.free - 1)) == PostfixLoop(ctx, acc, At(p, rest, n + 1))
  {
    assert ([t] + rest)[1..] == rest;
    var p1 := Taken(p, [t] + rest, n);
    SamePostfix(ctx, acc, p1.(free := p1.free - 1), At(p, rest, n + 1));
  }

  lemma EmptyCallParses(ctx: Context, e: Phrase, p: Parse, rest: seq<Token>)
    requires e.Call? && e.args.Empty? && Shaped(e, 7) && Known(ctx, e) && Size(e) <= p.free
    requires PostfixParses(ctx, e.f, p, [TLParen] + ([TRParen] + rest))
    ensures PostfixParses(ctx, e, p, rest)
  {
    hide *;
    CallParts(ctx, e, rest);
    NoArgs();
    TreesOfNone(ctx);
    var w := [TRParen] + rest;
    var v := [TLParen] + w;
    var p1 := Taken(p, v, Size(e.f));
    PostfixIs(ctx, e.f, p, v);
    PostfixIs(ctx, e, p, rest);
    AfterToken(p, TLParen, w, Size(e.f));
    var p2 := Taken(p1, w, 0);
    AfterToken(p1, TRParen, rest, 0);
    PostfixTakesEmptyCall(ctx, TreeOf(ctx, e.f), At(p, v, Size(e.f)), p1, p2);
    SameAfter(ctx, TreeOf(ctx, e), p1, TRParen, rest, 0);
    AtOfTaken(p, v, rest, Size(e.f), 1);
  }

  lemma TreesOfNone(ctx: Context)
    ensures AllKnown(ctx, Phrases.Empty) && TreesOf(ctx, Phrases.Empty) == Nil
  {
  }

  lemma AtOfTaken(p: Parse, u: seq<Token>, v: seq<Token>, m: nat, n: nat)
    requires m + n <= p.free
    ensures Taken(p, u, m).free >= n && At(Taken(p, u, m), v, n) == At(p, v, m + n)
  {
  }

  lemma CallParses(ctx: Context, e: Phrase, p: Parse, rest: seq<Token>)
    requires e.Call? && e.args.Cons? && Shaped(e, 7) && Known(ctx, e) && Size(e) <= p.free
    requires AllKnown(ctx, e.args) && Size(e) == Size(e.f) + SizeArgs(e.args) + 1
    requires var inner := PrintArgs(e.args) + ([TRParen] + rest);
             var p1 := Taken(p, [TLParen] + inner, Size(e.f));
             && PostfixParses(ctx, e.f, p, [TLParen] + inner)
             && inner[0] != TRParen && p1.free >= SizeArgs(e.args)
             && ProcParams(ctx, At(p1, inner, 0)) == (TreesOf(ctx, e.args), At(p1, [TRParen] + rest, SizeArgs(e.args)))
    ensures PostfixParses(ctx, e, p, rest)
  {
    hide *;
    CallParts(ctx, e, rest);
    var n := SizeArgs(e.args);
    var inner, w := PrintArgs(e.args) + ([TRParen] + rest), [TRParen] + rest;
    var v := [TLParen] + inner;
    var p1 := Taken(p, v, Size(e.f));
    PostfixIs(ctx, e.f, p, v);
    PostfixIs(ctx, e, p, rest);
    AfterToken(p, TLParen, inner, Size(e.f));
    AheadReplayed(p1, inner);
    TakenCur(p1, inner);
    var p3, p4 := At(p1, w, n), Taken(p1, w, n);
    MatchAt(p1, TRParen, rest, n);
    PostfixTakesCall(ctx, TreeOf(ctx, e.f), TreesOf(ctx, e.args), At(p, v, Size(e.f)), p1, Taken(p1, inner, 0), p3, p4);
    SameAfter(ctx, TreeOf(ctx, e), p1, TRParen, rest, n);
    AtOfTaken(p, v, rest, Size(e.f), n + 1);
  }

  lemma MatchAt(p: Parse, t: Token, v: seq<Token>, n: nat)
    requires n <= p.free
    ensures Match(At(p, [t] + v, n), t) == Taken(p, [t] + v, n) && Taken(p, [t] + v, n).free == p.free - n
  {
  }

  // ---- assignments and parameter lists ---------------------------------------------------

  /** Tokens that end a whole expression. */
  predicate Ends(rest: seq<Token>) {
    rest == [] || rest[0] == TSemi || rest[0] == TComma || rest[0] == TRParen
  }

  lemma EndsStops(rest: seq<Token>, level: nat)
    requires Ends(rest) || (rest != [] && rest[0] == TAssign)
    ensures Stops(level, rest)
  {
  }

  lemma AssignStops(ctx: Context, left: Node, p: Parse, p1: Parse)
    requires ProcLevel(ctx, 0, p) == (left, p1) && p1 == Replay(Next(p1)) && Next(p1).cur != TAssign
    ensures ProcAssign(ctx, p) == (left, p1)
  {
  }

  lemma AssignTakes(ctx: Context, left: Node, right: Node, p: Parse, p1: Parse, p2: Parse, p3: Parse)
    requires ProcLevel(ctx, 0, p) == (left, p1) && Next(p1) == p2 && p2.cur == TAssign
    requires ProcAssign(ctx, p2) == (right, p3) && left.Node? && p3.free > 0
    ensures ProcAssign(ctx, p) == (SysNode(SysAssign, left, right), p3.(free := p3.free - 1))
  {
  }

  lemma AssignParts(ctx: Context, e: Phrase, rest: seq<Token>)
    requires e.Assign? && ShapedAssign(e) && Known(ctx, e)
    ensures Shaped(e.l, 0) && ShapedAssign(e.r) && Known(ctx, e.l) && Known(ctx, e.r)
    ensures Size(e) == Size(e.l) + Size(e.r) + 1
    ensures Print(e) + rest == Print(e.l) + ([TAssign] + (Print(e.r) + rest))
    ensures TreeOf(ctx, e) == SysNode(SysAssign, TreeOf(ctx, e.l), TreeOf(ctx, e.r))
  {
  }

  /** Round trip of a whole expression. */
  lemma {:induction false} ExprRoundTrip(ctx: Context, e: Phrase, p: Parse, rest: seq<Token>)
    requires ShapedAssign(e) && Known(ctx, e) && Size(e) <= p.free
    requires Ahead(p, Print(e) + rest) && Ends(rest)
    ensures ProcAssign(ctx, p) == (TreeOf(ctx, e), At(p, rest, Size(e)))
    decreases e, 30
  {
    hide *;
    if e.Assign? {
      AssignParts(ctx, e, rest);
      var u := Print(e.r) + rest;
      var v := [TAssign] + u;
      LeftParses(ctx, e.l, p, v);
      var p2 := Taken(p, v, Size(e.l));
      AfterToken(p, TAssign, u, Size(e.l));
      ExprRoundTrip(ctx, e.r, p2, rest);
      AtTaken(p, v, rest, Size(e.l), Size(e.r));
      AssignTakes(ctx, TreeOf(ctx, e.l), TreeOf(ctx, e.r), p, At(p, v, Size(e.l)), p2, At(p2, rest, Size(e.r)));
    } else {
      ShapedUnlessAssign(e);
      LeftParses(ctx, e, p, rest);
      EndsAt(p, rest, Size(e));
      AssignStops(ctx, TreeOf(ctx, e), p, At(p, rest, Size(e)));
    }
  }

  lemma ShapedUnlessAssign(e: Phrase)
    requires ShapedAssign(e) && !e.Assign?
    ensures Shaped(e, 0)
  {
  }

  lemma EndsAt(p: Parse, rest: seq<Token>, n: nat)
    requires n <= p.free && Ends(rest)
    ensures var q := At(p, rest, n); q == Replay(Next(q)) && Next(q).cur != TAssign
  {
  }

  /** The binary expression at the start of an assignment or alone. */
  lemma {:induction false} LeftParses(ctx: Context, e: Phrase, p: Parse, rest: seq<Token>)
    requires Shaped(e, 0) && Known(ctx, e) && Size(e) <= p.free
    requires Ahead(p, Print(e) + rest) && (Ends(rest) || (rest != [] && rest[0] == TAssign))
    ensures ProcLevel(ctx, 0, p) == (TreeOf(ctx, e), At(p, rest, Size(e)))
    decreases e, 25
  {
    EndsStops(rest, 0);
    EndsStops(rest, 1);
    LevelRoundTrip(ctx, 0, e, p, rest);
    LevelIs(ctx, 0, e, p, rest);
    AtAt(p, rest, rest, Size(e), 0);
    LoopStops(ctx, 0, TreeOf(ctx, e), At(p, rest, Size(e)), rest);
  }

  lemma {:induction false} FirstOfExpr(e: Phrase)
    requires ShapedAssign(e) || Shaped(e, 0)
    ensures Print(e) != [] && Print(e)[0] != TRParen && Print(e)[0] != TSemi && Print(e)[0] != TBad
    ensures !IsTypeToken(Print(e)[0]) && Print(e)[0] != TEof
    decreases e
  {
    match e {
      case Assign(l, r) => FirstOfExpr(l);
      case Binary(op, l, r) => 
        ShapedDown(l, LevelOf(op), 0);
        FirstOfExpr(l);
      case Unary(op, a) =>
        if IsPostfix(op) {
          ShapedDown(a, 7, 6);
          FirstToken(a);
        }
      case Call(f, args) =>
        ShapedDown(f, 7, 6);
        FirstToken(f);
      case _ =>
    }
  }

  lemma ShapedDown(e: Phrase, high: nat, low: nat)
    requires Shaped(e, high) && low <= high
    ensures Shaped(e, low)
  {
  }

  lemma FirstOfArgs(es: Phrases)
    requires es.Cons? && ShapedArgs(es)
    ensures PrintArgs(es) != [] && PrintArgs(es)[0] != TRParen
  {
    FirstOfExpr(es.head);
  }

  /** What an argument list passes on to its parts. */
  lemma ArgsParts(ctx: Context, es: Phrases)
    requires AllKnown(ctx, es) && ShapedArgs(es)
    ensures es.Empty? ==> TreesOf(ctx, es) == Nil && SizeArgs(es) == 0
    ensures es.Cons? ==> ShapedAssign(es.head) && ShapedArgs(es.tail) && SizeArgs(es) == Size(es.head) + SizeArgs(es.tail)
    ensures es.Cons? ==> && Known(ctx, es.head) && AllKnown(ctx, es.tail) && TreeOf(ctx, es.head).Node?
                         && TreesOf(ctx, es) == TreeOf(ctx, es.head).(sibling := TreesOf(ctx, es.tail))
  {
  }

  function TailTokens(es: Phrases): seq<Token> {
    if es.Empty? then [] else [TComma] + PrintArgs(es)
  }

  lemma ParamsStart(ctx: Context, first: Node, others: Node, p: Parse, p1: Parse, p2: Parse)
    requires ProcAssign(ctx, p) == (first, p1) && first.Node? && ParamLoop(ctx, p1) == (others, p2)
    ensures ProcParams(ctx, p) == (first.(sibling := others), p2)
  {
  }

  lemma ParamLoopStops(ctx: Context, p: Parse)
    requires p == Replay(Next(p)) && Next(p).cur != TComma
    ensures ParamLoop(ctx, p) == (Nil, p)
  {
  }

  lemma {:induction false} ArgsRoundTrip(ctx: Context, es: Phrases, p: Parse, rest: seq<Token>)
    requires es.Cons? && ShapedArgs(es) && AllKnown(ctx, es) && SizeArgs(es) <= p.free
    requires Ahead(p, PrintArgs(es) + ([TRParen] + rest))
    ensures ProcParams(ctx, p) == (TreesOf(ctx, es), At(p, [TRParen] + rest, SizeArgs(es)))
    decreases es, 1
  {
    hide ProcParams, ProcAssign, ParamLoop, TailTokens, Print, PrintArgs, TreeOf, TreesOf, Known, AllKnown, At, Taken, Size, SizeArgs, ShapedAssign, ShapedArgs, Ends;
    var v := TailTokens(es.tail) + ([TRParen] + rest);
    ArgsParts(ctx, es);
    ArgTokensOf(es, [TRParen] + rest);
    TailEnds(es.tail, rest);
    ExprRoundTrip(ctx, es.head, p, v);
    var p1 := At(p, v, Size(es.head));
    AtAt(p, v, v, Size(es.head), 0);
    TailRoundTrip(ctx, es.tail, p1, rest);
    AtAt(p, v, [TRParen] + rest, Size(es.head), SizeArgs(es.tail));
    ParamsStart(ctx, TreeOf(ctx, es.head), TreesOf(ctx, es.tail), p, p1, At(p, [TRParen] + rest, SizeArgs(es)));
  }

  lemma ArgTokensOf(es: Phrases, w: seq<Token>)
    requires es.Cons?
    ensures PrintArgs(es) + w == Print(es.head) + (TailTokens(es.tail) + w)
  {
  }

  lemma TailTokensOf(es: Phrases, w: seq<Token>)
    requires es.Cons?
    ensures TailTokens(es) + w == [TComma] + (Print(es.head) + (TailTokens(es.tail) + w))
  {
  }

  lemma {:induction false} TailRoundTrip(ctx: Context, es: Phrases, p: Parse, rest: seq<Token>)
    requires ShapedArgs(es) && AllKnown(ctx, es) && SizeArgs(es) <= p.free
    requires p == At(p, TailTokens(es) + ([TRParen] + rest), 0)
    ensures ParamLoop(ctx, p) == (TreesOf(ctx, es), At(p, [TRParen] + rest, SizeArgs(es)))
    decreases es, 0
  {
    hide ProcParams, ProcAssign, ParamLoop, TailTokens, Print, PrintArgs, TreeOf, TreesOf, Known, AllKnown, At, Taken, Size, SizeArgs, ShapedAssign, ShapedArgs, Ends;
    var w := [TRParen] + rest;
    ArgsParts(ctx, es);
    if es.Empty? {
      TailOfNone(ctx, p, rest);
    } else {
      var v := TailTokens(es.tail) + w;
      TailTokensOf(es, w);
      var u := [TComma] + (Print(es.head) + v);
      var p1 := Taken(p, u, 0);
      TakenIsAhead(p, u, 0);
      TailEnds(es.tail, rest);
      ExprRoundTrip(ctx, es.head, p1, v);
      var p2 := At(p1, v, Size(es.head));
      AtAt(p1, v, v, Size(es.head), 0);
      TailRoundTrip(ctx, es.tail, p2, rest);
      TailStep(ctx, TreeOf(ctx, es.head), TreesOf(ctx, es.tail), p, u, v, w, Size(es.head), SizeArgs(es.tail));
    }
  }

  lemma TailStep(ctx: Context, head: Node, others: Node, p: Parse,
                 u: seq<Token>, v: seq<Token>, w: seq<Token>, m: nat, n: nat)
    requires u != [] && u[0] == TComma && p == At(p, u, 0) && m + n <= p.free && head.Node?
    requires var p1 := Taken(p, u, 0);
             && ProcAssign(ctx, p1) == (head, At(p1, v, m))
             && ParamLoop(ctx, At(p1, v, m)) == (others, At(At(p1, v, m), w, n))
    ensures ParamLoop(ctx, p) == (head.(sibling := others), At(p, w, m + n))
  {
  }

  lemma TailOfNone(ctx: Context, p: Parse, rest: seq<Token>)
    requires p == At(p, TailTokens(Phrases.Empty) + ([TRParen] + rest), 0)
    ensures ParamLoop(ctx, p) == (Nil, At(p, [TRParen] + rest, 0))
  {
    assert TailTokens(Phrases.Empty) + ([TRParen] + rest) == [TRParen] + rest;
    ParamLoopStops(ctx, p);
  }

  lemma TailEnds(es: Phrases, rest: seq<Token>)
    ensures Ends(TailTokens(es) + ([TRParen] + rest))
  {
  }
}
