/**
 A whole shell line, from tokens to the value at the bottom of the stack.
 */
module FinshLine {
  import opened FinshSyntax
  import opened FinshVm
  import opened FinshCompiler
  import opened FinshEval
  import opened FinshCorrect
  import opened FinshProgram
  import opened FinshParser
  import opened FinshRoundTrip

  const NODE_MAX: nat := 16

  function PrintProgram(es: Phrases): seq<Token> {
    if es.Empty? then [] else Print(es.head) + ([TSemi] + PrintProgram(es.tail))
  }

  function Forest(ctx: Context, es: Phrases): seq<Node>
    requires AllKnown(ctx, es)
  {
    if es.Empty? then [] else [TreeOf(ctx, es.head)] + Forest(ctx, es.tail)
  }

  lemma StatementParses(ctx: Context, e: Phrase, p: Parse, rest: seq<Token>)
    requires ShapedAssign(e) && Known(ctx, e) && Size(e) <= p.free
    requires Ahead(p, Print(e) + ([TSemi] + rest))
    ensures ProcStatement(ctx, Replay(Next(p))) == (TreeOf(ctx, e), Taken(p, [TSemi] + rest, Size(e)))
  {
    hide *;
    var v, w := Print(e) + ([TSemi] + rest), [TSemi] + rest;
    FirstOfExpr(e);
    var q := At(p, v, 0);
    AheadReplayed(p, v);
    TakenCur(p, v);
    SemiEnds(rest);
    ExprRoundTrip(ctx, e, q, w);
    AtAt(p, v, w, 0, Size(e));
    MatchAt(p, TSemi, rest, Size(e));
    StatementIs(ctx, q, TreeOf(ctx, e), At(p, w, Size(e)));
  }

  lemma SemiEnds(rest: seq<Token>)
    ensures Ends([TSemi] + rest)
  {
  }

  lemma StatementIs(ctx: Context, p: Parse, n: Node, p2: Parse)
    requires Next(p).cur != TSemi && Replay(Next(p)) == p && ProcAssign(ctx, p) == (n, p2)
    ensures ProcStatement(ctx, p) == (n, Match(p2, TSemi))
  {
  }

  lemma ProgramTakes(ctx: Context, rooted: bool, n: Node, ns: seq<Node>, p: Parse, p1: Parse, p2: Parse, p3: Parse)
    requires Next(p) == p1 && p1.cur != TEof && p1.cur != TBad && !IsTypeToken(p1.cur)
    requires ProcStatement(ctx, Replay(p1)) == (n, p2) && n.Node?
    requires ProcProgram(ctx, true, p2) == (ns, p3)
    ensures ProcProgram(ctx, rooted, p) == ([n] + ns, p3)
  {
  }

  /** Round trip of statement lists: the same trees, all tokens read, no error. */
  lemma {:induction false} ProgramRoundTrip(ctx: Context, rooted: bool, es: Phrases, p: Parse)
    requires ShapedArgs(es) && AllKnown(ctx, es) && SizeArgs(es) <= p.free
    requires Ahead(p, PrintProgram(es))
    ensures ProcProgram(ctx, rooted, p) == (Forest(ctx, es), Taken(p, [], SizeArgs(es)))
    decreases es
  {
    hide *;
    ProgramParts(ctx, es);
    if es.Cons? {
      var rest := PrintProgram(es.tail);
      var v := Print(es.head) + ([TSemi] + rest);
      StatementParses(ctx, es.head, p, rest);
      FirstOfExpr(es.head);
      AheadReplayed(p, v);
      TakenCur(p, v);
      AfterToken(p, TSemi, rest, Size(es.head));
      var p2 := Taken(p, [TSemi] + rest, Size(es.head));
      ProgramRoundTrip(ctx, true, es.tail, p2);
      ProgramTakes(ctx, rooted, TreeOf(ctx, es.head), Forest(ctx, es.tail), p, Next(p), p2,
                   Taken(p2, [], SizeArgs(es.tail)));
      TakenTwice(p, [TSemi] + rest, Size(es.head), SizeArgs(es.tail));
    } else {
      AheadReplayed(p, []);
      TakenTwice(p, [], 0, 0);
      EmptyProgram(ctx, rooted, p);
    }
  }

  /** What a statement list passes on to its parts. */
  lemma ProgramParts(ctx: Context, es: Phrases)
    requires ShapedArgs(es) && AllKnown(ctx, es)
    ensures es.Empty? ==> PrintProgram(es) == [] && SizeArgs(es) == 0 && Forest(ctx, es) == []
    ensures es.Cons? ==>
              && ShapedAssign(es.head) && ShapedArgs(es.tail) && Known(ctx, es.head) && AllKnown(ctx, es.tail)
              && PrintProgram(es) == Print(es.head) + ([TSemi] + PrintProgram(es.tail))
              && SizeArgs(es) == Size(es.head) + SizeArgs(es.tail)
              && Forest(ctx, es) == [TreeOf(ctx, es.head)] + Forest(ctx, es.tail)
  {
  }

  lemma TakenTwice(p: Parse, u: seq<Token>, m: nat, n: nat)
    requires m + n <= p.free
    ensures Taken(p, u, m).free >= n && Taken(Taken(p, u, m), [], n) == Taken(p, [], m + n)
    ensures Taken(p, [], 0).cur == TEof
  {
  }

  lemma EmptyProgram(ctx: Context, rooted: bool, p: Parse)
    requires Next(p).cur == TEof
    ensures ProcProgram(ctx, rooted, p) == ([], Next(p))
  {
  }

  lemma {:induction false} ChainOfForest(ctx: Context, es: Phrases)
    requires AllKnown(ctx, es)
    ensures Chain(Forest(ctx, es)) == TreesOf(ctx, es)
    decreases es
  {
    if es.Cons? {
      ChainOfForest(ctx, es.tail);
    }
  }

  /** finsh_run_line on tokens: parse into the node table, compile unless an error was set,
      run; the state of the machine at the end. */
  function RunLine(env: Env, ctx: Context, tokens: seq<Token>, s: State): Option<State> {
    var (ns, p) := ProcProgram(ctx, false, Parse(tokens, TEof, false, NODE_MAX, false));
    var root := Chain(ns);
    if p.err || Errors(TypeCheck(root, false)) then None else ExecBytes(env, TextOf(root), s)
  }

  /** End to end: a printed list of grammar-shaped, well-typed statements that fits the node
      table, the text segment and the stack is parsed, compiled and run to the evaluator's
      memory, with the last value alone at the bottom of the stack. */
  lemma LineCorrect(env: Env, ctx: Context, es: Phrases, s: State)
    requires es.Cons? && ShapedArgs(es) && AllWellTyped(ctx, Meanings(es))
    requires SizeArgs(es) <= NODE_MAX && |TextOf(Trees(ctx, Meanings(es)))| == TEXT_MAX
    requires s.sp == 0 && NeedAll(Meanings(es)) <= |s.stack|
    ensures Pushed(LastBits(ctx, Meanings(es)), s, Perform(env, ctx, Meanings(es), s.mem),
                   RunLine(env, ctx, PrintProgram(es), s))
  {
    MeaningsCons(es);
    var p := Parse(PrintProgram(es), TEof, false, NODE_MAX, false);
    ProgramRoundTrip(ctx, false, es, p);
    ChainOfForest(ctx, es);
    CompiledStatements(ctx, Meanings(es));
    RunsToLastValue(env, ctx, Meanings(es), s);
  }

  lemma MeaningsCons(es: Phrases)
    ensures Meanings(es).Cons? <==> es.Cons?
  {
  }

  // ---- a sign, end to end ----------------------------------------------------------------

  /** The value of a minus. */
  lemma MinusValue(env: Env, ctx: Context, e: Expr, m: Memory)
    requires WellTyped(ctx, e) && Full(ctx, e)
    ensures var n := Expr.Binary(Sub, Expr.Long(0), e); var x := Eval(env, ctx, e, m);
            && WellTyped(ctx, n) && CellBits(ctx, n) == B32
            && Eval(env, ctx, n, m) == if x.None? then None else Some((Wrap(B32, 0 - x.value.0), x.value.1))
  {
    hide WellTyped, Eval, Wrap, CellBits, Full;
    MinusTyped(ctx, e);
    BinaryEval(env, ctx, Sub, Expr.Long(0), e, m);
    LongEval(env, ctx, 0, m);
    var x := Eval(env, ctx, e, m);
    if x.Some? {
      WholeWord(x.value.0);
    }
  }

  lemma MinusTyped(ctx: Context, e: Expr)
    requires WellTyped(ctx, e) && Full(ctx, e)
    ensures var n := Expr.Binary(Sub, Expr.Long(0), e); WellTyped(ctx, n) && CellBits(ctx, n) == B32
  {
  }

  lemma LongEval(env: Env, ctx: Context, v: Word, m: Memory)
    ensures WellTyped(ctx, Expr.Long(v)) && TypeOf(ctx, Expr.Long(v)) == DT_DWORD && WidthOf(DT_DWORD) == Some(B32)
    ensures Eval(env, ctx, Expr.Long(v), m) == Some((v, m))
  {
  }

  lemma WholeWord(x: Word)
    ensures Low(B32, x) == x && Low(B32, 0) == 0
  {
  }

  /** An operator on the values of its operands, the left one first. */
  lemma BinaryEval(env: Env, ctx: Context, op: BinOp, l: Expr, r: Expr, m: Memory)
    requires WellTyped(ctx, Expr.Binary(op, l, r))
    ensures WellTyped(ctx, l) && WellTyped(ctx, r) && WidthOf(TypeOf(ctx, l)).Some?
    ensures var w, x := WidthOf(TypeOf(ctx, l)).value, Eval(env, ctx, l, m);
            var y := if x.None? then None else Eval(env, ctx, r, x.value.1);
            Eval(env, ctx, Expr.Binary(op, l, r), m) ==
              if y.None? then None
              else
                var z := Arith(env, op, w, Low(w, x.value.0), Low(w, y.value.0));
                if z.None? then None else Some((z.value, y.value.1))
  {
    hide CellBits, Full;
  }

  /** The line  - e ;  with an operand of a whole word ends with minus its value, on the bytes of the
      machine: 0 - x, not x - 0. */
  lemma MinusLine(env: Env, ctx: Context, e: Phrase, s: State)
    requires Shaped(e, 6) && WellTyped(ctx, Meaning(e)) && Full(ctx, Meaning(e))
    requires 2 + Size(e) <= NODE_MAX && s.sp == 0 && 1 + Need(Meaning(e)) <= |s.stack|
    ensures AllWellTyped(ctx, OneMinus(e))
    ensures |TextOf(Trees(ctx, OneMinus(e)))| == TEXT_MAX ==>
              var x := Eval(env, ctx, Meaning(e), s.mem);
              Pushed(B32, s, if x.None? then None else Some((Wrap(B32, 0 - x.value.0), x.value.1)),
                     RunLine(env, ctx, [TMinus] + Print(e) + [TSemi], s))
  {
    hide WellTyped, Full, Eval, Pushed, RunLine, TextOf, Tree, Trees, CellBits, Shaped;
    MinusValue(env, ctx, Meaning(e), s.mem);
    OneMinusIs(env, ctx, e, s.mem);
    if |TextOf(Trees(ctx, OneMinus(e)))| == TEXT_MAX {
      LineCorrect(env, ctx, MinusPhrase(e), s);
    }
  }

  function MinusPhrase(e: Phrase): Phrases {
    Phrases.Cons(Minus(e), Phrases.Empty)
  }

  function OneMinus(e: Phrase): Exprs {
    Exprs.Cons(Expr.Binary(Sub, Expr.Long(0), Meaning(e)), Exprs.Empty)
  }

  lemma OneMinusIs(env: Env, ctx: Context, e: Phrase, m: Memory)
    requires WellTyped(ctx, Expr.Binary(Sub, Expr.Long(0), Meaning(e))) && Shaped(e, 6)
    ensures Meanings(MinusPhrase(e)) == OneMinus(e) && AllWellTyped(ctx, OneMinus(e)) && ShapedArgs(MinusPhrase(e))
    ensures SizeArgs(MinusPhrase(e)) == 2 + Size(e) && NeedAll(OneMinus(e)) == 1 + Need(Meaning(e))
    ensures Perform(env, ctx, OneMinus(e), m) == Eval(env, ctx, Expr.Binary(Sub, Expr.Long(0), Meaning(e)), m)
    ensures LastBits(ctx, OneMinus(e)) == CellBits(ctx, Expr.Binary(Sub, Expr.Long(0), Meaning(e)))
    ensures PrintProgram(MinusPhrase(e)) == [TMinus] + Print(e) + [TSemi]
  {
    hide WellTyped, Eval, CellBits;
    assert Shaped(Minus(e), 0);
    assert PrintProgram(Phrases.Empty) == [];
    NeedMinus(Meaning(e));
  }

  lemma NeedMinus(e: Expr)
    ensures NeedAll(Exprs.Cons(Expr.Binary(Sub, Expr.Long(0), e), Exprs.Empty)) == 1 + Need(e)
  {
    var n := Expr.Binary(Sub, Expr.Long(0), e);
    assert Need(Expr.Long(0)) == 1;
    assert Need(n) == Max(Need(Expr.Long(0)), 1 + Need(e)) == 1 + Need(e);
    assert NeedAll(Exprs.Empty) == 0;
  }
}
