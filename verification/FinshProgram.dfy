/**
 Statement lists: the compiled program of a list of well-typed statements, run by the machine
 on a cleared text segment, performs them in order and leaves the last value at the bottom.
 */
module FinshProgram {
  import opened FinshSyntax
  import opened FinshVm
  import opened FinshCompiler
  import opened FinshEval
  import opened FinshCorrect

  function NeedAll(es: Exprs): nat {
    if es.Empty? then 0 else Max(Need(es.head), NeedAll(es.tail))
  }

  /** Statements in order; the value is the last one's. */
  function Perform(env: Env, ctx: Context, es: Exprs, m: Memory): Option<(Word, Memory)>
    requires AllWellTyped(ctx, es) && es.Cons?
  {
    match Eval(env, ctx, es.head, m)
    case None => None
    case Some((v, m1)) => if es.tail.Empty? then Some((v, m1)) else Perform(env, ctx, es.tail, m1)
  }

  function Last(es: Exprs): Expr
    requires es.Cons?
  {
    if es.tail.Empty? then es.head else Last(es.tail)
  }

  /** How many bits of the last value's cell are defined. */
  function LastBits(ctx: Context, es: Exprs): Width
    requires es.Cons? && AllWellTyped(ctx, es)
  {
    LastWellTyped(ctx, es);
    CellBits(ctx, Last(es))
  }

  lemma {:induction false} LastWellTyped(ctx: Context, es: Exprs)
    requires es.Cons? && AllWellTyped(ctx, es)
    ensures WellTyped(ctx, Last(es))
  {
    if es.tail.Cons? {
      LastWellTyped(ctx, es.tail);
    }
  }

  function StatementsCode(ctx: Context, es: Exprs): seq<Instr>
    requires AllWellTyped(ctx, es)
  {
    if es.Empty? then []
    else ValueCode(ctx, es.head) + (if es.tail.Empty? then [] else [Pop]) + StatementsCode(ctx, es.tail)
  }

  /** The whole-list type check followed by statement-by-statement compilation. */
  lemma {:induction false} CompiledStatements(ctx: Context, es: Exprs)
    requires AllWellTyped(ctx, es)
    ensures var n := TypeCheck(Trees(ctx, es), false);
            ProgramCode(n) == StatementsCode(ctx, es) && !Errors(n) && n.Nil? == es.Empty?
  {
    if es.Cons? {
      var n, sib := Tree(ctx, es.head), Trees(ctx, es.tail);
      assert Trees(ctx, es) == n.(sibling := sib);
      CheckLinked(n, sib, false);
      CompiledValue(ctx, es.head);
      CompiledStatements(ctx, es.tail);
      ErrorsLinked(TypeCheck(n, false), TypeCheck(sib, false));
      var checked := TypeCheck(n.(sibling := sib), false);
      assert checked.(sibling := Nil) == TypeCheck(n, false);
    }
  }

  /** From an empty stack a statement list ends with one cell: the last value. */
  lemma {:induction false} StatementsCorrect(env: Env, ctx: Context, es: Exprs, s: State)
    requires es.Cons? && AllWellTyped(ctx, es) && s.sp == 0 && NeedAll(es) <= |s.stack|
    ensures Pushed(LastBits(ctx, es), s, Perform(env, ctx, es, s.mem), ExecAll(env, StatementsCode(ctx, es), s))
  {
    var a := ValueCode(ctx, es.head);
    ValueCorrect(env, ctx, es.head, s);
    if es.tail.Empty? {
      assert StatementsCode(ctx, es) == a + [] + [] == a;
    } else {
      var b := StatementsCode(ctx, es.tail);
      ExecAppend(env, a + [Pop], b, s);
      ExecThen(env, a, Pop, s);
      var ev, ex := Eval(env, ctx, es.head, s.mem), ExecAll(env, a, s);
      if ev.Some? {
        var t := ex.value.(sp := 0);
        assert Exec(env, Pop, ex.value) == Some(t);
        StatementsCorrect(env, ctx, es.tail, t);
        SameBottom(LastBits(ctx, es), s, t, Perform(env, ctx, es.tail, t.mem), ExecAll(env, b, t));
      }
    }
  }

  /** With an empty stack below, only the stack's size matters to Pushed. */
  lemma SameBottom(w: Width, s: State, t: State, ev: Option<(Word, Memory)>, ex: Option<State>)
    requires s.sp == t.sp == 0 && |s.stack| == |t.stack|
    requires Pushed(w, t, ev, ex)
    ensures Pushed(w, s, ev, ex)
  {
  }

  function Append(es: Exprs, fs: Exprs): Exprs {
    if es.Empty? then fs else Cons(es.head, Append(es.tail, fs))
  }

  function Popped(ctx: Context, es: Exprs): seq<Instr>
    requires AllWellTyped(ctx, es)
  {
    if es.Empty? then [] else ValueCode(ctx, es.head) + [Pop] + Popped(ctx, es.tail)
  }

  /** Wherever a statement list is cut, its code is cut with it. */
  lemma {:induction false} CodeOfAppend(ctx: Context, es: Exprs, fs: Exprs)
    requires AllWellTyped(ctx, es) && AllWellTyped(ctx, fs) && fs.Cons?
    ensures AllWellTyped(ctx, Append(es, fs))
    ensures StatementsCode(ctx, Append(es, fs)) == Popped(ctx, es) + StatementsCode(ctx, fs)
  {
    if es.Empty? {
      assert [] + StatementsCode(ctx, fs) == StatementsCode(ctx, fs);
    } else {
      var a, b, c := ValueCode(ctx, es.head) + [Pop], Popped(ctx, es.tail), StatementsCode(ctx, fs);
      CodeOfAppend(ctx, es.tail, fs);
      assert a + (b + c) == a + b + c;
    }
  }

  /** The machine reaches every cut with an empty stack and the memory of the statements before. */
  lemma {:induction false} EmptyBetweenStatements(env: Env, ctx: Context, es: Exprs, s: State)
    requires AllWellTyped(ctx, es) && es.Cons?
    requires s.sp == 0 && NeedAll(es) <= |s.stack|
    ensures var ex, ev := ExecAll(env, Popped(ctx, es), s), Perform(env, ctx, es, s.mem);
            if ev.None? then ex.None?
            else ex.Some? && ex.value.sp == 0 && ex.value.mem == ev.value.1 && |ex.value.stack| == |s.stack|
  {
    var a, b := ValueCode(ctx, es.head), Popped(ctx, es.tail);
    ValueCorrect(env, ctx, es.head, s);
    ExecAppend(env, a + [Pop], b, s);
    ExecThen(env, a, Pop, s);
    var ex := ExecAll(env, a, s);
    if ex.Some? && es.tail.Cons? {
      EmptyBetweenStatements(env, ctx, es.tail, ex.value.(sp := 0));
    }
  }

  // ---- the whole line --------------------------------------------------------------------

  const TEXT_MAX: nat := 128
  const STACK_MAX: nat := 64

  /** The text segment after finsh_compiler_run: the program, the rest cleared. */
  function TextOf(n: Node): seq<Byte> {
    var code := EncodeAll(ProgramCode(TypeCheck(n, false)));
    if |code| <= TEXT_MAX then code + seq(TEXT_MAX - |code|, _ => 0) else code
  }

  lemma {:induction false} ProgramEncodable(n: Node)
    ensures forall k :: 0 <= k < |ProgramCode(n)| ==> Encodable(ProgramCode(n)[k])
  {
    if n.Node? {
      CodeEncodable(n.(sibling := Nil));
      ProgramEncodable(n.sibling);
    }
  }

  /** Running a text segment that holds the program is running the program. */
  lemma TextRuns(env: Env, n: Node, s: State)
    requires |TextOf(n)| == TEXT_MAX
    ensures ExecBytes(env, TextOf(n), s) == ExecAll(env, ProgramCode(TypeCheck(n, false)), s)
  {
    hide TypeCheck, ProgramCode, Exec;
    var code := ProgramCode(TypeCheck(n, false));
    var zeros: seq<Byte> := seq(TEXT_MAX - |EncodeAll(code)|, _ => 0);
    ProgramEncodable(TypeCheck(n, false));
    ExecEncoded(env, code, zeros, s);
    assert TextOf(n) == EncodeAll(code) + zeros;
    var ex := ExecAll(env, code, s);
    if ex.Some? {
      ExecZeros(env, |zeros|, ex.value);
    }
  }

  /** Statement sequencing: running the text of any list of well-typed statements that fits
      performs them in order; the bottom cell holds the last value, alone on the stack. */
  lemma RunsToLastValue(env: Env, ctx: Context, es: Exprs, s: State)
    requires es.Cons? && AllWellTyped(ctx, es) && s.sp == 0 && NeedAll(es) <= |s.stack|
    requires |TextOf(Trees(ctx, es))| == TEXT_MAX
    ensures Pushed(LastBits(ctx, es), s, Perform(env, ctx, es, s.mem),
                   ExecBytes(env, TextOf(Trees(ctx, es)), s))
  {
    hide TextOf, ProgramCode, StatementsCode, TypeCheck, Trees;
    CompiledStatements(ctx, es);
    StatementsCorrect(env, ctx, es, s);
    TextRuns(env, Trees(ctx, es), s);
  }
}
