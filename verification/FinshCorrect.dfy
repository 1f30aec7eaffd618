/**
 Compiler correctness: the code of a well-typed expression, run on any stack and memory,
 pushes exactly one cell that agrees with the evaluator and leaves the evaluator's memory.
 */
module FinshCorrect {
  import opened FinshSyntax
  import opened FinshVm
  import opened FinshCompiler
  import opened FinshEval

  /** t is s with one more cell; nothing below it changed. */
  ghost predicate OneMore(s: State, t: State) {
    && t.sp == s.sp + 1 <= |s.stack| == |t.stack|
    && t.stack[..s.sp] == s.stack[..s.sp]
  }

  /** The machine did what the evaluator says: the same fault, or one cell whose low bits of
      width w are the value's, and the same memory. */
  ghost predicate Pushed(w: Width, s: State, ev: Option<(Word, Memory)>, ex: Option<State>) {
    match ev
    case None => ex.None?
    case Some((v, m)) =>
      && ex.Some? && OneMore(s, ex.value) && ex.value.mem == m
      && Low(w, ex.value.stack[s.sp]) == Low(w, v)
  }

  lemma LowOfSmall(w: Width, v: Word)
    requires v < Modulus(w)
    ensures Low(w, v) == v
  {
  }

  lemma ExecOne(env: Env, i: Instr, s: State)
    ensures ExecAll(env, [i], s) == Exec(env, i, s)
  {
    var s1 := Exec(env, i, s);
    if s1.Some? {
      assert ExecAll(env, [i][1..], s1.value) == s1;
    }
  }

  /** Running a then one more instruction. */
  lemma ExecThen(env: Env, a: seq<Instr>, i: Instr, s: State)
    ensures var s1 := ExecAll(env, a, s);
            ExecAll(env, a + [i], s) == if s1.None? then None else Exec(env, i, s1.value)
  {
    ExecAppend(env, a, [i], s);
    if ExecAll(env, a, s).Some? {
      ExecOne(env, i, ExecAll(env, a, s).value);
    }
  }

  /** One load leaves the loaded value in the low bits of the next cell. */
  lemma LoadPushes(env: Env, i: Instr, w: Width, v: Word, s: State)
    requires s.sp < |s.stack| && v < Modulus(w)
    requires i == Ld(w, v) || (i.LdValue? && i.w == w && v == Load(s.mem, w, i.addr))
    ensures Pushed(w, s, Some((v, s.mem)), ExecAll(env, [i], s))
  {
    ExecOne(env, i, s);
    LowOfSmall(w, v);
    var t := Exec(env, i, s).value;
    assert t.stack[..s.sp] == s.stack[..s.sp];
  }

  // ---- one lemma per kind of node --------------------------------------------------------

  lemma BinaryPushes(env: Env, op: BinOp, w: Width, s: State, s1: State, s2: State, x: Word, y: Word)
    requires OneMore(s, s1) && OneMore(s1, s2)
    requires Low(w, s1.stack[s.sp]) == Low(w, x) && Low(w, s2.stack[s1.sp]) == Low(w, y)
    ensures var z := Arith(env, op, w, Low(w, x), Low(w, y));
            Pushed(w, s, if z.None? then None else Some((z.value, s2.mem)), Exec(env, Bin(op, w), s2))
  {
    assert s2.stack[s.sp] == s2.stack[..s1.sp][s.sp] == s1.stack[s.sp];
    var z := Arith(env, op, w, Low(w, x), Low(w, y));
    if z.Some? {
      var t := Exec(env, Bin(op, w), s2).value;
      LowOfSmall(w, z.value);
      assert t.stack[..s.sp] == s2.stack[..s1.sp][..s.sp] == s1.stack[..s.sp];
    }
  }

  lemma ComplementPushes(env: Env, w: Width, s: State, s1: State, x: Word)
    requires OneMore(s, s1) && Low(w, s1.stack[s.sp]) == Low(w, x)
    ensures Pushed(w, s, Some((Complemented(w, Low(w, x)), s1.mem)), Exec(env, BitNot(w), s1))
  {
    var t := Exec(env, BitNot(w), s1).value;
    LowOfSmall(w, Complemented(w, Low(w, x)));
    assert t.stack[..s.sp] == s1.stack[..s.sp];
  }

  lemma LoadThroughPushes(env: Env, w: Width, s: State, s1: State, a: Word)
    requires OneMore(s, s1) && s1.stack[s.sp] == a
    ensures Pushed(w, s, Some((Load(s1.mem, w, a), s1.mem)), Exec(env, LdStack(w), s1))
  {
    var t := Exec(env, LdStack(w), s1).value;
    LowOfSmall(w, Load(s1.mem, w, a));
    assert t.stack[..s.sp] == s1.stack[..s.sp];
  }

  /** Store, then load back through the address that stays on the stack. */
  lemma StorePushes(env: Env, w: Width, s: State, s1: State, s2: State, a: Word, y: Word)
    requires OneMore(s, s1) && OneMore(s1, s2)
    requires s1.stack[s.sp] == a && Low(w, s2.stack[s1.sp]) == Low(w, y)
    ensures Pushed(w, s, Some((Low(w, y), Store(s2.mem, w, a, Low(w, y)))),
                   ExecAll(env, [St(w), LdStack(w)], s2))
  {
    assert s2.stack[s.sp] == s2.stack[..s1.sp][s.sp] == a;
    var s3 := Exec(env, St(w), s2).value;
    assert s3.stack == s2.stack && s3.sp == s.sp + 1;
    assert s3.stack[..s.sp] == s2.stack[..s1.sp][..s.sp] == s1.stack[..s.sp];
    LoadThroughPushes(env, w, s, s3, a);
    LoadAfterStore(s2.mem, w, a, Low(w, y));
    assert [St(w), LdStack(w)] == [St(w)] + [LdStack(w)];
    ExecThen(env, [St(w)], LdStack(w), s2);
    ExecOne(env, St(w), s2);
  }

  lemma ExecCons(env: Env, i: Instr, rest: seq<Instr>, s: State)
    ensures var s1 := Exec(env, i, s);
            ExecAll(env, [i] + rest, s) == if s1.None? then None else ExecAll(env, rest, s1.value)
  {
    assert ([i] + rest)[1..] == rest;
  }

  lemma SixInstructions(env: Env, i: Instr, j: Instr, k: Instr, l: Instr, m: Instr, n: Instr, s: State)
    ensures ExecAll(env, [i, j, k, l, m, n], s)
            == (match Exec(env, i, s)
                case None => None
                case Some(a) => match Exec(env, j, a)
                  case None => None
                  case Some(b) => match Exec(env, k, b)
                    case None => None
                    case Some(c) => match Exec(env, l, c)
                      case None => None
                      case Some(d) => match Exec(env, m, d)
                        case None => None
                        case Some(e) => Exec(env, n, e))
  {
    var r5, r4, r3, r2 := [j, k, l, m, n], [k, l, m, n], [l, m, n], [m, n];
    assert [i, j, k, l, m, n] == [i] + r5 && r5 == [j] + r4 && r4 == [k] + r3 && r3 == [l] + r2 && r2 == [m] + [n];
    ExecCons(env, i, r5, s);
    var a := Exec(env, i, s);
    if a.Some? {
      ExecCons(env, j, r4, a.value);
      var b := Exec(env, j, a.value);
      if b.Some? {
        ExecCons(env, k, r3, b.value);
        var c := Exec(env, k, b.value);
        if c.Some? {
          ExecCons(env, l, r2, c.value);
          var d := Exec(env, l, c.value);
          if d.Some? {
            ExecThen(env, [m], n, d.value);
            ExecOne(env, m, d.value);
          }
        }
      }
    }
  }

  function StepOp(op: UnOp): BinOp {
    if op.PreInc? || op.PostInc? then Add else Sub
  }

  /** Address, value, one; the sum or difference; the store: the common part of all four
      stepping operators, from a state whose top cell is the address. */
  lemma StepTail(env: Env, op: UnOp, w: Width, a: Word, s: State)
    requires 1 <= s.sp && s.sp + 2 <= |s.stack| && s.stack[s.sp - 1] == a
    ensures var b := Exec(env, LdValue(w, a), s);
            b.Some? &&
            var c := Exec(env, Ld(w, 1), b.value);
            c.Some? &&
            var d := Exec(env, Bin(StepOp(op), w), c.value);
            d.Some? &&
            var e := Exec(env, St(w), d.value);
            && e.Some? && e.value.sp == s.sp
            && |e.value.stack| == |s.stack|
            && e.value.stack[..s.sp] == s.stack[..s.sp]
            && e.value.mem == Store(s.mem, w, a, Stepped(w, op, Load(s.mem, w, a)))
  {
    hide Load, Store, SetLow, Low;
    var x := Load(s.mem, w, a);
    var b := Exec(env, LdValue(w, a), s).value;
    var c := Exec(env, Ld(w, 1), b).value;
    assert c.stack[c.sp - 2] == b.stack[s.sp] && Low(w, b.stack[s.sp]) == x && Low(w, c.stack[c.sp - 1]) == 1;
    assert Arith(env, StepOp(op), w, x, 1) == Some(Stepped(w, op, x));
    var d := Exec(env, Bin(StepOp(op), w), c).value;
    assert Low(w, d.stack[s.sp]) == Stepped(w, op, x);
    assert d.stack[s.sp - 1] == a;
    var e := Exec(env, St(w), d).value;
    assert e.stack[..s.sp] == s.stack[..s.sp];
  }

  lemma PreStepPushes(env: Env, op: UnOp, w: Width, a: Word, s: State)
    requires (op.PreInc? || op.PreDec?) && s.sp + 3 <= |s.stack|
    ensures var y := Stepped(w, op, Load(s.mem, w, a));
            Pushed(w, s, Some((y, Store(s.mem, w, a, y))),
                   ExecAll(env, [Ld(B32, a)] + PreCode(StepOp(op), w, a), s))
  {
    hide Load, Store, SetLow, Low, Arith, Stepped, Wrap;
    var y := Stepped(w, op, Load(s.mem, w, a));
    var m := Store(s.mem, w, a, y);
    var s0 := Exec(env, Ld(B32, a), s).value;
    assert s0.stack[..s.sp] == s.stack[..s.sp];
    StepTail(env, op, w, a, s0);
    var code := [Ld(B32, a)] + PreCode(StepOp(op), w, a);
    assert code == [Ld(B32, a), LdValue(w, a), Ld(w, 1), Bin(StepOp(op), w), St(w), LdStack(B32)];
    SixInstructions(env, Ld(B32, a), LdValue(w, a), Ld(w, 1), Bin(StepOp(op), w), St(w), LdStack(B32), s);
    var b := Exec(env, LdValue(w, a), s0).value;
    var c := Exec(env, Ld(w, 1), b).value;
    var d := Exec(env, Bin(StepOp(op), w), c).value;
    var e := Exec(env, St(w), d).value;
    assert e.stack[s.sp] == e.stack[..s0.sp][s.sp] == a;
    assert e.stack[..s.sp] == e.stack[..s0.sp][..s.sp] == s.stack[..s.sp];
    LoadThroughPushes(env, B32, s, e, a);
    LoadAfterStore(s.mem, w, a, y);
    LowOfLoad(m, w, a);
    LowOfSmall(w, y);
  }

  lemma PostStepPushes(env: Env, op: UnOp, w: Width, a: Word, s: State)
    requires (op.PostInc? || op.PostDec?) && s.sp + 4 <= |s.stack|
    ensures var x := Load(s.mem, w, a);
            Pushed(w, s, Some((x, Store(s.mem, w, a, Stepped(w, op, x)))),
                   ExecAll(env, [LdValue(w, a)] + PostCode(StepOp(op), w, a), s))
  {
    hide Load, Store, Low, Stepped, Exec, ExecAll, StepOp;
    var x := Load(s.mem, w, a);
    LoadPushes(env, LdValue(w, a), w, x, s);
    ExecOne(env, LdValue(w, a), s);
    var s0 := Exec(env, LdValue(w, a), s).value;
    AddressPushes(env, a, s0);
    var s1 := Exec(env, Ld(B32, a), s0).value;
    StepTail(env, op, w, a, s1);
    ExecAppend(env, [LdValue(w, a)], PostCode(StepOp(op), w, a), s);
    SixInstructions(env, Ld(B32, a), LdValue(w, a), Ld(w, 1), Bin(StepOp(op), w), St(w), Pop, s0);
    var b := Exec(env, LdValue(w, a), s1).value;
    var c := Exec(env, Ld(w, 1), b).value;
    var d := Exec(env, Bin(StepOp(op), w), c).value;
    PopBelow(env, s, s0, s1, Exec(env, St(w), d).value);
  }

  lemma AddressPushes(env: Env, a: Word, s: State)
    requires s.sp < |s.stack|
    ensures var t := Exec(env, Ld(B32, a), s);
            t.Some? && OneMore(s, t.value) && t.value.stack[s.sp] == a && t.value.mem == s.mem
  {
  }

  /** Popping the address off leaves the cell below it. */
  lemma PopBelow(env: Env, s: State, s0: State, s1: State, e: State)
    requires OneMore(s, s0) && OneMore(s0, s1)
    requires e.sp == s1.sp && |e.stack| == |s1.stack| && e.stack[..s1.sp] == s1.stack[..s1.sp]
    ensures var t := Exec(env, Pop, e);
            t.Some? && OneMore(s, t.value) && t.value.stack[s.sp] == s0.stack[s.sp] && t.value.mem == e.mem
  {
    assert e.stack[..s0.sp] == e.stack[..s1.sp][..s0.sp] == s1.stack[..s0.sp] == s0.stack[..s0.sp];
    assert e.stack[s.sp] == e.stack[..s0.sp][s.sp] == s0.stack[s.sp];
    assert e.stack[..s.sp] == e.stack[..s0.sp][..s.sp] == s0.stack[..s.sp];
  }

  // ---- calls -----------------------------------------------------------------------------

  /** The cells vs sit above s, nothing below changed, memory is m. */
  ghost predicate PushedAll(s: State, ev: Option<(seq<Word>, Memory)>, ex: Option<State>) {
    match ev
    case None => ex.None?
    case Some((vs, m)) =>
      && ex.Some? && ex.value.sp == s.sp + |vs| <= |s.stack| == |ex.value.stack|
      && ex.value.stack[..s.sp] == s.stack[..s.sp]
      && ex.value.stack[s.sp..ex.value.sp] == vs
      && ex.value.mem == m
  }

  lemma CallPushes(env: Env, n: nat, s: State, s1: State, s2: State, a: Word, vs: seq<Word>)
    requires OneMore(s, s1) && s1.stack[s.sp] == a
    requires |vs| == n <= MAX_PARAMETERS
    requires PushedAll(s1, Some((vs, s2.mem)), Some(s2))
    ensures var (ret, m) := env.call(a, if vs == [] then [0] else vs, s2.mem);
            Pushed(B32, s, Some((ret, m)), Exec(env, SysCallN(n), s2))
  {
    assert s2.stack[s.sp] == s2.stack[..s1.sp][s.sp] == a;
    assert s2.sp - 1 - n == s.sp;
    assert Arguments(s2.stack, s.sp + 1, n) == if vs == [] then [0] else vs;
    var t := Exec(env, SysCallN(n), s2).value;
    assert t.stack[..s.sp] == s2.stack[..s1.sp][..s.sp] == s.stack[..s.sp];
  }

  lemma ArgPushed(s: State, s1: State, s2: State, v: Word, vs: seq<Word>, m: Memory)
    requires OneMore(s, s1) && s1.stack[s.sp] == v
    requires PushedAll(s1, Some((vs, m)), Some(s2))
    ensures PushedAll(s, Some(([v] + vs, m)), Some(s2))
  {
    assert s2.stack[s.sp] == s2.stack[..s1.sp][s.sp] == v;
    assert s2.stack[..s.sp] == s2.stack[..s1.sp][..s.sp] == s.stack[..s.sp];
    assert s2.stack[s.sp..s2.sp] == [s2.stack[s.sp]] + s2.stack[s1.sp..s2.sp];
  }

  // ---- the theorem -----------------------------------------------------------------------

  /** Main result for values. */
  lemma {:induction false} ValueCorrect(env: Env, ctx: Context, e: Expr, s: State)
    requires WellTyped(ctx, e) && s.sp + Need(e) <= |s.stack|
    ensures Pushed(CellBits(ctx, e), s, Eval(env, ctx, e, s.mem), ExecAll(env, ValueCode(ctx, e), s))
    decreases e, 1
  {
    match e {
      case Name(id) => NameCorrect(env, ctx, id, s);
      case Unary(op, a) =>
        if op.Complement? || op.GetValue? {
          ValueCorrect(env, ctx, a, s);
          OperandCorrect(env, ctx, op, a, s);
        } else if op.GetAddr? {
          PlaceCorrect(env, ctx, a, s);
        } else if op.PreInc? || op.PreDec? {
          PreStepPushes(env, op, WidthOf(TypeOf(ctx, a)).value, ctx.symbols[a.id].addr, s);
        } else {
          PostStepPushes(env, op, WidthOf(TypeOf(ctx, a)).value, ctx.symbols[a.id].addr, s);
        }
      case Binary(op, l, r) =>
        ValueCorrect(env, ctx, l, s);
        var ex := ExecAll(env, ValueCode(ctx, l), s);
        if ex.Some? {
          ValueCorrect(env, ctx, r, ex.value);
        }
        BinaryCorrect(env, ctx, op, l, r, s);
      case Assign(l, r) =>
        PlaceCorrect(env, ctx, l, s);
        var ex := ExecAll(env, PlaceCode(ctx, l), s);
        if ex.Some? {
          ValueCorrect(env, ctx, r, ex.value);
        }
        AssignCorrect(env, ctx, l, r, s);
      case Call(f, args) =>
        ValueCorrect(env, ctx, f, s);
        var ex := ExecAll(env, ValueCode(ctx, f), s);
        if ex.Some? {
          ArgsCorrect(env, ctx, args, 1, ex.value);
        }
        CallCorrect(env, ctx, f, args, s);
      case Char(c) => LoadPushes(env, Ld(B8, c), B8, c, s);
      case _ => ConstCorrect(env, ctx, e, s);
    }
  }

  lemma ConstCorrect(env: Env, ctx: Context, e: Expr, s: State)
    requires e.Int? || e.Long? || e.Null? || e.Str?
    requires WellTyped(ctx, e) && s.sp < |s.stack|
    ensures Pushed(CellBits(ctx, e), s, Eval(env, ctx, e, s.mem), ExecAll(env, ValueCode(ctx, e), s))
  {
    var i := ValueCode(ctx, e)[0];
    LoadPushes(env, i, B32, i.v, s);
  }

  lemma NameCorrect(env: Env, ctx: Context, id: string, s: State)
    requires WellTyped(ctx, Name(id)) && s.sp < |s.stack|
    ensures Pushed(CellBits(ctx, Name(id)), s, Eval(env, ctx, Name(id), s.mem), ExecAll(env, ValueCode(ctx, Name(id)), s))
  {
    var sym := ctx.symbols[id];
    if sym.SysCall? {
      LoadPushes(env, Ld(B32, sym.addr), B32, sym.addr, s);
    } else {
      var w := WidthOf(DataTypeOf(sym.ty)).value;
      LoadPushes(env, LdValue(w, sym.addr), w, Load(s.mem, w, sym.addr), s);
    }
  }

  /** Code that leaves one cell, followed by an instruction that works on that cell. */
  lemma ThenComplement(env: Env, a: seq<Instr>, v: Width, w: Width, s: State, ev: Option<(Word, Memory)>)
    requires AtLeast(v, w) && Pushed(v, s, ev, ExecAll(env, a, s))
    ensures Pushed(w, s, if ev.None? then None else Some((Complemented(w, Low(w, ev.value.0)), ev.value.1)),
                   ExecAll(env, a + [BitNot(w)], s))
  {
    ExecThen(env, a, BitNot(w), s);
    if ev.Some? {
      var s1 := ExecAll(env, a, s).value;
      LowOfLow(v, w, s1.stack[s.sp], ev.value.0);
      ComplementPushes(env, w, s, s1, ev.value.0);
    }
  }

  lemma ThenLoad(env: Env, a: seq<Instr>, w: Width, s: State, ev: Option<(Word, Memory)>)
    requires Pushed(B32, s, ev, ExecAll(env, a, s))
    ensures Pushed(w, s, if ev.None? then None else Some((Load(ev.value.1, w, ev.value.0), ev.value.1)),
                   ExecAll(env, a + [LdStack(w)], s))
  {
    ExecThen(env, a, LdStack(w), s);
    if ev.Some? {
      LoadThroughPushes(env, w, s, ExecAll(env, a, s).value, ev.value.0);
    }
  }

  lemma OperandCorrect(env: Env, ctx: Context, op: UnOp, a: Expr, s: State)
    requires (op.Complement? || op.GetValue?) && WellTyped(ctx, Unary(op, a))
    requires Pushed(CellBits(ctx, a), s, Eval(env, ctx, a, s.mem), ExecAll(env, ValueCode(ctx, a), s))
    ensures Pushed(CellBits(ctx, Unary(op, a)), s, Eval(env, ctx, Unary(op, a), s.mem),
                   ExecAll(env, ValueCode(ctx, Unary(op, a)), s))
  {
    var w := WidthOf(TypeOf(ctx, a)).value;
    if op.Complement? {
      ThenComplement(env, ValueCode(ctx, a), CellBits(ctx, a), w, s, Eval(env, ctx, a, s.mem));
    } else {
      ThenLoad(env, ValueCode(ctx, a), w, s, Eval(env, ctx, a, s.mem));
    }
  }

  lemma TwoThenBin(env: Env, op: BinOp, a: seq<Instr>, b: seq<Instr>, v1: Width, v2: Width, w: Width, s: State,
                   ev1: Option<(Word, Memory)>, ev2: Option<(Word, Memory)>)
    requires AtLeast(v1, w) && AtLeast(v2, w)
    requires Pushed(v1, s, ev1, ExecAll(env, a, s))
    requires ev1.Some? ==> Pushed(v2, ExecAll(env, a, s).value, ev2, ExecAll(env, b, ExecAll(env, a, s).value))
    ensures Pushed(w, s,
                   if ev1.None? || ev2.None? then None
                   else var z := Arith(env, op, w, Low(w, ev1.value.0), Low(w, ev2.value.0));
                        if z.None? then None else Some((z.value, ev2.value.1)),
                   ExecAll(env, a + b + [Bin(op, w)], s))
  {
    ExecThen(env, a + b, Bin(op, w), s);
    ExecAppend(env, a, b, s);
    if ev1.Some? && ev2.Some? {
      var s1 := ExecAll(env, a, s).value;
      var s2 := ExecAll(env, b, s1).value;
      LowOfLow(v1, w, s1.stack[s.sp], ev1.value.0);
      LowOfLow(v2, w, s2.stack[s1.sp], ev2.value.0);
      BinaryPushes(env, op, w, s, s1, s2, ev1.value.0, ev2.value.0);
    }
  }

  lemma BinaryCorrect(env: Env, ctx: Context, op: BinOp, l: Expr, r: Expr, s: State)
    requires WellTyped(ctx, Binary(op, l, r))
    requires var ev, ex := Eval(env, ctx, l, s.mem), ExecAll(env, ValueCode(ctx, l), s);
             && Pushed(CellBits(ctx, l), s, ev, ex)
             && (ex.Some? ==> Pushed(CellBits(ctx, r), ex.value, Eval(env, ctx, r, ev.value.1),
                                     ExecAll(env, ValueCode(ctx, r), ex.value)))
    ensures Pushed(CellBits(ctx, Binary(op, l, r)), s, Eval(env, ctx, Binary(op, l, r), s.mem),
                   ExecAll(env, ValueCode(ctx, Binary(op, l, r)), s))
  {
    var w := WidthOf(TypeOf(ctx, l)).value;
    var ev := Eval(env, ctx, l, s.mem);
    TwoThenBin(env, op, ValueCode(ctx, l), ValueCode(ctx, r), CellBits(ctx, l), CellBits(ctx, r), w, s,
               ev, if ev.None? then None else Eval(env, ctx, r, ev.value.1));
  }

  lemma TwoThenStore(env: Env, a: seq<Instr>, b: seq<Instr>, v: Width, w: Width, s: State,
                     ev1: Option<(Word, Memory)>, ev2: Option<(Word, Memory)>)
    requires AtLeast(v, w)
    requires Pushed(B32, s, ev1, ExecAll(env, a, s))
    requires ev1.Some? ==> Pushed(v, ExecAll(env, a, s).value, ev2, ExecAll(env, b, ExecAll(env, a, s).value))
    ensures Pushed(w, s,
                   if ev1.None? || ev2.None? then None
                   else Some((Low(w, ev2.value.0), Store(ev2.value.1, w, ev1.value.0, Low(w, ev2.value.0)))),
                   ExecAll(env, a + b + [St(w), LdStack(w)], s))
  {
    ExecAppend(env, a + b, [St(w), LdStack(w)], s);
    ExecAppend(env, a, b, s);
    if ev1.Some? && ev2.Some? {
      var s1 := ExecAll(env, a, s).value;
      var s2 := ExecAll(env, b, s1).value;
      LowOfLow(v, w, s2.stack[s1.sp], ev2.value.0);
      StorePushes(env, w, s, s1, s2, ev1.value.0, ev2.value.0);
    }
  }

  lemma AssignCorrect(env: Env, ctx: Context, l: Expr, r: Expr, s: State)
    requires WellTyped(ctx, Assign(l, r))
    requires var ev, ex := EvalPlace(env, ctx, l, s.mem), ExecAll(env, PlaceCode(ctx, l), s);
             && Pushed(B32, s, ev, ex)
             && (ex.Some? ==> Pushed(CellBits(ctx, r), ex.value, Eval(env, ctx, r, ev.value.1),
                                     ExecAll(env, ValueCode(ctx, r), ex.value)))
    ensures Pushed(CellBits(ctx, Assign(l, r)), s, Eval(env, ctx, Assign(l, r), s.mem),
                   ExecAll(env, ValueCode(ctx, Assign(l, r)), s))
  {
    var w := WidthOf(TypeOf(ctx, l)).value;
    var ev := EvalPlace(env, ctx, l, s.mem);
    TwoThenStore(env, PlaceCode(ctx, l), ValueCode(ctx, r), CellBits(ctx, r), w, s,
                 ev, if ev.None? then None else Eval(env, ctx, r, ev.value.1));
  }

  lemma ManyThenCall(env: Env, a: seq<Instr>, b: seq<Instr>, n: nat, s: State,
                     ev1: Option<(Word, Memory)>, ev2: Option<(seq<Word>, Memory)>)
    requires n <= MAX_PARAMETERS && (ev2.Some? ==> |ev2.value.0| == n)
    requires Pushed(B32, s, ev1, ExecAll(env, a, s))
    requires ev1.Some? ==> PushedAll(ExecAll(env, a, s).value, ev2, ExecAll(env, b, ExecAll(env, a, s).value))
    ensures Pushed(B32, s,
                   if ev1.None? || ev2.None? then None
                   else Some(env.call(ev1.value.0, if ev2.value.0 == [] then [0] else ev2.value.0, ev2.value.1)),
                   ExecAll(env, a + b + [SysCallN(n)], s))
  {
    ExecThen(env, a + b, SysCallN(n), s);
    ExecAppend(env, a, b, s);
    if ev1.Some? && ev2.Some? {
      var s1 := ExecAll(env, a, s).value;
      CallPushes(env, n, s, s1, ExecAll(env, b, s1).value, ev1.value.0, ev2.value.0);
    }
  }

  lemma CallCorrect(env: Env, ctx: Context, f: Expr, args: Exprs, s: State)
    requires WellTyped(ctx, Call(f, args))
    requires var ev, ex := Eval(env, ctx, f, s.mem), ExecAll(env, ValueCode(ctx, f), s);
             && Pushed(B32, s, ev, ex)
             && (ex.Some? ==> PushedAll(ex.value, EvalArgs(env, ctx, args, ev.value.1),
                                        ExecAll(env, ArgsCode(ctx, args), ex.value)))
    ensures Pushed(B32, s, Eval(env, ctx, Call(f, args), s.mem),
                   ExecAll(env, ValueCode(ctx, Call(f, args)), s))
  {
    var ev := Eval(env, ctx, f, s.mem);
    ManyThenCall(env, ValueCode(ctx, f), ArgsCode(ctx, args), Count(args), s,
                 ev, if ev.None? then None else EvalArgs(env, ctx, args, ev.value.1));
  }

  /** Main result for places: the address, all 32 bits of it. */
  lemma {:induction false} PlaceCorrect(env: Env, ctx: Context, e: Expr, s: State)
    requires Place(ctx, e) && s.sp + Need(e) <= |s.stack|
    ensures Pushed(B32, s, EvalPlace(env, ctx, e, s.mem), ExecAll(env, PlaceCode(ctx, e), s))
    decreases e, 0
  {
    if e.Name? {
      LoadPushes(env, Ld(B32, ctx.symbols[e.id].addr), B32, ctx.symbols[e.id].addr, s);
    } else {
      ValueCorrect(env, ctx, e.e, s);
    }
  }

  /** Main result for argument lists: the values, first argument lowest. */
  lemma {:induction false} ArgsCorrect(env: Env, ctx: Context, es: Exprs, k: nat, s: State)
    requires WholeWords(ctx, es) && k <= s.sp && s.sp - k + NeedArgs(k, es) <= |s.stack| && s.sp <= |s.stack|
    ensures PushedAll(s, EvalArgs(env, ctx, es, s.mem), ExecAll(env, ArgsCode(ctx, es), s))
    decreases es
  {
    if es.Cons? {
      ValueCorrect(env, ctx, es.head, s);
      var a, b := ValueCode(ctx, es.head), ArgsCode(ctx, es.tail);
      var ev, ex := Eval(env, ctx, es.head, s.mem), ExecAll(env, a, s);
      if ev.Some? {
        ArgsCorrect(env, ctx, es.tail, k + 1, ex.value);
      }
      OneThenMany(env, a, b, s, ev, if ev.None? then None else EvalArgs(env, ctx, es.tail, ev.value.1));
    }
  }

  lemma OneThenMany(env: Env, a: seq<Instr>, b: seq<Instr>, s: State,
                    ev1: Option<(Word, Memory)>, ev2: Option<(seq<Word>, Memory)>)
    requires Pushed(B32, s, ev1, ExecAll(env, a, s))
    requires ev1.Some? ==> PushedAll(ExecAll(env, a, s).value, ev2, ExecAll(env, b, ExecAll(env, a, s).value))
    ensures PushedAll(s,
                      if ev1.None? || ev2.None? then None
                      else Some(([ev1.value.0] + ev2.value.0, ev2.value.1)),
                      ExecAll(env, a + b, s))
  {
    ExecAppend(env, a, b, s);
    if ev1.Some? && ev2.Some? {
      var s1 := ExecAll(env, a, s).value;
      ArgPushed(s, s1, ExecAll(env, b, s1).value, ev1.value.0, ev2.value.0, ev2.value.1);
    }
  }

  /** From tree to machine: checking, compiling and running the tree of a well-typed
      expression does what the evaluator says, as instructions and as bytes. */
  lemma CompilerCorrect(env: Env, ctx: Context, e: Expr, s: State)
    requires WellTyped(ctx, e) && s.sp + Need(e) <= |s.stack|
    ensures var code := Code(TypeCheck(Tree(ctx, e), false));
            && Pushed(CellBits(ctx, e), s, Eval(env, ctx, e, s.mem), ExecAll(env, code, s))
            && Pushed(CellBits(ctx, e), s, Eval(env, ctx, e, s.mem), ExecBytes(env, EncodeAll(code), s))
  {
    hide WellTyped, Eval, ValueCode, Code, TypeCheck, Tree, Exec;
    CompiledValue(ctx, e);
    ValueCorrect(env, ctx, e, s);
    var code := Code(TypeCheck(Tree(ctx, e), false));
    CodeEncodable(TypeCheck(Tree(ctx, e), false));
    ExecEncoded(env, code, [], s);
    assert EncodeAll(code) + [] == EncodeAll(code);
  }
}
