/**
 Where the compiler departs from the evaluator: operands narrower than their operator read stale
 bits of the cell they are loaded into, and an operator without a width emits nothing. For each
 the exact condition on the widths, over every expression, stack and memory.
 */
module FinshWidths {
  import opened FinshSyntax
  import opened FinshVm
  import opened FinshCompiler
  import opened FinshEval
  import opened FinshCorrect
  import opened FinshProgram
  import Bits

  // ---- stale bits in the arithmetic ------------------------------------------------------

  /** What an operator of width w reads when y is loaded with width v over a stale cell. */
  function ReadBack(w: Width, v: Width, stale: Word, y: Word): (r: Word)
    ensures r < Modulus(w)
  {
    Low(w, SetLow(v, stale, Low(v, y)))
  }

  /** Whatever the cell held before, op of width w gives what it gives on the loaded value. */
  ghost predicate IgnoresStale(env: Env, op: BinOp, w: Width, v: Width) {
    forall x: Word, y: Word, stale: Word ::
      Arith(env, op, w, Low(w, x), ReadBack(w, v, stale, y)) == Arith(env, op, w, Low(w, x), Low(w, Low(v, y)))
  }

  /** A left operand that tells a right operand of zero from one with a stale bit. */
  function Probe(op: BinOp, v: Width): Word {
    match op
    case Mul => 1
    case And => if v == B8 then 0x100 else 0x1_0000
    case _ => 0
  }

  lemma {:induction false} AndSelf(n: nat)
    ensures Bits.And(n, n) == n
  {
    if n != 0 {
      AndSelf(n / 2);
    }
  }

  /** The bits above width v as a positive number of width w. */
  lemma StaleIsPositive(env: Env, w: Width, v: Width)
    requires !AtLeast(v, w)
    ensures 0x100 <= Modulus(v) < Modulus(w) && Signed(env, w, 0) == 0 && Signed(env, w, Modulus(v)) == Modulus(v)
  {
  }

  lemma WrapOfSmall(w: Width, x: int)
    requires 0 <= x < Modulus(w)
    ensures Wrap(w, x) == x && (x > 0 ==> Wrap(w, -x) == Modulus(w) - x)
  {
    if x > 0 {
      assert -x == Modulus(w) * -1 + (Modulus(w) - x);
    }
  }

  /** No operator is blind to the lowest stale bit: one of the two results is undefined, or they
      differ. */
  lemma ProbeTells(env: Env, op: BinOp, w: Width, v: Width)
    requires !AtLeast(v, w)
    ensures Modulus(v) < Modulus(w) && Probe(op, v) < Modulus(w)
    ensures Arith(env, op, w, Probe(op, v), 0) != Arith(env, op, w, Probe(op, v), Modulus(v))
  {
    hide Wrap, Signed;
    StaleIsPositive(env, w, v);
    WrapOfSmall(w, 0);
    WrapOfSmall(w, Modulus(v));
    if op.And? {
      AndSelf(Modulus(v));
    }
  }

  lemma ReadBackIs(w: Width, v: Width, stale: Word, y: Word)
    requires AtLeast(v, w)
    ensures ReadBack(w, v, stale, y) == Low(w, Low(v, y))
  {
    LowOfSmall(v, Low(v, y));
    LowOfLow(v, w, SetLow(v, stale, Low(v, y)), Low(v, y));
  }

  /** Zero loaded with width v into a cell that held the bit above it. */
  lemma ZeroReadBack(w: Width, v: Width)
    requires !AtLeast(v, w)
    ensures v != B32 && Modulus(v) < Modulus(w) && SetLow(v, Modulus(v), 0) == Modulus(v)
    ensures ReadBack(w, v, Modulus(v), 0) == Modulus(v) && Low(w, Modulus(v)) == Modulus(v) && Low(w, Low(v, 0)) == 0
  {
  }

  /** Exactly: an operator ignores stale bits if and only if its right operand is loaded with at
      least its own width. This holds of every one of the ten operators. */
  lemma StaleBitsExactly(env: Env, op: BinOp, w: Width, v: Width)
    ensures IgnoresStale(env, op, w, v) <==> AtLeast(v, w)
  {
    hide Arith, Low, ReadBack;
    if AtLeast(v, w) {
      forall x: Word, y: Word, stale: Word
        ensures Arith(env, op, w, Low(w, x), ReadBack(w, v, stale, y)) == Arith(env, op, w, Low(w, x), Low(w, Low(v, y)))
      {
        ReadBackIs(w, v, stale, y);
      }
    } else {
      ProbeTells(env, op, w, v);
      ZeroReadBack(w, v);
      LowOfSmall(w, Probe(op, v));
      var m: Word := Modulus(v);
      assert Arith(env, op, w, Low(w, Probe(op, v)), ReadBack(w, v, m, 0))
             != Arith(env, op, w, Low(w, Probe(op, v)), Low(w, Low(v, 0)));
    }
  }

  // ---- operators -------------------------------------------------------------------------

  /** The code of an operator node: both operands, then its instruction if it has a width. */
  lemma OperatorCode(ctx: Context, op: BinOp, l: Expr, r: Expr)
    requires WellTyped(ctx, l) && WellTyped(ctx, r)
    ensures var w := WidthOf(TypeOf(ctx, l));
            Code(TypeCheck(Tree(ctx, Binary(op, l, r)), false))
            == ValueCode(ctx, l) + ValueCode(ctx, r) + (if w.None? then [] else [Bin(op, w.value)])
  {
    CompiledValue(ctx, l);
    CompiledValue(ctx, r);
    CodeOfSysNode(SysBin(op), Tree(ctx, l), Tree(ctx, r), false);
  }

  /** The evaluator's clause for operators, whatever the width of the right operand. */
  function EvalBinary(env: Env, ctx: Context, op: BinOp, w: Width, l: Expr, r: Expr, m: Memory): Option<(Word, Memory)>
    requires WellTyped(ctx, l) && WellTyped(ctx, r)
  {
    match Eval(env, ctx, l, m)
    case None => None
    case Some((x, m1)) =>
      match Eval(env, ctx, r, m1)
      case None => None
      case Some((y, m2)) =>
        match Arith(env, op, w, Low(w, x), Low(w, y))
        case None => None
        case Some(z) => Some((z, m2))
  }

  /** Two operands of widths w and v, and room for them on the stack. */
  ghost predicate Operands(ctx: Context, op: BinOp, l: Expr, r: Expr, s: State, w: Width, v: Width) {
    && WellTyped(ctx, l) && WellTyped(ctx, r) && WidthOf(TypeOf(ctx, l)) == Some(w) && CellBits(ctx, r) == v
    && s.sp + Need(Binary(op, l, r)) <= |s.stack|
  }

  /** Compiled and run, every  l op r  with operands of these widths does what the evaluator says. */
  ghost predicate BinaryAgrees(env: Env, op: BinOp, w: Width, v: Width) {
    forall ctx: Context, l: Expr, r: Expr, s: State :: Operands(ctx, op, l, r, s, w, v) ==>
      Pushed(w, s, EvalBinary(env, ctx, op, w, l, r, s.mem), ExecAll(env, Code(TypeCheck(Tree(ctx, Binary(op, l, r)), false)), s))
  }

  lemma WideBinary(env: Env, ctx: Context, op: BinOp, l: Expr, r: Expr, s: State, w: Width, v: Width)
    requires Operands(ctx, op, l, r, s, w, v) && AtLeast(v, w)
    ensures Pushed(w, s, EvalBinary(env, ctx, op, w, l, r, s.mem),
                   ExecAll(env, Code(TypeCheck(Tree(ctx, Binary(op, l, r)), false)), s))
  {
    var e := Binary(op, l, r);
    assert WellTyped(ctx, e) && CellBits(ctx, e) == w;
    assert Eval(env, ctx, e, s.mem) == EvalBinary(env, ctx, op, w, l, r, s.mem);
    CompilerCorrect(env, ctx, e, s);
  }

  // ---- two variables ---------------------------------------------------------------------

  function VarType(w: Width): CType {
    match w
    case B8 => TChar
    case B16 => TShort
    case B32 => TLong
  }

  /** Variables x of width w at address 0 and y of width v at address 8. */
  function TwoVars(w: Width, v: Width): Context {
    Context(map["x" := ShellVar(VarType(w), 0), "y" := ShellVar(VarType(v), 8)], map[])
  }

  const X: Expr := Name("x")
  const Y: Expr := Name("y")

  lemma VarTypes(w: Width, v: Width)
    ensures var ctx := TwoVars(w, v);
            && WellTyped(ctx, X) && WellTyped(ctx, Y) && Place(ctx, X)
            && WidthOf(TypeOf(ctx, X)) == Some(w) && CellBits(ctx, Y) == v
            && ValueCode(ctx, X) == [LdValue(w, 0)] && ValueCode(ctx, Y) == [LdValue(v, 8)] && PlaceCode(ctx, X) == [Ld(B32, 0)]
  {
  }

  lemma VarValues(env: Env, w: Width, v: Width, m: Memory)
    ensures var ctx := TwoVars(w, v);
            && WellTyped(ctx, X) && WellTyped(ctx, Y) && Place(ctx, X)
            && Eval(env, ctx, X, m) == Some((Load(m, w, 0), m)) && Eval(env, ctx, Y, m) == Some((Load(m, v, 8), m))
            && EvalPlace(env, ctx, X, m) == Some((0, m))
  {
    hide Load;
  }

  /** Memory in which x has a value and y is zero. */
  function XIs(w: Width, x: Word): Memory
    requires x < Modulus(w)
  {
    Store(map[], w, 0, x)
  }

  lemma XIsLoads(w: Width, v: Width, x: Word)
    requires x < Modulus(w)
    ensures Load(XIs(w, x), w, 0) == x && Load(XIs(w, x), v, 8) == 0
  {
    LoadAfterStore(map[], w, 0, x);
  }

  /** The second cell of the stack holds the bit above width v. */
  function StaleState(v: Width, m: Memory): State
    requires v != B32
  {
    State([0, if v == B8 then 0x100 else 0x1_0000], 0, m)
  }

  lemma StaleLoads(env: Env, w: Width, v: Width, x: Word)
    requires !AtLeast(v, w) && x < Modulus(w)
    ensures v != B32
    ensures ExecAll(env, [LdValue(w, 0)] + [LdValue(v, 8)], StaleState(v, XIs(w, x)))
            == Some(State([x, Modulus(v)], 2, XIs(w, x)))
  {
    var s := StaleState(v, XIs(w, x));
    XIsLoads(w, v, x);
    ExecThen(env, [LdValue(w, 0)], LdValue(v, 8), s);
    ExecOne(env, LdValue(w, 0), s);
    ZeroReadBack(w, v);
    assert SetLow(w, 0, x) == x;
    var m: Word := Modulus(v);
    assert s.stack[0 := x] == [x, m] && [x, m][1 := m] == [x, m];
    assert Exec(env, LdValue(w, 0), s) == Some(State([x, Modulus(v)], 1, s.mem));
  }

  lemma NarrowBinary(env: Env, op: BinOp, w: Width, v: Width)
    requires !AtLeast(v, w)
    ensures Probe(op, v) < Modulus(w) && v != B32
    ensures var ctx, s := TwoVars(w, v), StaleState(v, XIs(w, Probe(op, v)));
            && Operands(ctx, op, X, Y, s, w, v)
            && !Pushed(w, s, EvalBinary(env, ctx, op, w, X, Y, s.mem),
                       ExecAll(env, Code(TypeCheck(Tree(ctx, Binary(op, X, Y)), false)), s))
  {
    hide Arith, Low, WellTyped, Eval, ValueCode, TwoVars, Code, TypeCheck, Tree, Load, Store, XIs, SetLow;
    ProbeTells(env, op, w, v);
    ZeroReadBack(w, v);
    var x := Probe(op, v);
    var ctx, s := TwoVars(w, v), StaleState(v, XIs(w, x));
    VarTypes(w, v);
    VarValues(env, w, v, s.mem);
    XIsLoads(w, v, x);
    OperatorCode(ctx, op, X, Y);
    StaleLoads(env, w, v, x);
    ExecThen(env, [LdValue(w, 0)] + [LdValue(v, 8)], Bin(op, w), s);
    NarrowResult(env, op, w, v, x, s);
  }

  /** The operator on the two cells, against the operator on the two values. */
  lemma NarrowResult(env: Env, op: BinOp, w: Width, v: Width, x: Word, s: State)
    requires !AtLeast(v, w) && x < Modulus(w) && Modulus(v) < Modulus(w) && s.sp == 0
    requires Arith(env, op, w, x, 0) != Arith(env, op, w, x, Modulus(v))
    ensures Low(w, x) == x && Low(w, 0) == 0
    ensures var z := Arith(env, op, w, x, 0);
            !Pushed(w, s, if z.None? then None else Some((z.value, s.mem)), Exec(env, Bin(op, w), State([x, Modulus(v)], 2, s.mem)))
  {
    hide Arith, SetLow;
    LowOfSmall(w, x);
    LowOfSmall(w, Modulus(v));
    var z, z' := Arith(env, op, w, x, 0), Arith(env, op, w, x, Modulus(v));
    if z.Some? && z'.Some? {
      LowOfSmall(w, z.value);
    }
  }

  /** Exactly: every  l op r  with operands of widths w and v is compiled faithfully if and only if
      the right operand defines at least as many bits as the operator uses. */
  lemma BinaryExactly(env: Env, op: BinOp, w: Width, v: Width)
    ensures BinaryAgrees(env, op, w, v) <==> AtLeast(v, w)
  {
    hide Pushed, EvalBinary, Code, TypeCheck, Tree, WellTyped, CellBits, TypeOf, Full, Need, ExecAll;
    if AtLeast(v, w) {
      forall ctx: Context, l: Expr, r: Expr, s: State | Operands(ctx, op, l, r, s, w, v)
        ensures Pushed(w, s, EvalBinary(env, ctx, op, w, l, r, s.mem),
                       ExecAll(env, Code(TypeCheck(Tree(ctx, Binary(op, l, r)), false)), s))
      {
        WideBinary(env, ctx, op, l, r, s, w, v);
      }
    } else {
      NarrowBinary(env, op, w, v);
    }
  }

  /** The narrow operand at work: for every constant v, every character c and every stack, the line
      v + c  gives C's sum exactly when the cell the character is loaded into happens to have its
      upper 24 bits clear. */
  lemma NarrowRightOperandIsStale(env: Env, ctx: Context, v: Word, c: Byte, s: State)
    requires s.sp + 2 <= |s.stack|
    ensures var e := Binary(Add, Long(v), Char(c));
            && Resolved(ctx, Long(v)) && Resolved(ctx, Char(c)) && Resolved(ctx, e) && !WellTyped(ctx, e)
            && var ex := ExecAll(env, Code(TypeCheck(Tree(ctx, e), false)), s);
            && ex.Some? && ex.value.sp == s.sp + 1 <= |ex.value.stack|
            && (ex.value.stack[s.sp] == Wrap(B32, v + c) <==> s.stack[s.sp + 1] < 0x100)
  {
    OperatorCode(ctx, Add, Long(v), Char(c));
    StaleSum(env, v, c, s);
  }

  lemma StaleSum(env: Env, v: Word, c: Byte, s: State)
    requires s.sp + 2 <= |s.stack|
    ensures var ex := ExecAll(env, [Ld(B32, v)] + [Ld(B8, c)] + [Bin(Add, B32)], s);
            && ex.Some? && ex.value.sp == s.sp + 1 <= |ex.value.stack|
            && (ex.value.stack[s.sp] == Wrap(B32, v + c) <==> s.stack[s.sp + 1] < 0x100)
  {
    var stale := s.stack[s.sp + 1];
    ExecThen(env, [Ld(B32, v)] + [Ld(B8, c)], Bin(Add, B32), s);
    ExecThen(env, [Ld(B32, v)], Ld(B8, c), s);
    ExecOne(env, Ld(B32, v), s);
    var s1 := Exec(env, Ld(B32, v), s).value;
    var s2 := Exec(env, Ld(B8, c), s1).value;
    var x := 0x100 * (stale / 0x100) + c;
    assert s2.stack[s.sp] == v && s2.stack[s.sp + 1] == x;
    var s3 := Exec(env, Bin(Add, B32), s2).value;
    assert s3.stack[s.sp] == Wrap(B32, v + x);
    WrapDiffers(v, c, stale / 0x100);
  }

  /** Adding k * 256 with 0 < k < 2^24 never wraps around to the same word. */
  lemma WrapDiffers(v: Word, c: Byte, k: int)
    requires 0 <= k < 0x100_0000
    ensures Wrap(B32, v + (0x100 * k + c)) == Wrap(B32, v + c) <==> k == 0
  {
    var q, r := (v + c) / 0x1_0000_0000, (v + c) % 0x1_0000_0000;
    LowWordOfSum(q, r);
    if k > 0 {
      if r + 0x100 * k < 0x1_0000_0000 {
        LowWordOfSum(q, r + 0x100 * k);
      } else {
        LowWordOfSum(q + 1, r + 0x100 * k - 0x1_0000_0000);
      }
    }
  }

  lemma LowWordOfSum(q: int, r: int)
    requires 0 <= r < 0x1_0000_0000
    ensures (0x1_0000_0000 * q + r) % 0x1_0000_0000 == r
  {
  }

  /** The code of a list of two statements. */
  lemma CodeOfTwo(n: Node, m: Node)
    requires n.Node? && n.sibling == Nil && m.Node? && m.sibling == Nil
    ensures ProgramCode(TypeCheck(n.(sibling := m), false)) == Code(TypeCheck(n, false)) + [Pop] + Code(TypeCheck(m, false))
  {
    hide Code;
    CheckLinked(n, m, false);
    var c, d := TypeCheck(n, false), TypeCheck(m, false);
    assert c.sibling == Nil && d.sibling == Nil;
    assert c.(sibling := d).(sibling := Nil) == c && d.(sibling := Nil) == d;
    assert ProgramCode(d) == Code(d) + [] + [] == Code(d);
  }

  /** The line  0 + u; v + c;  for constants u and v and a character c. */
  function StaleLine(u: Word, v: Word, c: Byte): Exprs {
    Cons(Binary(Add, Long(0), Long(u)), Cons(Binary(Add, Long(v), Char(c)), Empty))
  }

  function SumCode(a: Word, i: Instr): seq<Instr> {
    [Ld(B32, a)] + [i] + [Bin(Add, B32)]
  }

  lemma StaleLineCode(ctx: Context, u: Word, v: Word, c: Byte)
    ensures AllResolved(ctx, StaleLine(u, v, c))
    ensures ProgramCode(TypeCheck(Trees(ctx, StaleLine(u, v, c)), false)) == SumCode(0, Ld(B32, u)) + [Pop] + SumCode(v, Ld(B8, c))
  {
    var e, f := Binary(Add, Long(0), Long(u)), Binary(Add, Long(v), Char(c));
    assert Resolved(ctx, Long(0)) && Resolved(ctx, Long(u)) && Resolved(ctx, Long(v)) && Resolved(ctx, Char(c));
    assert Resolved(ctx, e) && Resolved(ctx, f);
    assert Trees(ctx, Cons(f, Empty)) == Tree(ctx, f);
    assert Tree(ctx, e).Node? && Tree(ctx, f).Node?;
    assert Trees(ctx, StaleLine(u, v, c)) == Tree(ctx, e).(sibling := Tree(ctx, f));
    OperatorCode(ctx, Add, Long(0), Long(u));
    OperatorCode(ctx, Add, Long(v), Char(c));
    CodeOfTwo(Tree(ctx, e), Tree(ctx, f));
  }

  lemma StaleLineFits(u: Word, v: Word, c: Byte)
    ensures |EncodeAll(SumCode(0, Ld(B32, u)) + [Pop] + SumCode(v, Ld(B8, c)))| == 20
  {
    var a, b := SumCode(0, Ld(B32, u)), SumCode(v, Ld(B8, c));
    EncodeAppend(a + [Pop], b);
    EncodeAppend(a, [Pop]);
    SumLength(0, Ld(B32, u));
    SumLength(v, Ld(B8, c));
    assert EncodeAll([Pop]) == Encode(Pop) + EncodeAll([Pop][1..]) && EncodeAll([]) == [];
  }

  lemma SumLength(a: Word, i: Instr)
    ensures |EncodeAll(SumCode(a, i))| == 6 + |Encode(i)|
  {
    EncodeAppend([Ld(B32, a)] + [i], [Bin(Add, B32)]);
    EncodeAppend([Ld(B32, a)], [i]);
    OneEncoded(Ld(B32, a));
    OneEncoded(i);
    OneEncoded(Bin(Add, B32));
  }

  lemma OneEncoded(i: Instr)
    ensures EncodeAll([i]) == Encode(i)
  {
    assert EncodeAll([i]) == Encode(i) + EncodeAll([i][1..]) && EncodeAll([]) == [];
  }

  /** The first statement leaves u in the second cell. */
  lemma FirstSum(env: Env, u: Word, s: State)
    requires s.sp == 0 && |s.stack| >= 2
    ensures var ex := ExecAll(env, SumCode(0, Ld(B32, u)) + [Pop], s);
            ex.Some? && ex.value.sp == 0 && |ex.value.stack| == |s.stack| && ex.value.stack[1] == u
  {
    ExecThen(env, SumCode(0, Ld(B32, u)), Pop, s);
    ExecThen(env, [Ld(B32, 0)] + [Ld(B32, u)], Bin(Add, B32), s);
    ExecThen(env, [Ld(B32, 0)], Ld(B32, u), s);
    ExecOne(env, Ld(B32, 0), s);
    var s1 := Exec(env, Ld(B32, 0), s).value;
    var s2 := Exec(env, Ld(B32, u), s1).value;
    assert s2.stack[1] == u && s2.sp == 2;
    assert Exec(env, Bin(Add, B32), s2).Some?;
  }

  /** The defect reached from a cleared stack: the line  0 + u; v + c;  fits the text segment, and its last
      value is the sum of v and c if and only if u is a byte. The first statement leaves the stale bits. */
  lemma StaleBitsInALine(env: Env, ctx: Context, u: Word, v: Word, c: Byte, s: State)
    requires s.sp == 0 && |s.stack| >= 2 && forall i :: 0 <= i < |s.stack| ==> s.stack[i] == 0
    ensures AllResolved(ctx, StaleLine(u, v, c)) && |TextOf(Trees(ctx, StaleLine(u, v, c)))| == TEXT_MAX
    ensures var ex := ExecBytes(env, TextOf(Trees(ctx, StaleLine(u, v, c))), s);
            ex.Some? && ex.value.sp == 1 <= |ex.value.stack| && (ex.value.stack[0] == Wrap(B32, v + c) <==> u < 0x100)
  {
    hide Trees, TypeCheck, ProgramCode, EncodeAll, SumCode, StaleLine, Exec, ExecAll, ExecBytes;
    var a, b := SumCode(0, Ld(B32, u)) + [Pop], SumCode(v, Ld(B8, c));
    StaleLineCode(ctx, u, v, c);
    StaleLineFits(u, v, c);
    TextRuns(env, Trees(ctx, StaleLine(u, v, c)), s);
    ExecAppend(env, a, b, s);
    FirstSum(env, u, s);
    SumIs(v, c);
    StaleSum(env, v, c, ExecAll(env, a, s).value);
  }

  lemma SumIs(v: Word, c: Byte)
    ensures SumCode(v, Ld(B8, c)) == [Ld(B32, v)] + [Ld(B8, c)] + [Bin(Add, B32)]
  {
  }

  // ---- assignments -----------------------------------------------------------------------

  /** The evaluator's clause for assignments, whatever the width of the value. */
  function EvalAssign(env: Env, ctx: Context, w: Width, l: Expr, r: Expr, m: Memory): Option<(Word, Memory)>
    requires Place(ctx, l) && WellTyped(ctx, r)
  {
    match EvalPlace(env, ctx, l, m)
    case None => None
    case Some((a, m1)) =>
      match Eval(env, ctx, r, m1)
      case None => None
      case Some((y, m2)) => Some((Low(w, y), Store(m2, w, a, Low(w, y))))
  }

  /** A place of width w, a value of width v, and room for them on the stack. */
  ghost predicate Sides(ctx: Context, l: Expr, r: Expr, s: State, w: Width, v: Width) {
    && Place(ctx, l) && WellTyped(ctx, r) && WidthOf(TypeOf(ctx, l)) == Some(w) && CellBits(ctx, r) == v
    && s.sp + Need(Assign(l, r)) <= |s.stack|
  }

  ghost predicate AssignAgrees(env: Env, w: Width, v: Width) {
    forall ctx: Context, l: Expr, r: Expr, s: State :: Sides(ctx, l, r, s, w, v) ==>
      Pushed(w, s, EvalAssign(env, ctx, w, l, r, s.mem), ExecAll(env, Code(TypeCheck(Tree(ctx, Assign(l, r)), false)), s))
  }

  lemma WideAssign(env: Env, ctx: Context, l: Expr, r: Expr, s: State, w: Width, v: Width)
    requires Sides(ctx, l, r, s, w, v) && AtLeast(v, w)
    ensures Pushed(w, s, EvalAssign(env, ctx, w, l, r, s.mem), ExecAll(env, Code(TypeCheck(Tree(ctx, Assign(l, r)), false)), s))
  {
    var e := Assign(l, r);
    assert WellTyped(ctx, e) && CellBits(ctx, e) == w;
    assert Eval(env, ctx, e, s.mem) == EvalAssign(env, ctx, w, l, r, s.mem);
    CompilerCorrect(env, ctx, e, s);
  }

  lemma PlaceTree(ctx: Context, l: Expr)
    requires Place(ctx, l) && WidthOf(TypeOf(ctx, l)).Some?
    ensures var n := Tree(ctx, l); n.Node? && n.sibling == Nil && (n.kind.Id? || n.kind == SysUn(GetValue))
    ensures TypeOf(ctx, l) % 0x10 == TypeOf(ctx, l)
  {
  }

  /** The code of an assignment of any widths: the address, the value, the store of the place. */
  lemma AssignCode(ctx: Context, l: Expr, r: Expr)
    requires Place(ctx, l) && WellTyped(ctx, r) && WidthOf(TypeOf(ctx, l)).Some?
    ensures Code(TypeCheck(Tree(ctx, Assign(l, r)), false)) == PlaceCode(ctx, l) + ValueCode(ctx, r) + StoreCode(TypeOf(ctx, l))
  {
    hide Code, TypeCheck, Errors, StoreCode;
    PlaceTree(ctx, l);
    CompiledPlace(ctx, l);
    CompiledValue(ctx, r);
    AssignNode(Tree(ctx, l), Tree(ctx, r));
  }

  /** The store writes the stale bit. */
  lemma StaleStore(env: Env, w: Width, v: Width)
    requires !AtLeast(v, w)
    ensures v != B32
    ensures var ex := ExecAll(env, [Ld(B32, 0)] + [LdValue(v, 8)] + [St(w), LdStack(w)], StaleState(v, map[]));
            ex.Some? && Load(ex.value.mem, w, 0) == Modulus(v)
  {
    hide Load, Store, Low, SetLow;
    ZeroReadBack(w, v);
    var s, m: Word := StaleState(v, map[]), Modulus(v);
    var s2 := State([0, m], 2, map[]);
    ZeroLoad(v);
    ExecAppend(env, [Ld(B32, 0)] + [LdValue(v, 8)], [St(w), LdStack(w)], s);
    ExecThen(env, [Ld(B32, 0)], LdValue(v, 8), s);
    ExecOne(env, Ld(B32, 0), s);
    assert s.stack[0 := 0] == [0, m] && [0, m][1 := m] == [0, m];
    assert ExecAll(env, [Ld(B32, 0)] + [LdValue(v, 8)], s) == Some(s2);
    assert [St(w), LdStack(w)] == [St(w)] + [LdStack(w)];
    ExecThen(env, [St(w)], LdStack(w), s2);
    ExecOne(env, St(w), s2);
    LoadAfterStore(map[], w, 0, m);
  }

  lemma ZeroLoad(v: Width)
    ensures Load(map[], v, 8) == 0
  {
  }

  lemma NarrowAssign(env: Env, w: Width, v: Width)
    requires !AtLeast(v, w)
    ensures v != B32
    ensures var ctx, s := TwoVars(w, v), StaleState(v, map[]);
            && Sides(ctx, X, Y, s, w, v)
            && !Pushed(w, s, EvalAssign(env, ctx, w, X, Y, s.mem), ExecAll(env, Code(TypeCheck(Tree(ctx, Assign(X, Y)), false)), s))
  {
    hide Low, WellTyped, Eval, EvalPlace, ValueCode, TwoVars, Code, TypeCheck, Tree, Load, Store, SetLow, Exec, ExecAll;
    var ctx, s := TwoVars(w, v), StaleState(v, map[]);
    VarTypes(w, v);
    VarValues(env, w, v, s.mem);
    AssignCode(ctx, X, Y);
    ZeroLoad(v);
    ZeroReadBack(w, v);
    LowOfSmall(w, 0);
    LoadAfterStore(map[], w, 0, 0);
    StaleStore(env, w, v);
  }

  /** Exactly: every assignment of a value of width v to a place of width w is compiled faithfully if
      and only if the value defines at least as many bits as the place holds. */
  lemma AssignExactly(env: Env, w: Width, v: Width)
    ensures AssignAgrees(env, w, v) <==> AtLeast(v, w)
  {
    hide Pushed, EvalAssign, Code, TypeCheck, Tree, WellTyped, CellBits, TypeOf, Full, Need, ExecAll;
    if AtLeast(v, w) {
      forall ctx: Context, l: Expr, r: Expr, s: State | Sides(ctx, l, r, s, w, v)
        ensures Pushed(w, s, EvalAssign(env, ctx, w, l, r, s.mem),
                       ExecAll(env, Code(TypeCheck(Tree(ctx, Assign(l, r)), false)), s))
      {
        WideAssign(env, ctx, l, r, s, w, v);
      }
    } else {
      NarrowAssign(env, w, v);
    }
  }

  // ---- calls -----------------------------------------------------------------------------

  function Widths(ctx: Context, es: Exprs): (r: seq<Width>)
    requires AllResolved(ctx, es)
    ensures |r| == Count(es)
  {
    if es.Empty? then [] else [CellBits(ctx, es.head)] + Widths(ctx, es.tail)
  }

  /** The evaluator's clause for calls, whatever the number and the widths of the arguments. */
  function EvalCall(env: Env, ctx: Context, f: Expr, es: Exprs, m: Memory): Option<(Word, Memory)>
    requires WellTyped(ctx, f) && AllWellTyped(ctx, es)
  {
    match Eval(env, ctx, f, m)
    case None => None
    case Some((a, m1)) =>
      match EvalArgs(env, ctx, es, m1)
      case None => None
      case Some((vs, m2)) =>
        var (ret, m3) := env.call(a, if vs == [] then [0] else vs, m2);
        Some((ret, m3))
  }

  /** A call with arguments of widths vs, and room for it on the stack. */
  ghost predicate Calls(ctx: Context, f: Expr, es: Exprs, s: State, vs: seq<Width>) {
    && WellTyped(ctx, f) && Full(ctx, f) && AllWellTyped(ctx, es) && Widths(ctx, es) == vs
    && s.sp + Need(Call(f, es)) <= |s.stack|
  }

  ghost predicate CallAgrees(vs: seq<Width>) {
    forall env: Env, ctx: Context, f: Expr, es: Exprs, s: State :: Calls(ctx, f, es, s, vs) ==>
      Pushed(B32, s, EvalCall(env, ctx, f, es, s.mem), ExecAll(env, Code(TypeCheck(Tree(ctx, Call(f, es)), false)), s))
  }

  ghost predicate AllFull(vs: seq<Width>) {
    forall k :: 0 <= k < |vs| ==> vs[k] == B32
  }

  lemma {:induction false} FullAreWholeWords(ctx: Context, es: Exprs)
    requires AllWellTyped(ctx, es) && AllFull(Widths(ctx, es))
    ensures WholeWords(ctx, es)
  {
    if es.Cons? {
      var vs := Widths(ctx, es);
      assert vs[0] == CellBits(ctx, es.head) && vs[1..] == Widths(ctx, es.tail);
      FullAreWholeWords(ctx, es.tail);
    }
  }

  lemma WideCall(env: Env, ctx: Context, f: Expr, es: Exprs, s: State, vs: seq<Width>)
    requires Calls(ctx, f, es, s, vs) && AllFull(vs) && |vs| <= MAX_PARAMETERS
    ensures Pushed(B32, s, EvalCall(env, ctx, f, es, s.mem), ExecAll(env, Code(TypeCheck(Tree(ctx, Call(f, es)), false)), s))
  {
    FullAreWholeWords(ctx, es);
    var e := Call(f, es);
    assert WellTyped(ctx, e) && CellBits(ctx, e) == B32;
    assert Eval(env, ctx, e, s.mem) == EvalCall(env, ctx, f, es, s.mem);
    CompilerCorrect(env, ctx, e, s);
  }

  /** A variable of each width, all at address 8. */
  const VARS: Context :=
    Context(map["b" := ShellVar(TChar, 8), "h" := ShellVar(TShort, 8), "l" := ShellVar(TLong, 8)], map[])

  function VarOf(v: Width): Expr {
    Name(match v case B8 => "b" case B16 => "h" case B32 => "l")
  }

  lemma VarOfIs(env: Env, v: Width)
    ensures WellTyped(VARS, VarOf(v)) && CellBits(VARS, VarOf(v)) == v && Need(VarOf(v)) == 1
    ensures ValueCode(VARS, VarOf(v)) == [LdValue(v, 8)]
    ensures Eval(env, VARS, VarOf(v), map[]) == Some((0, map[]))
  {
    ZeroLoad(v);
  }

  function VarsOf(vs: seq<Width>): Exprs {
    if vs == [] then Empty else Cons(VarOf(vs[0]), VarsOf(vs[1..]))
  }

  const STALE: Word := 0x101_0100

  /** The cell into which a zero of width v was loaded. */
  function Cell(v: Width): (x: Word)
    ensures x == 0 <==> v == B32
  {
    SetLow(v, STALE, 0)
  }

  lemma {:induction false} VarsOfIs(env: Env, vs: seq<Width>, k: nat)
    ensures AllWellTyped(VARS, VarsOf(vs)) && Widths(VARS, VarsOf(vs)) == vs && NeedArgs(k, VarsOf(vs)) <= k + |vs|
    decreases vs
  {
    hide WellTyped, VarOf, CellBits, Need, VARS, Eval, EvalArgs, ValueCode, ArgsCode, TypeOf, Resolved, WholeWords, Place;
    if vs != [] {
      VarOfIs(env, vs[0]);
      VarsOfIs(env, vs[1..], k + 1);
      assert [vs[0]] + vs[1..] == vs;
    }
  }

  ghost predicate Zeros(xs: seq<Word>, n: nat) {
    |xs| == n && forall i :: 0 <= i < n ==> xs[i] == 0
  }

  lemma {:induction false} VarsOfAreZero(env: Env, vs: seq<Width>)
    ensures AllWellTyped(VARS, VarsOf(vs))
    ensures var ev := EvalArgs(env, VARS, VarsOf(vs), map[]); ev.Some? && ev.value.1 == map[] && Zeros(ev.value.0, |vs|)
    decreases vs
  {
    hide WellTyped, VarOf, CellBits, Need, VARS, Eval;
    if vs != [] {
      VarOfIs(env, vs[0]);
      VarsOfAreZero(env, vs[1..]);
    }
  }

  /** The cells after the arguments, loaded over stale ones. */
  ghost predicate Loaded(s: State, t: State, vs: seq<Width>) {
    && t.sp == s.sp + |vs| <= |s.stack| == |t.stack| && t.mem == s.mem && t.stack[..s.sp] == s.stack[..s.sp]
    && forall i :: 0 <= i < |vs| ==> t.stack[s.sp + i] == Cell(vs[i])
  }

  lemma {:induction false} StaleArgs(env: Env, vs: seq<Width>, s: State)
    requires s.sp + |vs| <= |s.stack| && s.mem == map[] && forall i :: s.sp <= i < |s.stack| ==> s.stack[i] == STALE
    ensures AllWellTyped(VARS, VarsOf(vs))
    ensures var ex := ExecAll(env, ArgsCode(VARS, VarsOf(vs)), s); ex.Some? && Loaded(s, ex.value, vs)
    decreases vs
  {
    VarsOfIs(env, vs, 0);
    if vs != [] {
      VarOfIs(env, vs[0]);
      ZeroLoad(vs[0]);
      ExecAppend(env, [LdValue(vs[0], 8)], ArgsCode(VARS, VarsOf(vs[1..])), s);
      ExecOne(env, LdValue(vs[0], 8), s);
      var t := Exec(env, LdValue(vs[0], 8), s).value;
      StaleArgs(env, vs[1..], t);
      LoadedCons(s, t, ExecAll(env, ArgsCode(VARS, VarsOf(vs[1..])), t).value, vs);
    }
  }

  lemma LoadedCons(s: State, t: State, u: State, vs: seq<Width>)
    requires vs != [] && s.sp < |s.stack| && t == s.(stack := s.stack[s.sp := Cell(vs[0])], sp := s.sp + 1) && Loaded(t, u, vs[1..])
    ensures Loaded(s, u, vs)
  {
    assert u.stack[s.sp] == u.stack[..t.sp][s.sp] == Cell(vs[0]);
    assert u.stack[..s.sp] == u.stack[..t.sp][..s.sp] == s.stack[..s.sp];
    forall i | 0 <= i < |vs| ensures u.stack[s.sp + i] == Cell(vs[i]) {
      if i > 0 {
        assert u.stack[t.sp + (i - 1)] == Cell(vs[1..][i - 1]);
      }
    }
  }

  lemma FuncCode(f: Node, args: Node)
    requires f.Node? && f.sibling == Nil
    ensures var c, cs := TypeCheck(f, false), TypeCheck(args, false);
            Code(TypeCheck(SysNode(SysFunc, f, args), false)) == Code(c) + Code(cs) + [SysCallN(Siblings(cs) % 0x100)]
  {
    CodeOfSysNode(SysFunc, f, args, false);
  }

  lemma CallCode(ctx: Context, f: Expr, es: Exprs)
    requires WellTyped(ctx, f) && AllWellTyped(ctx, es)
    ensures Code(TypeCheck(Tree(ctx, Call(f, es)), false)) == ValueCode(ctx, f) + ArgsCode(ctx, es) + [SysCallN(Count(es) % 0x100)]
  {
    hide Code, TypeCheck, Errors, ValueCode, ArgsCode, WellTyped;
    CompiledValue(ctx, f);
    CompiledArgs(ctx, es);
    FuncCode(Tree(ctx, f), Trees(ctx, es));
  }

  /** A function that returns its argument number k. */
  function Returns(k: nat): Env {
    Env((a: Word, xs: seq<Word>, m: Memory) => (if k < |xs| then xs[k] else 0, m), true)
  }

  function StaleStack(n: nat): State {
    State(seq(n, _ => STALE), 0, map[])
  }

  lemma LongIs(env: Env, m: Memory)
    ensures WellTyped(VARS, Long(0)) && Full(VARS, Long(0)) && ValueCode(VARS, Long(0)) == [Ld(B32, 0)] && Need(Long(0)) == 1
    ensures Eval(env, VARS, Long(0), m) == Some((0, m))
  {
  }

  lemma CallFits(vs: seq<Width>, env: Env)
    ensures Calls(VARS, Long(0), VarsOf(vs), StaleStack(|vs| + 1), vs)
  {
    hide WellTyped, AllWellTyped, AllResolved, NeedArgs, VarsOf, Widths, Full, VARS, Eval, EvalArgs, ValueCode, ArgsCode;
    VarsOfIs(env, vs, 1);
    LongIs(env, map[]);
  }

  /** The evaluator hands over zeros. */
  lemma ZeroCall(vs: seq<Width>, k: nat)
    ensures WellTyped(VARS, Long(0)) && AllWellTyped(VARS, VarsOf(vs))
    ensures EvalCall(Returns(k), VARS, Long(0), VarsOf(vs), map[]) == Some((0, map[]))
  {
    hide WellTyped, Eval, EvalArgs, VarsOf, VARS;
    VarsOfAreZero(Returns(k), vs);
    LongIs(Returns(k), map[]);
  }

  /** The machine hands over the stale cells. */
  lemma NarrowCall(vs: seq<Width>, k: nat)
    requires |vs| > MAX_PARAMETERS || (k < |vs| && vs[k] != B32)
    ensures var env, f, es, s := Returns(k), Long(0), VarsOf(vs), StaleStack(|vs| + 1);
            && Calls(VARS, f, es, s, vs)
            && !Pushed(B32, s, EvalCall(env, VARS, f, es, s.mem), ExecAll(env, Code(TypeCheck(Tree(VARS, Call(f, es)), false)), s))
  {
    hide Code, TypeCheck, Tree, ValueCode, ArgsCode, EvalCall, VarsOf, Cell, NeedArgs, WellTyped, Returns, ExecAll, Pushed, Widths, Need, Full;
    var env, f, es, s := Returns(k), Long(0), VarsOf(vs), StaleStack(|vs| + 1);
    CallFits(vs, env);
    ZeroCall(vs, k);
    CallCode(VARS, f, es);
    LongIs(env, s.mem);
    ExecThen(env, [Ld(B32, 0)] + ArgsCode(VARS, es), SysCallN(|vs| % 0x100), s);
    ExecAppend(env, [Ld(B32, 0)], ArgsCode(VARS, es), s);
    ExecOne(env, Ld(B32, 0), s);
    var s1 := Exec(env, Ld(B32, 0), s).value;
    StaleArgs(env, vs, s1);
    NarrowCallResult(vs, k, s, s1, ExecAll(env, ArgsCode(VARS, es), s1).value);
  }

  lemma NarrowCallResult(vs: seq<Width>, k: nat, s: State, s1: State, s2: State)
    requires |vs| > MAX_PARAMETERS || (k < |vs| && vs[k] != B32)
    requires s.sp == 0 && s1.sp == 1 && |s.stack| == |s1.stack| && Loaded(s1, s2, vs)
    ensures !Pushed(B32, s, Some((0, s.mem)), Exec(Returns(k), SysCallN(|vs| % 0x100), s2))
  {
    hide Cell;
    if |vs| <= MAX_PARAMETERS {
      assert Arguments(s2.stack, 1, |vs|)[k] == s2.stack[1 + k];
    }
  }

  /** Exactly: every call with arguments of widths vs is compiled faithfully if and only if there are
      at most 16 of them and each defines a whole word. */
  lemma CallExactly(vs: seq<Width>)
    ensures CallAgrees(vs) <==> |vs| <= MAX_PARAMETERS && AllFull(vs)
  {
    hide Pushed, EvalCall, Code, TypeCheck, Tree, WellTyped, CellBits, TypeOf, Full, Need, ExecAll;
    if |vs| <= MAX_PARAMETERS && AllFull(vs) {
      forall env: Env, ctx: Context, f: Expr, es: Exprs, s: State | Calls(ctx, f, es, s, vs)
        ensures Pushed(B32, s, EvalCall(env, ctx, f, es, s.mem), ExecAll(env, Code(TypeCheck(Tree(ctx, Call(f, es)), false)), s))
      {
        WideCall(env, ctx, f, es, s, vs);
      }
    } else {
      var k: nat :| |vs| > MAX_PARAMETERS || (k < |vs| && vs[k] != B32);
      NarrowCall(vs, k);
    }
  }

  // ---- operators without a width ---------------------------------------------------------

  /** An operator gets an instruction exactly when its left operand has a width. */
  lemma OperatorWithoutWidthEmitsNothing(ctx: Context, op: BinOp, l: Expr, r: Expr)
    requires WellTyped(ctx, l) && WellTyped(ctx, r)
    ensures Code(TypeCheck(Tree(ctx, Binary(op, l, r)), false)) == ValueCode(ctx, l) + ValueCode(ctx, r)
            <==> WidthOf(TypeOf(ctx, l)).None?
  {
    hide Code, TypeCheck, Tree, ValueCode;
    OperatorCode(ctx, op, l, r);
  }

  /** Without one, as after a call, the line leaves both operands on the stack instead of one value. */
  lemma OperatorWithoutWidthLeavesTwo(env: Env, ctx: Context, op: BinOp, l: Expr, r: Expr, s: State)
    requires WellTyped(ctx, l) && WellTyped(ctx, r) && WidthOf(TypeOf(ctx, l)).None?
    requires s.sp + Need(Binary(op, l, r)) <= |s.stack|
    ensures var ev := Eval(env, ctx, l, s.mem);
            var ex := ExecAll(env, Code(TypeCheck(Tree(ctx, Binary(op, l, r)), false)), s);
            if ev.None? then ex.None?
            else exists s1 :: Pushed(CellBits(ctx, l), s, ev, Some(s1)) && Pushed(CellBits(ctx, r), s1, Eval(env, ctx, r, ev.value.1), ex)
  {
    hide Code, TypeCheck, Tree, ValueCode, Eval, WellTyped, TypeOf;
    OperatorWithoutWidthEmitsNothing(ctx, op, l, r);
    ValueCorrect(env, ctx, l, s);
    ExecAppend(env, ValueCode(ctx, l), ValueCode(ctx, r), s);
    var s1 := ExecAll(env, ValueCode(ctx, l), s);
    if s1.Some? {
      ValueCorrect(env, ctx, r, s1.value);
      assert Pushed(CellBits(ctx, l), s, Eval(env, ctx, l, s.mem), Some(s1.value));
    }
  }
}
