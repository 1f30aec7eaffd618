/**
 What a shell expression means: a direct evaluator on expressions and memory, the conditions
 under which the compiler honours it, and the code each expression is expected to become.
 */
module FinshEval {
  import opened FinshSyntax
  import opened FinshVm
  import opened FinshCompiler

  // ---- typing ----------------------------------------------------------------------------

  /** The width mark of an expression: that of its leftmost leaf. */
  function TypeOf(ctx: Context, e: Expr): nat
    requires Resolved(ctx, e)
  {
    match e
    case Char(_) => DT_BYTE
    case Name(id) =>
      var sym := ctx.symbols[id];
      if sym.SysCall? then DT_VOID else DataTypeOf(sym.ty)
    case Unary(_, a) => TypeOf(ctx, a)
    case Binary(_, l, _) => TypeOf(ctx, l)
    case Assign(l, _) => TypeOf(ctx, l)
    case Call(f, _) => TypeOf(ctx, f)
    case _ => DT_DWORD
  }

  /** Does the cell this expression leaves have all 32 bits defined? */
  predicate Full(ctx: Context, e: Expr)
    requires Resolved(ctx, e)
  {
    || TypeOf(ctx, e) == DT_DWORD
    || e.Call?
    || (e.Unary? && e.uop.GetAddr?)
    || (e.Name? && ctx.symbols[e.id].SysCall?)
  }

  /** How many low bits of the cell are defined. */
  function CellBits(ctx: Context, e: Expr): Width
    requires Resolved(ctx, e)
  {
    if Full(ctx, e) then B32
    else match WidthOf(TypeOf(ctx, e)) case Some(w) => w case None => B8
  }

  predicate IsVariable(ctx: Context, e: Expr) {
    e.Name? && e.id in ctx.symbols
    && !ctx.symbols[e.id].SysCall? && Loadable(ctx.symbols[e.id].ty)
  }

  /** Something that can be assigned to: a variable, or * applied to a whole word. */
  predicate Place(ctx: Context, e: Expr)
    ensures Place(ctx, e) ==> Resolved(ctx, e)
    decreases e, 0
  {
    || IsVariable(ctx, e)
    || (e.Unary? && e.uop.GetValue? && WellTyped(ctx, e.e) && Full(ctx, e.e))
  }

  /** The expressions the compiler translates faithfully. Each clause is a choice of the code:
      an operator node needs one of the three widths, its right operand must define at least
      that many bits, only shell variables step, and call arguments are whole words. */
  predicate WellTyped(ctx: Context, e: Expr)
    ensures WellTyped(ctx, e) ==> Resolved(ctx, e)
    decreases e, 1
  {
    match e
    case Str(s) => s in ctx.strings
    case Name(id) => id in ctx.symbols && (ctx.symbols[id].SysCall? || Loadable(ctx.symbols[id].ty))
    case Unary(Complement, a) => WellTyped(ctx, a) && WidthOf(TypeOf(ctx, a)).Some?
    case Unary(GetValue, a) => WellTyped(ctx, a) && Full(ctx, a) && WidthOf(TypeOf(ctx, a)).Some?
    case Unary(GetAddr, a) => Place(ctx, a)
    case Unary(_, a) => IsVariable(ctx, a) && ctx.symbols[a.id].ShellVar?
    case Binary(_, l, r) =>
      && WellTyped(ctx, l) && WellTyped(ctx, r)
      && WidthOf(TypeOf(ctx, l)).Some?
      && AtLeast(CellBits(ctx, r), WidthOf(TypeOf(ctx, l)).value)
    case Assign(l, r) =>
      && Place(ctx, l) && WellTyped(ctx, r)
      && WidthOf(TypeOf(ctx, l)).Some?
      && AtLeast(CellBits(ctx, r), WidthOf(TypeOf(ctx, l)).value)
    case Call(f, args) =>
      && WellTyped(ctx, f) && Full(ctx, f) && WholeWords(ctx, args)
      && Count(args) <= MAX_PARAMETERS
    case _ => true
  }

  predicate AllWellTyped(ctx: Context, es: Exprs)
    ensures AllWellTyped(ctx, es) ==> AllResolved(ctx, es)
    decreases es, 0
  {
    es.Cons? ==> WellTyped(ctx, es.head) && AllWellTyped(ctx, es.tail)
  }

  predicate WholeWords(ctx: Context, es: Exprs)
    ensures WholeWords(ctx, es) ==> AllWellTyped(ctx, es)
    decreases es, 1
  {
    es.Cons? ==> WellTyped(ctx, es.head) && Full(ctx, es.head) && WholeWords(ctx, es.tail)
  }

  // ---- evaluation ------------------------------------------------------------------------

  /** The variable stepped by one. */
  function Stepped(w: Width, op: UnOp, x: Word): (r: Word)
    ensures r < Modulus(w)
  {
    if op.PreInc? || op.PostInc? then Wrap(w, x + 1) else Wrap(w, x - 1)
  }

  /** Value and memory after an expression, operands from left to right; None where an
      operator has no defined result. */
  function Eval(env: Env, ctx: Context, e: Expr, m: Memory): Option<(Word, Memory)>
    requires WellTyped(ctx, e)
    decreases e, 1
  {
    match e
    case Char(c) => Some((c, m))
    case Int(v) => Some((v, m))
    case Long(v) => Some((v, m))
    case Null => Some((0, m))
    case Str(s) => Some((ctx.strings[s], m))
    case Name(id) =>
      var sym := ctx.symbols[id];
      if sym.SysCall? then Some((sym.addr, m))
      else Some((Load(m, WidthOf(DataTypeOf(sym.ty)).value, sym.addr), m))
    case Unary(Complement, a) =>
      var w := WidthOf(TypeOf(ctx, a)).value;
      (match Eval(env, ctx, a, m)
       case None => None
       case Some((x, m1)) => Some((Complemented(w, Low(w, x)), m1)))
    case Unary(GetValue, a) =>
      (match Eval(env, ctx, a, m)
       case None => None
       case Some((x, m1)) => Some((Load(m1, WidthOf(TypeOf(ctx, a)).value, x), m1)))
    case Unary(GetAddr, a) => EvalPlace(env, ctx, a, m)
    case Unary(op, a) =>
      var sym := ctx.symbols[a.id];
      var w := WidthOf(DataTypeOf(sym.ty)).value;
      var x := Load(m, w, sym.addr);
      var y := Stepped(w, op, x);
      Some((if op.PreInc? || op.PreDec? then y else x, Store(m, w, sym.addr, y)))
    case Binary(op, l, r) =>
      var w := WidthOf(TypeOf(ctx, l)).value;
      (match Eval(env, ctx, l, m)
       case None => None
       case Some((x, m1)) =>
         match Eval(env, ctx, r, m1)
         case None => None
         case Some((y, m2)) =>
           match Arith(env, op, w, Low(w, x), Low(w, y))
           case None => None
           case Some(z) => Some((z, m2)))
    case Assign(l, r) =>
      var w := WidthOf(TypeOf(ctx, l)).value;
      (match EvalPlace(env, ctx, l, m)
       case None => None
       case Some((a, m1)) =>
         match Eval(env, ctx, r, m1)
         case None => None
         case Some((y, m2)) => Some((Low(w, y), Store(m2, w, a, Low(w, y)))))
    case Call(f, args) =>
      (match Eval(env, ctx, f, m)
       case None => None
       case Some((a, m1)) =>
         match EvalArgs(env, ctx, args, m1)
         case None => None
         case Some((vs, m2)) =>
           var (ret, m3) := env.call(a, if vs == [] then [0] else vs, m2);
           Some((ret, m3)))
  }

  /** The address a place names. */
  function EvalPlace(env: Env, ctx: Context, e: Expr, m: Memory): Option<(Word, Memory)>
    requires Place(ctx, e)
    decreases e, 0
  {
    if e.Name? then Some((ctx.symbols[e.id].addr, m)) else Eval(env, ctx, e.e, m)
  }

  function EvalArgs(env: Env, ctx: Context, es: Exprs, m: Memory): (r: Option<(seq<Word>, Memory)>)
    requires AllWellTyped(ctx, es)
    ensures r.Some? ==> |r.value.0| == Count(es)
    decreases es
  {
    if es.Empty? then Some(([], m))
    else
      match Eval(env, ctx, es.head, m)
      case None => None
      case Some((v, m1)) =>
        match EvalArgs(env, ctx, es.tail, m1)
        case None => None
        case Some((vs, m2)) => Some(([v] + vs, m2))
  }

  // ---- expected code and stack need ------------------------------------------------------

  function Max(a: nat, b: nat): nat {
    if a > b then a else b
  }

  /** Cells an expression may use above the stack pointer. */
  function Need(e: Expr): (r: nat)
    ensures r >= 1
  {
    match e
    case Unary(op, a) =>
      (match op
       case PreInc => 3
       case PreDec => 3
       case PostInc => 4
       case PostDec => 4
       case _ => Need(a))
    case Binary(_, l, r) => Max(Need(l), 1 + Need(r))
    case Assign(l, r) => Max(Need(l), 1 + Need(r))
    case Call(f, args) => Max(Need(f), NeedArgs(1, args))
    case _ => 1
  }

  function NeedArgs(k: nat, es: Exprs): nat
    decreases es
  {
    if es.Empty? then 0 else Max(k + Need(es.head), NeedArgs(k + 1, es.tail))
  }

  function ValueCode(ctx: Context, e: Expr): seq<Instr>
    requires WellTyped(ctx, e)
    decreases e, 1
  {
    match e
    case Char(c) => [Ld(B8, c)]
    case Int(v) => [Ld(B32, v)]
    case Long(v) => [Ld(B32, v)]
    case Null => [Ld(B32, 0)]
    case Str(s) => [Ld(B32, ctx.strings[s])]
    case Name(id) =>
      var sym := ctx.symbols[id];
      if sym.SysCall? then [Ld(B32, sym.addr)] else LoadCode(sym.ty, sym.addr, false)
    case Unary(Complement, a) => ValueCode(ctx, a) + [BitNot(WidthOf(TypeOf(ctx, a)).value)]
    case Unary(GetValue, a) => ValueCode(ctx, a) + [LdStack(WidthOf(TypeOf(ctx, a)).value)]
    case Unary(GetAddr, a) => PlaceCode(ctx, a)
    case Unary(op, a) =>
      var sym := ctx.symbols[a.id];
      var w := WidthOf(DataTypeOf(sym.ty)).value;
      (match op
       case PreInc => [Ld(B32, sym.addr)] + PreCode(Add, w, sym.addr)
       case PreDec => [Ld(B32, sym.addr)] + PreCode(Sub, w, sym.addr)
       case PostInc => [LdValue(w, sym.addr)] + PostCode(Add, w, sym.addr)
       case _ => [LdValue(w, sym.addr)] + PostCode(Sub, w, sym.addr))
    case Binary(op, l, r) =>
      ValueCode(ctx, l) + ValueCode(ctx, r) + [Bin(op, WidthOf(TypeOf(ctx, l)).value)]
    case Assign(l, r) => PlaceCode(ctx, l) + ValueCode(ctx, r) + StoreCode(TypeOf(ctx, l))
    case Call(f, args) => ValueCode(ctx, f) + ArgsCode(ctx, args) + [SysCallN(Count(args))]
  }

  function PlaceCode(ctx: Context, e: Expr): seq<Instr>
    requires Place(ctx, e)
    decreases e, 0
  {
    if e.Name? then [Ld(B32, ctx.symbols[e.id].addr)] else ValueCode(ctx, e.e)
  }

  function ArgsCode(ctx: Context, es: Exprs): seq<Instr>
    requires AllWellTyped(ctx, es)
    decreases es
  {
    if es.Empty? then [] else ValueCode(ctx, es.head) + ArgsCode(ctx, es.tail)
  }

  // ---- the type check and the code generator produce that code ---------------------------

  /** Checking and compiling the tree of a well-typed expression yields its expected code,
      its width mark, and no error. */
  lemma {:induction false} CompiledValue(ctx: Context, e: Expr)
    requires WellTyped(ctx, e)
    ensures Compiles(ctx, e)
    decreases e, 1
  {
    match e {
      case Unary(op, a) =>
        if op.Complement? || op.GetValue? {
          CompiledValue(ctx, a);
          CompiledOperand(ctx, op, a);
        } else if op.GetAddr? {
          CompiledPlace(ctx, a);
          CompiledAddress(ctx, a);
        } else {
          CompiledStep(ctx, op, a);
        }
      case Binary(op, l, r) =>
        CompiledValue(ctx, l);
        CompiledValue(ctx, r);
        CompiledBinary(ctx, op, l, r);
      case Assign(l, r) =>
        CompiledPlace(ctx, l);
        CompiledValue(ctx, r);
        CompiledAssign(ctx, l, r);
      case Call(f, args) =>
        CompiledValue(ctx, f);
        CompiledArgs(ctx, args);
        CompiledCall(ctx, f, args);
      case _ =>
        var n := TypeCheck(Tree(ctx, e), false);
        assert Code(n) == [] + OwnCode(n) + [];
    }
  }

  /** The claim of CompiledValue for one expression. */
  ghost predicate Compiles(ctx: Context, e: Expr)
    requires WellTyped(ctx, e)
  {
    var n := TypeCheck(Tree(ctx, e), false);
    && n.Node? && n.sibling == Nil && n.dtype == TypeOf(ctx, e)
    && Code(n) == ValueCode(ctx, e) && !Errors(n)
  }

  /** The claim of CompiledPlace for one place. */
  ghost predicate CompilesAsPlace(ctx: Context, e: Expr)
    requires Place(ctx, e)
  {
    var n := TypeCheck(Tree(ctx, e), true);
    && n.Node? && n.sibling == Nil && n.dtype == TypeOf(ctx, e)
    && n.kind == Tree(ctx, e).kind
    && Code(n) == PlaceCode(ctx, e) && !Errors(n)
  }

  lemma CompiledOperand(ctx: Context, op: UnOp, a: Expr)
    requires (op.Complement? || op.GetValue?) && WellTyped(ctx, Unary(op, a)) && Compiles(ctx, a)
    ensures Compiles(ctx, Unary(op, a))
  {
    CodeOfSysNode(SysUn(op), Tree(ctx, a), Nil, false);
  }

  lemma CompiledAddress(ctx: Context, a: Expr)
    requires Place(ctx, a) && CompilesAsPlace(ctx, a)
    ensures Compiles(ctx, Unary(GetAddr, a))
  {
    CodeOfSysNode(SysUn(GetAddr), Tree(ctx, a), Nil, false);
  }

  lemma CompiledStep(ctx: Context, op: UnOp, a: Expr)
    requires WellTyped(ctx, Unary(op, a))
    requires op.PreInc? || op.PreDec? || op.PostInc? || op.PostDec?
    ensures Compiles(ctx, Unary(op, a))
  {
    CodeOfSysNode(SysUn(op), Tree(ctx, a), Nil, false);
    var c := TypeCheck(Tree(ctx, a), op.PreInc? || op.PreDec?);
    assert Code(c) == [] + OwnCode(c) + [] && !Errors(c);
  }

  lemma CompiledBinary(ctx: Context, op: BinOp, l: Expr, r: Expr)
    requires WellTyped(ctx, Binary(op, l, r)) && Compiles(ctx, l) && Compiles(ctx, r)
    ensures Compiles(ctx, Binary(op, l, r))
  {
    CodeOfSysNode(SysBin(op), Tree(ctx, l), Tree(ctx, r), false);
    ErrorsLinked(TypeCheck(Tree(ctx, l), false), TypeCheck(Tree(ctx, r), false));
  }

  /** An assignment to a name or through a pointer, of a width there is a store for. */
  lemma AssignNode(l: Node, r: Node)
    requires l.Node? && l.sibling == Nil && (l.kind.Id? || l.kind == SysUn(GetValue))
    requires !Errors(TypeCheck(l, true)) && !Errors(TypeCheck(r, false))
    requires var d := TypeCheck(l, true).dtype; WidthOf(d).Some? && d % 0x10 == d
    ensures var n := TypeCheck(SysNode(SysAssign, l, r), false);
            var c, cs := TypeCheck(l, true), TypeCheck(r, false);
            && n.Node? && n.sibling == Nil && n.dtype == c.dtype && !Errors(n)
            && Code(n) == Code(c) + Code(cs) + StoreCode(c.dtype)
  {
    CodeOfSysNode(SysAssign, l, r, false);
    ErrorsLinked(TypeCheck(l, true), TypeCheck(r, false));
  }

  lemma PlaceNode(ctx: Context, l: Expr, r: Expr)
    requires WellTyped(ctx, Assign(l, r))
    ensures var n := Tree(ctx, l); n.Node? && n.sibling == Nil && (n.kind.Id? || n.kind == SysUn(GetValue))
    ensures WidthOf(TypeOf(ctx, l)).Some? && TypeOf(ctx, l) % 0x10 == TypeOf(ctx, l)
  {
  }

  lemma CompiledAssign(ctx: Context, l: Expr, r: Expr)
    requires WellTyped(ctx, Assign(l, r)) && CompilesAsPlace(ctx, l) && Compiles(ctx, r)
    ensures Compiles(ctx, Assign(l, r))
  {
    hide TypeCheck, Code, Errors, StoreCode;
    PlaceNode(ctx, l, r);
    AssignNode(Tree(ctx, l), Tree(ctx, r));
  }

  lemma FuncNode(f: Node, args: Node)
    requires f.Node? && f.sibling == Nil
    requires !Errors(TypeCheck(f, false)) && !Errors(TypeCheck(args, false))
    requires Siblings(TypeCheck(args, false)) < 0x100
    ensures var n := TypeCheck(SysNode(SysFunc, f, args), false);
            var c, cs := TypeCheck(f, false), TypeCheck(args, false);
            && n.Node? && n.sibling == Nil && n.dtype == c.dtype && !Errors(n)
            && Code(n) == Code(c) + Code(cs) + [SysCallN(Siblings(cs))]
  {
    CodeOfSysNode(SysFunc, f, args, false);
    ErrorsLinked(TypeCheck(f, false), TypeCheck(args, false));
  }

  lemma CompiledCall(ctx: Context, f: Expr, args: Exprs)
    requires WellTyped(ctx, Call(f, args)) && Compiles(ctx, f)
    requires var n := TypeCheck(Trees(ctx, args), false);
             Siblings(n) == Count(args) && Code(n) == ArgsCode(ctx, args) && !Errors(n)
    ensures Compiles(ctx, Call(f, args))
  {
    FuncNode(Tree(ctx, f), Trees(ctx, args));
  }

  lemma ErrorsLinked(n: Node, sib: Node)
    requires n.Node? && n.sibling == Nil && !Errors(n) && !Errors(sib)
    ensures !Errors(n.(sibling := sib))
  {
    assert OwnError(n.(sibling := sib)) == OwnError(n);
  }

  lemma {:induction false} CompiledPlace(ctx: Context, e: Expr)
    requires Place(ctx, e)
    ensures CompilesAsPlace(ctx, e)
    decreases e, 0
  {
    if e.Name? {
      var n := TypeCheck(Tree(ctx, e), true);
      assert Code(n) == [] + OwnCode(n) + [];
    } else {
      CodeOfSysNode(SysUn(GetValue), Tree(ctx, e.e), Nil, true);
      CompiledValue(ctx, e.e);
    }
  }

  lemma {:induction false} CompiledArgs(ctx: Context, es: Exprs)
    requires AllWellTyped(ctx, es)
    ensures var n := TypeCheck(Trees(ctx, es), false);
            Siblings(n) == Count(es) && Code(n) == ArgsCode(ctx, es) && !Errors(n)
    decreases es
  {
    if es.Cons? {
      var n := Tree(ctx, es.head);
      var sib := Trees(ctx, es.tail);
      assert Trees(ctx, es) == n.(sibling := sib);
      CheckLinked(n, sib, false);
      CompiledValue(ctx, es.head);
      CompiledArgs(ctx, es.tail);
      CodeLinked(TypeCheck(n, false), TypeCheck(sib, false));
      ErrorsLinked(TypeCheck(n, false), TypeCheck(sib, false));
    }
  }
}
