/**
 Laws between expressions: stepping is assigning, reading gives what was assigned, a dereferenced
 address is the variable, and a store touches its own bytes only.
 */
module FinshLaws {
  import opened FinshSyntax
  import opened FinshVm
  import opened FinshEval

  // ---- bytes -----------------------------------------------------------------------------

  function Bytes(w: Width): nat {
    match w
    case B8 => 1
    case B16 => 2
    case B32 => 4
  }

  /** The i-th byte of a number, lowest first. */
  function ByteOf(v: nat, i: nat): nat {
    if i == 0 then v % 0x100 else ByteOf(v / 0x100, i - 1)
  }

  lemma ByteParts(v: Word)
    ensures ByteOf(v, 0) == v % 0x100 && ByteOf(v, 1) == v / 0x100 % 0x100
    ensures ByteOf(v, 2) == v / 0x1_0000 % 0x100 && ByteOf(v, 3) == v / 0x100_0000 % 0x100
  {
    var a := v / 0x100;
    var b := a / 0x100;
    assert a / 0x100 == v / 0x1_0000 && b / 0x100 == v / 0x100_0000;
    assert ByteOf(v, 1) == ByteOf(a, 0) && ByteOf(v, 2) == ByteOf(a, 1) == ByteOf(b, 0);
    assert ByteOf(v, 3) == ByteOf(a, 2) == ByteOf(b, 1) == ByteOf(b / 0x100, 0);
  }

  lemma OffsetsDiffer(a: Word)
    ensures Offset(a, 0) == a
    ensures Offset(a, 1) != a && Offset(a, 2) != a && Offset(a, 3) != a
    ensures Offset(a, 1) != Offset(a, 2) && Offset(a, 1) != Offset(a, 3) && Offset(a, 2) != Offset(a, 3)
  {
  }

  /** A store writes its value little endian and nothing else. */
  lemma StoreIs(m: Memory, w: Width, a: Word, v: Word, i: nat)
    requires v < Modulus(w) && i < Bytes(w)
    ensures ByteAt(Store(m, w, a, v), Offset(a, i)) == ByteOf(v, i)
  {
    hide Offset, ByteOf;
    ByteParts(v);
    OffsetsDiffer(a);
    TopByte(w, v);
  }

  lemma TopByte(w: Width, v: Word)
    requires v < Modulus(w)
    ensures w == B8 ==> v % 0x100 == v
    ensures w == B16 ==> v / 0x100 % 0x100 == v / 0x100
    ensures v / 0x100_0000 % 0x100 == v / 0x100_0000
  {
  }

  lemma StoreElsewhere(m: Memory, w: Width, a: Word, v: Word, b: Word)
    requires v < Modulus(w) && forall i :: 0 <= i < Bytes(w) ==> Offset(a, i) != b
    ensures ByteAt(Store(m, w, a, v), b) == ByteAt(m, b)
  {
    hide Offset;
    OffsetsDiffer(a);
    assert Offset(a, 0) != b;
    if w != B8 {
      assert Offset(a, 1) != b;
    }
    if w == B32 {
      assert Offset(a, 2) != b && Offset(a, 3) != b;
    }
  }

  /** A load puts the bytes together, little endian. */
  lemma LoadIs(m: Memory, w: Width, a: Word, i: nat)
    requires i < Bytes(w)
    ensures ByteOf(Load(m, w, a), i) == ByteAt(m, Offset(a, i))
  {
    hide Offset, ByteOf, ByteAt;
    ByteParts(Load(m, w, a));
    OffsetsDiffer(a);
    Joined(ByteAt(m, a), ByteAt(m, Offset(a, 1)), ByteAt(m, Offset(a, 2)), ByteAt(m, Offset(a, 3)));
  }

  lemma Joined(b0: int, b1: int, b2: int, b3: int)
    requires 0 <= b0 < 0x100 && 0 <= b1 < 0x100 && 0 <= b2 < 0x100 && 0 <= b3 < 0x100
    ensures var v := b0 + 0x100 * b1 + 0x1_0000 * b2 + 0x100_0000 * b3;
            v % 0x100 == b0 && v / 0x100 % 0x100 == b1 && v / 0x1_0000 % 0x100 == b2 && v / 0x100_0000 % 0x100 == b3
    ensures var v := b0 + 0x100 * b1; v % 0x100 == b0 && v / 0x100 % 0x100 == b1
  {
    LowByte(b0, b1 + 0x100 * b2 + 0x1_0000 * b3);
    LowByte(b1, b2 + 0x100 * b3);
    LowByte(b2, b3);
    LowByte(b0, b1);
    ByteShifts(b0 + 0x100 * b1 + 0x1_0000 * b2 + 0x100_0000 * b3);
  }

  lemma LowByte(b: int, rest: int)
    requires 0 <= b < 0x100 && 0 <= rest
    ensures (b + 0x100 * rest) % 0x100 == b && (b + 0x100 * rest) / 0x100 == rest
  {
  }

  lemma ByteShifts(v: int)
    requires 0 <= v
    ensures v / 0x1_0000 == v / 0x100 / 0x100 && v / 0x100_0000 == v / 0x100 / 0x100 / 0x100
  {
  }

  // ---- variables -------------------------------------------------------------------------

  /** The size of a C type on a 32-bit machine, with pointers of four bytes. */
  function SizeInC(t: CType): nat {
    match t
    case TChar => 1
    case TUChar => 1
    case TShort => 2
    case TUShort => 2
    case _ => 4
  }

  /** A variable is read and written with as many bytes as its type has. */
  lemma VariableSize(t: CType)
    requires Loadable(t)
    ensures WidthOf(DataTypeOf(t)).Some? && Bytes(WidthOf(DataTypeOf(t)).value) == SizeInC(t)
  {
  }

  predicate IsShellVar(ctx: Context, id: string) {
    IsVariable(ctx, Name(id)) && ctx.symbols[id].ShellVar?
  }

  lemma VariableIs(env: Env, ctx: Context, id: string, m: Memory)
    requires IsVariable(ctx, Name(id))
    ensures var sym := ctx.symbols[id]; var w := WidthOf(DataTypeOf(sym.ty));
            && w.Some? && WellTyped(ctx, Name(id)) && Place(ctx, Name(id)) && TypeOf(ctx, Name(id)) == DataTypeOf(sym.ty)
            && Eval(env, ctx, Name(id), m) == Some((Load(m, w.value, sym.addr), m))
            && EvalPlace(env, ctx, Name(id), m) == Some((sym.addr, m))
  {
  }

  function StepSum(op: UnOp, id: string): Expr {
    Assign(Name(id), Binary(if op.PreInc? || op.PostInc? then Add else Sub, Name(id), Long(1)))
  }

  lemma LowOfSmall(w: Width, x: Word)
    requires x < Modulus(w)
    ensures Low(w, x) == x
  {
  }

  lemma OneIsSmall(w: Width)
    ensures Low(w, 1) == 1
  {
  }

  lemma StepTyped(ctx: Context, op: UnOp, id: string)
    requires IsShellVar(ctx, id) && (op.PreInc? || op.PreDec? || op.PostInc? || op.PostDec?)
    ensures WellTyped(ctx, Unary(op, Name(id))) && WellTyped(ctx, StepSum(op, id).r) && WellTyped(ctx, StepSum(op, id))
  {
  }

  lemma SumValue(env: Env, ctx: Context, op: BinOp, id: string, m: Memory)
    requires IsVariable(ctx, Name(id)) && (op == Add || op == Sub)
    ensures var e := Binary(op, Name(id), Long(1)); var sym := ctx.symbols[id]; var w := WidthOf(DataTypeOf(sym.ty));
            && WellTyped(ctx, e) && w.Some?
            && var x := Load(m, w.value, sym.addr);
               Eval(env, ctx, e, m) == Some((Wrap(w.value, if op == Add then x + 1 else x - 1), m))
  {
    hide Load, Low, Wrap, Signed;
    VariableIs(env, ctx, id, m);
    var w := WidthOf(DataTypeOf(ctx.symbols[id].ty)).value;
    OneIsSmall(w);
    LowOfSmall(w, Load(m, w, ctx.symbols[id].addr));
  }

  /** ++x is x = x + 1, and --x is x = x - 1, for variables of every width. */
  lemma PreStepAssigns(env: Env, ctx: Context, op: UnOp, id: string, m: Memory)
    requires IsShellVar(ctx, id) && (op.PreInc? || op.PreDec?)
    ensures WellTyped(ctx, Unary(op, Name(id))) && WellTyped(ctx, StepSum(op, id))
    ensures Eval(env, ctx, Unary(op, Name(id)), m) == Eval(env, ctx, StepSum(op, id), m)
  {
    hide Load, Store, Low, Wrap, Signed, Arith;
    StepTyped(ctx, op, id);
    VariableIs(env, ctx, id, m);
    SumValue(env, ctx, if op.PreInc? then Add else Sub, id, m);
    var w := WidthOf(DataTypeOf(ctx.symbols[id].ty)).value;
    LowOfSmall(w, Stepped(w, op, Load(m, w, ctx.symbols[id].addr)));
  }

  /** x++ and x-- have the old value of x, and the effect of ++x and --x. */
  lemma PostStepIs(env: Env, ctx: Context, op: UnOp, id: string, m: Memory)
    requires IsShellVar(ctx, id) && (op.PostInc? || op.PostDec?)
    ensures var pre := Unary(if op.PostInc? then PreInc else PreDec, Name(id));
            && WellTyped(ctx, Unary(op, Name(id))) && WellTyped(ctx, pre) && WellTyped(ctx, Name(id))
            && var post, x, p := Eval(env, ctx, Unary(op, Name(id)), m), Eval(env, ctx, Name(id), m), Eval(env, ctx, pre, m);
               x.Some? && p.Some? && post == Some((x.value.0, p.value.1))
  {
    hide Load, Store, Low, Wrap, Signed, Arith;
    StepTyped(ctx, op, id);
    VariableIs(env, ctx, id, m);
  }

  /** *&x is x. */
  lemma DereferencedAddress(env: Env, ctx: Context, id: string, m: Memory)
    requires IsVariable(ctx, Name(id))
    ensures var e := Unary(GetValue, Unary(GetAddr, Name(id)));
            WellTyped(ctx, e) && WellTyped(ctx, Name(id)) && Eval(env, ctx, e, m) == Eval(env, ctx, Name(id), m)
  {
    hide Load, Store;
    VariableIs(env, ctx, id, m);
  }

  /** After x = e the variable has the value of the assignment. */
  lemma ReadsAssigned(env: Env, ctx: Context, id: string, e: Expr, m: Memory)
    requires IsVariable(ctx, Name(id)) && WellTyped(ctx, Assign(Name(id), e)) && WellTyped(ctx, Name(id))
    ensures var r := Eval(env, ctx, Assign(Name(id), e), m);
            r.Some? ==> Eval(env, ctx, Name(id), r.value.1) == r
  {
    hide Load, Store, Low;
    VariableIs(env, ctx, id, m);
    var sym := ctx.symbols[id];
    var w := WidthOf(DataTypeOf(sym.ty)).value;
    var y := Eval(env, ctx, e, m);
    if y.Some? {
      LoadAfterStore(y.value.1, w, sym.addr, Low(w, y.value.0));
      VariableIs(env, ctx, id, Store(y.value.1, w, sym.addr, Low(w, y.value.0)));
    }
  }
}
