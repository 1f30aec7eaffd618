/**
 The shell's data: machine words, types, symbols, the child/sibling nodes that the parser
 links and the compiler walks, and the expressions those nodes stand for.
 */
module FinshSyntax {

  type Word = x: int | 0 <= x < 0x1_0000_0000
  type Byte = x: int | 0 <= x < 0x100

  datatype Option<+T> = None | Some(value: T)

  /** The three operand widths of the bytecode. */
  datatype Width = B8 | B16 | B32

  /** Number of values of a width. */
  function Modulus(w: Width): (m: int)
    ensures 0x100 <= m <= 0x1_0000_0000
  {
    match w
    case B8 => 0x100
    case B16 => 0x1_0000
    case B32 => 0x1_0000_0000
  }

  predicate AtLeast(w: Width, v: Width) {
    Modulus(w) >= Modulus(v)
  }

  /** The low bits of a cell, as the char, short or long member of the union reads them. */
  function Low(w: Width, x: Word): (r: Word)
    ensures r < Modulus(w)
  {
    match w
    case B8 => x % 0x100
    case B16 => x % 0x1_0000
    case B32 => x
  }

  lemma LowByteOfSum(k: int, r: int)
    requires 0 <= r < 0x100
    ensures (0x100 * k + r) % 0x100 == r
  {
  }

  lemma LowHalfOfSum(k: int, r: int)
    requires 0 <= r < 0x1_0000
    ensures (0x1_0000 * k + r) % 0x1_0000 == r
  {
  }

  /** Writing the char, short or long member of the union: the bits above it stay. */
  function SetLow(w: Width, x: Word, v: Word): (r: Word)
    requires v < Modulus(w)
    ensures Low(w, r) == v
    ensures w == B32 ==> r == v
  {
    match w
    case B8 => LowByteOfSum(x / 0x100, v); 0x100 * (x / 0x100) + v
    case B16 => LowHalfOfSum(x / 0x1_0000, v); 0x1_0000 * (x / 0x1_0000) + v
    case B32 => v
  }

  lemma LowByteOfLowHalf(x: Word)
    ensures x % 0x100 == x % 0x1_0000 % 0x100
  {
    var q, r := x / 0x1_0000, x % 0x1_0000;
    var q1, r1 := r / 0x100, r % 0x100;
    assert x == 0x1_0000 * q + r && r == 0x100 * q1 + r1;
    LowByteOfSum(0x100 * q + q1, r1);
  }

  /** Agreement on more bits is agreement on fewer. */
  lemma LowOfLow(w: Width, v: Width, x: Word, y: Word)
    requires AtLeast(w, v) && Low(w, x) == Low(w, y)
    ensures Low(v, x) == Low(v, y)
  {
    if w == B16 && v == B8 {
      LowByteOfLowHalf(x);
      LowByteOfLowHalf(y);
    }
  }

  // ---- types and symbols -----------------------------------------------------------------

  /** enum finsh_type, in its numbering order. */
  datatype CType =
    | TUnknown | TVoid | TVoidP
    | TChar | TUChar | TCharP
    | TShort | TUShort | TShortP
    | TInt | TUInt | TIntP
    | TLong | TULong | TLongP

  function CTypeNumber(t: CType): nat {
    match t
    case TUnknown => 0
    case TVoid => 1
    case TVoidP => 2
    case TChar => 3
    case TUChar => 4
    case TCharP => 5
    case TShort => 6
    case TUShort => 7
    case TShortP => 8
    case TInt => 9
    case TUInt => 10
    case TIntP => 11
    case TLong => 12
    case TULong => 13
    case TLongP => 14
  }

  const DT_VOID: nat := 0
  const DT_BYTE: nat := 1
  const DT_WORD: nat := 2
  const DT_DWORD: nat := 3

  /** The width the type check records for a variable of this type (void is no width). */
  function DataTypeOf(t: CType): nat {
    match t
    case TUnknown => DT_VOID
    case TVoid => DT_VOID
    case TChar => DT_BYTE
    case TUChar => DT_BYTE
    case TShort => DT_WORD
    case TUShort => DT_WORD
    case _ => DT_DWORD
  }

  /** The types the compiler has a load instruction for: all but unknown, void and void*. */
  predicate Loadable(t: CType) {
    !t.TUnknown? && !t.TVoid? && !t.TVoidP?
  }

  function WidthOf(dt: nat): Option<Width> {
    if dt == DT_BYTE then Some(B8)
    else if dt == DT_WORD then Some(B16)
    else if dt == DT_DWORD then Some(B32)
    else None
  }

  /** What a name can stand for: a shell variable (addr is where its value lives), a system
      variable or a system call (record is where its table entry lives). */
  datatype Symbol =
    | ShellVar(ty: CType, addr: Word)
    | SysVar(ty: CType, addr: Word, record: Word)
    | SysCall(addr: Word, record: Word)

  /** The symbol tables, and where each string constant is placed in the shell's heap. */
  datatype Context = Context(symbols: map<string, Symbol>, strings: map<string, Word>)

  // ---- nodes -----------------------------------------------------------------------------

  datatype BinOp = Add | Sub | Mul | Div | Mod | And | Or | Xor | Shl | Shr

  datatype UnOp = Complement | GetValue | GetAddr | PreInc | PreDec | PostInc | PostDec

  datatype Kind =
    | Id(sym: Symbol)
    | ValueChar(c: Byte)
    | ValueInt(v: Word)
    | ValueLong(v: Word)
    | ValueString(v: Word)
    | ValueNull(v: Word)
    | SysBin(bop: BinOp)
    | SysUn(uop: UnOp)
    | SysAssign
    | SysFunc
    | SysCast
    | SysNull

  /** A parse node: dtype is data_type, isAddr the ADDRESS bit of idtype. */
  datatype Node =
    | Nil
    | Node(kind: Kind, dtype: nat, isAddr: bool, child: Node, sibling: Node)

  /** make_sys_node on existing operands: first becomes the child, second its sibling. */
  function SysNode(kind: Kind, first: Node, second: Node): Node
    requires first.Node?
  {
    Node(kind, DT_VOID, false, first.(sibling := second), Nil)
  }

  function LeafNode(kind: Kind): Node {
    Node(kind, DT_VOID, false, Nil, Nil)
  }

  // ---- expressions -----------------------------------------------------------------------

  datatype Expr =
    | Char(c: Byte)
    | Int(v: Word)
    | Long(v: Word)
    | Null
    | Str(s: string)
    | Name(id: string)
    | Unary(uop: UnOp, e: Expr)
    | Binary(bop: BinOp, l: Expr, r: Expr)
    | Assign(l: Expr, r: Expr)
    | Call(f: Expr, args: Exprs)

  datatype Exprs = Empty | Cons(head: Expr, tail: Exprs)

  function Count(es: Exprs): nat {
    if es.Empty? then 0 else 1 + Count(es.tail)
  }

  /** Every name and every string of the expression is known to the context. */
  predicate Resolved(ctx: Context, e: Expr) {
    match e
    case Name(id) => id in ctx.symbols
    case Str(s) => s in ctx.strings
    case Unary(_, a) => Resolved(ctx, a)
    case Binary(_, l, r) => Resolved(ctx, l) && Resolved(ctx, r)
    case Assign(l, r) => Resolved(ctx, l) && Resolved(ctx, r)
    case Call(f, args) => Resolved(ctx, f) && AllResolved(ctx, args)
    case _ => true
  }

  predicate AllResolved(ctx: Context, es: Exprs) {
    es.Cons? ==> Resolved(ctx, es.head) && AllResolved(ctx, es.tail)
  }

  /** The node tree of an expression, linked as the parser links it. */
  function Tree(ctx: Context, e: Expr): (n: Node)
    requires Resolved(ctx, e)
    ensures n.Node? && n.sibling == Nil
    decreases e
  {
    match e
    case Char(c) => LeafNode(ValueChar(c))
    case Int(v) => LeafNode(ValueInt(v))
    case Long(v) => LeafNode(ValueLong(v))
    case Null => LeafNode(ValueNull(0))
    case Str(s) => LeafNode(ValueString(ctx.strings[s]))
    case Name(id) => LeafNode(Id(ctx.symbols[id]))
    case Unary(op, a) => SysNode(SysUn(op), Tree(ctx, a), Nil)
    case Binary(op, l, r) => SysNode(SysBin(op), Tree(ctx, l), Tree(ctx, r))
    case Assign(l, r) => SysNode(SysAssign, Tree(ctx, l), Tree(ctx, r))
    case Call(f, args) => SysNode(SysFunc, Tree(ctx, f), Trees(ctx, args))
  }

  /** The sibling chain of a parameter list. */
  function Trees(ctx: Context, es: Exprs): Node
    requires AllResolved(ctx, es)
    decreases es
  {
    if es.Empty? then Nil
    else
      var n := Tree(ctx, es.head);
      Node(n.kind, n.dtype, n.isAddr, n.child, Trees(ctx, es.tail))
  }
}
