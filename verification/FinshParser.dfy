/**
 The shell's parser: recursive descent over a token stream with one token of replay, one
 procedure per precedence level, nodes taken from a bounded table.
 */
module FinshParser {
  import opened FinshSyntax

  datatype Token =
    | TLParen | TRParen | TComma | TSemi
    | TStar | TPlus | TInc | TMinus | TDec | TSlash | TPercent
    | TAssign | TAmp | TBar | TCaret | TTilde | TShl | TShr
    | TVoid | TChar | TShort | TInt | TLong | TUnsigned
    | TValueChar(c: Byte) | TValueInt(v: Word) | TValueLong(v: Word) | TValueString(s: string) | TValueNull
    | TIdent(name: string)
    | TBad
    | TEof

  /** The parser between two calls: tokens not read yet, the current token and its replay
      flag, nodes left in the table, and whether an error was set. */
  datatype Parse = Parse(rest: seq<Token>, cur: Token, replay: bool, free: nat, err: bool)

  /** Tokens still to come; the end of input does not count. */
  function Remaining(p: Parse): nat {
    |p.rest| + (if p.replay && p.cur != TEof then 1 else 0)
  }

  /** finsh_token_token */
  function Next(p: Parse): (q: Parse)
    ensures !q.replay && q.free == p.free
    ensures Remaining(q) <= Remaining(p)
    ensures q.cur != TEof ==> Remaining(q) == Remaining(p) - 1
  {
    if p.replay then p.(replay := false)
    else if p.rest == [] then p.(cur := TEof)
    else p.(rest := p.rest[1..], cur := p.rest[0])
  }

  /** finsh_token_replay */
  function Replay(p: Parse): (q: Parse)
    ensures Remaining(p) <= Remaining(q) <= Remaining(p) + 1 && q.free == p.free
    ensures p.cur == TEof ==> Remaining(q) == Remaining(p)
  {
    p.(replay := true)
  }

  /** finsh_error_set */
  function Fail(p: Parse): Parse {
    p.(err := true)
  }

  /** match_token */
  function Match(p: Parse, t: Token): (q: Parse)
    ensures Remaining(q) <= Remaining(p) && q.free == p.free
  {
    var p1 := Next(p);
    if p1.cur == t then p1 else Fail(Replay(p1))
  }

  /** A value node, or nothing and an error when the table is full. */
  function NewLeaf(p: Parse, kind: Kind): (r: (Node, Parse))
    ensures Remaining(r.1) == Remaining(p)
  {
    if p.free == 0 then (Nil, Fail(p)) else (LeafNode(kind), p.(free := p.free - 1))
  }

  /** make_sys_node: an operator node; without a first operand it stays childless. */
  function MakeSysNode(p: Parse, kind: Kind, first: Node, second: Node): (r: (Node, Parse))
    ensures Remaining(r.1) == Remaining(p)
  {
    if p.free == 0 then (Nil, Fail(p))
    else if first.Nil? then (LeafNode(kind), Fail(p.(free := p.free - 1)))
    else (SysNode(kind, first, second), p.(free := p.free - 1))
  }

  // ---- types, for casts ------------------------------------------------------------------

  function BaseType(t: Token): Option<CType> {
    match t
    case TVoid => Some(CType.TVoid)
    case TChar => Some(CType.TChar)
    case TShort => Some(CType.TShort)
    case TInt => Some(CType.TInt)
    case TLong => Some(CType.TLong)
    case _ => None
  }

  function UnsignedOf(t: CType): CType {
    match t
    case TChar => TUChar
    case TShort => TUShort
    case TInt => TUInt
    case TLong => TULong
    case _ => TUnknown
  }

  function PointerTo(t: CType): CType {
    match t
    case TChar => TCharP
    case TUChar => TCharP
    case TShort => TShortP
    case TUShort => TShortP
    case TInt => TIntP
    case TUInt => TIntP
    case TLong => TLongP
    case TULong => TLongP
    case _ => TVoidP
  }

  function ProcPointer(p: Parse, ty: CType): (r: (CType, Parse))
    ensures Remaining(r.1) <= Remaining(p)
  {
    var p1 := Next(p);
    if p1.cur == TStar then (PointerTo(ty), p1) else (ty, Replay(p1))
  }

  function ProcType(p: Parse): (r: (CType, Parse))
    ensures Remaining(r.1) <= Remaining(p)
  {
    var p1 := Next(p);
    var base := BaseType(p1.cur);
    if base.Some? then ProcPointer(p1, base.value)
    else if p1.cur == TUnsigned then
      var p2 := Next(p1);
      var base2 := BaseType(p2.cur);
      if base2.None? then ProcPointer(Fail(Replay(p2)), TUnknown)
      else if base2.value == CType.TVoid then (TUnknown, Fail(Replay(p2)))
      else ProcPointer(p2, UnsignedOf(base2.value))
    else (TUnknown, Fail(Replay(p1)))
  }

  // ---- expressions -----------------------------------------------------------------------

  /** The binary operators of each level, from | (0) to * / % (5). */
  function OperatorAt(level: nat, t: Token): Option<BinOp> {
    match t
    case TBar => if level == 0 then Some(Or) else None
    case TCaret => if level == 1 then Some(Xor) else None
    case TAmp => if level == 2 then Some(And) else None
    case TShl => if level == 3 then Some(Shl) else None
    case TShr => if level == 3 then Some(Shr) else None
    case TPlus => if level == 4 then Some(Add) else None
    case TMinus => if level == 4 then Some(Sub) else None
    case TStar => if level == 5 then Some(Mul) else None
    case TSlash => if level == 5 then Some(Div) else None
    case TPercent => if level == 5 then Some(Mod) else None
    case _ => None
  }

  /** proc_assign_expr */
  function ProcAssign(ctx: Context, p: Parse): (r: (Node, Parse))
    ensures Remaining(r.1) <= Remaining(p)
    ensures Next(p).cur != TEof ==> Remaining(r.1) < Remaining(p)
    decreases Remaining(p), 20
  {
    var (left, p1) := ProcLevel(ctx, 0, p);
    var p2 := Next(p1);
    if p2.cur == TAssign then
      var (right, p3) := ProcAssign(ctx, p2);
      MakeSysNode(p3, SysAssign, left, right)
    else (left, Replay(p2))
  }

  /** proc_inclusive_or_expr .. proc_multiplicative_expr, one per level. */
  function ProcLevel(ctx: Context, level: nat, p: Parse): (r: (Node, Parse))
    requires level <= 5
    ensures Remaining(r.1) <= Remaining(p)
    ensures Next(p).cur != TEof ==> Remaining(r.1) < Remaining(p)
    decreases Remaining(p), 15 - level
  {
    var (first, p1) := if level == 5 then ProcCast(ctx, p) else ProcLevel(ctx, level + 1, p);
    LevelLoop(ctx, level, first, p1)
  }

  /** The loop of a level: operators of the level, left to right. */
  function LevelLoop(ctx: Context, level: nat, acc: Node, p: Parse): (r: (Node, Parse))
    requires level <= 5
    ensures Remaining(r.1) <= Remaining(p)
    decreases Remaining(p), 0
  {
    var p1 := Next(p);
    var op := OperatorAt(level, p1.cur);
    if op.None? then (acc, Replay(p1))
    else
      var (operand, p2) := if level == 5 then ProcCast(ctx, p1) else ProcLevel(ctx, level + 1, p1);
      if operand.Nil? then LevelLoop(ctx, level, acc, Fail(p2))
      else
        var (node, p3) := MakeSysNode(p2, SysBin(op.value), acc, operand);
        LevelLoop(ctx, level, node, p3)
  }

  /** proc_cast_expr: a leading parenthesis is always read as a cast. */
  function ProcCast(ctx: Context, p: Parse): (r: (Node, Parse))
    ensures Remaining(r.1) <= Remaining(p)
    ensures Next(p).cur != TEof ==> Remaining(r.1) < Remaining(p)
    decreases Remaining(p), 9
  {
    var p1 := Next(p);
    if p1.cur == TLParen then
      var (ty, p2) := ProcType(p1);
      var (cast, p4) := ProcCast(ctx, Match(p2, TRParen));
      if cast.Node? then (cast.(dtype := CTypeNumber(ty)), p4)
      else ProcUnary(ctx, Replay(p4))
    else ProcUnary(ctx, Replay(p1))
  }

  /** The prefix operators that become a node of their own. */
  function PrefixOf(t: Token): Option<UnOp> {
    match t
    case TInc => Some(PreInc)
    case TDec => Some(PreDec)
    case TTilde => Some(Complement)
    case TStar => Some(GetValue)
    case TAmp => Some(GetAddr)
    case _ => None
  }

  /** proc_unary_expr */
  function ProcUnary(ctx: Context, p: Parse): (r: (Node, Parse))
    ensures Remaining(r.1) <= Remaining(p)
    ensures Next(p).cur != TEof ==> Remaining(r.1) < Remaining(p)
    decreases Remaining(p), 8
  {
    var p1 := Next(p);
    if p1.cur == TPlus then ProcCast(ctx, p1)
    else if p1.cur == TMinus then
      var (operand, p2) := ProcCast(ctx, p1);
      var (zero, p3) := NewLeaf(p2, ValueLong(0));
      MakeSysNode(p3, SysBin(Sub), zero, operand)
    else
      var op := PrefixOf(p1.cur);
      if op.Some? then
        var (operand, p2) := ProcCast(ctx, p1);
        MakeSysNode(p2, SysUn(op.value), operand, Nil)
      else ProcPostfix(ctx, Replay(p1))
  }

  /** proc_postfix_expr */
  function ProcPostfix(ctx: Context, p: Parse): (r: (Node, Parse))
    ensures Remaining(r.1) <= Remaining(p)
    ensures Next(p).cur != TEof ==> Remaining(r.1) < Remaining(p)
    decreases Remaining(p), 7
  {
    var (first, p1) := ProcPrimary(ctx, p);
    PostfixLoop(ctx, first, p1)
  }

  function PostfixLoop(ctx: Context, acc: Node, p: Parse): (r: (Node, Parse))
    ensures Remaining(r.1) <= Remaining(p)
    decreases Remaining(p), 0
  {
    var p1 := Next(p);
    if p1.cur == TInc then
      var (node, p2) := MakeSysNode(p1, SysUn(PostInc), acc, Nil);
      PostfixLoop(ctx, node, p2)
    else if p1.cur == TDec then
      var (node, p2) := MakeSysNode(p1, SysUn(PostDec), acc, Nil);
      PostfixLoop(ctx, node, p2)
    else if p1.cur == TLParen then
      var p2 := Next(p1);
      var (params, p3) :=
        if p2.cur == TRParen then (Nil, p2)
        else
          var (list, p4) := ProcParams(ctx, Replay(p2));
          (list, Match(p4, TRParen));
      var (node, p5) := MakeSysNode(p3, SysFunc, acc, params);
      PostfixLoop(ctx, node, p5)
    else (acc, Replay(p1))
  }

  /** finsh_node_new_id */
  function NewId(ctx: Context, p: Parse, id: string): (r: (Node, Parse))
    ensures Remaining(r.1) == Remaining(p)
  {
    if id in ctx.symbols then NewLeaf(p, Id(ctx.symbols[id])) else (Nil, Fail(p))
  }

  /** proc_primary_expr */
  function ProcPrimary(ctx: Context, p: Parse): (r: (Node, Parse))
    ensures Remaining(r.1) <= Remaining(p)
    ensures Next(p).cur != TEof ==> Remaining(r.1) < Remaining(p)
    decreases Remaining(p), 6
  {
    var p1 := Next(p);
    match p1.cur
    case TIdent(id) => NewId(ctx, p1, id)
    case TLParen =>
      var (e, p2) := ProcAssign(ctx, p1);
      (e, Match(p2, TRParen))
    case TValueInt(v) => NewLeaf(p1, ValueInt(v))
    case TValueLong(v) => NewLeaf(p1, ValueLong(v))
    case TValueChar(c) => NewLeaf(p1, ValueChar(c))
    case TValueString(s) => NewLeaf(p1, ValueString(if s in ctx.strings then ctx.strings[s] else 0))
    case TValueNull => NewLeaf(p1, ValueNull(0))
    case _ => (Nil, Fail(p1))
  }

  /** proc_param_list: a chain of siblings; an empty parameter is an error and is skipped. */
  function ProcParams(ctx: Context, p: Parse): (r: (Node, Parse))
    ensures Remaining(r.1) <= Remaining(p)
    decreases Remaining(p), 21
  {
    var (first, p1) := ProcAssign(ctx, p);
    if first.Nil? then (Nil, p1)
    else
      var (others, p2) := ParamLoop(ctx, p1);
      (first.(sibling := others), p2)
  }

  function ParamLoop(ctx: Context, p: Parse): (r: (Node, Parse))
    ensures Remaining(r.1) <= Remaining(p)
    decreases Remaining(p), 0
  {
    var p1 := Next(p);
    if p1.cur == TComma then
      var (param, p2) := ProcAssign(ctx, p1);
      if param.Nil? then ParamLoop(ctx, Fail(p2))
      else
        var (others, p3) := ParamLoop(ctx, p2);
        (param.(sibling := others), p3)
    else (Nil, Replay(p1))
  }

  /** proc_expr_statement */
  function ProcStatement(ctx: Context, p: Parse): (r: (Node, Parse))
    ensures Remaining(r.1) <= Remaining(p)
    ensures Next(p).cur != TEof ==> Remaining(r.1) < Remaining(p)
  {
    var p1 := Next(p);
    if p1.cur == TSemi then (Nil, p1)
    else
      var (e, p2) := ProcAssign(ctx, Replay(p1));
      (e, Match(p2, TSemi))
  }

  predicate IsTypeToken(t: Token) {
    BaseType(t).Some? || t == TUnsigned
  }

  /** The statement loop of finsh_parser_run: the statements in order, as sibling nodes. An
      empty first statement ends the loop; a declaration ends this part of the model. Every
      round uses up a token, so the loop ends on every input. */
  function ProcProgram(ctx: Context, rooted: bool, p: Parse): (seq<Node>, Parse)
    decreases Remaining(p)
  {
    var p1 := Next(p);
    if p1.cur == TEof || p1.cur == TBad then ([], p1)
    else if IsTypeToken(p1.cur) then ([], Replay(p1))
    else
      var (n, p2) := ProcStatement(ctx, Replay(p1));
      if n.Node? then
        var (ns, p3) := ProcProgram(ctx, true, p2);
        ([n] + ns, p3)
      else if !rooted then ([], p2)
      else if p1.cur.TIdent? then ProcProgram(ctx, true, p2)
      else ProcProgram(ctx, true, Next(p2))
  }

  /** The statements linked as siblings. */
  function Chain(ns: seq<Node>): Node {
    if ns == [] then Nil
    else if ns[0].Nil? then Chain(ns[1..])
    else ns[0].(sibling := Chain(ns[1..]))
  }
}
