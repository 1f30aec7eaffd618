/**
 The shell's compiler: the type check that marks nodes with a width and an address flag, and
 the post-order code generation that writes instructions into the text segment.
 */
module FinshCompiler {
  import opened FinshSyntax
  import opened FinshVm

  // ---- finsh_type_check ------------------------------------------------------------------

  /** Is the child of this node checked as an address? */
  function ChildFlag(kind: Kind, isAddr: bool): bool {
    if kind.SysAssign? || kind == SysUn(PreInc) || kind == SysUn(PreDec) || kind == SysUn(GetAddr) then true
    else if kind == SysUn(GetValue) && isAddr then false
    else isAddr
  }

  /** The width recorded for a node without children. */
  function LeafType(kind: Kind, before: nat): nat {
    match kind
    case Id(ShellVar(ty, _)) => if ty.TUnknown? then before else DataTypeOf(ty)
    case Id(SysVar(ty, _, _)) => if ty.TUnknown? then before else DataTypeOf(ty)
    case ValueChar(_) => DT_BYTE
    case ValueInt(_) => DT_DWORD
    case ValueLong(_) => DT_DWORD
    case ValueString(_) => DT_DWORD
    case ValueNull(_) => DT_DWORD
    case _ => before
  }

  function TypeCheck(n: Node, isAddr: bool): (r: Node)
    ensures r.Node? == n.Node?
  {
    if n.Nil? then Nil
    else
      var c := TypeCheck(n.child, ChildFlag(n.kind, isAddr));
      Node(n.kind,
           if c.Node? then c.dtype else LeafType(n.kind, n.dtype),
           if n.kind.Id? && n.kind.sym.SysCall? then n.isAddr else n.isAddr || isAddr,
           c,
           TypeCheck(n.sibling, false))
  }

  // ---- finsh_compile ---------------------------------------------------------------------

  /** Offset of value in struct finsh_var: a name of 17 bytes, a type byte, padding. */
  const VALUE_OFFSET: nat := 20

  /** &(id.var->value): the variable, or, for the other symbols, the place that the same
      offset into their table entry happens to name. */
  function VarField(sym: Symbol): Word {
    match sym
    case ShellVar(_, a) => a
    case SysVar(_, _, r) => (r + VALUE_OFFSET) % 0x1_0000_0000
    case SysCall(_, r) => (r + VALUE_OFFSET) % 0x1_0000_0000
  }

  function Siblings(n: Node): nat {
    if n.Nil? then 0 else 1 + Siblings(n.sibling)
  }

  /** ++x and --x once the address of x is on the stack. */
  function PreCode(op: BinOp, w: Width, a: Word): seq<Instr> {
    [LdValue(w, a), Ld(w, 1), Bin(op, w), St(w), LdStack(B32)]
  }

  /** x++ and x-- once the value of x is on the stack. */
  function PostCode(op: BinOp, w: Width, a: Word): seq<Instr> {
    [Ld(B32, a), LdValue(w, a), Ld(w, 1), Bin(op, w), St(w), Pop]
  }

  function LoadCode(ty: CType, addr: Word, isAddr: bool): seq<Instr> {
    if !Loadable(ty) then []
    else if isAddr then [Ld(B32, addr)]
    else [LdValue(WidthOf(DataTypeOf(ty)).value, addr)]
  }

  function StoreCode(dtype: nat): seq<Instr> {
    var w := WidthOf(dtype);
    if w.None? then [] else [St(w.value), LdStack(w.value)]
  }

  /** The instructions a node adds after its child's. */
  function OwnCode(n: Node): seq<Instr>
    requires n.Node?
  {
    var w := WidthOf(n.dtype);
    var idChild := n.child.Node? && n.child.kind.Id?;
    match n.kind
    case Id(ShellVar(ty, a)) => LoadCode(ty, a, n.isAddr)
    case Id(SysVar(ty, a, _)) => LoadCode(ty, a, n.isAddr)
    case Id(SysCall(a, _)) => [Ld(B32, a)]
    case ValueChar(c) => [Ld(B8, c)]
    case ValueInt(v) => [Ld(B32, v)]
    case ValueLong(v) => [Ld(B32, v)]
    case ValueString(v) => [Ld(B32, v)]
    case ValueNull(v) => [Ld(B32, v)]
    case SysBin(op) => if w.None? then [] else [Bin(op, w.value)]
    case SysUn(Complement) => if w.None? then [] else [BitNot(w.value)]
    case SysUn(GetValue) => if n.isAddr || w.None? then [] else [LdStack(w.value)]
    case SysUn(GetAddr) => []
    case SysUn(PreInc) => if !idChild || w.None? then [] else PreCode(Add, w.value, VarField(n.child.kind.sym))
    case SysUn(PreDec) => if !idChild || w.None? then [] else PreCode(Sub, w.value, VarField(n.child.kind.sym))
    case SysUn(PostInc) => if !idChild || w.None? then [] else PostCode(Add, w.value, VarField(n.child.kind.sym))
    case SysUn(PostDec) => if !idChild || w.None? then [] else PostCode(Sub, w.value, VarField(n.child.kind.sym))
    case SysAssign =>
      if idChild then StoreCode(n.child.dtype)
      else if n.child.Node? && n.child.kind == SysUn(GetValue) then StoreCode(n.child.dtype % 0x10)
      else []
    case SysFunc => if n.child.Nil? then [] else [SysCallN(Siblings(n.child.sibling) % 0x100)]
    case SysNull => [NoOp, NoOp, NoOp, NoOp]
    case SysCast => []
  }

  function Code(n: Node): seq<Instr> {
    if n.Nil? then [] else Code(n.child) + OwnCode(n) + Code(n.sibling)
  }

  /** Does compiling this (checked) node set the error number? */
  predicate OwnError(n: Node)
    requires n.Node?
  {
    match n.kind
    case Id(ShellVar(ty, _)) => ty.TUnknown?
    case Id(SysVar(ty, _, _)) => ty.TUnknown?
    case SysCast => true
    case SysAssign =>
      n.child.Node?
      && ((n.child.kind.Id? && WidthOf(n.child.dtype).None?)
          || (n.child.kind == SysUn(GetValue) && WidthOf(n.child.dtype % 0x10).None?))
    case _ => false
  }

  predicate Errors(n: Node) {
    n.Node? && (Errors(n.child) || OwnError(n) || Errors(n.sibling))
  }

  /** Everything the compiler emits survives the byte encoding. */
  lemma {:induction false} CodeEncodable(n: Node)
    ensures forall k :: 0 <= k < |Code(n)| ==> Encodable(Code(n)[k])
  {
    if n.Node? {
      CodeEncodable(n.child);
      CodeEncodable(n.sibling);
      assert forall k :: 0 <= k < |OwnCode(n)| ==> Encodable(OwnCode(n)[k]);
    }
  }

  /** The code of a statement list: a pop after each statement but the last. */
  function ProgramCode(n: Node): seq<Instr> {
    if n.Nil? then []
    else Code(n.(sibling := Nil)) + (if n.sibling.Nil? then [] else [Pop]) + ProgramCode(n.sibling)
  }

  // ---- linking facts ---------------------------------------------------------------------

  /** A sibling is checked as a value, whatever the flag of the node before it. */
  lemma CheckLinked(n: Node, sib: Node, isAddr: bool)
    requires n.Node? && n.sibling == Nil
    ensures var c := TypeCheck(n, isAddr);
            c.Node? && TypeCheck(n.(sibling := sib), isAddr) == c.(sibling := TypeCheck(sib, false))
  {
  }

  lemma CodeLinked(n: Node, sib: Node)
    requires n.Node? && n.sibling == Nil
    ensures Code(n.(sibling := sib)) == Code(n) + Code(sib)
  {
    var m := n.(sibling := sib);
    assert OwnCode(m) == OwnCode(n);
    assert Code(n) == Code(n.child) + OwnCode(n);
  }

  /** Checked and compiled, a node with two linked operands is their code in order, then its own. */
  lemma CodeOfSysNode(kind: Kind, first: Node, second: Node, flag: bool)
    requires first.Node? && first.sibling == Nil
    ensures var n := TypeCheck(SysNode(kind, first, second), flag);
            var c1, c2 := TypeCheck(first, ChildFlag(kind, flag)), TypeCheck(second, false);
            && n.Node? && n.sibling == Nil && n.kind == kind
            && n.child == c1.(sibling := c2)
            && n.dtype == c1.dtype
            && (!kind.Id? ==> n.isAddr == flag)
            && Code(n) == Code(c1) + Code(c2) + OwnCode(n)
  {
    var n := TypeCheck(SysNode(kind, first, second), flag);
    var c1, c2 := TypeCheck(first, ChildFlag(kind, flag)), TypeCheck(second, false);
    CheckLinked(first, second, ChildFlag(kind, flag));
    assert c1.sibling == Nil;
    CodeLinked(c1, c2);
    assert Code(n) == Code(n.child) + OwnCode(n) + [];
  }
}
