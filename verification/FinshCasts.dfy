/**
 Casts: a type name in parentheses in front of an expression is read whole, and marks the node of the
 expression with its number.
 */
module FinshCasts {
  import opened FinshSyntax
  import opened FinshVm
  import opened FinshCompiler
  import opened FinshParser
  import opened FinshRoundTrip

  datatype TypeName = TypeName(unsigned: bool, base: Token, pointer: bool)

  predicate Proper(t: TypeName) {
    (t.base == Token.TVoid && !t.unsigned) || t.base == Token.TChar || t.base == Token.TShort || t.base == Token.TInt
    || t.base == Token.TLong
  }

  function PrintType(t: TypeName): seq<Token> {
    (if t.unsigned then [TUnsigned] else []) + [t.base] + (if t.pointer then [TStar] else [])
  }

  /** The type a name stands for; pointers do not tell signed from unsigned. */
  function Denotes(t: TypeName): CType
    requires Proper(t)
  {
    match t.base
    case TChar => if t.pointer then TCharP else if t.unsigned then TUChar else CType.TChar
    case TShort => if t.pointer then TShortP else if t.unsigned then TUShort else CType.TShort
    case TInt => if t.pointer then TIntP else if t.unsigned then TUInt else CType.TInt
    case TLong => if t.pointer then TLongP else if t.unsigned then TULong else CType.TLong
    case TVoid => if t.pointer then TVoidP else CType.TVoid
  }

  /** What stands behind the word "unsigned". */
  function Tail(t: TypeName): seq<Token> {
    [t.base] + (if t.pointer then [TStar] else [])
  }

  lemma PointerParses(p: Parse, pointer: bool, ty: CType, rest: seq<Token>)
    requires Ahead(p, (if pointer then [TStar] else []) + ([TRParen] + rest))
    ensures var r := ProcPointer(p, ty);
            r.0 == (if pointer then PointerTo(ty) else ty) && Match(r.1, TRParen) == Taken(p, [TRParen] + rest, 0)
  {
    if pointer {
      assert ([TStar] + ([TRParen] + rest))[1..] == [TRParen] + rest;
    } else {
      assert [] + ([TRParen] + rest) == [TRParen] + rest;
    }
  }

  lemma Follows(p: Parse, t: Token, v: seq<Token>)
    requires Ahead(p, [t] + v)
    ensures Next(p).cur == t && Ahead(Next(p), v) && Next(p).free == p.free && Next(p).err == p.err
  {
    assert ([t] + v)[1..] == v;
  }

  lemma TailSplit(t: TypeName, rest: seq<Token>)
    ensures var w := (if t.pointer then [TStar] else []) + ([TRParen] + rest);
            && Tail(t) + ([TRParen] + rest) == [t.base] + w
            && PrintType(t) + ([TRParen] + rest) == (if t.unsigned then [TUnsigned] + ([t.base] + w) else [t.base] + w)
  {
  }

  /** Two states with the same tokens ahead go on alike. */
  lemma SameTaken(p: Parse, q: Parse, v: seq<Token>)
    requires q.free == p.free && q.err == p.err
    ensures Taken(q, v, 0) == Taken(p, v, 0)
  {
  }

  /** The two forms of a type name. */
  lemma TypeIs(p: Parse, p1: Parse)
    requires Next(p) == p1
    ensures BaseType(p1.cur).Some? ==> ProcType(p) == ProcPointer(p1, BaseType(p1.cur).value)
    ensures var p2 := Next(p1);
            p1.cur == TUnsigned && BaseType(p2.cur).Some? && p2.cur != Token.TVoid ==>
              ProcType(p) == ProcPointer(p2, UnsignedOf(BaseType(p2.cur).value))
  {
    hide Next, ProcPointer;
  }

  lemma BaseIs(t: TypeName)
    requires Proper(t)
    ensures var b := BaseType(t.base);
            && b.Some? && (t.unsigned ==> t.base != Token.TVoid)
            && (var c := if t.unsigned then UnsignedOf(b.value) else b.value; Denotes(t) == if t.pointer then PointerTo(c) else c)
  {
  }

  lemma TypeParses(p: Parse, t: TypeName, rest: seq<Token>)
    requires Proper(t) && Ahead(p, PrintType(t) + ([TRParen] + rest))
    ensures var r := ProcType(p); r.0 == Denotes(t) && Match(r.1, TRParen) == Taken(p, [TRParen] + rest, 0)
  {
    hide *;
    BaseIs(t);
    TailSplit(t, rest);
    var w := (if t.pointer then [TStar] else []) + ([TRParen] + rest);
    var p1, b := Next(p), BaseType(t.base).value;
    TypeIs(p, p1);
    if t.unsigned {
      Follows(p, TUnsigned, [t.base] + w);
      var p2 := Next(p1);
      Follows(p1, t.base, w);
      PointerParses(p2, t.pointer, UnsignedOf(b), rest);
      SameTaken(p, p2, [TRParen] + rest);
    } else {
      Follows(p, t.base, w);
      PointerParses(p1, t.pointer, b, rest);
      SameTaken(p, p1, [TRParen] + rest);
    }
  }

  lemma CastTakes(ctx: Context, p: Parse, p1: Parse, ty: CType, p2: Parse, p3: Parse, n: Node, p4: Parse)
    requires Next(p) == p1 && p1.cur == TLParen && ProcType(p1) == (ty, p2) && Match(p2, TRParen) == p3
    requires ProcCast(ctx, p3) == (n, p4) && n.Node?
    ensures ProcCast(ctx, p) == (n.(dtype := CTypeNumber(ty)), p4)
  {
    hide ProcUnary;
  }

  function CastTokens(t: TypeName, e: Phrase, rest: seq<Token>): seq<Token> {
    [TLParen] + (PrintType(t) + ([TRParen] + (Print(e) + rest)))
  }

  /** The tree of the expression, its root marked with the type. */
  function Marked(ctx: Context, t: TypeName, e: Phrase): Node
    requires Proper(t) && Known(ctx, e)
  {
    var n: Node := TreeOf(ctx, e);
    assert n.Node?;
    n.(dtype := CTypeNumber(Denotes(t)))
  }

  ghost predicate CastIsRead(ctx: Context, t: TypeName, e: Phrase, p: Parse, rest: seq<Token>)
    requires Proper(t) && Known(ctx, e) && Size(e) <= p.free
  {
    ProcCast(ctx, p) == (Marked(ctx, t, e), At(p, rest, Size(e)))
  }

  /** A type name in parentheses and a unary expression: all of it is read, nothing else, and the tree is
      that of the expression, its root marked with the type. */
  lemma CastParsesToMarked(ctx: Context, t: TypeName, e: Phrase, p: Parse, rest: seq<Token>)
    requires Proper(t) && Shaped(e, 6) && Known(ctx, e) && Size(e) <= p.free
    requires Ahead(p, CastTokens(t, e, rest)) && Stops(6, rest)
    ensures CastIsRead(ctx, t, e, p, rest)
  {
    hide ProcCast, ProcType, Match, Next, Taken, Ahead, PrintType, Print, TreeOf, Shaped, Known, Stops, At, CTypeNumber, Size;
    var w := Print(e) + rest;
    var p1 := Next(p);
    Follows(p, TLParen, PrintType(t) + ([TRParen] + w));
    TypeParses(p1, t, w);
    var (ty, p2) := ProcType(p1);
    var p3 := Taken(p, [TRParen] + w, 0);
    SameTaken(p, p1, [TRParen] + w);
    AfterToken(p, TRParen, w, 0);
    CastRoundTrip(ctx, e, p3, rest);
    CastIs(ctx, e, p3, rest);
    SameAt(p, [TRParen] + w, rest, Size(e));
    CastTakes(ctx, p, p1, ty, p2, p3, TreeOf(ctx, e), At(p3, rest, Size(e)));
  }

  lemma SameAt(p: Parse, v: seq<Token>, rest: seq<Token>, n: nat)
    requires n <= p.free
    ensures n <= Taken(p, v, 0).free && At(Taken(p, v, 0), rest, n) == At(p, rest, n)
  {
  }

  /** Does the type check find the type of this expression by itself? */
  predicate TypeKnown(ctx: Context, e: Phrase)
    requires Known(ctx, e)
  {
    var m := Meaning(e);
    m.Name? ==> !ctx.symbols[m.id].SysCall? && !ctx.symbols[m.id].ty.TUnknown?
  }

  /** The type check puts its own mark in the place of the cast's: a cast changes the checked tree, and so
      the code, if and only if the expression is a name without a type of its own. */
  lemma CastIsIgnoredExactly(ctx: Context, t: TypeName, e: Phrase, isAddr: bool)
    requires Proper(t) && Known(ctx, e)
    ensures TypeCheck(Marked(ctx, t, e), isAddr) == TypeCheck(TreeOf(ctx, e), isAddr) <==> TypeKnown(ctx, e)
  {
  }
}
