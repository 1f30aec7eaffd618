/**
 The parser in the form it runs: methods that consume a token stream in place, with a replay
 flag, a loop per level and a counter of free nodes, each proved to compute its procedure.
 */
module FinshDescent {
  import opened FinshSyntax
  import opened FinshParser

  class Parser {
    const ctx: Context
    const script: seq<Token>
    var position: nat
    var current: Token
    var replay: bool
    var free: nat
    var err: bool

    ghost predicate Valid()
      reads this
    {
      position <= |script|
    }

    ghost function Now(): Parse
      requires Valid()
      reads this
    {
      Parse(script[position..], current, replay, free, err)
    }

    constructor (ctx: Context, script: seq<Token>, nodes: nat)
      ensures Valid() && this.ctx == ctx && Now() == Parse(script, TEof, false, nodes, false)
    {
      this.ctx, this.script := ctx, script;
      position, current, replay, free, err := 0, TEof, false, nodes, false;
    }

    method NextToken()
      requires Valid()
      modifies this
      ensures Valid() && Now() == Next(old(Now()))
    {
      if replay {
        replay := false;
      } else if position == |script| {
        current := TEof;
      } else {
        current := script[position];
        position := position + 1;
      }
    }

    method ReplayToken()
      requires Valid()
      modifies this`replay
      ensures Valid() && Now() == Replay(old(Now()))
    {
      replay := true;
    }

    method SetError()
      requires Valid()
      modifies this`err
      ensures Valid() && Now() == Fail(old(Now()))
    {
      err := true;
    }

    method MatchToken(t: Token)
      requires Valid()
      modifies this
      ensures Valid() && Now() == Match(old(Now()), t)
    {
      NextToken();
      if current != t {
        ReplayToken();
        SetError();
      }
    }

    method Leaf(kind: Kind) returns (n: Node)
      requires Valid()
      modifies this
      ensures Valid() && (n, Now()) == NewLeaf(old(Now()), kind)
    {
      if free == 0 {
        SetError();
        return Nil;
      }
      free := free - 1;
      n := LeafNode(kind);
    }

    method SysNodeOf(kind: Kind, first: Node, second: Node) returns (n: Node)
      requires Valid()
      modifies this
      ensures Valid() && (n, Now()) == MakeSysNode(old(Now()), kind, first, second)
    {
      if free == 0 {
        SetError();
        return Nil;
      }
      free := free - 1;
      if first.Nil? {
        SetError();
        return LeafNode(kind);
      }
      n := SysNode(kind, first, second);
    }

    method Type() returns (ty: CType)
      requires Valid()
      modifies this
      ensures Valid() && (ty, Now()) == ProcType(old(Now()))
    {
      NextToken();
      var base := BaseType(current);
      if base.Some? {
        ty := base.value;
      } else if current == TUnsigned {
        NextToken();
        base := BaseType(current);
        if base.None? {
          ReplayToken();
          SetError();
          ty := TUnknown;
        } else if base.value == CType.TVoid {
          ReplayToken();
          SetError();
          return TUnknown;
        } else {
          ty := UnsignedOf(base.value);
        }
      } else {
        ReplayToken();
        SetError();
        return TUnknown;
      }
      NextToken();
      if current == TStar {
        ty := PointerTo(ty);
      } else {
        ReplayToken();
      }
    }

    method AssignExpr() returns (n: Node)
      requires Valid()
      modifies this
      ensures Valid() && (n, Now()) == ProcAssign(ctx, old(Now()))
      decreases Remaining(Now()), 20
    {
      n := LevelExpr(0);
      NextToken();
      if current == TAssign {
        var right := AssignExpr();
        n := SysNodeOf(SysAssign, n, right);
      } else {
        ReplayToken();
      }
    }

    method Operand(level: nat) returns (n: Node)
      requires Valid() && level <= 5
      modifies this
      ensures Valid()
      ensures (n, Now()) == if level == 5 then ProcCast(ctx, old(Now())) else ProcLevel(ctx, level + 1, old(Now()))
      decreases Remaining(Now()), 15 - level, 0
    {
      if level == 5 {
        n := CastExpr();
      } else {
        n := LevelExpr(level + 1);
      }
    }

    /** One binary level: an operand, then a loop over the operators of the level. */
    method LevelExpr(level: nat) returns (n: Node)
      requires Valid() && level <= 5
      modifies this
      ensures Valid() && (n, Now()) == ProcLevel(ctx, level, old(Now()))
      decreases Remaining(Now()), 15 - level, 1
    {
      hide ProcLevel, ProcCast, LevelLoop, OperatorAt, Next, MakeSysNode;
      n := Operand(level);
      ghost var before := Now();
      LevelIs(ctx, level, old(Now()), n, before);
      NextToken();
      while OperatorAt(level, current).Some?
        invariant Valid() && Now() == Next(before) && Remaining(before) <= Remaining(old(Now()))
        invariant ProcLevel(ctx, level, old(Now())) == LevelLoop(ctx, level, n, before)
        decreases Remaining(before)
      {
        LoopUnfolds(ctx, level, n, before);
        OperatorIsToken(level, current);
        var op := OperatorAt(level, current).value;
        var operand := Operand(level);
        if operand.Nil? {
          SetError();
        } else {
          n := SysNodeOf(SysBin(op), n, operand);
        }
        before := Now();
        NextToken();
      }
      LoopUnfolds(ctx, level, n, before);
      ReplayToken();
    }

    method CastExpr() returns (n: Node)
      requires Valid()
      modifies this
      ensures Valid() && (n, Now()) == ProcCast(ctx, old(Now()))
      decreases Remaining(Now()), 9
    {
      NextToken();
      if current == TLParen {
        var ty := Type();
        MatchToken(TRParen);
        n := CastExpr();
        if n.Node? {
          n := n.(dtype := CTypeNumber(ty));
          return;
        }
      }
      ReplayToken();
      n := UnaryExpr();
    }

    method UnaryExpr() returns (n: Node)
      requires Valid()
      modifies this
      ensures Valid() && (n, Now()) == ProcUnary(ctx, old(Now()))
      decreases Remaining(Now()), 8
    {
      NextToken();
      var op := PrefixOf(current);
      if current == TPlus {
        n := CastExpr();
      } else if current == TMinus {
        var operand := CastExpr();
        var zero := Leaf(ValueLong(0));
        n := SysNodeOf(SysBin(Sub), zero, operand);
      } else if op.Some? {
        PrefixIsToken(current);
        var operand := CastExpr();
        n := SysNodeOf(SysUn(op.value), operand, Nil);
      } else {
        ReplayToken();
        n := PostfixExpr();
      }
    }

    /** A primary, then a loop over ++, -- and parameter lists. */
    method PostfixExpr() returns (n: Node)
      requires Valid()
      modifies this
      ensures Valid() && (n, Now()) == ProcPostfix(ctx, old(Now()))
      decreases Remaining(Now()), 7
    {
      n := PrimaryExpr();
      ghost var before := Now();
      NextToken();
      while current == TInc || current == TDec || current == TLParen
        invariant Valid() && Now() == Next(before) && Remaining(before) <= Remaining(old(Now()))
        invariant ProcPostfix(ctx, old(Now())) == PostfixLoop(ctx, n, before)
        decreases Remaining(before)
      {
        if current == TInc {
          n := SysNodeOf(SysUn(PostInc), n, Nil);
        } else if current == TDec {
          n := SysNodeOf(SysUn(PostDec), n, Nil);
        } else {
          var params := Parameters();
          n := SysNodeOf(SysFunc, n, params);
        }
        before := Now();
        NextToken();
      }
      ReplayToken();
    }

    /** The parameters of a call, from after the opening to after the closing parenthesis. */
    method Parameters() returns (params: Node)
      requires Valid()
      modifies this
      ensures Valid() && (params, Now()) == CallParams(ctx, old(Now()))
      decreases Remaining(Now()), 23
    {
      params := Nil;
      NextToken();
      if current != TRParen {
        ReplayToken();
        params := ParamList();
        MatchToken(TRParen);
      }
    }

    method PrimaryExpr() returns (n: Node)
      requires Valid()
      modifies this
      ensures Valid() && (n, Now()) == ProcPrimary(ctx, old(Now()))
      decreases Remaining(Now()), 6
    {
      hide ProcAssign;
      NextToken();
      match current {
        case TIdent(id) =>
          if id in ctx.symbols {
            n := Leaf(Id(ctx.symbols[id]));
          } else {
            SetError();
            n := Nil;
          }
        case TLParen =>
          n := AssignExpr();
          MatchToken(TRParen);
        case TValueInt(v) => n := Leaf(ValueInt(v));
        case TValueLong(v) => n := Leaf(ValueLong(v));
        case TValueChar(c) => n := Leaf(ValueChar(c));
        case TValueString(s) => n := Leaf(ValueString(if s in ctx.strings then ctx.strings[s] else 0));
        case TValueNull => n := Leaf(ValueNull(0));
        case _ =>
          SetError();
          n := Nil;
      }
    }

    /** Parameters in a loop; the sequence becomes the sibling chain. */
    method ParamList() returns (n: Node)
      requires Valid()
      modifies this
      ensures Valid() && (n, Now()) == ProcParams(ctx, old(Now()))
      decreases Remaining(Now()), 22
    {
      n := AssignExpr();
      if n.Nil? {
        return;
      }
      var others := MoreParams();
      n := n.(sibling := others);
    }

    /** The loop over further parameters. */
    method MoreParams() returns (chain: Node)
      requires Valid()
      modifies this
      ensures Valid() && (chain, Now()) == ParamLoop(ctx, old(Now()))
      decreases Remaining(Now()), 0
    {
      ghost var after := Now();
      ghost var before := after;
      var others: seq<Node> := [];
      LinkedNone(ParamLoop(ctx, after));
      NextToken();
      while current == TComma
        invariant Valid() && Now() == Next(before) && Remaining(before) <= Remaining(after)
        invariant ParamLoop(ctx, after) == Linked(others, ParamLoop(ctx, before))
        decreases Remaining(before)
      {
        ParamUnfolds(ctx, before);
        var param := AssignExpr();
        if param.Nil? {
          FailKeeps(Now());
          SetError();
        } else {
          LinkedSnoc(others, param, ParamLoop(ctx, Now()));
          others := others + [param];
        }
        before := Now();
        NextToken();
      }
      ParamUnfolds(ctx, before);
      ReplayToken();
      chain := Chain(others);
      LinkedNil(others, Now());
    }

    method Statement() returns (n: Node)
      requires Valid()
      modifies this
      ensures Valid() && (n, Now()) == ProcStatement(ctx, old(Now()))
    {
      NextToken();
      if current == TSemi {
        return Nil;
      }
      ReplayToken();
      n := AssignExpr();
      MatchToken(TSemi);
    }
  }

  // ---- one unfolding of each procedure ---------------------------------------------------

  lemma LevelIs(ctx: Context, level: nat, p: Parse, n: Node, q: Parse)
    requires level <= 5
    requires (n, q) == if level == 5 then ProcCast(ctx, p) else ProcLevel(ctx, level + 1, p)
    ensures ProcLevel(ctx, level, p) == LevelLoop(ctx, level, n, q)
  {
  }

  lemma LoopUnfolds(ctx: Context, level: nat, acc: Node, p: Parse)
    requires level <= 5
    ensures var p1 := Next(p);
            var op := OperatorAt(level, p1.cur);
            if op.None? then LevelLoop(ctx, level, acc, p) == (acc, Replay(p1))
            else
              var (operand, p2) := if level == 5 then ProcCast(ctx, p1) else ProcLevel(ctx, level + 1, p1);
              if operand.Nil? then LevelLoop(ctx, level, acc, p) == LevelLoop(ctx, level, acc, Fail(p2))
              else
                var (node, p3) := MakeSysNode(p2, SysBin(op.value), acc, operand);
                LevelLoop(ctx, level, acc, p) == LevelLoop(ctx, level, node, p3)
  {
  }

  lemma OperatorIsToken(level: nat, t: Token)
    requires OperatorAt(level, t).Some?
    ensures t != TEof
  {
  }

  lemma PrefixIsToken(t: Token)
    requires PrefixOf(t).Some?
    ensures t != TPlus && t != TMinus && t != TEof
  {
  }

  /** What the postfix loop does between an opening and its closing parenthesis. */
  function CallParams(ctx: Context, p1: Parse): (r: (Node, Parse))
    ensures Remaining(r.1) <= Remaining(p1)
  {
    var p2 := Next(p1);
    if p2.cur == TRParen then (Nil, p2)
    else
      var (list, p4) := ProcParams(ctx, Replay(p2));
      (list, Match(p4, TRParen))
  }

  /** A chain of nodes put in front of a chain that was parsed. */
  ghost function Linked(ns: seq<Node>, r: (Node, Parse)): (Node, Parse) {
    if ns == [] then r
    else if ns[0].Nil? then Linked(ns[1..], r)
    else (ns[0].(sibling := Linked(ns[1..], r).0), Linked(ns[1..], r).1)
  }

  lemma FailKeeps(p: Parse)
    ensures Remaining(Fail(p)) == Remaining(p)
  {
  }

  lemma LinkedNone(r: (Node, Parse))
    ensures Linked([], r) == r
  {
  }

  lemma {:induction false} LinkedSnoc(ns: seq<Node>, n: Node, r: (Node, Parse))
    requires n.Node?
    ensures Linked(ns + [n], r) == Linked(ns, (n.(sibling := r.0), r.1))
  {
    if ns == [] {
    } else {
      assert (ns + [n])[1..] == ns[1..] + [n];
      LinkedSnoc(ns[1..], n, r);
    }
  }

  lemma {:induction false} LinkedNil(ns: seq<Node>, p: Parse)
    ensures Linked(ns, (Nil, p)) == (Chain(ns), p)
  {
    if ns != [] {
      LinkedNil(ns[1..], p);
    }
  }

  lemma ParamUnfolds(ctx: Context, p: Parse)
    ensures var p1 := Next(p);
            if p1.cur == TComma then
              var (param, p2) := ProcAssign(ctx, p1);
              if param.Nil? then ParamLoop(ctx, p) == ParamLoop(ctx, Fail(p2))
              else ParamLoop(ctx, p) == (param.(sibling := ParamLoop(ctx, p2).0), ParamLoop(ctx, p2).1)
            else ParamLoop(ctx, p) == (Nil, Replay(p1))
  {
  }
}
