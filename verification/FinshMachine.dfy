/**
 The compiler and the virtual machine in the form they run: bytes written through a program
 counter into a text segment, and a loop that fetches and executes them on a stack array.
 */
module FinshMachine {
  import opened FinshSyntax
  import opened FinshVm
  import opened FinshCompiler
  import opened FinshProgram

  /** The text after writing bytes at p: the same but for those bytes. */
  ghost predicate Wrote(before: seq<Byte>, after: seq<Byte>, p: nat, q: nat, bytes: seq<Byte>) {
    q == p + |bytes| <= |before| && after == before[..p] + bytes + before[q..]
  }

  lemma WroteThen(a: seq<Byte>, b: seq<Byte>, c: seq<Byte>, p: nat, q: nat, r: nat, x: seq<Byte>, y: seq<Byte>)
    requires Wrote(a, b, p, q, x) && Wrote(b, c, q, r, y)
    ensures Wrote(a, c, p, r, x + y)
  {
  }

  lemma WroteNothing(a: seq<Byte>, p: nat)
    requires p <= |a|
    ensures Wrote(a, a, p, p, [])
  {
  }

  lemma WroteLength(a: seq<Byte>, b: seq<Byte>, p: nat, q: nat, x: seq<Byte>)
    requires Wrote(a, b, p, q, x)
    ensures q == p + |x| <= |a| == |b|
  {
  }

  lemma ProgramSplits(n: Node)
    requires n.Node?
    ensures EncodeAll(ProgramCode(n))
            == EncodeAll(Code(n.(sibling := Nil)) + (if n.sibling.Node? then [Pop] else []))
               + EncodeAll(ProgramCode(n.sibling))
  {
    EncodeAppend(Code(n.(sibling := Nil)) + (if n.sibling.Node? then [Pop] else []), ProgramCode(n.sibling));
  }

  lemma NothingLeft()
    ensures EncodeAll(ProgramCode(Nil)) == []
  {
  }

  class Compiler {
    const text: array<Byte>
    var pc: nat

    constructor ()
      ensures fresh(text) && text.Length == TEXT_MAX && pc == 0
    {
      text := new Byte[TEXT_MAX];
      pc := 0;
    }

    /** finsh_code_byte: one byte at pc, pc moved on. */
    method EmitByte(b: Byte)
      requires pc < text.Length
      modifies text, this`pc
      ensures Wrote(old(text[..]), text[..], old(pc), pc, [b])
    {
      text[pc] := b;
      pc := pc + 1;
    }

    /** finsh_code_word and finsh_code_dword are byte writes in a row. */
    method EmitBytes(bytes: seq<Byte>)
      requires pc + |bytes| <= text.Length
      modifies text, this`pc
      ensures Wrote(old(text[..]), text[..], old(pc), pc, bytes)
    {
      ghost var start := pc;
      ghost var before := text[..];
      for i := 0 to |bytes|
        invariant Wrote(before, text[..], start, pc, bytes[..i])
        modifies text, this`pc
      {
        ghost var mid, q := text[..], pc;
        EmitByte(bytes[i]);
        WroteThen(before, mid, text[..], start, q, pc, bytes[..i], [bytes[i]]);
        assert bytes[..i + 1] == bytes[..i] + [bytes[i]];
      }
      assert bytes[..|bytes|] == bytes;
    }

    method EmitAll(code: seq<Instr>)
      requires pc + |EncodeAll(code)| <= text.Length
      modifies text, this`pc
      ensures Wrote(old(text[..]), text[..], old(pc), pc, EncodeAll(code))
    {
      if code != [] {
        EmitBytes(Encode(code[0]));
        ghost var mid, q := text[..], pc;
        EmitAll(code[1..]);
        WroteThen(old(text[..]), mid, text[..], old(pc), q, pc, Encode(code[0]), EncodeAll(code[1..]));
      }
    }

    /** finsh_compile: children first, then the node, then its siblings. */
    method Compile(n: Node)
      requires pc + |EncodeAll(Code(n))| <= text.Length
      modifies text, this`pc
      ensures Wrote(old(text[..]), text[..], old(pc), pc, EncodeAll(Code(n)))
      decreases n
    {
      if n.Node? {
        EncodeAppend(Code(n.child) + OwnCode(n), Code(n.sibling));
        EncodeAppend(Code(n.child), OwnCode(n));
        Compile(n.child);
        ghost var t1, p1 := text[..], pc;
        EmitAll(OwnCode(n));
        ghost var t2, p2 := text[..], pc;
        Compile(n.sibling);
        WroteThen(old(text[..]), t1, t2, old(pc), p1, p2, EncodeAll(Code(n.child)), EncodeAll(OwnCode(n)));
        WroteThen(old(text[..]), t2, text[..], old(pc), p2, pc,
                  EncodeAll(Code(n.child)) + EncodeAll(OwnCode(n)), EncodeAll(Code(n.sibling)));
      }
    }

    /** One turn of the statement loop: the statement, and a pop unless it is the last. */
    method CompileStatement(current: Node, more: bool)
      requires pc + |EncodeAll(Code(current) + (if more then [Pop] else []))| <= text.Length
      modifies text, this`pc
      ensures Wrote(old(text[..]), text[..], old(pc), pc, EncodeAll(Code(current) + (if more then [Pop] else [])))
    {
      EncodeAppend(Code(current), if more then [Pop] else []);
      Compile(current);
      if more {
        ghost var mid, q := text[..], pc;
        EmitAll([Pop]);
        WroteThen(old(text[..]), mid, text[..], old(pc), q, pc, EncodeAll(Code(current)), EncodeAll([Pop]));
      }
    }

    /** memset over the text segment. */
    method ClearText()
      modifies text
      ensures text[..] == seq(text.Length, _ => 0)
    {
      for i := 0 to text.Length
        invariant forall k :: 0 <= k < i ==> text[k] == 0
        modifies text
      {
        text[i] := 0;
      }
    }

    /** The statement loop. */
    method CompileStatements(root: Node)
      requires pc + |EncodeAll(ProgramCode(root))| <= text.Length
      modifies text, this`pc
      ensures Wrote(old(text[..]), text[..], old(pc), pc, EncodeAll(ProgramCode(root)))
    {
      hide Code, EncodeAll, Wrote, ProgramCode;
      var node := root;
      ghost var done: seq<Byte> := [];
      ghost var all := EncodeAll(ProgramCode(root));
      WroteNothing(text[..], pc);
      while node.Node?
        invariant Wrote(old(text[..]), text[..], old(pc), pc, done)
        invariant done + EncodeAll(ProgramCode(node)) == all
        decreases node
        modifies text, this`pc
      {
        var current, sibling := node.(sibling := Nil), node.sibling;
        ghost var code := Code(current) + (if sibling.Node? then [Pop] else []);
        ProgramSplits(node);
        WroteLength(old(text[..]), text[..], old(pc), pc, done);
        ghost var mid, q := text[..], pc;
        CompileStatement(current, sibling.Node?);
        WroteThen(old(text[..]), mid, text[..], old(pc), q, pc, done, EncodeAll(code));
        done := done + EncodeAll(code);
        node := sibling;
      }
      NothingLeft();
      assert done == all;
    }

    /** finsh_compiler_run: the type check, a cleared text segment, then the statements. */
    method CompileProgram(root: Node)
      requires text.Length == TEXT_MAX
      requires |EncodeAll(ProgramCode(TypeCheck(root, false)))| <= TEXT_MAX
      modifies text, this`pc
      ensures text[..] == TextOf(root)
    {
      hide TypeCheck, ProgramCode, EncodeAll;
      var node := TypeCheck(root, false);
      ClearText();
      pc := 0;
      CompileStatements(node);
    }
  }

  lemma NoBytes(env: Env, s: State)
    ensures ExecBytes(env, [], s) == Some(s)
  {
  }

  lemma BytesUnfold(env: Env, code: seq<Byte>, s: State)
    requires code != []
    ensures var d := Decode(code);
            if d.None? then ExecBytes(env, code, s).None?
            else var s1 := Exec(env, d.value.0, s);
                 ExecBytes(env, code, s) == if s1.None? then None else ExecBytes(env, code[d.value.1..], s1.value)
  {
  }

  class Machine {
    const stack: array<Word>
    const text: array<Byte>
    var sp: nat
    var pc: nat
    var mem: Memory

    constructor (text: array<Byte>, mem: Memory)
      ensures this.text == text && this.mem == mem
      ensures fresh(stack) && stack.Length == STACK_MAX
      ensures sp == pc == 0
    {
      stack := new Word[STACK_MAX];
      this.text := text;
      this.mem := mem;
      sp, pc := 0, 0;
    }

    ghost function Now(): State
      reads this, stack
    {
      State(stack[..], sp, mem)
    }

    /** One entry of op_table, on the stack array. */
    method Execute(env: Env, i: Instr) returns (ok: bool)
      modifies stack, this`sp, this`mem
      ensures ok == Exec(env, i, old(Now())).Some?
      ensures ok ==> Now() == Exec(env, i, old(Now())).value
    {
      ok := true;
      match i {
        case NoOp =>
        case Bin(op, w) =>
          if !(2 <= sp <= stack.Length) {
            return false;
          }
          var z := Arith(env, op, w, Low(w, stack[sp - 2]), Low(w, stack[sp - 1]));
          if z.None? {
            return false;
          }
          stack[sp - 2] := SetLow(w, stack[sp - 2], z.value);
          sp := sp - 1;
        case BitNot(w) =>
          if !(1 <= sp <= stack.Length) {
            return false;
          }
          stack[sp - 1] := SetLow(w, stack[sp - 1], Complemented(w, Low(w, stack[sp - 1])));
        case Ld(w, v) =>
          if !(sp < stack.Length && v < Modulus(w)) {
            return false;
          }
          stack[sp] := SetLow(w, stack[sp], v);
          sp := sp + 1;
        case LdValue(w, a) =>
          if !(sp < stack.Length) {
            return false;
          }
          stack[sp] := SetLow(w, stack[sp], Load(mem, w, a));
          sp := sp + 1;
        case LdStack(w) =>
          if !(1 <= sp <= stack.Length) {
            return false;
          }
          stack[sp - 1] := SetLow(w, stack[sp - 1], Load(mem, w, stack[sp - 1]));
        case St(w) =>
          if !(2 <= sp <= stack.Length) {
            return false;
          }
          mem := Store(mem, w, stack[sp - 2], Low(w, stack[sp - 1]));
          sp := sp - 1;
        case Pop =>
          if sp == 0 {
            return false;
          }
          sp := sp - 1;
        case SysCallN(n) =>
          ok := CallOut(env, n);
      }
    }

    /** The loop of OP_call: pop the parameters, last first, into a vector. */
    method PopParameters(parameters: nat) returns (args: seq<Word>)
      requires parameters < sp <= stack.Length && parameters <= MAX_PARAMETERS
      modifies this`sp
      ensures sp == old(sp) - 1 - parameters
      ensures args == stack[sp + 1..sp + 1 + parameters]
    {
      var parameterv := new Word[MAX_PARAMETERS](_ => 0);
      ghost var top := sp;
      sp := sp - 1;
      var i: nat := 0;
      while i < parameters
        invariant i <= parameters && sp == top - 1 - i
        invariant forall k :: parameters - i <= k < parameters ==> parameterv[k] == stack[top - parameters + k]
        modifies parameterv, this`sp
      {
        parameterv[parameters - 1 - i] := stack[sp];
        sp := sp - 1;
        i := i + 1;
      }
      args := parameterv[..parameters];
    }

    /** OP_call: the parameters, the call, the result in place of the function's address. */
    method CallOut(env: Env, parameters: Byte) returns (ok: bool)
      modifies stack, this`sp, this`mem
      ensures ok == Exec(env, SysCallN(parameters), old(Now())).Some?
      ensures ok ==> Now() == Exec(env, SysCallN(parameters), old(Now())).value
    {
      if !(parameters + 1 <= sp <= stack.Length && parameters <= MAX_PARAMETERS) {
        return false;
      }
      var args := PopParameters(parameters);
      var (ret, m) := env.call(stack[sp], if parameters == 0 then [0] else args, mem);
      mem := m;
      stack[sp] := ret;
      sp := sp + 1;
      ok := true;
    }

    /** finsh_vm_run: from an empty stack, fetch and execute until pc leaves the text. The
        program counter grows with every instruction, so the loop ends. */
    method Run(env: Env) returns (ok: bool)
      requires stack as object != text as object
      modifies stack, this`sp, this`pc, this`mem
      ensures var start := State(old(stack[..]), 0, old(mem));
              && ok == ExecBytes(env, text[..], start).Some?
              && (ok ==> Now() == ExecBytes(env, text[..], start).value)
    {
      hide Decode, Exec, ExecBytes;
      sp, pc := 0, 0;
      ghost var code := text[..];
      ghost var start := Now();
      assert code[0..] == code;
      while pc < text.Length
        invariant pc <= text.Length && text[..] == code
        invariant ExecBytes(env, code[pc..], Now()) == ExecBytes(env, code, start)
        decreases text.Length - pc
      {
        var d := Decode(text[pc..]);
        BytesUnfold(env, code[pc..], Now());
        assert text[pc..] == code[pc..];
        if d.None? {
          assert ExecBytes(env, code, start).None?;
          return false;
        }
        var (i, n) := d.value;
        assert code[pc..][n..] == code[pc + n..];
        ghost var before := Now();
        pc := pc + n;
        ok := Execute(env, i);
        assert Exec(env, i, before) == if ok then Some(Now()) else None;
        if !ok {
          assert ExecBytes(env, code, start).None?;
          return;
        }
      }
      assert code[pc..] == [];
      NoBytes(env, Now());
      ok := true;
    }
  }
}
