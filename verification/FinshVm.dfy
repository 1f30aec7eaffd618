/**
 The shell's virtual machine: instructions, their byte encoding, what each does to the stack
 of union cells and to memory, and the fetch/execute loop.
 */
module FinshVm {
  import opened FinshSyntax
  import Bits

  // ---- memory, little endian -------------------------------------------------------------

  type Memory = map<Word, Byte>

  function Offset(a: Word, k: nat): Word {
    (a + k) % 0x1_0000_0000
  }

  function ByteAt(m: Memory, a: Word): (r: int)
    ensures 0 <= r < 0x100
  {
    if a in m then m[a] else 0
  }

  function Load(m: Memory, w: Width, a: Word): (v: Word)
    ensures v < Modulus(w)
  {
    match w
    case B8 => ByteAt(m, a)
    case B16 => ByteAt(m, a) + 0x100 * ByteAt(m, Offset(a, 1))
    case B32 =>
      ByteAt(m, a) + 0x100 * ByteAt(m, Offset(a, 1))
      + 0x1_0000 * ByteAt(m, Offset(a, 2)) + 0x100_0000 * ByteAt(m, Offset(a, 3))
  }

  function Store(m: Memory, w: Width, a: Word, v: Word): Memory
    requires v < Modulus(w)
  {
    match w
    case B8 => m[a := v]
    case B16 => m[a := v % 0x100][Offset(a, 1) := v / 0x100]
    case B32 =>
      m[a := v % 0x100][Offset(a, 1) := v / 0x100 % 0x100]
       [Offset(a, 2) := v / 0x1_0000 % 0x100][Offset(a, 3) := v / 0x100_0000]
  }

  lemma FourBytes(v: Word)
    ensures v == v % 0x100 + 0x100 * (v / 0x100 % 0x100)
                 + 0x1_0000 * (v / 0x1_0000 % 0x100) + 0x100_0000 * (v / 0x100_0000)
  {
    var a := v / 0x100;
    var b := a / 0x100;
    var c := b / 0x100;
    assert v == 0x100 * a + v % 0x100 && a == 0x100 * b + a % 0x100 && b == 0x100 * c + b % 0x100;
    assert v / 0x1_0000 == b && v / 0x100_0000 == c;
  }

  /** What was stored is what is loaded. */
  lemma LoadAfterStore(m: Memory, w: Width, a: Word, v: Word)
    requires v < Modulus(w)
    ensures Load(Store(m, w, a, v), w, a) == v
  {
    assert Offset(a, 1) != a && Offset(a, 2) != a && Offset(a, 3) != a;
    assert Offset(a, 1) != Offset(a, 2) && Offset(a, 1) != Offset(a, 3) && Offset(a, 2) != Offset(a, 3);
    if w == B32 {
      FourBytes(v);
    }
  }

  /** The low bytes of a wide load are a narrow load at the same address. */
  lemma LowOfLoad(m: Memory, w: Width, a: Word)
    ensures Low(w, Load(m, B32, a)) == Load(m, w, a)
  {
    var b0, b1, b2, b3 := ByteAt(m, a), ByteAt(m, Offset(a, 1)), ByteAt(m, Offset(a, 2)), ByteAt(m, Offset(a, 3));
    match w {
      case B8 => LowByteOfSum(b1 + 0x100 * b2 + 0x1_0000 * b3, b0);
      case B16 =>
        assert Load(m, B32, a) == (b0 + 0x100 * b1) + 0x1_0000 * (b2 + 0x100 * b3);
      case B32 =>
    }
  }

  // ---- arithmetic of the C operators -----------------------------------------------------

  /** The world outside the machine: what a called function returns and does to memory, and
      whether plain char is signed. */
  datatype Env = Env(call: (Word, seq<Word>, Memory) -> (Word, Memory), charSigned: bool)

  function Signed(env: Env, w: Width, x: Word): int
    requires x < Modulus(w)
  {
    if w == B8 && !env.charSigned then x
    else if 2 * x < Modulus(w) then x
    else x - Modulus(w)
  }

  /** C division: the quotient is cut towards zero. */
  function Quotient(x: int, y: int): int
    requires y != 0
  {
    var q := (if x < 0 then -x else x) / (if y < 0 then -y else y);
    if (x < 0) == (y < 0) then q else -q
  }

  function Wrap(w: Width, x: int): (r: Word)
    ensures r < Modulus(w)
  {
    x % Modulus(w)
  }

  /** One binary operator on operands of one width; None where C leaves it undefined:
      a zero divisor, the one overflowing quotient, a shift count outside 0..31. */
  function Arith(env: Env, op: BinOp, w: Width, x: Word, y: Word): (r: Option<Word>)
    requires x < Modulus(w) && y < Modulus(w)
    ensures r.Some? ==> r.value < Modulus(w)
  {
    var sx, sy := Signed(env, w, x), Signed(env, w, y);
    match op
    case Add => Some(Wrap(w, x + y))
    case Sub => Some(Wrap(w, x - y))
    case Mul => Some(Wrap(w, x * y))
    case Div =>
      if sy == 0 || (sx == -0x8000_0000 && sy == -1) then None
      else Some(Wrap(w, Quotient(sx, sy)))
    case Mod =>
      if sy == 0 || (sx == -0x8000_0000 && sy == -1) then None
      else Some(Wrap(w, sx - sy * Quotient(sx, sy)))
    case And => Some(Wrap(w, Bits.And(x, y)))
    case Or => Some(Wrap(w, Bits.Or(x, y)))
    case Xor => Some(Wrap(w, Bits.Xor(x, y)))
    case Shl => if 0 <= sy < 32 then Some(Wrap(w, x * Bits.Pow2(sy))) else None
    case Shr => if 0 <= sy < 32 then Some(Wrap(w, sx / Bits.Pow2(sy))) else None
  }

  /** ~x at width w. */
  function Complemented(w: Width, x: Word): (r: Word)
    requires x < Modulus(w)
    ensures r < Modulus(w)
  {
    Modulus(w) - 1 - x
  }

  // ---- instructions ----------------------------------------------------------------------

  datatype Instr =
    | NoOp
    | Bin(op: BinOp, w: Width)
    | BitNot(w: Width)
    | Ld(w: Width, v: Word)
    | LdValue(w: Width, addr: Word)
    | LdStack(w: Width)
    | St(w: Width)
    | Pop
    | SysCallN(n: Byte)

  /** The machine between two instructions; cells at sp and above keep what was left there. */
  datatype State = State(stack: seq<Word>, sp: nat, mem: Memory)

  const MAX_PARAMETERS: nat := 16

  /** The arguments OP_call hands over: cells in source order; f(0) when there is none. */
  function Arguments(stack: seq<Word>, first: nat, n: nat): seq<Word>
    requires first + n <= |stack|
  {
    if n == 0 then [0] else stack[first..first + n]
  }

  /** Effect of one instruction; None is a fault: a stack index out of bounds, an operation
      C leaves undefined, or more parameters than OP_call has room for. */
  function Exec(env: Env, i: Instr, s: State): (r: Option<State>)
    ensures r.Some? ==> |r.value.stack| == |s.stack|
  {
    match i
    case NoOp => Some(s)
    case Bin(op, w) =>
      if !(2 <= s.sp <= |s.stack|) then None
      else
        var x, y := s.stack[s.sp - 2], s.stack[s.sp - 1];
        var z := Arith(env, op, w, Low(w, x), Low(w, y));
        if z.None? then None
        else Some(s.(stack := s.stack[s.sp - 2 := SetLow(w, x, z.value)], sp := s.sp - 1))
    case BitNot(w) =>
      if !(1 <= s.sp <= |s.stack|) then None
      else
        var x := s.stack[s.sp - 1];
        Some(s.(stack := s.stack[s.sp - 1 := SetLow(w, x, Complemented(w, Low(w, x)))]))
    case Ld(w, v) =>
      if !(s.sp < |s.stack| && v < Modulus(w)) then None
      else Some(s.(stack := s.stack[s.sp := SetLow(w, s.stack[s.sp], v)], sp := s.sp + 1))
    case LdValue(w, a) =>
      if !(s.sp < |s.stack|) then None
      else Some(s.(stack := s.stack[s.sp := SetLow(w, s.stack[s.sp], Load(s.mem, w, a))], sp := s.sp + 1))
    case LdStack(w) =>
      if !(1 <= s.sp <= |s.stack|) then None
      else
        var x := s.stack[s.sp - 1];
        Some(s.(stack := s.stack[s.sp - 1 := SetLow(w, x, Load(s.mem, w, x))]))
    case St(w) =>
      if !(2 <= s.sp <= |s.stack|) then None
      else Some(s.(mem := Store(s.mem, w, s.stack[s.sp - 2], Low(w, s.stack[s.sp - 1])), sp := s.sp - 1))
    case Pop =>
      if s.sp == 0 then None else Some(s.(sp := s.sp - 1))
    case SysCallN(n) =>
      if !(n + 1 <= s.sp <= |s.stack| && n <= MAX_PARAMETERS) then None
      else
        var base := s.sp - 1 - n;
        var (ret, mem) := env.call(s.stack[base], Arguments(s.stack, base + 1, n), s.mem);
        Some(State(s.stack[base := ret], base + 1, mem))
  }

  function ExecAll(env: Env, code: seq<Instr>, s: State): Option<State> {
    if code == [] then Some(s)
    else
      var s1 := Exec(env, code[0], s);
      if s1.None? then None else ExecAll(env, code[1..], s1.value)
  }

  lemma {:induction false} ExecAppend(env: Env, a: seq<Instr>, b: seq<Instr>, s: State)
    ensures var s1 := ExecAll(env, a, s);
            ExecAll(env, a + b, s) == if s1.None? then None else ExecAll(env, b, s1.value)
  {
    if a == [] {
      assert a + b == b;
    } else {
      assert (a + b)[0] == a[0] && (a + b)[1..] == a[1..] + b;
      var s1 := Exec(env, a[0], s);
      if s1.Some? {
        ExecAppend(env, a[1..], b, s1.value);
      }
    }
  }

  // ---- byte encoding ---------------------------------------------------------------------

  function BinCode(op: BinOp): Byte {
    match op
    case Add => 1
    case Sub => 4
    case Div => 7
    case Mod => 10
    case Mul => 13
    case And => 16
    case Or => 19
    case Xor => 22
    case Shl => 28
    case Shr => 31
  }

  function WidthCode(w: Width): Byte {
    match w
    case B8 => 0
    case B16 => 1
    case B32 => 2
  }

  /** FINSH_SET32 */
  function Dword(v: Word): (r: seq<Byte>)
    ensures |r| == 4
  {
    [v % 0x100, v / 0x100 % 0x100, v / 0x1_0000 % 0x100, v / 0x100_0000]
  }

  /** The operand of an immediate load, cut to its width. */
  function Immediate(w: Width, v: Word): seq<Byte> {
    match w
    case B8 => [v % 0x100]
    case B16 => [v % 0x100, v / 0x100 % 0x100]
    case B32 => Dword(v)
  }

  function Encode(i: Instr): (r: seq<Byte>)
    ensures |r| >= 1
  {
    match i
    case NoOp => [0]
    case Bin(op, w) => [BinCode(op) + WidthCode(w)]
    case BitNot(w) => [25 + WidthCode(w)]
    case Ld(w, v) => [34 + WidthCode(w)] + Immediate(w, v)
    case LdValue(w, a) => [37 + WidthCode(w)] + Dword(a)
    case LdStack(w) => [45 + WidthCode(w)]
    case St(w) => [40 + WidthCode(w)]
    case Pop => [43]
    case SysCallN(n) => [44, n]
  }

  function EncodeAll(code: seq<Instr>): seq<Byte> {
    if code == [] then [] else Encode(code[0]) + EncodeAll(code[1..])
  }

  lemma {:induction false} EncodeAppend(a: seq<Instr>, b: seq<Instr>)
    ensures EncodeAll(a + b) == EncodeAll(a) + EncodeAll(b)
  {
    if a == [] {
      assert a + b == b;
    } else {
      assert (a + b)[0] == a[0] && (a + b)[1..] == a[1..] + b;
      EncodeAppend(a[1..], b);
    }
  }

  function WidthOfCode(c: nat): Width
    requires c < 3
  {
    if c == 0 then B8 else if c == 1 then B16 else B32
  }

  function OpOfCode(c: nat): BinOp
    requires 1 <= c < 25 || 28 <= c < 34
  {
    if c < 4 then Add else if c < 7 then Sub else if c < 10 then Div else if c < 13 then Mod
    else if c < 16 then Mul else if c < 19 then And else if c < 22 then Or else if c < 25 then Xor
    else if c < 31 then Shl else Shr
  }

  /** FINSH_GET16 */
  function Get16(code: seq<Byte>): Word
    requires |code| >= 2
  {
    var b0: int, b1: int := code[0], code[1];
    b0 + 0x100 * b1
  }

  /** FINSH_GET32 */
  function Get32(code: seq<Byte>): Word
    requires |code| >= 4
  {
    var b0: int, b1: int, b2: int, b3: int := code[0], code[1], code[2], code[3];
    b0 + 0x100 * b1 + 0x1_0000 * b2 + 0x100_0000 * b3
  }

  /** One fetch: the instruction and its length; None past op_table or past the text. */
  function Decode(code: seq<Byte>): (r: Option<(Instr, nat)>)
    requires code != []
    ensures r.Some? ==> 1 <= r.value.1 <= |code|
  {
    var c := code[0];
    if c == 0 then Some((NoOp, 1))
    else if c < 25 || 28 <= c < 34 then Some((Bin(OpOfCode(c), WidthOfCode((c - 1) % 3)), 1))
    else if c < 28 then Some((BitNot(WidthOfCode(c - 25)), 1))
    else if c == 34 then
      if |code| < 2 then None else Some((Ld(B8, code[1]), 2))
    else if c == 35 then
      if |code| < 3 then None else Some((Ld(B16, Get16(code[1..])), 3))
    else if c == 36 then
      if |code| < 5 then None else Some((Ld(B32, Get32(code[1..])), 5))
    else if c < 40 then
      if |code| < 5 then None else Some((LdValue(WidthOfCode(c - 37), Get32(code[1..])), 5))
    else if c < 43 then Some((St(WidthOfCode(c - 40)), 1))
    else if c == 43 then Some((Pop, 1))
    else if c == 44 then
      if |code| < 2 then None else Some((SysCallN(code[1]), 2))
    else if c < 48 then Some((LdStack(WidthOfCode(c - 45)), 1))
    else None
  }

  /** Immediate operands that fit their width; what the compiler emits. */
  predicate Encodable(i: Instr) {
    i.Ld? ==> i.v < Modulus(i.w)
  }

  lemma Get32OfDword(v: Word, rest: seq<Byte>)
    ensures Get32(Dword(v) + rest) == v
  {
    FourBytes(v);
  }

  lemma DecodeLoad(w: Width, v: Word, rest: seq<Byte>)
    requires v < Modulus(w)
    ensures Decode(Encode(Ld(w, v)) + rest) == Some((Ld(w, v), |Encode(Ld(w, v))|))
  {
    hide Get32, Dword;
    var code := Encode(Ld(w, v)) + rest;
    assert code[1..] == Immediate(w, v) + rest;
    if w == B16 {
      assert v == v % 0x100 + 0x100 * (v / 0x100 % 0x100);
    } else if w == B32 {
      Get32OfDword(v, rest);
    }
  }

  lemma DecodeLoadValue(w: Width, a: Word, rest: seq<Byte>)
    ensures Decode(Encode(LdValue(w, a)) + rest) == Some((LdValue(w, a), |Encode(LdValue(w, a))|))
  {
    hide Get32, Dword;
    var code := Encode(LdValue(w, a)) + rest;
    assert code[1..] == Dword(a) + rest;
    Get32OfDword(a, rest);
  }

  lemma DecodeEncode(i: Instr, rest: seq<Byte>)
    requires Encodable(i)
    ensures Decode(Encode(i) + rest) == Some((i, |Encode(i)|))
  {
    hide Get32, Get16, Dword, Immediate;
    match i {
      case Ld(w, v) => DecodeLoad(w, v, rest);
      case LdValue(w, a) => DecodeLoadValue(w, a, rest);
      case _ => assert (Encode(i) + rest)[0] == Encode(i)[0];
    }
  }

  /** Running bytes from the front until they are used up. */
  function ExecBytes(env: Env, code: seq<Byte>, s: State): Option<State>
    decreases |code|
  {
    if code == [] then Some(s)
    else
      var d := Decode(code);
      if d.None? then None
      else
        var s1 := Exec(env, d.value.0, s);
        if s1.None? then None else ExecBytes(env, code[d.value.1..], s1.value)
  }

  /** Executing encoded instructions is executing the instructions, then the bytes after. */
  lemma {:induction false} ExecEncoded(env: Env, code: seq<Instr>, rest: seq<Byte>, s: State)
    requires forall k :: 0 <= k < |code| ==> Encodable(code[k])
    ensures var s1 := ExecAll(env, code, s);
            ExecBytes(env, EncodeAll(code) + rest, s)
            == if s1.None? then None else ExecBytes(env, rest, s1.value)
  {
    if code == [] {
      assert EncodeAll(code) + rest == rest;
    } else {
      var tail := EncodeAll(code[1..]) + rest;
      var bytes := EncodeAll(code) + rest;
      assert bytes == Encode(code[0]) + tail;
      DecodeEncode(code[0], tail);
      assert bytes[|Encode(code[0])|..] == tail;
      var s1 := Exec(env, code[0], s);
      if s1.Some? {
        ExecEncoded(env, code[1..], rest, s1.value);
      }
    }
  }

  /** Cleared text is a run of no-ops: it changes nothing. */
  lemma {:induction false} ExecZeros(env: Env, n: nat, s: State)
    ensures ExecBytes(env, seq(n, _ => 0), s) == Some(s)
  {
    if n > 0 {
      assert seq<Byte>(n, _ => 0)[1..] == seq<Byte>(n - 1, _ => 0);
      ExecZeros(env, n - 1, s);
    }
  }
}
