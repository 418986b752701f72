/**
 * Compiler and machine agree with a direct reading of the program. `Eval`
 * gives the value of an argument built from literals, registers and the
 * binary builtins; `Interp` runs statements (literals, register reads and
 * writes, binary and output calls, conditionals) on an accumulator, the six
 * registers and the output, and counts the machine steps they take. The
 * theorems say that the machine, started on the compiled code, reaches
 * exactly that state after exactly that many steps, leaving the argument
 * stack as it found it.
 */
module Correctness {
  import opened Wrappers
  import opened Registers
  import opened Lexer
  import opened Parser
  import opened Compiler
  import opened Builtins
  import opened Machine
  import opened MachineFacts
  import opened CompilerFacts

  // ---------------------------------------------------------------------
  // The meaning of a program

  /** The binary builtins on their operands, read off the language's definition. */
  function Binary(name: Token, x: int, y: int): Option<int>
  {
    match name
    case Num(_) => None
    case Long(_) => None
    case Ident(op) =>
      if op == ">" then Some(if x > y then 1 else 0)
      else if op == "<" then Some(if x < y then 1 else 0)
      else if op == "=" then Some(if x == y then 1 else 0)
      else if op == ">=" then Some(if x >= y then 1 else 0)
      else if op == "<=" then Some(if x <= y then 1 else 0)
      else if op == "+" then Some(x + y)
      else if op == "-" then Some(x - y)
      else if op == "*" then Some(x * y)
      else if op == "/" then (if y == 0 then None else Some(FloorDiv(x, y)))
      else None
  }

  /** The value of an argument; `None` for anything but literals, registers and binary builtins. */
  function Eval(a: Node, regs: Regs): Option<int>
    decreases a
  {
    match a
    case Lit(v) => Some(v)
    case Read(r) => Some(Load(regs, r))
    case Call(name, args) =>
      if |args| != 2 then None
      else
        (match (Eval(args[0], regs), Eval(args[1], regs))
         case (Some(x), Some(y)) => Binary(name, x, y)
         case _ => None)
    case _ => None
  }

  /** How many instructions evaluating an argument executes: one per literal, register and call. */
  function Steps(a: Node): nat
    decreases a
  {
    match a
    case Call(_, args) => if |args| == 2 then Steps(args[0]) + Steps(args[1]) + 1 else 1
    case _ => 1
  }

  /** What a statement can change. */
  datatype Env = Env(value: int, regs: Regs, out: seq<Event>)

  /** The state a statement leaves, and the number of machine steps it takes to get there. */
  datatype Done = Done(env: Env, steps: nat)

  function EnvOf(s: State): Env
  {
    Env(s.value, s.regs, s.out)
  }

  /**
   * An output builtin's event; `None` when the name is not one, or `write`
   * gets a code outside 0..255.
   */
  function Output(name: Token, x: int): Option<Event>
  {
    if name == Ident("print") then Some(Print(x))
    else if name == Ident("println") then Some(PrintLine(x))
    else if name == Ident("write") && 0 <= x < 256 then Some(Write(x))
    else None
  }

  /**
   * A call statement. A binary builtin sets the accumulator to its result.
   * An output builtin writes its argument and sets the accumulator to what
   * the argument left there: its value when it is itself a call, otherwise
   * the accumulator is unchanged.
   */
  function InterpCall(name: Token, args: seq<Node>, e: Env): Option<Done>
  {
    if |args| == 2 then
      match Eval(Call(name, args), e.regs)
      case None => None
      case Some(v) => Some(Done(e.(value := v), Steps(args[0]) + Steps(args[1]) + 2))
    else if |args| == 1 then
      match Eval(args[0], e.regs)
      case None => None
      case Some(x) =>
        match Output(name, x)
        case None => None
        case Some(ev) =>
          Some(Done(e.(value := if args[0].Call? then x else e.value, out := e.out + [ev]), Steps(args[0]) + 2))
    else None
  }

  /**
   * One statement. A conditional runs its first block when the accumulator
   * is not zero and its second block otherwise; `None` for definitions, user
   * calls and anything whose value is undefined.
   */
  function InterpNode(n: Node, e: Env): Option<Done>
    decreases n, 1
  {
    match n
    case Lit(v) => Some(Done(e.(value := v), 1))
    case Read(reg) => Some(Done(e.(value := Load(e.regs, reg)), 1))
    case Assign(reg) => Some(Done(e.(regs := Put(e.regs, reg, e.value)), 1))
    case Call(name, args) => InterpCall(name, args, e)
    case Cond(b1, b2) =>
      if e.value != 0 then
        (match Interp(b1, e)
         case None => None
         case Some(d) => Some(Done(d.env, d.steps + (if b2 == [] then 1 else 2))))
      else if b2 == [] then Some(Done(e, 1))
      else
        (match Interp(b2, e)
         case None => None
         case Some(d) => Some(Done(d.env, d.steps + 1)))
    case Def(_, _, _) => None
  }

  /** Statements one after another. */
  function Interp(ns: seq<Node>, e: Env): Option<Done>
    decreases ns, 2
  {
    if ns == [] then Some(Done(e, 0))
    else
      match InterpNode(ns[0], e)
      case None => None
      case Some(d1) =>
        match Interp(ns[1..], d1.env)
        case None => None
        case Some(d2) => Some(Done(d2.env, d1.steps + d2.steps))
  }

  // ---------------------------------------------------------------------
  // Code in place, and runs that compose

  /** `c` sits in `code` from position `p` on. */
  ghost predicate Within(code: seq<Instr>, p: nat, c: seq<Instr>)
    decreases |c|
  {
    if c == [] then p <= |code| else p < |code| && code[p] == c[0] && Within(code, p + 1, c[1..])
  }

  lemma {:induction false} WithinSplit(code: seq<Instr>, p: nat, a: seq<Instr>, b: seq<Instr>)
    requires Within(code, p, a + b)
    ensures Within(code, p, a) && Within(code, p + |a|, b)
    decreases |a|
  {
    if a == [] {
      assert a + b == b;
      WithinLength(code, p, b);
    } else {
      assert (a + b)[0] == a[0] && (a + b)[1..] == a[1..] + b;
      WithinSplit(code, p + 1, a[1..], b);
    }
  }

  lemma {:induction false} WithinLength(code: seq<Instr>, p: nat, c: seq<Instr>)
    requires Within(code, p, c)
    ensures p + |c| <= |code|
    decreases |c|
  {
    if c != [] {
      WithinLength(code, p + 1, c[1..]);
    }
  }

  lemma {:induction false} WithinAt(code: seq<Instr>, p: nat, c: seq<Instr>, k: nat)
    requires Within(code, p, c) && k < |c|
    ensures p + k < |code| && code[p + k] == c[k]
    decreases k
  {
    if k > 0 {
      WithinAt(code, p + 1, c[1..], k - 1);
    }
  }

  /** A segment sits in itself. */
  lemma {:induction false} WithinRest(code: seq<Instr>, p: nat)
    requires p <= |code|
    ensures Within(code, p, code[p..])
    decreases |code| - p
  {
    if p < |code| {
      assert code[p..][1..] == code[p + 1..];
      WithinRest(code, p + 1);
    }
  }

  /**
   * `Run` with the step function as a parameter. The proofs below need only
   * that the step function executes the instruction under the position, so
   * they take any `f` that `Agrees`; `Step` is one.
   */
  function Iterate(f: State -> Outcome, s: State, fuel: nat): Outcome
    decreases fuel
  {
    if fuel == 0 then Running(s)
    else
      match f(s)
      case Running(t) => Iterate(f, t, fuel - 1)
      case o => o
  }

  ghost predicate Agrees(f: State -> Outcome)
  {
    forall x: State {:trigger Exec(x)} :: x.pos < |Code(x)| ==> f(x) == Exec(x)
  }

  lemma {:induction false} StepAgrees()
    ensures Agrees(Step)
  {
  }

  lemma {:induction false} RunIsIterate(s: State, fuel: nat)
    ensures Run(s, fuel) == Iterate(Step, s, fuel)
    decreases fuel
  {
    if fuel > 0 {
      RunIsIterate(Step(s).s, fuel - 1);
    }
  }

  /** `m` steps and then `n` more are `m + n` steps. */
  lemma {:induction false} IterateSplit(f: State -> Outcome, s: State, m: nat, n: nat)
    requires Iterate(f, s, m).Running?
    ensures Iterate(f, s, m + n) == Iterate(f, Iterate(f, s, m).s, n)
    decreases m
  {
    if m > 0 {
      IterateSplit(f, f(s).s, m - 1, n);
    }
  }

  /** On an instruction of the segment that does not fail, one step executes it. */
  lemma {:induction false} IterateOne(f: State -> Outcome, s: State)
    requires Agrees(f) && s.pos < |Code(s)| && Exec(s).Running?
    ensures Iterate(f, s, 1) == Exec(s)
  {
  }

  /** A binary builtin replaces its two operands by its result, which is also the accumulator. */
  lemma {:induction false} IterateBinary(f: State -> Outcome, s: State, name: Token, st: seq<int>, x: int, y: int)
    requires Agrees(f) && HasBuiltins(s.table.nargs)
    requires s.pos < |Code(s)| && Code(s)[s.pos] == Invoke(name, 2)
    requires s.argstack == st + [x, y] && Binary(name, x, y).Some?
    ensures Iterate(f, s, 1)
         == Running(s.(pos := s.pos + 1, value := Binary(name, x, y).value, argstack := st + [Binary(name, x, y).value]))
  {
    ApplyBinary(name, x, y);
    assert Top(s.argstack, 2) == [x, y];
    assert Below(s.argstack, 2) == st;
    assert s.out + [] == s.out;
    IterateOne(f, s);
  }

  /** An output builtin writes its argument and puts the accumulator in its place. */
  lemma {:induction false} IterateOutput(f: State -> Outcome, s: State, name: Token, st: seq<int>, x: int)
    requires Agrees(f) && HasBuiltins(s.table.nargs)
    requires s.pos < |Code(s)| && Code(s)[s.pos] == Invoke(name, 1)
    requires s.argstack == st + [x] && Output(name, x).Some?
    ensures Iterate(f, s, 1)
         == Running(s.(pos := s.pos + 1, argstack := st + [s.value], out := s.out + [Output(name, x).value]))
  {
    ApplyOutput(name, x);
    assert Top(s.argstack, 1) == [x];
    assert Below(s.argstack, 1) == st;
    IterateOne(f, s);
  }

  /** The builtins the machine runs agree with `Binary`. */
  lemma {:induction false} ApplyBinary(name: Token, x: int, y: int)
    requires Binary(name, x, y).Some?
    ensures name in Arity && Arity[name] == 2
    ensures Apply(name, [x, y]) == Ok(Answer(Binary(name, x, y), []))
  {
  }

  /** And with `Output`. */
  lemma {:induction false} ApplyOutput(name: Token, x: int)
    requires Output(name, x).Some?
    ensures name in Arity && Arity[name] == 1
    ensures Apply(name, [x]) == Ok(Answer(None, [Output(name, x).value]))
  {
  }

  // ---------------------------------------------------------------------
  // Arguments

  /** Pushing a literal or a register: one step, one value on the stack. */
  lemma {:induction false} IteratePush(f: State -> Outcome, s: State, a: Node)
    requires Agrees(f) && (a.Lit? || a.Read?) && s.pos < |Code(s)|
    requires Code(s)[s.pos] == (if a.Lit? then PushN(a.value) else Push(a.reg))
    ensures Eval(a, s.regs).Some?
    ensures Iterate(f, s, 1) == Running(s.(pos := s.pos + 1, argstack := s.argstack + [Eval(a, s.regs).value]))
  {
    IterateOne(f, s);
  }

  /** What an argument's pushes leave: the position moved on by `k`, `v` pushed, and the accumulator set to `v` by a call. */
  function Pushed(s: State, k: nat, v: int, call: bool): State
  {
    s.(pos := s.pos + k, argstack := s.argstack + [v], value := if call then v else s.value)
  }

  /**
   * The pushes `travel` emits for an argument whose value is defined push
   * exactly that value, one step per instruction, and change nothing else
   * but the accumulator, which a nested call sets to its result.
   */
  lemma {:induction false} ArgRuns(f: State -> Outcome, s: State, a: Node)
    requires Agrees(f) && HasBuiltins(s.table.nargs) && TravelArg(a).Ok? && Eval(a, s.regs).Some?
    requires Within(Code(s), s.pos, TravelArg(a).value)
    ensures |TravelArg(a).value| == Steps(a)
    ensures Iterate(f, s, Steps(a)) == Running(Pushed(s, Steps(a), Eval(a, s.regs).value, a.Call?))
    decreases a, 2
  {
    if a.Call? {
      CallArgRuns(f, s, a);
    } else {
      WithinAt(Code(s), s.pos, TravelArg(a).value, 0);
      IteratePush(f, s, a);
    }
  }

  /** `ArgRuns` for a nested binary call: both operands, then the call. */
  lemma {:induction false} CallArgRuns(f: State -> Outcome, s: State, a: Node)
    requires Agrees(f) && HasBuiltins(s.table.nargs) && a.Call? && TravelArg(a).Ok? && Eval(a, s.regs).Some?
    requires Within(Code(s), s.pos, TravelArg(a).value)
    ensures |TravelArg(a).value| == Steps(a)
    ensures Iterate(f, s, Steps(a))
         == Running(s.(pos := s.pos + Steps(a), argstack := s.argstack + [Eval(a, s.regs).value],
                       value := Eval(a, s.regs).value))
    decreases a, 1
  {
    CallShape(a, s.regs);
    var name, x, y := a.name, a.args[0], a.args[1];
    var vx, vy := Eval(x, s.regs).value, Eval(y, s.regs).value;
    var v := Binary(name, vx, vy).value;
    var n := Steps(x) + Steps(y);
    WithinSplit(Code(s), s.pos, TravelArg(x).value + TravelArg(y).value, [Invoke(name, 2)]);
    OperandsRun(f, s, a);
    var s2 := s.(pos := s.pos + n, argstack := s.argstack + [vx, vy],
                 value := if y.Call? then vy else if x.Call? then vx else s.value);
    WithinAt(Code(s), s2.pos, [Invoke(name, 2)], 0);
    IterateBinary(f, s2, name, s.argstack, vx, vy);
    IterateSplit(f, s, n, 1);
    assert s2.(pos := s2.pos + 1, value := v, argstack := s.argstack + [v])
        == s.(pos := s.pos + Steps(a), argstack := s.argstack + [v], value := v);
  }

  /** The operands of a nested binary call push their two values in order. */
  lemma {:induction false} OperandsRun(f: State -> Outcome, s: State, a: Node)
    requires Agrees(f) && HasBuiltins(s.table.nargs) && a.Call? && |a.args| == 2
    requires TravelArg(a.args[0]).Ok? && TravelArg(a.args[1]).Ok?
    requires Eval(a.args[0], s.regs).Some? && Eval(a.args[1], s.regs).Some?
    requires Within(Code(s), s.pos, TravelArg(a.args[0]).value + TravelArg(a.args[1]).value)
    ensures |TravelArg(a.args[0]).value| == Steps(a.args[0]) && |TravelArg(a.args[1]).value| == Steps(a.args[1])
    ensures var x, y := a.args[0], a.args[1];
            var vx, vy := Eval(x, s.regs).value, Eval(y, s.regs).value;
            Iterate(f, s, Steps(x) + Steps(y))
            == Running(s.(pos := s.pos + Steps(x) + Steps(y), argstack := s.argstack + [vx, vy],
                          value := if y.Call? then vy else if x.Call? then vx else s.value))
    decreases a, 0
  {
    var x, y := a.args[0], a.args[1];
    var cx, cy := TravelArg(x).value, TravelArg(y).value;
    WithinSplit(Code(s), s.pos, cx, cy);
    var vx, vy := Eval(x, s.regs).value, Eval(y, s.regs).value;
    ArgRuns(f, s, x);
    var s1 := Pushed(s, Steps(x), vx, x.Call?);
    ArgRuns(f, s1, y);
    TwoPushes(f, s, Steps(x), Steps(y), vx, vy, x.Call?, y.Call?);
  }

  /** Two arguments' pushes, one after the other. */
  lemma {:induction false} TwoPushes(f: State -> Outcome, s: State, nx: nat, ny: nat, vx: int, vy: int, cx: bool, cy: bool)
    requires Iterate(f, s, nx) == Running(Pushed(s, nx, vx, cx))
    requires Iterate(f, Pushed(s, nx, vx, cx), ny) == Running(Pushed(Pushed(s, nx, vx, cx), ny, vy, cy))
    ensures Iterate(f, s, nx + ny)
         == Running(s.(pos := s.pos + nx + ny, argstack := s.argstack + [vx, vy],
                       value := if cy then vy else if cx then vx else s.value))
  {
    IterateSplit(f, s, nx, ny);
    assert s.argstack + [vx] + [vy] == s.argstack + [vx, vy];
  }
  /** How a defined nested call breaks up into its two operands. */
  lemma {:induction false} CallShape(a: Node, regs: Regs)
    requires a.Call? && TravelArg(a).Ok? && Eval(a, regs).Some?
    ensures |a.args| == 2 && Eval(a.args[0], regs).Some? && Eval(a.args[1], regs).Some?
    ensures Eval(a, regs) == Binary(a.name, Eval(a.args[0], regs).value, Eval(a.args[1], regs).value)
    ensures Steps(a) == Steps(a.args[0]) + Steps(a.args[1]) + 1
    ensures TravelArg(a.args[0]).Ok? && TravelArg(a.args[1]).Ok?
    ensures TravelArg(a).value == TravelArg(a.args[0]).value + TravelArg(a.args[1]).value + [Invoke(a.name, 2)]
  {
    var args := a.args;
    TravelArgsCons(args);
    TravelArgsCons(args[1..]);
    assert args[1..][0] == args[1] && args[1..][1..] == [];
  }

  // ---------------------------------------------------------------------
  // Statements

  /** `s` moved on by `len` instructions, with what a statement changed. */
  function After(s: State, len: nat, e: Env): State
  {
    s.(pos := s.pos + len, value := e.value, regs := e.regs, out := e.out)
  }

  /** A literal, a register read or a register write: one instruction, one step. */
  lemma {:induction false} IterateSimple(f: State -> Outcome, s: State, n: Node)
    requires Agrees(f) && (n.Lit? || n.Read? || n.Assign?)
    requires Within(Code(s), s.pos, CompileNode(n).value)
    ensures InterpNode(n, EnvOf(s)).Some? && InterpNode(n, EnvOf(s)).value.steps == 1
    ensures Iterate(f, s, 1) == Running(After(s, 1, InterpNode(n, EnvOf(s)).value.env))
  {
    WithinAt(Code(s), s.pos, CompileNode(n).value, 0);
    IterateOne(f, s);
  }

  /** `POP` after a call statement: the call's result goes back to the accumulator. */
  lemma {:induction false} IteratePop(f: State -> Outcome, s: State, st: seq<int>, v: int)
    requires Agrees(f) && s.pos < |Code(s)| && Code(s)[s.pos] == Pop && s.argstack == st + [v]
    ensures Iterate(f, s, 1) == Running(s.(pos := s.pos + 1, value := v, argstack := st))
  {
    assert s.argstack[..|s.argstack| - 1] == st;
    IterateOne(f, s);
  }

  /** `JZ d` skips `d` instructions when the accumulator is zero. */
  lemma {:induction false} IterateJz(f: State -> Outcome, s: State, d: nat)
    requires Agrees(f) && s.pos < |Code(s)| && Code(s)[s.pos] == Jz(d)
    ensures Iterate(f, s, 1) == Running(s.(pos := if s.value == 0 then s.pos + d + 1 else s.pos + 1))
  {
    IterateOne(f, s);
  }

  /** `JMP d` always skips `d` instructions. */
  lemma {:induction false} IterateJmp(f: State -> Outcome, s: State, d: nat)
    requires Agrees(f) && s.pos < |Code(s)| && Code(s)[s.pos] == Jmp(d)
    ensures Iterate(f, s, 1) == Running(s.(pos := s.pos + d + 1))
  {
    IterateOne(f, s);
  }

  /**
   * A call statement of a binary builtin: its nested call's code, then
   * `POP`, which moves the result from the stack to the accumulator.
   */
  lemma {:induction false} BinaryCallRuns(f: State -> Outcome, s: State, n: Node)
    requires Agrees(f) && HasBuiltins(s.table.nargs) && n.Call? && |n.args| == 2
    requires CompileNode(n).Ok? && InterpNode(n, EnvOf(s)).Some?
    requires Within(Code(s), s.pos, CompileNode(n).value)
    ensures Iterate(f, s, InterpNode(n, EnvOf(s)).value.steps)
         == Running(After(s, |CompileNode(n).value|, InterpNode(n, EnvOf(s)).value.env))
  {
    var c := TravelArg(n).value;
    assert CompileNode(n).value == c + [Pop];
    WithinSplit(Code(s), s.pos, c, [Pop]);
    var v := Eval(n, s.regs).value;
    CallArgRuns(f, s, n);
    var s1 := s.(pos := s.pos + Steps(n), argstack := s.argstack + [v], value := v);
    WithinAt(Code(s), s1.pos, [Pop], 0);
    IteratePop(f, s1, s.argstack, v);
    IterateSplit(f, s, Steps(n), 1);
    assert s1.(pos := s1.pos + 1, value := v, argstack := s.argstack) == After(s, |c| + 1, EnvOf(s).(value := v));
  }

  /** Two runs one after the other. */
  lemma {:induction false} Then(f: State -> Outcome, s: State, m: nat, s1: State, n: nat, s2: State)
    requires Iterate(f, s, m) == Running(s1) && Iterate(f, s1, n) == Running(s2)
    ensures Iterate(f, s, m + n) == Running(s2)
  {
    IterateSplit(f, s, m, n);
  }

  /** What `InterpNode` makes of a call of an output builtin. */
  lemma {:induction false} OutputMeaning(n: Node, e: Env)
    requires n.Call? && |n.args| == 1 && InterpNode(n, e).Some?
    ensures Eval(n.args[0], e.regs).Some? && Output(n.name, Eval(n.args[0], e.regs).value).Some?
    ensures InterpNode(n, e).value
         == Done(e.(value := if n.args[0].Call? then Eval(n.args[0], e.regs).value else e.value,
                    out := e.out + [Output(n.name, Eval(n.args[0], e.regs).value).value]),
                 Steps(n.args[0]) + 2)
  {
  }

  /** The code of a one-argument call statement. */
  lemma {:induction false} UnaryCallCode(n: Node)
    requires n.Call? && |n.args| == 1 && CompileNode(n).Ok?
    ensures TravelArg(n.args[0]).Ok?
    ensures CompileNode(n).value == TravelArg(n.args[0]).value + [Invoke(n.name, 1), Pop]
  {
    TravelArgsCons(n.args);
    assert n.args[1..] == [];
  }

  /**
   * An output call: its argument, the call, which pushes the accumulator in
   * the argument's place, and `POP`, which takes it back.
   */
  lemma {:induction false} OutputRun(f: State -> Outcome, s: State, name: Token, x: Node, vx: int, ev: Event)
    requires Agrees(f) && HasBuiltins(s.table.nargs) && TravelArg(x).Ok? && Eval(x, s.regs) == Some(vx)
    requires Output(name, vx) == Some(ev)
    requires Within(Code(s), s.pos, TravelArg(x).value)
    requires s.pos + |TravelArg(x).value| + 1 < |Code(s)|
    requires Code(s)[s.pos + |TravelArg(x).value|] == Invoke(name, 1)
    requires Code(s)[s.pos + |TravelArg(x).value| + 1] == Pop
    ensures |TravelArg(x).value| == Steps(x)
    ensures Iterate(f, s, Steps(x) + 2)
         == Running(s.(pos := s.pos + Steps(x) + 2, value := if x.Call? then vx else s.value, out := s.out + [ev]))
  {
    ArgRuns(f, s, x);
    var w := if x.Call? then vx else s.value;
    var s1 := Pushed(s, Steps(x), vx, x.Call?);
    IterateOutput(f, s1, name, s.argstack, vx);
    var s2 := s1.(pos := s1.pos + 1, argstack := s.argstack + [w], out := s.out + [ev]);
    IteratePop(f, s2, s.argstack, w);
    Then(f, s, Steps(x), s1, 1, s2);
    Then(f, s, Steps(x) + 1, s2, 1, s2.(pos := s2.pos + 1, value := w, argstack := s.argstack));
  }

  /** The layout of an argument's code `c`, `CALL name 1`, `POP`. */
  lemma {:induction false} UnaryAt(code: seq<Instr>, p: nat, c: seq<Instr>, name: Token)
    requires Within(code, p, c + [Invoke(name, 1), Pop])
    ensures Within(code, p, c) && p + |c| + 1 < |code|
    ensures code[p + |c|] == Invoke(name, 1) && code[p + |c| + 1] == Pop
  {
    WithinSplit(code, p, c, [Invoke(name, 1), Pop]);
    WithinAt(code, p + |c|, [Invoke(name, 1), Pop], 0);
    WithinAt(code, p + |c|, [Invoke(name, 1), Pop], 1);
  }

  /** A call statement of an output builtin. */
  lemma {:induction false} OutputCallRuns(f: State -> Outcome, s: State, n: Node)
    requires Agrees(f) && HasBuiltins(s.table.nargs) && n.Call? && |n.args| == 1
    requires CompileNode(n).Ok? && InterpNode(n, EnvOf(s)).Some?
    requires Within(Code(s), s.pos, CompileNode(n).value)
    ensures Iterate(f, s, InterpNode(n, EnvOf(s)).value.steps)
         == Running(After(s, |CompileNode(n).value|, InterpNode(n, EnvOf(s)).value.env))
  {
    var x := n.args[0];
    OutputMeaning(n, EnvOf(s));
    UnaryCallCode(n);
    var vx := Eval(x, s.regs).value;
    UnaryAt(Code(s), s.pos, TravelArg(x).value, n.name);
    OutputRun(f, s, n.name, x, vx, Output(n.name, vx).value);
  }

  /**
   * One statement: the machine runs its code in exactly the steps `InterpNode`
   * counts and ends just after it, in the state `InterpNode` describes.
   */
  lemma {:induction false} NodeRuns(f: State -> Outcome, s: State, n: Node)
    requires Agrees(f) && HasBuiltins(s.table.nargs) && CompileNode(n).Ok? && InterpNode(n, EnvOf(s)).Some?
    requires Within(Code(s), s.pos, CompileNode(n).value)
    ensures Iterate(f, s, InterpNode(n, EnvOf(s)).value.steps)
         == Running(After(s, |CompileNode(n).value|, InterpNode(n, EnvOf(s)).value.env))
    decreases n, 2
  {
    match n
    case Call(name, args) =>
      if |args| == 2 {
        BinaryCallRuns(f, s, n);
      } else {
        OutputCallRuns(f, s, n);
      }
    case Cond(b1, b2) =>
      if s.value != 0 {
        ThenRuns(f, s, n);
      } else if b2 == [] {
        SkipRuns(f, s, n);
      } else {
        ElseRuns(f, s, n);
      }
    case _ =>
      IterateSimple(f, s, n);
  }

  /** The code of a conditional with the parts `Compile` gives its blocks. */
  lemma {:induction false} CondLayout(n: Node)
    requires n.Cond? && CompileNode(n).Ok?
    ensures Compile(n.thenBlock).Ok? && (n.elseBlock != [] ==> Compile(n.elseBlock).Ok?)
    ensures n.elseBlock == [] ==> CompileNode(n).value == [Jz(|Compile(n.thenBlock).value|)] + Compile(n.thenBlock).value
    ensures n.elseBlock != [] ==>
              CompileNode(n).value
              == [Jz(|Compile(n.thenBlock).value| + 1)] + Compile(n.thenBlock).value
                 + [Jmp(|Compile(n.elseBlock).value|)] + Compile(n.elseBlock).value
  {
  }

  /** A conditional whose accumulator is zero and which has no second block jumps over its first. */
  lemma {:induction false} SkipRuns(f: State -> Outcome, s: State, n: Node)
    requires Agrees(f) && n.Cond? && n.elseBlock == [] && s.value == 0 && CompileNode(n).Ok?
    requires Within(Code(s), s.pos, CompileNode(n).value)
    ensures InterpNode(n, EnvOf(s)) == Some(Done(EnvOf(s), 1))
    ensures Iterate(f, s, 1) == Running(After(s, |CompileNode(n).value|, EnvOf(s)))
  {
    CondLayout(n);
    WithinAt(Code(s), s.pos, CompileNode(n).value, 0);
    IterateJz(f, s, |Compile(n.thenBlock).value|);
  }

  /** Where the jumps and the two blocks of a conditional's code sit. */
  lemma {:induction false} CondAt(code: seq<Instr>, p: nat, n: Node)
    requires n.Cond? && CompileNode(n).Ok? && Within(code, p, CompileNode(n).value)
    ensures Compile(n.thenBlock).Ok? && (n.elseBlock != [] ==> Compile(n.elseBlock).Ok?)
    ensures p < |code| && code[p] == Jz(|Compile(n.thenBlock).value| + (if n.elseBlock == [] then 0 else 1))
    ensures Within(code, p + 1, Compile(n.thenBlock).value)
    ensures n.elseBlock == [] ==> |CompileNode(n).value| == 1 + |Compile(n.thenBlock).value|
    ensures n.elseBlock != [] ==>
              && p + 1 + |Compile(n.thenBlock).value| < |code|
              && code[p + 1 + |Compile(n.thenBlock).value|] == Jmp(|Compile(n.elseBlock).value|)
              && Within(code, p + 2 + |Compile(n.thenBlock).value|, Compile(n.elseBlock).value)
              && |CompileNode(n).value| == 2 + |Compile(n.thenBlock).value| + |Compile(n.elseBlock).value|
  {
    CondLayout(n);
    if n.elseBlock == [] {
      IfAt(code, p, Compile(n.thenBlock).value);
    } else {
      IfElseAt(code, p, Compile(n.thenBlock).value, Compile(n.elseBlock).value);
    }
  }

  /** The layout of `JZ len(c1)`, `c1`. */
  lemma {:induction false} IfAt(code: seq<Instr>, p: nat, c1: seq<Instr>)
    requires Within(code, p, [Jz(|c1|)] + c1)
    ensures p < |code| && code[p] == Jz(|c1|) && Within(code, p + 1, c1)
  {
    WithinSplit(code, p, [Jz(|c1|)], c1);
    WithinAt(code, p, [Jz(|c1|)], 0);
  }

  /** The layout of `JZ len(c1)+1`, `c1`, `JMP len(c2)`, `c2`. */
  lemma {:induction false} IfElseAt(code: seq<Instr>, p: nat, c1: seq<Instr>, c2: seq<Instr>)
    requires Within(code, p, [Jz(|c1| + 1)] + c1 + [Jmp(|c2|)] + c2)
    ensures p < |code| && code[p] == Jz(|c1| + 1) && Within(code, p + 1, c1)
    ensures p + 1 + |c1| < |code| && code[p + 1 + |c1|] == Jmp(|c2|)
    ensures Within(code, p + 2 + |c1|, c2)
  {
    WithinSplit(code, p, [Jz(|c1| + 1)] + c1 + [Jmp(|c2|)], c2);
    WithinSplit(code, p, [Jz(|c1| + 1)] + c1, [Jmp(|c2|)]);
    WithinSplit(code, p, [Jz(|c1| + 1)], c1);
    WithinAt(code, p, [Jz(|c1| + 1)], 0);
    WithinAt(code, p + 1 + |c1|, [Jmp(|c2|)], 0);
  }

  /** What `InterpNode` makes of a conditional, block by block. */
  lemma {:induction false} CondMeaning(n: Node, e: Env)
    requires n.Cond? && InterpNode(n, e).Some?
    ensures e.value != 0 ==>
              && Interp(n.thenBlock, e).Some?
              && InterpNode(n, e).value
                 == Done(Interp(n.thenBlock, e).value.env,
                         Interp(n.thenBlock, e).value.steps + (if n.elseBlock == [] then 1 else 2))
    ensures e.value == 0 && n.elseBlock != [] ==>
              && Interp(n.elseBlock, e).Some?
              && InterpNode(n, e).value == Done(Interp(n.elseBlock, e).value.env, Interp(n.elseBlock, e).value.steps + 1)
  {
  }

  /**
   * A conditional whose accumulator is not zero runs its first block, then,
   * when there is a second one, jumps over it.
   */
  lemma {:induction false} ThenRuns(f: State -> Outcome, s: State, n: Node)
    requires Agrees(f) && HasBuiltins(s.table.nargs) && n.Cond? && s.value != 0
    requires CompileNode(n).Ok? && InterpNode(n, EnvOf(s)).Some?
    requires Within(Code(s), s.pos, CompileNode(n).value)
    ensures Iterate(f, s, InterpNode(n, EnvOf(s)).value.steps)
         == Running(After(s, |CompileNode(n).value|, InterpNode(n, EnvOf(s)).value.env))
    decreases n, 1
  {
    if n.elseBlock == [] {
      IfThenRuns(f, s, n);
    } else {
      IfElseThenRuns(f, s, n);
    }
  }

  /** `ThenRuns` without a second block: `JZ`, then the block. */
  lemma {:induction false} IfThenRuns(f: State -> Outcome, s: State, n: Node)
    requires Agrees(f) && HasBuiltins(s.table.nargs) && n.Cond? && n.elseBlock == [] && s.value != 0
    requires CompileNode(n).Ok? && InterpNode(n, EnvOf(s)).Some?
    requires Within(Code(s), s.pos, CompileNode(n).value)
    ensures Iterate(f, s, InterpNode(n, EnvOf(s)).value.steps)
         == Running(After(s, |CompileNode(n).value|, InterpNode(n, EnvOf(s)).value.env))
    decreases n, 0
  {
    CondLayout(n);
    CondMeaning(n, EnvOf(s));
    var c1 := Compile(n.thenBlock).value;
    var d := Interp(n.thenBlock, EnvOf(s)).value;
    IfAt(Code(s), s.pos, c1);
    BlockRuns(f, s.(pos := s.pos + 1), n.thenBlock);
    EnterBlock(f, s, |c1|, d.steps, |c1|, d.env);
  }

  /** `ThenRuns` with a second block: `JZ`, the first block, then the `JMP` over the second. */
  lemma {:induction false} IfElseThenRuns(f: State -> Outcome, s: State, n: Node)
    requires Agrees(f) && HasBuiltins(s.table.nargs) && n.Cond? && n.elseBlock != [] && s.value != 0
    requires CompileNode(n).Ok? && InterpNode(n, EnvOf(s)).Some?
    requires Within(Code(s), s.pos, CompileNode(n).value)
    ensures Iterate(f, s, InterpNode(n, EnvOf(s)).value.steps)
         == Running(After(s, |CompileNode(n).value|, InterpNode(n, EnvOf(s)).value.env))
    decreases n, 0
  {
    CondLayout(n);
    CondMeaning(n, EnvOf(s));
    var c1, c2 := Compile(n.thenBlock).value, Compile(n.elseBlock).value;
    var d := Interp(n.thenBlock, EnvOf(s)).value;
    IfElseAt(Code(s), s.pos, c1, c2);
    BlockRuns(f, s.(pos := s.pos + 1), n.thenBlock);
    EnterBlock(f, s, |c1| + 1, d.steps, |c1|, d.env);
    ThenJump(f, s, 1 + d.steps, |c1|, |c2|, d.env);
    assert |CompileNode(n).value| == 2 + |c1| + |c2|;
  }

  /** `JZ` on an accumulator that is not zero falls through into the block after it. */
  lemma {:induction false} EnterBlock(f: State -> Outcome, s: State, k: nat, m: nat, len: nat, e: Env)
    requires Agrees(f) && s.value != 0 && s.pos < |Code(s)| && Code(s)[s.pos] == Jz(k)
    requires Iterate(f, s.(pos := s.pos + 1), m) == Running(After(s.(pos := s.pos + 1), len, e))
    ensures Iterate(f, s, 1 + m) == Running(After(s, 1 + len, e))
  {
    IterateJz(f, s, k);
    Then(f, s, 1, s.(pos := s.pos + 1), m, After(s.(pos := s.pos + 1), len, e));
  }

  /** `JZ k` on a zero accumulator jumps to the block `k` instructions on. */
  lemma {:induction false} JumpToBlock(f: State -> Outcome, s: State, k: nat, m: nat, len: nat, e: Env)
    requires Agrees(f) && s.value == 0 && s.pos < |Code(s)| && Code(s)[s.pos] == Jz(k)
    requires Iterate(f, s.(pos := s.pos + k + 1), m) == Running(After(s.(pos := s.pos + k + 1), len, e))
    ensures Iterate(f, s, 1 + m) == Running(After(s, k + 1 + len, e))
  {
    IterateJz(f, s, k);
    Then(f, s, 1, s.(pos := s.pos + k + 1), m, After(s.(pos := s.pos + k + 1), len, e));
  }

  /** After the first block, `JMP` skips the second. */
  lemma {:induction false} ThenJump(f: State -> Outcome, s: State, m: nat, len1: nat, len2: nat, e: Env)
    requires Agrees(f) && Iterate(f, s, m) == Running(After(s, 1 + len1, e))
    requires s.pos + 1 + len1 < |Code(s)| && Code(s)[s.pos + 1 + len1] == Jmp(len2)
    ensures Iterate(f, s, m + 1) == Running(After(s, 2 + len1 + len2, e))
  {
    var s2 := After(s, 1 + len1, e);
    IterateJmp(f, s2, len2);
    IterateSplit(f, s, m, 1);
    assert s2.(pos := s2.pos + len2 + 1) == After(s, 2 + len1 + len2, e);
  }

  /** A conditional whose accumulator is zero jumps to its second block and runs it. */
  lemma {:induction false} ElseRuns(f: State -> Outcome, s: State, n: Node)
    requires Agrees(f) && HasBuiltins(s.table.nargs) && n.Cond? && n.elseBlock != [] && s.value == 0
    requires CompileNode(n).Ok? && InterpNode(n, EnvOf(s)).Some?
    requires Within(Code(s), s.pos, CompileNode(n).value)
    ensures Iterate(f, s, InterpNode(n, EnvOf(s)).value.steps)
         == Running(After(s, |CompileNode(n).value|, InterpNode(n, EnvOf(s)).value.env))
    decreases n, 1
  {
    CondAt(Code(s), s.pos, n);
    CondMeaning(n, EnvOf(s));
    var c1, c2 := Compile(n.thenBlock).value, Compile(n.elseBlock).value;
    var d := Interp(n.elseBlock, EnvOf(s)).value;
    var s1 := s.(pos := s.pos + |c1| + 2);
    assert EnvOf(s1) == EnvOf(s) && Code(s1) == Code(s) && s1.table == s.table;
    BlockRuns(f, s1, n.elseBlock);
    JumpToBlock(f, s, |c1| + 1, d.steps, |c2|, d.env);
  }

  /** A block: its statements one after another. */
  lemma {:induction false} BlockRuns(f: State -> Outcome, s: State, ns: seq<Node>)
    requires Agrees(f) && HasBuiltins(s.table.nargs) && Compile(ns).Ok? && Interp(ns, EnvOf(s)).Some?
    requires Within(Code(s), s.pos, Compile(ns).value)
    ensures Iterate(f, s, Interp(ns, EnvOf(s)).value.steps)
         == Running(After(s, |Compile(ns).value|, Interp(ns, EnvOf(s)).value.env))
    decreases ns, 3
  {
    if ns == [] {
      assert After(s, 0, EnvOf(s)) == s;
    } else {
      BlockParts(ns, EnvOf(s));
      var c0, c2 := CompileNode(ns[0]).value, Compile(ns[1..]).value;
      WithinSplit(Code(s), s.pos, c0, c2);
      var d1 := InterpNode(ns[0], EnvOf(s)).value;
      NodeRuns(f, s, ns[0]);
      var s1 := After(s, |c0|, d1.env);
      AfterKeeps(s, |c0|, d1.env);
      BlockRuns(f, s1, ns[1..]);
      var d2 := Interp(ns[1..], d1.env).value;
      Chain(f, s, d1.steps, |c0|, d1.env, d2.steps, |c2|, d2.env);
    }
  }

  /** How a non-empty block's code and meaning break up into its first statement and the rest. */
  lemma {:induction false} BlockParts(ns: seq<Node>, e: Env)
    requires ns != [] && Compile(ns).Ok? && Interp(ns, e).Some?
    ensures CompileNode(ns[0]).Ok? && Compile(ns[1..]).Ok?
    ensures Compile(ns).value == CompileNode(ns[0]).value + Compile(ns[1..]).value
    ensures InterpNode(ns[0], e).Some? && Interp(ns[1..], InterpNode(ns[0], e).value.env).Some?
    ensures Interp(ns, e).value
         == Done(Interp(ns[1..], InterpNode(ns[0], e).value.env).value.env,
                 InterpNode(ns[0], e).value.steps + Interp(ns[1..], InterpNode(ns[0], e).value.env).value.steps)
  {
  }

  /** `After` keeps what a statement cannot change, and sets what it can. */
  lemma {:induction false} AfterKeeps(s: State, len: nat, e: Env)
    ensures EnvOf(After(s, len, e)) == e
    ensures Code(After(s, len, e)) == Code(s) && After(s, len, e).table == s.table
    ensures After(s, len, e).pos == s.pos + len
    ensures After(s, len, e).callstack == s.callstack && After(s, len, e).argstack == s.argstack
  {
  }

  /** Two statements' runs, one after the other. */
  lemma {:induction false} Chain(f: State -> Outcome, s: State, m1: nat, len1: nat, e1: Env, m2: nat, len2: nat, e2: Env)
    requires Iterate(f, s, m1) == Running(After(s, len1, e1))
    requires Iterate(f, After(s, len1, e1), m2) == Running(After(After(s, len1, e1), len2, e2))
    ensures Iterate(f, s, m1 + m2) == Running(After(s, len1 + len2, e2))
  {
    IterateSplit(f, s, m1, m2);
    assert After(After(s, len1, e1), len2, e2) == After(s, len1 + len2, e2);
  }

  // ---------------------------------------------------------------------
  // The theorem

  /**
   * `execute(compile(ns))`: for a program `Interp` gives a meaning to, the
   * machine takes exactly the steps `Interp` counts to reach the end of the
   * code, with the accumulator, registers and output `Interp` gives and the
   * argument stack empty, and halts on the next step.
   */
  lemma {:induction false} ExecuteCorrect(s: State, ns: seq<Node>)
    requires HasBuiltins(s.table.nargs) && Compile(ns).Ok? && Interp(ns, EnvOf(s)).Some?
    ensures var code := Compile(ns).value;
            var d := Interp(ns, EnvOf(s)).value;
            var u := After(Clear(s, code), |code|, d.env);
            && u.argstack == [] && u.callstack == [] && EnvOf(u) == d.env
            && Execute(s, code, d.steps) == Running(u)
            && Execute(s, code, d.steps + 1) == Halted(u)
  {
    var code := Compile(ns).value;
    var d := Interp(ns, EnvOf(s)).value;
    var t := Clear(s, code);
    var u := After(t, |code|, d.env);
    ExecuteRuns(s, ns);
    ClearKeeps(s, code);
    AfterKeeps(t, |code|, d.env);
    ExecuteHalts(s, code, d.steps, u);
  }

  /** `execute(compile(ns))` reaches the end of the code in the steps `Interp` counts. */
  lemma {:induction false} ExecuteRuns(s: State, ns: seq<Node>)
    requires HasBuiltins(s.table.nargs) && Compile(ns).Ok? && Interp(ns, EnvOf(s)).Some?
    ensures Execute(s, Compile(ns).value, Interp(ns, EnvOf(s)).value.steps)
         == Running(After(Clear(s, Compile(ns).value), |Compile(ns).value|, Interp(ns, EnvOf(s)).value.env))
  {
    ClearKeeps(s, Compile(ns).value);
    ProgramRuns(Clear(s, Compile(ns).value), ns);
  }

  /** Once `execute` stands past the end of the top level, its next step halts. */
  lemma {:induction false} ExecuteHalts(s: State, code: seq<Instr>, m: nat, u: State)
    requires Execute(s, code, m) == Running(u) && u.callstack == [] && u.pos >= |Code(u)|
    ensures Execute(s, code, m + 1) == Halted(u)
  {
    RunHalts(Clear(s, code), m, u);
  }

  /** `clear` starts the top level afresh and keeps the registers, the accumulator and the output. */
  lemma {:induction false} ClearKeeps(s: State, code: seq<Instr>)
    ensures var t := Clear(s, code);
            && t.table.nargs == s.table.nargs && EnvOf(t) == EnvOf(s) && t.pos == 0 && Code(t) == code
            && t.callstack == [] && t.argstack == []
  {
  }

  /** From a cleared machine, the compiled program runs to its end. */
  lemma {:induction false} ProgramRuns(t: State, ns: seq<Node>)
    requires HasBuiltins(t.table.nargs) && Compile(ns).Ok? && Interp(ns, EnvOf(t)).Some?
    requires t.pos == 0 && Code(t) == Compile(ns).value
    ensures Run(t, Interp(ns, EnvOf(t)).value.steps)
         == Running(After(t, |Compile(ns).value|, Interp(ns, EnvOf(t)).value.env))
  {
    StepAgrees();
    WithinRest(Code(t), 0);
    assert Code(t)[0..] == Code(t);
    BlockRuns(Step, t, ns);
    RunIsIterate(t, Interp(ns, EnvOf(t)).value.steps);
  }

  /** A run that reaches the end of the top level with no frames halts on the next step. */
  lemma {:induction false} RunHalts(t: State, m: nat, u: State)
    requires Run(t, m) == Running(u) && u.callstack == [] && u.pos >= |Code(u)|
    ensures Run(t, m + 1) == Halted(u)
  {
    RunIsIterate(t, m);
    RunIsIterate(t, m + 1);
    IterateSplit(Step, t, m, 1);
    HaltAtEnd(u);
  }
}
