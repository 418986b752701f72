/**
 * The virtual machine of the Python implementation (`VirtualMachine`): an
 * accumulator, six registers (`x y z` global, `i j k` local to a call), an
 * argument stack, a call stack, a code table and an arity table seeded with
 * the builtins. `Step` is one call of `step`; `Run` repeats it with fuel.
 *
 * The operations are total. The Python code would raise a `KeyError` if the
 * current segment had no code; `Wf` says that never happens, and `StepWf`
 * proves that every step keeps it.
 */
module Machine {
  import opened Wrappers
  import opened Registers
  import opened Lexer
  import opened Parser
  import opened Compiler
  import opened Builtins

  /** `i j k`, the registers each call gets afresh and a return restores. */
  datatype Locals = Locals(i: int, j: int, k: int)

  /** The six registers. */
  datatype Regs = Regs(x: int, y: int, z: int, locals: Locals)

  /** A suspended caller: its code segment, where it resumes, and its `i j k`. */
  datatype Frame = Frame(func: Token, ret: nat, saved: Locals)

  /** `codes` and `nargs`: each known function's code and number of arguments. */
  datatype Table = Table(codes: map<Token, seq<Instr>>, nargs: map<Token, nat>)

  datatype State = State(
    value: int,
    regs: Regs,
    argstack: seq<int>,
    callstack: seq<Frame>,
    table: Table,
    func: Token,
    pos: nat,
    out: seq<Event>)

  datatype VmError =
    | StackUnderflow                                     // "argument stack underflow"
    | Undefined(name: Token)                             // "function ... is not defined."
    | ArityMismatch(name: Token, expected: nat, got: nat) // "function ... expected ... argument(s)"
    | AlreadyDefined(fname: string)                      // "function ... is already defined."
    | BuiltinFailed(reason: BuiltinError)                // raised inside `ifunc`

  /**
   * What one `step` leaves: still running, finished (`step` returned False),
   * or failed with the state as it was when the error was raised.
   */
  datatype Outcome =
    | Running(s: State)
    | Halted(s: State)
    | Failed(error: VmError, s: State)

  /** The code segment of the top level, `codes['']`. */
  const Main: Token := NoAtom

  /** `register[r]`. */
  function Load(g: Regs, r: Reg): int
  {
    match r
    case X => g.x
    case Y => g.y
    case Z => g.z
    case I => g.locals.i
    case J => g.locals.j
    case K => g.locals.k
  }

  /** `register[r] = v`: that register and no other changes. */
  function Put(g: Regs, r: Reg, v: int): (h: Regs)
    ensures Load(h, r) == v
    ensures forall q :: q != r ==> Load(h, q) == Load(g, q)
    ensures !IsGlobal(r) ==> h.x == g.x && h.y == g.y && h.z == g.z
    ensures IsGlobal(r) ==> h.locals == g.locals
  {
    match r
    case X => g.(x := v)
    case Y => g.(y := v)
    case Z => g.(z := v)
    case I => g.(locals := g.locals.(i := v))
    case J => g.(locals := g.locals.(j := v))
    case K => g.(locals := g.locals.(k := v))
  }

  /** The segment being executed; empty if it had no code, which `Wf` rules out. */
  function Code(s: State): seq<Instr>
  {
    if s.func in s.table.codes then s.table.codes[s.func] else []
  }

  /** Every builtin is in the arity table with its own arity. */
  predicate HasBuiltins(nargs: map<Token, nat>)
  {
    forall f :: f in Arity ==> f in nargs && nargs[f] == Arity[f]
  }

  /**
   * The shape every reachable state has: the current segment, the top level
   * and every suspended caller's segment exist, the builtins keep their
   * arities, and every user function in the arity table has code.
   */
  predicate Wf(s: State)
  {
    && s.func in s.table.codes && Main in s.table.codes
    && (forall k :: 0 <= k < |s.callstack| ==> s.callstack[k].func in s.table.codes)
    && HasBuiltins(s.table.nargs)
    && (forall f :: f in s.table.nargs && f !in Arity ==> f in s.table.codes)
  }

  /** The arguments of an `n`-ary call, `argstack[-n:]`; for `n == 0` that is the whole stack. */
  function Top(st: seq<int>, n: nat): (a: seq<int>)
    requires n <= |st|
    ensures n > 0 ==> |a| == n
  {
    if n == 0 then st else st[|st| - n..]
  }

  /** What stays below them; `Below(st, n) + Top(st, n) == st`. */
  function Below(st: seq<int>, n: nat): (b: seq<int>)
    requires n <= |st|
    ensures b + Top(st, n) == st
  {
    if n == 0 then [] else st[..|st| - n]
  }

  /** `argstack[-n:] + [0] * (3 - n)`, of which `i j k` see the first three. */
  function LoadLocals(args: seq<int>): (l: Locals)
    ensures l.i == (if 0 < |args| then args[0] else 0)
    ensures l.j == (if 1 < |args| then args[1] else 0)
    ensures l.k == (if 2 < |args| then args[2] else 0)
  {
    var padded := args + [0, 0, 0];
    Locals(padded[0], padded[1], padded[2])
  }

  // ---------------------------------------------------------------------
  // reset, clear, add

  /** `reset()`: no definitions, builtins only, accumulator and registers zero. */
  function Reset(s: State): (t: State)
    ensures Wf(t)
  {
    State(0, Regs(0, 0, 0, Locals(0, 0, 0)), [], [], Table(map[Main := []], Arity), Main, 0, s.out)
  }

  /** `clear(code)`: new top-level code, both stacks empty, back at its start. */
  function Clear(s: State, code: seq<Instr>): (t: State)
    ensures Wf(s) ==> Wf(t)
    ensures Code(t) == code
  {
    s.(table := s.table.(codes := s.table.codes[Main := code]), func := Main, pos := 0, callstack := [], argstack := [])
  }

  /** `add(code)`: append to the top-level code. */
  function Add(s: State, code: seq<Instr>): (t: State)
    requires Main in s.table.codes
    ensures Wf(s) ==> Wf(t)
    ensures Main in t.table.codes && t.table.codes[Main] == s.table.codes[Main] + code
  {
    s.(table := s.table.(codes := s.table.codes[Main := s.table.codes[Main] + code]))
  }

  // ---------------------------------------------------------------------
  // step

  /**
   * The loop at the top of `step`: while the position is past the end of the
   * current segment, return to the caller.
   */
  function Unwind(s: State): (o: Outcome)
    ensures !o.Failed?
    ensures o.Running? ==> o.s.pos < |Code(o.s)|
    ensures o.Halted? ==> o.s.callstack == [] && o.s.pos >= |Code(o.s)|
    ensures |o.s.callstack| <= |s.callstack| && o.s.callstack == s.callstack[..|o.s.callstack|]
    ensures o.s.regs.x == s.regs.x && o.s.regs.y == s.regs.y && o.s.regs.z == s.regs.z
    ensures o.s.value == s.value && o.s.table == s.table && o.s.out == s.out
    ensures o.s.argstack == s.argstack + Repeat(s.value, |s.callstack| - |o.s.callstack|)
    decreases |s.callstack|
  {
    if s.pos < |Code(s)| then Running(s)
    else if s.callstack == [] then Halted(s)
    else
      var t := Return(s);
      var o := Unwind(t);
      assert o.s.callstack == s.callstack[..|o.s.callstack|] by {
        assert t.callstack[..|o.s.callstack|] == s.callstack[..|o.s.callstack|];
      }
      assert s.argstack + [s.value] + Repeat(s.value, |t.callstack| - |o.s.callstack|)
          == s.argstack + Repeat(s.value, |s.callstack| - |o.s.callstack|) by {
        RepeatCons(s.value, |t.callstack| - |o.s.callstack|);
      }
      o
  }

  /**
   * One return: pop the top frame, resume its segment and position with its
   * `i j k`, and push the accumulator as the call's result.
   */
  function Return(s: State): (t: State)
    requires s.callstack != []
    ensures t.callstack == s.callstack[..|s.callstack| - 1]
    ensures var fr := s.callstack[|s.callstack| - 1];
      t.func == fr.func && t.pos == fr.ret && t.regs == s.regs.(locals := fr.saved)
    ensures t.value == s.value && t.argstack == s.argstack + [s.value]
    ensures t.table == s.table && t.out == s.out
  {
    var fr := s.callstack[|s.callstack| - 1];
    s.(func := fr.func, pos := fr.ret, regs := s.regs.(locals := fr.saved),
       callstack := s.callstack[..|s.callstack| - 1], argstack := s.argstack + [s.value])
  }

  /** `n` copies of `v`. */
  function Repeat(v: int, n: nat): (r: seq<int>)
    ensures |r| == n && forall k :: 0 <= k < n ==> r[k] == v
  {
    if n == 0 then [] else [v] + Repeat(v, n - 1)
  }

  lemma {:induction false} RepeatCons(v: int, n: nat)
    ensures [v] + Repeat(v, n) == Repeat(v, n + 1)
  {
  }

  /** One `step`. */
  function Step(s: State): Outcome
  {
    match Unwind(s)
    case Running(t) => Exec(t)
    case Halted(t) => Halted(t)
  }

  /** The instruction at the current position, then `pos += 1`. */
  function Exec(t: State): (o: Outcome)
    requires t.pos < |Code(t)|
    ensures o.Failed? ==> o.s == t
  {
    var next := t.(pos := t.pos + 1);
    match Code(t)[t.pos]
    case Nop => Running(next)
    case Store(n) => Running(next.(value := n))
    case Get(r) => Running(next.(value := Load(t.regs, r)))
    case Set(r) => Running(next.(regs := Put(t.regs, r, t.value)))
    case Jmp(d) => Running(t.(pos := t.pos + d + 1))
    case Jz(d) => if t.value == 0 then Running(t.(pos := t.pos + d + 1)) else Running(next)
    case PushN(n) => Running(next.(argstack := t.argstack + [n]))
    case Push(r) => Running(next.(argstack := t.argstack + [Load(t.regs, r)]))
    case Pop =>
      if t.argstack == [] then Failed(StackUnderflow, t)
      else Running(next.(value := t.argstack[|t.argstack| - 1], argstack := t.argstack[..|t.argstack| - 1]))
    case Invoke(f, k) => CallOp(t, f, k)
    case Define(name, arity, body) =>
      if Ident(name) in t.table.nargs then Failed(AlreadyDefined(name), t)
      else Running(next.(table := Table(t.table.codes[Ident(name) := body], t.table.nargs[Ident(name) := arity])))
  }

  /**
   * `CALL f k`: the name must be known, `k` must be its arity, and the stack
   * must hold that many values. A builtin replaces its arguments by the
   * accumulator, after setting it to the builtin's result if it has one; a
   * user function gets a new frame with its arguments in `i j k`.
   */
  function CallOp(t: State, f: Token, k: nat): (o: Outcome)
    ensures o.Failed? ==> o.s == t
  {
    if f !in t.table.nargs then Failed(Undefined(f), t)
    else if t.table.nargs[f] != k then Failed(ArityMismatch(f, t.table.nargs[f], k), t)
    else if k > |t.argstack| then Failed(StackUnderflow, t)
    else if f in Arity then
      match Apply(f, Top(t.argstack, k))
      case Err(e) => Failed(BuiltinFailed(e), t)
      case Ok(a) =>
        var v := if a.result.Some? then a.result.value else t.value;
        Running(t.(value := v, argstack := Below(t.argstack, k) + [v], out := t.out + a.events, pos := t.pos + 1))
    else
      Running(t.(callstack := t.callstack + [Frame(t.func, t.pos + 1, t.regs.locals)], func := f, pos := 0,
                 regs := t.regs.(locals := LoadLocals(Top(t.argstack, k))), argstack := Below(t.argstack, k)))
  }

  /** `while self.step(): pass`, for at most `fuel` steps; `Running` means the fuel ran out. */
  function Run(s: State, fuel: nat): Outcome
    decreases fuel
  {
    if fuel == 0 then Running(s)
    else
      match Step(s)
      case Running(t) => Run(t, fuel - 1)
      case o => o
  }

  /** `execute(code)`: clear, load `code` as the top level, and run it. */
  function Execute(s: State, code: seq<Instr>, fuel: nat): Outcome
  {
    Run(Clear(s, code), fuel)
  }

  // ---------------------------------------------------------------------
  // The invariant

  lemma {:induction false} ReturnWf(s: State)
    requires Wf(s) && s.callstack != []
    ensures Wf(Return(s))
  {
    var t := Return(s);
    assert s.callstack[|s.callstack| - 1].func in s.table.codes;
    forall k | 0 <= k < |t.callstack|
      ensures t.callstack[k].func in t.table.codes
    {
      assert t.callstack[k] == s.callstack[k];
    }
  }

  lemma {:induction false} UnwindWf(s: State)
    requires Wf(s)
    ensures Wf(Unwind(s).s)
    decreases |s.callstack|
  {
    if s.pos >= |Code(s)| && s.callstack != [] {
      ReturnWf(s);
      UnwindWf(Return(s));
    }
  }

  lemma {:induction false} ExecWf(t: State)
    requires Wf(t) && t.pos < |Code(t)|
    ensures Wf(Exec(t).s)
  {
    match Code(t)[t.pos]
    case Invoke(f, k) =>
      var o := CallOp(t, f, k);
      if o.Running? && f in t.table.nargs && f !in Arity && o.s.func == f {
        forall j | 0 <= j < |o.s.callstack|
          ensures o.s.callstack[j].func in o.s.table.codes
        {
          if j < |t.callstack| {
            assert o.s.callstack[j] == t.callstack[j];
          }
        }
      }
    case _ =>
  }

  /** Every step keeps the invariant. */
  lemma {:induction false} StepWf(s: State)
    requires Wf(s)
    ensures Wf(Step(s).s)
  {
    UnwindWf(s);
    if Unwind(s).Running? {
      ExecWf(Unwind(s).s);
    }
  }

  /** So does every run. */
  lemma {:induction false} RunWf(s: State, fuel: nat)
    requires Wf(s)
    ensures Wf(Run(s, fuel).s)
    decreases fuel
  {
    if fuel > 0 {
      StepWf(s);
      if Step(s).Running? {
        RunWf(Step(s).s, fuel - 1);
      }
    }
  }
}
