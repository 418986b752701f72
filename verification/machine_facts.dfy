/**
 * Properties of one machine step: the order of the checks `CALL` makes, the
 * stack effect of builtins, the frame a user call pushes and the return that
 * pops it, and what no step ever changes; and the laws of `reset`, `clear`
 * and `add`.
 */
module MachineFacts {
  import opened Wrappers
  import opened Registers
  import opened Lexer
  import opened Parser
  import opened Compiler
  import opened Builtins
  import opened Machine

  /** The machine stands on an instruction of its current segment. */
  predicate At(s: State, ins: Instr)
  {
    s.pos < |Code(s)| && Code(s)[s.pos] == ins
  }

  /** When the machine stands on an instruction, a step executes it. */
  lemma {:induction false} StepAt(s: State)
    requires s.pos < |Code(s)|
    ensures Step(s) == Exec(s)
  {
  }

  // ---------------------------------------------------------------------
  // The opcodes that cannot fail

  /**
   * `NOP`, `STORE`, `GET`, `SET`, `PUSHN` and `PUSH` never fail, move on to
   * the next instruction, and change only the accumulator, one register or
   * the top of the argument stack, as their names say.
   */
  lemma {:induction false} PlainStep(s: State, ins: Instr)
    requires At(s, ins) && (ins.Nop? || ins.Store? || ins.Get? || ins.Set? || ins.PushN? || ins.Push?)
    ensures Step(s).Running?
    ensures var t := Step(s).s;
      && t.pos == s.pos + 1 && t.func == s.func && t.callstack == s.callstack
      && t.table == s.table && t.out == s.out
      && (ins.Set? || t.regs == s.regs)
      && (ins.Store? || ins.Get? || t.value == s.value)
      && (ins.PushN? || ins.Push? || t.argstack == s.argstack)
    ensures ins.Store? ==> Step(s).s.value == ins.n
    ensures ins.Get? ==> Step(s).s.value == Load(s.regs, ins.r)
    ensures ins.Set? ==> Load(Step(s).s.regs, ins.r) == s.value
                         && forall q :: q != ins.r ==> Load(Step(s).s.regs, q) == Load(s.regs, q)
    ensures ins.PushN? ==> Step(s).s.argstack == s.argstack + [ins.n]
    ensures ins.Push? ==> Step(s).s.argstack == s.argstack + [Load(s.regs, ins.r)]
  {
    StepAt(s);
  }

  /**
   * `JMP d` skips the `d` instructions after it; `JZ d` skips them exactly
   * when the accumulator is 0, and otherwise goes on with the next one.
   * Neither changes anything but the position.
   */
  lemma {:induction false} JumpStep(s: State, ins: Instr)
    requires At(s, ins) && (ins.Jmp? || ins.Jz?)
    ensures ins.Jmp? ==> Step(s) == Running(s.(pos := s.pos + ins.offset + 1))
    ensures ins.Jz? && s.value == 0 ==> Step(s) == Running(s.(pos := s.pos + ins.offset + 1))
    ensures ins.Jz? && s.value != 0 ==> Step(s) == Running(s.(pos := s.pos + 1))
  {
    StepAt(s);
  }

  // ---------------------------------------------------------------------
  // CALL, POP and DEFINE errors

  /**
   * `CALL f k` checks, in this order, that `f` is known, that `k` is its
   * arity, and that the stack holds `k` values; each failure leaves the state
   * as it was.
   */
  lemma {:induction false} CallChecks(s: State, f: Token, k: nat)
    requires At(s, Invoke(f, k))
    ensures f !in s.table.nargs ==> Step(s) == Failed(Undefined(f), s)
    ensures f in s.table.nargs && s.table.nargs[f] != k ==> Step(s) == Failed(ArityMismatch(f, s.table.nargs[f], k), s)
    ensures f in s.table.nargs && s.table.nargs[f] == k && k > |s.argstack| ==> Step(s) == Failed(StackUnderflow, s)
    ensures (Step(s).Failed? && !Step(s).error.BuiltinFailed?)
            <==> (f !in s.table.nargs || s.table.nargs[f] != k || k > |s.argstack|)
  {
    StepAt(s);
  }

  /** `POP` fails exactly on an empty stack; otherwise it moves the top value into the accumulator. */
  lemma {:induction false} PopChecks(s: State)
    requires At(s, Pop)
    ensures Step(s).Failed? <==> s.argstack == []
    ensures s.argstack == [] ==> Step(s) == Failed(StackUnderflow, s)
    ensures s.argstack != [] ==> Step(s).s.argstack + [Step(s).s.value] == s.argstack
  {
    StepAt(s);
  }

  /**
   * `DEFINE` fails on any name already in the arity table, builtins included,
   * and then changes nothing; otherwise it adds exactly that one entry to both
   * tables.
   */
  lemma {:induction false} DefineChecks(s: State, name: string, arity: nat, body: seq<Instr>)
    requires At(s, Define(name, arity, body))
    ensures Step(s).Failed? <==> Ident(name) in s.table.nargs
    ensures HasBuiltins(s.table.nargs) && Ident(name) in Arity ==> Step(s).Failed?
    ensures Step(s).Failed? ==> Step(s) == Failed(AlreadyDefined(name), s)
    ensures !Step(s).Failed? ==>
              && Step(s).Running?
              && Step(s).s.table.nargs == s.table.nargs[Ident(name) := arity]
              && Step(s).s.table.codes == s.table.codes[Ident(name) := body]
  {
    StepAt(s);
  }

  // ---------------------------------------------------------------------
  // Builtin calls

  /**
   * A builtin call with `n >= 1` arguments replaces the top `n` stack values
   * by one value, so the stack shrinks by `n - 1`. Comparisons and arithmetic
   * put their result in the accumulator as well; `print`, `println` and
   * `write` keep the accumulator, and it is the accumulator, not the printed
   * value, that replaces the argument.
   */
  lemma {:induction false} BuiltinCall(s: State, f: Token)
    requires f in Arity && Arity[f] >= 1 && At(s, Invoke(f, Arity[f])) && HasBuiltins(s.table.nargs)
    requires Arity[f] <= |s.argstack| && Apply(f, Top(s.argstack, Arity[f])).Ok?
    ensures var n := Arity[f]; var t := Step(s).s;
            && Step(s).Running?
            && |t.argstack| == |s.argstack| - n + 1
            && t.argstack[..|s.argstack| - n] == s.argstack[..|s.argstack| - n]
            && t.argstack[|t.argstack| - 1] == t.value
            && (n == 2 ==> t.value == Apply(f, Top(s.argstack, n)).value.result.value)
            && (n == 1 ==> t.value == s.value)
            && t.out == s.out + Apply(f, Top(s.argstack, n)).value.events
            && t.regs == s.regs && t.callstack == s.callstack && t.func == s.func && t.pos == s.pos + 1
  {
    StepAt(s);
  }

  /** The first argument of a binary builtin is the deeper of the two stack values. */
  lemma {:induction false} BinaryOperands(s: State, f: Token)
    requires f in Arity && Arity[f] == 2 && At(s, Invoke(f, 2)) && HasBuiltins(s.table.nargs) && 2 <= |s.argstack|
    ensures var a := s.argstack[|s.argstack| - 2]; var b := s.argstack[|s.argstack| - 1];
            && (f == Ident("-") ==> Step(s).s.value == a - b)
            && (f == Ident("<") ==> Step(s).s.value == Flag(a < b))
            && (f == Ident("/") && b != 0 ==> Step(s).s.value == FloorDiv(a, b))
  {
    StepAt(s);
    assert Top(s.argstack, 2) == [s.argstack[|s.argstack| - 2], s.argstack[|s.argstack| - 1]];
  }

  /** Division by zero fails and changes nothing; otherwise `/` goes through. */
  lemma {:induction false} DivisionChecks(s: State)
    requires At(s, Invoke(Ident("/"), 2)) && HasBuiltins(s.table.nargs) && 2 <= |s.argstack|
    ensures var b := s.argstack[|s.argstack| - 1];
            && (Step(s).Failed? <==> b == 0)
            && (b == 0 ==> Step(s) == Failed(BuiltinFailed(DivisionByZero), s))
  {
    StepAt(s);
    assert Top(s.argstack, 2)[1] == s.argstack[|s.argstack| - 1];
  }

  /**
   * `write` fails outside 0..255 and changes nothing: with "invalid character
   * number" for a code that fits a C `long`, and with the uncaught
   * `OverflowError` beyond that. Otherwise it logs the character code.
   */
  lemma {:induction false} WriteChecks(s: State)
    requires At(s, Invoke(Ident("write"), 1)) && HasBuiltins(s.table.nargs) && 1 <= |s.argstack|
    ensures var c := s.argstack[|s.argstack| - 1];
            && (Step(s).Failed? <==> !IsByte(c))
            && (!IsByte(c) && IsCLong(c) ==> Step(s) == Failed(BuiltinFailed(InvalidCharacter), s))
            && (!IsCLong(c) ==> Step(s) == Failed(BuiltinFailed(CharOverflow), s))
            && (IsByte(c) ==> Step(s).s.out == s.out + [Write(c)] && Step(s).s.value == s.value)
  {
    StepAt(s);
    var c := s.argstack[|s.argstack| - 1];
    assert Top(s.argstack, 1) == [c];
    assert Step(s) == CallOp(s, Ident("write"), 1);
    assert Apply(Ident("write"), [c])
        == if IsByte(c) then Ok(Answer(None, [Write(c)]))
           else Err(if IsCLong(c) then InvalidCharacter else CharOverflow);
  }

  /**
   * `nl` takes no arguments, and `argstack[-0:]` is the whole stack: the call
   * replaces the entire stack, however deep, by the accumulator alone.
   */
  lemma {:induction false} ZeroArityBuiltin(s: State)
    requires At(s, Invoke(Ident("nl"), 0)) && HasBuiltins(s.table.nargs)
    ensures Step(s).Running?
    ensures Step(s).s.argstack == [s.value]
    ensures Step(s).s.out == s.out + [Newline] && Step(s).s.value == s.value
  {
    StepAt(s);
  }

  // ---------------------------------------------------------------------
  // User calls and returns

  /**
   * A user call pushes a frame with the caller's segment, the position after
   * the call and the caller's `i j k`; it loads the arguments, then zeros,
   * into `i j k`, leaves `x y z` alone and starts the callee at its first
   * instruction.
   */
  lemma {:induction false} UserCall(s: State, f: Token, k: nat)
    requires At(s, Invoke(f, k)) && f in s.table.nargs && s.table.nargs[f] == k && f !in Arity && k <= |s.argstack|
    ensures var t := Step(s).s;
            && Step(s).Running?
            && t.callstack == s.callstack + [Frame(s.func, s.pos + 1, s.regs.locals)]
            && t.func == f && t.pos == 0
            && t.regs.x == s.regs.x && t.regs.y == s.regs.y && t.regs.z == s.regs.z
            && (k >= 1 ==> t.regs.locals.i == s.argstack[|s.argstack| - k])
            && (k >= 2 ==> t.regs.locals.j == s.argstack[|s.argstack| - k + 1])
            && (k >= 3 ==> t.regs.locals.k == s.argstack[|s.argstack| - k + 2])
            && (k == 1 ==> t.regs.locals.j == 0 && t.regs.locals.k == 0)
            && (k == 2 ==> t.regs.locals.k == 0)
            && t.argstack + Top(s.argstack, k) == s.argstack
            && t.value == s.value && t.table == s.table
  {
    StepAt(s);
  }

  /**
   * With no parameters the callee still sees the stack: `i j k` get its three
   * deepest values (zeros where it is shorter) and the stack is emptied.
   */
  lemma {:induction false} ZeroArityUserCall(s: State, f: Token)
    requires At(s, Invoke(f, 0)) && f in s.table.nargs && s.table.nargs[f] == 0 && f !in Arity
    ensures Step(s).Running? && Step(s).s.argstack == []
    ensures Step(s).s.regs.locals == LoadLocals(s.argstack)
  {
    StepAt(s);
  }

  /**
   * Call and return match up: when the callee runs off the end of its
   * segment with the frame `UserCall` pushed on top, the caller resumes after
   * the call with its own `i j k` back, the callee's `x y z` kept, and the
   * callee's accumulator pushed as the call's result.
   */
  lemma {:induction false} CallReturn(s: State, u: State)
    requires s.pos < |Code(s)|
    requires u.callstack == s.callstack + [Frame(s.func, s.pos + 1, s.regs.locals)]
    requires u.pos >= |Code(u)|
    requires s.func in u.table.codes && u.table.codes[s.func] == Code(s)
    ensures var w := Return(u);
            && w.func == s.func && w.pos == s.pos + 1
            && w.regs == u.regs.(locals := s.regs.locals)
            && w.callstack == s.callstack && w.argstack == u.argstack + [u.value]
    ensures Unwind(u) == Unwind(Return(u))
    ensures s.pos + 1 < |Code(s)| ==> Unwind(u) == Running(Return(u))
  {
    var w := Return(u);
    assert w.callstack == s.callstack;
    assert Code(w) == Code(s);
  }

  /** Running off the end of the top level, with no frames left, halts without changing anything. */
  lemma {:induction false} HaltAtEnd(s: State)
    requires s.callstack == [] && s.pos >= |Code(s)|
    ensures Step(s) == Halted(s)
  {
  }

  // ---------------------------------------------------------------------
  // What steps never change

  /** The instruction a step executes, after any returns: `None` when it halts. */
  function Current(s: State): Option<Instr>
  {
    var t := Unwind(s).s;
    if Unwind(s).Running? then Some(Code(t)[t.pos]) else None
  }

  /** `x y z` change only by a `SET` of a global register: never by a call or a return. */
  lemma {:induction false} GlobalsOnlyBySet(s: State)
    ensures var t := Step(s).s;
            || (t.regs.x == s.regs.x && t.regs.y == s.regs.y && t.regs.z == s.regs.z)
            || (Current(s).Some? && Current(s).value.Set? && IsGlobal(Current(s).value.r))
  {
    var t := Unwind(s).s;
    if Unwind(s).Running? {
      StepAt(t);
    }
  }

  /** An entry of the arity table, and the code of a user function, stay as they are. */
  predicate Keeps(s: State, t: State)
  {
    && (forall f :: f in s.table.nargs ==> f in t.table.nargs && t.table.nargs[f] == s.table.nargs[f])
    && (forall f :: f in s.table.nargs && f in s.table.codes ==> f in t.table.codes && t.table.codes[f] == s.table.codes[f])
  }

  /** No step removes or changes a definition; `DEFINE` only adds new names. */
  lemma {:induction false} StepKeeps(s: State)
    ensures Keeps(s, Step(s).s)
  {
    var t := Unwind(s).s;
    if Unwind(s).Running? {
      StepAt(t);
    }
  }

  /** So a whole run keeps every definition it started with. */
  lemma {:induction false} RunKeeps(s: State, fuel: nat)
    ensures Keeps(s, Run(s, fuel).s)
    decreases fuel
  {
    if fuel > 0 {
      StepKeeps(s);
      if Step(s).Running? {
        RunKeeps(Step(s).s, fuel - 1);
      }
    }
  }

  /**
   * `execute` empties both stacks and replaces the top-level code, but keeps
   * the accumulator, the registers and every definition, also to the end of
   * the run.
   */
  lemma {:induction false} ExecuteKeeps(s: State, code: seq<Instr>, fuel: nat)
    requires Wf(s)
    ensures var c := Clear(s, code);
            && c.argstack == [] && c.callstack == [] && c.func == Main && c.pos == 0 && c.table.codes[Main] == code
            && c.regs == s.regs && c.value == s.value
    ensures forall f :: f in s.table.nargs ==>
              f in Execute(s, code, fuel).s.table.nargs && Execute(s, code, fuel).s.table.nargs[f] == s.table.nargs[f]
    ensures forall f :: f in s.table.nargs && f !in Arity && f != Main ==>
              f in Execute(s, code, fuel).s.table.codes && Execute(s, code, fuel).s.table.codes[f] == s.table.codes[f]
  {
    RunKeeps(Clear(s, code), fuel);
  }

  // ---------------------------------------------------------------------
  // reset, clear, add

  /** `reset` leaves only the builtins, no code but an empty top level, and every register zero. */
  lemma {:induction false} ResetState(s: State)
    ensures var t := Reset(s);
            && t.table.nargs == Arity && t.table.codes == map[Main := []]
            && (forall r :: Load(t.regs, r) == 0) && t.value == 0
            && Step(t) == Halted(t)
  {
  }

  /** Adding code twice is adding it once, joined. */
  lemma {:induction false} AddAdd(s: State, a: seq<Instr>, b: seq<Instr>)
    requires Main in s.table.codes
    ensures Add(Add(s, a), b) == Add(s, a + b)
  {
    assert s.table.codes[Main] + a + b == s.table.codes[Main] + (a + b);
  }

  /** Adding to freshly cleared code is clearing with the joined code. */
  lemma {:induction false} ClearAdd(s: State, a: seq<Instr>, b: seq<Instr>)
    ensures Add(Clear(s, a), b) == Clear(s, a + b)
  {
  }

  /**
   * Adding code does not disturb a run that has not reached it: while the
   * machine is inside the top-level code it already had, a step sees the same
   * instruction and does the same thing with the longer code. The one
   * exception is a definition of the empty name, which replaces the top-level
   * code itself.
   */
  lemma {:induction false} AddStep(s: State, code: seq<Instr>)
    requires Main in s.table.codes && s.func == Main && s.pos < |s.table.codes[Main]|
    requires !(s.table.codes[Main][s.pos].Define? && Ident(s.table.codes[Main][s.pos].fname) == Main)
    ensures !Step(s).Halted?
    ensures Step(s).Running? ==> Main in Step(s).s.table.codes && Step(Add(s, code)) == Running(Add(Step(s).s, code))
    ensures Step(s).Failed? ==> Step(Add(s, code)) == Failed(Step(s).error, Add(s, code))
  {
    var u := Add(s, code);
    assert Code(u)[s.pos] == Code(s)[s.pos];
    StepAt(s);
    StepAt(u);
    AddExec(s, code);
  }

  /** The instruction-level half of `AddStep`. */
  lemma {:induction false} AddExec(s: State, code: seq<Instr>)
    requires Main in s.table.codes && s.func == Main && s.pos < |s.table.codes[Main]|
    requires !(s.table.codes[Main][s.pos].Define? && Ident(s.table.codes[Main][s.pos].fname) == Main)
    requires Code(Add(s, code))[s.pos] == Code(s)[s.pos]
    ensures !Exec(s).Halted?
    ensures Exec(s).Running? ==> Main in Exec(s).s.table.codes && Exec(Add(s, code)) == Running(Add(Exec(s).s, code))
    ensures Exec(s).Failed? ==> Exec(Add(s, code)) == Failed(Exec(s).error, Add(s, code))
  {
    match Code(s)[s.pos]
    case Invoke(f, k) => AddCall(s, code, f, k);
    case Define(name, arity, body) => AddDefine(s, code, name, arity, body);
    case _ =>
  }

  /** `CALL` does the same with the longer top-level code. */
  lemma {:induction false} AddCall(s: State, code: seq<Instr>, f: Token, k: nat)
    requires Main in s.table.codes
    ensures !CallOp(s, f, k).Halted?
    ensures CallOp(s, f, k).Running? ==> Main in CallOp(s, f, k).s.table.codes
    ensures CallOp(s, f, k).Running? ==> CallOp(Add(s, code), f, k) == Running(Add(CallOp(s, f, k).s, code))
    ensures CallOp(s, f, k).Failed? ==> CallOp(Add(s, code), f, k) == Failed(CallOp(s, f, k).error, Add(s, code))
  {
  }

  /** `DEFINE` of a name other than the top level's does the same with the longer top-level code. */
  lemma {:induction false} AddDefine(s: State, code: seq<Instr>, name: string, arity: nat, body: seq<Instr>)
    requires Main in s.table.codes && Ident(name) != Main
    requires s.pos < |Code(s)| && Code(s)[s.pos] == Define(name, arity, body)
    requires Code(Add(s, code))[s.pos] == Code(s)[s.pos]
    ensures !Exec(s).Halted?
    ensures Exec(s).Running? ==> Main in Exec(s).s.table.codes && Exec(Add(s, code)) == Running(Add(Exec(s).s, code))
    ensures Exec(s).Failed? ==> Exec(Add(s, code)) == Failed(Exec(s).error, Add(s, code))
  {
    var u := Add(s, code);
    if Ident(name) !in s.table.nargs {
      var m := s.table.codes[Ident(name) := body];
      assert m[Main := m[Main] + code] == s.table.codes[Main := s.table.codes[Main] + code][Ident(name) := body];
    }
  }
}
