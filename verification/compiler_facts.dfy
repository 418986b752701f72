/**
 * Properties of the code generator. The main one is that compilation loses
 * nothing: a decompiler that replays the argument stack symbolically reads
 * every compiled program back to the statements it came from. Along the way
 * this shows the stack discipline of `travel`: the code of an argument pushes
 * exactly one value, and a call statement leaves the stack as it found it.
 */
module CompilerFacts {
  import opened Wrappers
  import opened Registers
  import opened Lexer
  import opened Parser
  import opened Compiler

  /** `n` in front of a decompiled tail, if there is one. */
  function Prepend(n: Node, r: Option<seq<Node>>): Option<seq<Node>>
  {
    if r.Some? then Some([n] + r.value) else None
  }

  /** `ns` in front of a decompiled tail, if there is one. */
  function PrependAll(ns: seq<Node>, r: Option<seq<Node>>): Option<seq<Node>>
  {
    if r.Some? then Some(ns + r.value) else None
  }

  lemma {:induction false} PrependNone(r: Option<seq<Node>>)
    ensures PrependAll([], r) == r
  {
    if r.Some? {
      assert [] + r.value == r.value;
    }
  }

  lemma {:induction false} PrependCons(n: Node, ns: seq<Node>, r: Option<seq<Node>>)
    ensures Prepend(n, PrependAll(ns, r)) == PrependAll([n] + ns, r)
  {
    if r.Some? {
      assert [n] + (ns + r.value) == [n] + ns + r.value;
    }
  }

  /** The number of instructions, counting those inside definitions; decompiling recurses on it. */
  function Weight(code: seq<Instr>): (w: nat)
    ensures w >= |code|
    decreases code, 1
  {
    if code == [] then 0 else InstrWeight(code[0]) + Weight(code[1..])
  }

  function InstrWeight(i: Instr): (w: nat)
    ensures w >= 1
    decreases i, 0
  {
    match i
    case Define(_, _, body) => 1 + Weight(body)
    case _ => 1
  }

  lemma {:induction false} WeightAppend(a: seq<Instr>, b: seq<Instr>)
    ensures Weight(a + b) == Weight(a) + Weight(b)
    decreases |a|
  {
    if a == [] {
      assert a + b == b;
    } else {
      assert (a + b)[0] == a[0] && (a + b)[1..] == a[1..] + b;
      WeightAppend(a[1..], b);
    }
  }

  /** A slice weighs no more than the whole, less one for every instruction cut off. */
  lemma {:induction false} WeightSlice(code: seq<Instr>, i: nat, j: nat)
    requires i <= j <= |code|
    ensures Weight(code[i..j]) + i + (|code| - j) <= Weight(code)
  {
    assert code == code[..i] + code[i..j] + code[j..];
    WeightAppend(code[..i] + code[i..j], code[j..]);
    WeightAppend(code[..i], code[i..j]);
  }

  lemma {:induction false} WeightSuffix(code: seq<Instr>, i: nat)
    requires i <= |code|
    ensures Weight(code[i..]) + i <= Weight(code)
  {
    assert code[i..] == code[i..|code|];
    WeightSlice(code, i, |code|);
  }

  /**
   * Replays pushes and calls on a stack of argument trees, the way the
   * machine replays them on a stack of values, up to the `POP` that ends a
   * call statement. Gives the call and the code after the `POP`.
   */
  function Rebuild(code: seq<Instr>, stack: seq<Node>): (r: Option<(Node, seq<Instr>)>)
    ensures r.Some? ==> |r.value.1| < |code|
    decreases |code|
  {
    if code == [] then None
    else
      match code[0]
      case PushN(v) => if v < 0 then None else Rebuild(code[1..], stack + [Lit(v)])
      case Push(reg) => Rebuild(code[1..], stack + [Read(reg)])
      case Invoke(f, k) =>
        if k <= |stack| then Rebuild(code[1..], stack[..|stack| - k] + [Call(f, stack[|stack| - k..])])
        else None
      case Pop =>
        if |stack| == 1 && stack[0].Call? && stack[0].name.Ident? then Some((stack[0], code[1..]))
        else None
      case _ => None
  }

  /** What `Rebuild` leaves is what follows the `POP`: a suffix of the code. */
  lemma {:induction false} RebuildSuffix(code: seq<Instr>, stack: seq<Node>)
    ensures Rebuild(code, stack).Some? ==> Rebuild(code, stack).value.1 == code[|code| - |Rebuild(code, stack).value.1|..]
    decreases |code|
  {
    if code != [] && Rebuild(code, stack).Some? && !code[0].Pop? {
      var st :| Rebuild(code, stack) == Rebuild(code[1..], st);
      RebuildSuffix(code[1..], st);
      var rest := Rebuild(code, stack).value.1;
      assert code[1..][|code[1..]| - |rest|..] == code[|code| - |rest|..];
    }
  }

  /**
   * Reads statements back from compiled code: single instructions for
   * literals, reads and assignments, a jump pattern for a conditional, a
   * symbolic replay for a call statement.
   */
  function Decompile(code: seq<Instr>): (r: Option<seq<Node>>)
    decreases Weight(code), 1
  {
    if code == [] then Some([])
    else
      match code[0]
      case Store(v) => if v < 0 then None else Prepend(Lit(v), Decompile(code[1..]))
      case Get(reg) => Prepend(Read(reg), Decompile(code[1..]))
      case Set(reg) => Prepend(Assign(reg), Decompile(code[1..]))
      case Define(f, arity, body) =>
        assert Weight(code) == 1 + Weight(body) + Weight(code[1..]);
        (match Decompile(body)
         case None => None
         case Some(b) => Prepend(Def(f, arity, b), Decompile(code[1..])))
      case Jz(d) => DecompileJz(code, d)
      case Nop => None
      case Jmp(_) => None
      case _ => DecompileCall(code)
  }

  /**
   * A conditional: `JZ d` skipping to a `JMP m` starts a then-block of `d-1`
   * instructions and an else-block of `m`; any other `JZ d` starts a
   * then-block of `d` instructions.
   */
  function DecompileJz(code: seq<Instr>, d: nat): (r: Option<seq<Node>>)
    requires code != [] && code[0] == Jz(d)
    decreases Weight(code), 0
  {
    if 1 <= d < |code| && code[d].Jmp? && d + 1 + code[d].offset <= |code| then
      var e := d + 1 + code[d].offset;
      WeightSlice(code, 1, d);
      WeightSlice(code, d + 1, e);
      WeightSuffix(code, e);
      match (Decompile(code[1..d]), Decompile(code[d + 1..e]))
      case (Some(b1), Some(b2)) => Prepend(Cond(b1, b2), Decompile(code[e..]))
      case _ => None
    else if d + 1 <= |code| then
      WeightSlice(code, 1, d + 1);
      WeightSuffix(code, d + 1);
      match Decompile(code[1..d + 1])
      case Some(b1) => Prepend(Cond(b1, []), Decompile(code[d + 1..]))
      case None => None
    else None
  }

  /** A call statement, replayed on an empty stack. */
  function DecompileCall(code: seq<Instr>): (r: Option<seq<Node>>)
    requires code != []
    decreases Weight(code), 0
  {
    match Rebuild(code, [])
    case Some((n, rest)) =>
      RebuildSuffix(code, []);
      WeightSuffix(code, |code| - |rest|);
      Prepend(n, Decompile(rest))
    case None => None
  }

  // ---------------------------------------------------------------------
  // The stack discipline of `travel`.

  /** The code of one argument pushes exactly that argument. */
  lemma {:induction false} RebuildArg(a: Node, rest: seq<Instr>, stack: seq<Node>)
    requires TravelArg(a).Ok?
    ensures Rebuild(TravelArg(a).value + rest, stack) == Rebuild(rest, stack + [a])
    decreases a, 2
  {
    match a
    case Lit(v) =>
      assert ([PushN(v)] + rest)[1..] == rest;
    case Read(reg) =>
      assert ([Push(reg)] + rest)[1..] == rest;
    case Call(f, args) =>
      assert TravelArgs(args).Ok?;
      var c := TravelArgs(args).value;
      assert TravelArg(a).value + rest == c + ([Invoke(f, |args|)] + rest);
      RebuildArgs(args, [Invoke(f, |args|)] + rest, stack);
      RebuildInvoke(f, args, rest, stack);
  }

  /** `CALL f k` replaces the top `k` trees by one call tree. */
  lemma {:induction false} RebuildInvoke(f: Token, args: seq<Node>, rest: seq<Instr>, stack: seq<Node>)
    ensures Rebuild([Invoke(f, |args|)] + rest, stack + args) == Rebuild(rest, stack + [Call(f, args)])
  {
    var st := stack + args;
    assert st[..|st| - |args|] == stack && st[|st| - |args|..] == args;
    assert ([Invoke(f, |args|)] + rest)[1..] == rest;
  }

  /** The code of an argument list pushes the arguments, first one deepest. */
  lemma {:induction false} RebuildArgs(args: seq<Node>, rest: seq<Instr>, stack: seq<Node>)
    requires TravelArgs(args).Ok?
    ensures Rebuild(TravelArgs(args).value + rest, stack) == Rebuild(rest, stack + args)
    decreases args, 1
  {
    if args == [] {
      assert TravelArgs(args).value + rest == rest;
      assert stack + args == stack;
    } else {
      TravelArgsCons(args);
      var c := TravelArg(args[0]).value;
      var cs := TravelArgs(args[1..]).value;
      assert TravelArgs(args).value + rest == c + (cs + rest);
      RebuildArg(args[0], cs + rest, stack);
      RebuildArgs(args[1..], rest, stack + [args[0]]);
      assert stack + [args[0]] + args[1..] == stack + args;
    }
  }

  /** `travel` over a non-empty argument list: the first argument's code, then the rest's. */
  lemma {:induction false} TravelArgsCons(args: seq<Node>)
    requires args != [] && TravelArgs(args).Ok?
    ensures TravelArg(args[0]).Ok? && TravelArgs(args[1..]).Ok?
    ensures TravelArgs(args).value == TravelArg(args[0]).value + TravelArgs(args[1..]).value
  {
  }

  /** `compile` of a non-empty block: the first statement's code, then the rest's. */
  lemma {:induction false} CompileCons(ns: seq<Node>)
    requires ns != [] && Compile(ns).Ok?
    ensures CompileNode(ns[0]).Ok? && Compile(ns[1..]).Ok?
    ensures Compile(ns).value == CompileNode(ns[0]).value + Compile(ns[1..]).value
  {
  }

  /** A statement's code is never empty and never ends in a jump. */
  lemma {:induction false} CompileNodeTail(n: Node)
    requires CompileNode(n).Ok?
    ensures CompileNode(n).value != [] && !EndsInJmp(CompileNode(n).value)
    decreases n, 1
  {
    if n.Cond? {
      var c1 := Compile(n.thenBlock).value;
      CompileTail(n.thenBlock);
      if n.elseBlock == [] {
        var c := [Jz(|c1|)] + c1;
        assert c1 != [] ==> c[|c| - 1] == c1[|c1| - 1];
      } else {
        var c2 := Compile(n.elseBlock).value;
        CompileTail(n.elseBlock);
        var c := [Jz(|c1| + 1)] + c1 + [Jmp(|c2|)] + c2;
        assert c[|c| - 1] == c2[|c2| - 1];
      }
    }
  }

  /** Nor does a non-empty block's code. */
  lemma {:induction false} CompileTail(ns: seq<Node>)
    requires Compile(ns).Ok?
    ensures ns != [] ==> Compile(ns).value != [] && !EndsInJmp(Compile(ns).value)
    decreases ns, 2
  {
    if ns != [] {
      CompileCons(ns);
      var c, c2 := CompileNode(ns[0]).value, Compile(ns[1..]).value;
      CompileNodeTail(ns[0]);
      CompileTail(ns[1..]);
      if c2 != [] {
        assert (c + c2)[|c + c2| - 1] == c2[|c2| - 1];
      } else {
        assert c + c2 == c;
      }
    }
  }

  /** A call statement's code leaves nothing behind and yields the call. */
  lemma {:induction false} RebuildStatement(f: string, args: seq<Node>, rest: seq<Instr>)
    requires TravelArgs(args).Ok?
    ensures Rebuild(TravelArgs(args).value + [Invoke(Ident(f), |args|), Pop] + rest, [])
            == Some((Call(Ident(f), args), rest))
  {
    var call := Call(Ident(f), args);
    var tail := [Invoke(Ident(f), |args|)] + ([Pop] + rest);
    assert TravelArgs(args).value + [Invoke(Ident(f), |args|), Pop] + rest == TravelArgs(args).value + tail;
    RebuildArgs(args, tail, []);
    RebuildInvoke(Ident(f), args, [Pop] + rest, []);
    RebuildPop(call, rest);
  }

  /** The `POP` after a single call tree ends the statement. */
  lemma {:induction false} RebuildPop(call: Node, rest: seq<Instr>)
    requires call.Call? && call.name.Ident?
    ensures Rebuild([Pop] + rest, [] + [call]) == Some((call, rest))
  {
    assert ([Pop] + rest)[1..] == rest;
  }

  // ---------------------------------------------------------------------
  // Decompiling compiled code.

  /** Compiling and then decompiling a statement gives it back. */
  lemma {:induction false} DecompileNode(n: Node, rest: seq<Instr>)
    requires CompileNode(n).Ok?
    ensures Decompile(CompileNode(n).value + rest) == Prepend(n, Decompile(rest))
    decreases n, 1
  {
    var code := CompileNode(n).value + rest;
    match n
    case Lit(v) =>
      assert code[1..] == rest;
    case Read(reg) =>
      assert code[1..] == rest;
    case Assign(reg) =>
      assert code[1..] == rest;
    case Def(f, arity, body) =>
      DecompileCompile(body);
      assert code[1..] == rest;
    case Call(f, args) =>
      RebuildStatement(f.s, args, rest);
      assert code == TravelArgs(args).value + [Invoke(Ident(f.s), |args|), Pop] + rest;
    case Cond(b1, b2) =>
      DecompileCond(n, rest);
  }

  /** The conditional case of `DecompileNode`. */
  lemma {:induction false} DecompileCond(n: Node, rest: seq<Instr>)
    requires n.Cond? && CompileNode(n).Ok?
    ensures Decompile(CompileNode(n).value + rest) == Prepend(n, Decompile(rest))
    decreases n, 0
  {
    var c1 := Compile(n.thenBlock).value;
    DecompileCompile(n.thenBlock);
    CompileTail(n.thenBlock);
    if n.elseBlock == [] {
      var code := [Jz(|c1|)] + c1 + rest;
      assert CompileNode(n).value + rest == code;
      IfLayout(code, c1, rest);
      DecompileStepIf(code, |c1|);
    } else {
      var c2 := Compile(n.elseBlock).value;
      DecompileCompile(n.elseBlock);
      var code := [Jz(|c1| + 1)] + c1 + [Jmp(|c2|)] + c2 + rest;
      assert CompileNode(n).value + rest == code;
      IfElseLayout(code, c1, c2, rest);
      DecompileStepIfElse(code, |c1| + 1);
    }
  }

  /** Where the parts of `JZ len(c1)` + c1 lie. */
  lemma {:induction false} IfLayout(code: seq<Instr>, c1: seq<Instr>, rest: seq<Instr>)
    requires code == [Jz(|c1|)] + c1 + rest
    ensures |c1| + 1 <= |code| && code[0] == Jz(|c1|)
    ensures code[1..|c1| + 1] == c1 && code[|c1| + 1..] == rest
    ensures 1 <= |c1| ==> code[|c1|] == c1[|c1| - 1]
  {
  }

  /** Where the parts of `JZ len(c1)+1` + c1 + `JMP len(c2)` + c2 lie. */
  lemma {:induction false} IfElseLayout(code: seq<Instr>, c1: seq<Instr>, c2: seq<Instr>, rest: seq<Instr>)
    requires code == [Jz(|c1| + 1)] + c1 + [Jmp(|c2|)] + c2 + rest
    ensures |c1| + 2 + |c2| <= |code| && code[0] == Jz(|c1| + 1) && code[|c1| + 1] == Jmp(|c2|)
    ensures code[1..|c1| + 1] == c1 && code[|c1| + 2..|c1| + 2 + |c2|] == c2
    ensures code[|c1| + 2 + |c2|..] == rest
  {
  }

  /** The decompiler on a `JZ` that does not skip to a `JMP`. */
  lemma {:induction false} DecompileStepIf(code: seq<Instr>, d: nat)
    requires d + 1 <= |code| && code[0] == Jz(d) && !(1 <= d && code[d].Jmp?)
    ensures Decompile(code) == (match Decompile(code[1..d + 1])
                                case Some(b1) => Prepend(Cond(b1, []), Decompile(code[d + 1..]))
                                case None => None)
  {
    assert Decompile(code) == DecompileJz(code, d);
  }

  /** The decompiler on a `JZ` that skips to a `JMP`. */
  lemma {:induction false} DecompileStepIfElse(code: seq<Instr>, d: nat)
    requires 1 <= d < |code| && code[0] == Jz(d) && code[d].Jmp? && d + 1 + code[d].offset <= |code|
    ensures var e := d + 1 + code[d].offset;
      Decompile(code) == (match (Decompile(code[1..d]), Decompile(code[d + 1..e]))
                          case (Some(b1), Some(b2)) => Prepend(Cond(b1, b2), Decompile(code[e..]))
                          case _ => None)
  {
    assert Decompile(code) == DecompileJz(code, d);
  }

  /** Compiling and then decompiling a block gives it back, in front of whatever follows. */
  lemma {:induction false} DecompileBlock(ns: seq<Node>, rest: seq<Instr>)
    requires Compile(ns).Ok?
    ensures Decompile(Compile(ns).value + rest) == PrependAll(ns, Decompile(rest))
    decreases ns, 3
  {
    if ns == [] {
      assert Compile(ns).value + rest == rest;
      PrependNone(Decompile(rest));
    } else {
      var c := CompileNode(ns[0]).value;
      var cs := Compile(ns[1..]).value;
      assert Compile(ns).value + rest == c + (cs + rest);
      DecompileNode(ns[0], cs + rest);
      DecompileBlock(ns[1..], rest);
      PrependCons(ns[0], ns[1..], Decompile(rest));
      assert [ns[0]] + ns[1..] == ns;
    }
  }

  /** Compilation loses nothing: the decompiler reads compiled code back to its statements. */
  lemma {:induction false} DecompileCompile(ns: seq<Node>)
    requires Compile(ns).Ok?
    ensures Decompile(Compile(ns).value) == Some(ns)
    decreases ns, 4
  {
    DecompileBlock(ns, []);
    assert Compile(ns).value + [] == Compile(ns).value;
    assert ns + [] == ns;
  }

  /** Compilation is injective on the statements it accepts. */
  lemma {:induction false} CompileInjective(ns: seq<Node>, ms: seq<Node>)
    requires Compile(ns).Ok? && Compile(ms).Ok?
    requires Compile(ns) == Compile(ms)
    ensures ns == ms
  {
    DecompileCompile(ns);
    DecompileCompile(ms);
  }

  /** `compile` works statement by statement: a program's code is the concatenation of its parts' code. */
  lemma {:induction false} CompileConcat(ns: seq<Node>, ms: seq<Node>)
    requires Compile(ns).Ok? && Compile(ms).Ok?
    ensures Compile(ns + ms) == Ok(Compile(ns).value + Compile(ms).value)
    decreases ns
  {
    if ns == [] {
      assert ns + ms == ms;
      assert Compile(ns).value + Compile(ms).value == Compile(ms).value;
    } else {
      CompileCons(ns);
      CompileConcat(ns[1..], ms);
      ConcatCons(ns, ms);
    }
  }

  /** The step of `CompileConcat`: from the tail's concatenation to the whole's. */
  lemma {:induction false} ConcatCons(ns: seq<Node>, ms: seq<Node>)
    requires ns != [] && CompileNode(ns[0]).Ok? && Compile(ns[1..]).Ok? && Compile(ms).Ok?
    requires Compile(ns[1..] + ms) == Ok(Compile(ns[1..]).value + Compile(ms).value)
    ensures Compile(ns + ms) == Ok(CompileNode(ns[0]).value + Compile(ns[1..]).value + Compile(ms).value)
  {
    var c0, c1, c2 := CompileNode(ns[0]).value, Compile(ns[1..]).value, Compile(ms).value;
    assert ns + ms == [ns[0]] + (ns[1..] + ms);
    CompilePrepend(ns[0], ns[1..] + ms);
    assert c0 + (c1 + c2) == c0 + c1 + c2;
  }

  /** A statement in front of a block: its code in front of the block's. */
  lemma {:induction false} CompilePrepend(n: Node, ns: seq<Node>)
    requires CompileNode(n).Ok? && Compile(ns).Ok?
    ensures Compile([n] + ns) == Ok(CompileNode(n).value + Compile(ns).value)
  {
    assert ([n] + ns)[0] == n && ([n] + ns)[1..] == ns;
  }

  // ---------------------------------------------------------------------
  // What `compile` accepts.

  /** `travel` accepts an argument exactly when it is a literal, a register or a call of such. */
  lemma {:induction false} TravelArgAccepts(a: Node)
    ensures TravelArg(a).Ok? <==> ArgForm(a)
    decreases a, 2
  {
    if a.Call? {
      TravelArgsAccepts(a.args);
    }
  }

  lemma {:induction false} TravelArgsAccepts(args: seq<Node>)
    ensures TravelArgs(args).Ok? <==> ArgsForm(args)
    decreases args, 1
  {
    if args != [] {
      TravelArgAccepts(args[0]);
      TravelArgsAccepts(args[1..]);
    }
  }

  /** A statement compiles exactly when `Compilable` says so; otherwise `compile` raises. */
  lemma {:induction false} CompileNodeAccepts(n: Node)
    ensures CompileNode(n).Ok? <==> Compilable(n)
    decreases n, 2
  {
    match n
    case Lit(_) =>
    case Read(_) =>
    case Assign(_) =>
    case Call(_, args) => TravelArgsAccepts(args);
    case Cond(b1, b2) =>
      CompileAccepts(b1);
      CompileAccepts(b2);
    case Def(_, _, body) => CompileAccepts(body);
  }

  /** A program compiles exactly when every statement in it, at every depth, is compilable. */
  lemma {:induction false} CompileAccepts(ns: seq<Node>)
    ensures Compile(ns).Ok? <==> AllCompilable(ns)
    decreases ns, 1
  {
    if ns != [] {
      CompileNodeAccepts(ns[0]);
      CompileAccepts(ns[1..]);
    }
  }
}
