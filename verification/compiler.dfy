/**
 * The code generator of the Python implementation (`Compiler.compile` and its
 * inner `travel`). Statements become a flat list of stack-machine
 * instructions; a conditional becomes relative jumps around its blocks, a call
 * becomes the code of its arguments in postfix order followed by `CALL`, and a
 * definition carries its own compiled body.
 */
module Compiler {
  import opened Wrappers
  import opened Registers
  import opened Lexer
  import opened Parser

  /** The eleven opcodes; the comment gives the number the Python tuples use. */
  datatype Instr =
    | Nop                                                 // 0
    | Store(n: int)                                       // 1: accumulator := n
    | Get(r: Reg)                                         // 2: accumulator := register
    | Set(r: Reg)                                         // 3: register := accumulator
    | Jmp(offset: nat)                                    // 4: skip `offset` instructions
    | Jz(offset: nat)                                     // 5: skip them when the accumulator is 0
    | PushN(n: int)                                       // 6: push a number
    | Push(r: Reg)                                        // 7: push a register
    | Pop                                                 // 8: accumulator := popped value
    | Invoke(callee: Token, argc: nat)                    // 9: call with `argc` stacked arguments
    | Define(fname: string, arity: nat, body: seq<Instr>) // 10: add a function

  /** The inputs on which the Python code raises instead of emitting code. */
  datatype CompileError =
    | AssignmentArgument   // `=r` used as a call argument
    | ConditionalArgument  // a conditional used as a call argument
    | DefinitionArgument   // a definition used as a call argument
    | NumericCallName      // a call statement whose name is an `int` or a `long`

  /** A node that `travel` lowers to pushes: a literal, a register or a call. */
  predicate ArgForm(n: Node)
    decreases n, 1
  {
    match n
    case Lit(_) => true
    case Read(_) => true
    case Call(_, args) => ArgsForm(args)
    case _ => false
  }

  /** Every argument of the list is one. */
  predicate ArgsForm(args: seq<Node>)
    decreases args, 0
  {
    args == [] || (ArgForm(args[0]) && ArgsForm(args[1..]))
  }

  /** The statements `compile` accepts: calls are named by identifiers and take only pushable arguments. */
  predicate Compilable(n: Node)
    decreases n, 1
  {
    match n
    case Lit(_) => true
    case Read(_) => true
    case Assign(_) => true
    case Call(name, args) => name.Ident? && ArgsForm(args)
    case Cond(b1, b2) => AllCompilable(b1) && AllCompilable(b2)
    case Def(_, _, body) => AllCompilable(body)
  }

  /** Every statement of the block is one. */
  predicate AllCompilable(ns: seq<Node>)
    decreases ns, 0
  {
    ns == [] || (Compilable(ns[0]) && AllCompilable(ns[1..]))
  }

  /** True when the code's last instruction is a jump. */
  predicate EndsInJmp(code: seq<Instr>)
  {
    code != [] && code[|code| - 1].Jmp?
  }

  /** `compile(code)`: the statements one after another; the first failure stops it. */
  function Compile(ns: seq<Node>): (r: Result<seq<Instr>, CompileError>)
    decreases ns, 1
  {
    if ns == [] then Ok([])
    else
      match CompileNode(ns[0])
      case Err(e) => Err(e)
      case Ok(c) =>
        match Compile(ns[1..])
        case Err(e) => Err(e)
        case Ok(c2) =>
          Ok(c + c2)
  }

  /** One statement. */
  function CompileNode(n: Node): (r: Result<seq<Instr>, CompileError>)
    ensures n.Lit? ==> r == Ok([Store(n.value)])
    ensures n.Read? ==> r == Ok([Get(n.reg)])
    ensures n.Assign? ==> r == Ok([Set(n.target)])
    ensures n.Call? && !n.name.Ident? ==> r == Err(NumericCallName)
    ensures n.Call? && r.Ok? ==>
              && |r.value| >= 2 && r.value[|r.value| - 2..] == [Invoke(n.name, |n.args|), Pop]
              && Pop !in r.value[..|r.value| - 1]
    decreases n, 2
  {
    match n
    case Lit(v) => Ok([Store(v)])
    case Read(reg) => Ok([Get(reg)])
    case Assign(reg) => Ok([Set(reg)])
    case Call(name, args) =>
      if !name.Ident? then Err(NumericCallName)
      else
        (match TravelArgs(args)
         case Err(e) => Err(e)
         case Ok(c) => Ok(c + [Invoke(name, |args|), Pop]))
    case Cond(b1, b2) =>
      (match Compile(b1)
       case Err(e) => Err(e)
       case Ok(c1) =>
         if b2 == [] then Ok([Jz(|c1|)] + c1)
         else
           match Compile(b2)
           case Err(e) => Err(e)
           case Ok(c2) => Ok([Jz(|c1| + 1)] + c1 + [Jmp(|c2|)] + c2))
    case Def(name, arity, body) =>
      match Compile(body)
      case Err(e) => Err(e)
      case Ok(c) => Ok([Define(name, arity, c)])
  }

  /** `travel` over an argument list: the arguments' pushes, left to right. */
  function TravelArgs(args: seq<Node>): (r: Result<seq<Instr>, CompileError>)
    ensures r.Ok? ==> Pop !in r.value
    decreases args, 1
  {
    if args == [] then Ok([])
    else
      match TravelArg(args[0])
      case Err(e) => Err(e)
      case Ok(c) =>
        match TravelArgs(args[1..])
        case Err(e) => Err(e)
        case Ok(c2) => Ok(c + c2)
  }

  /**
   * One argument: a literal is pushed, a register is pushed, and a nested call
   * leaves its result on the stack (no `POP`). Anything else is not a value.
   */
  function TravelArg(a: Node): (r: Result<seq<Instr>, CompileError>)
    ensures a.Lit? ==> r == Ok([PushN(a.value)])
    ensures a.Read? ==> r == Ok([Push(a.reg)])
    ensures a.Assign? ==> r == Err(AssignmentArgument)
    ensures a.Cond? ==> r == Err(ConditionalArgument)
    ensures a.Def? ==> r == Err(DefinitionArgument)
    ensures r.Ok? ==> Pop !in r.value
    decreases a, 2
  {
    match a
    case Lit(v) => Ok([PushN(v)])
    case Read(reg) => Ok([Push(reg)])
    case Assign(_) => Err(AssignmentArgument)
    case Cond(_, _) => Err(ConditionalArgument)
    case Def(_, _, _) => Err(DefinitionArgument)
    case Call(name, args) =>
      (match TravelArgs(args)
       case Err(e) => Err(e)
       case Ok(c) => Ok(c + [Invoke(name, |args|)]))
  }
}
