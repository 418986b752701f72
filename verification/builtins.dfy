/**
 * The machine's built-in functions (`VirtualMachine.internal_funcs` and
 * `VirtualMachine.ifunc`): comparisons giving 1 or 0, Python 2 integer
 * arithmetic, and the four output functions. Output is an event log rather
 * than text on a stream.
 */
module Builtins {
  import opened Wrappers
  import opened Lexer

  /** The arity table every machine starts with. */
  const Arity: map<Token, nat> := map[
    Ident(">") := 2, Ident("<") := 2, Ident("=") := 2, Ident(">=") := 2, Ident("<=") := 2,
    Ident("+") := 2, Ident("-") := 2, Ident("*") := 2, Ident("/") := 2,
    Ident("nl") := 0, Ident("print") := 1, Ident("println") := 1, Ident("write") := 1]

  /** What the output builtins write: a line break, a number, a number and a line break, a character. */
  datatype Event =
    | Newline
    | Print(n: int)
    | PrintLine(n: int)
    | Write(c: nat)

  datatype BuiltinError =
    | DivisionByZero      // "division by zero"
    | InvalidCharacter    // "invalid character number"
    | CharOverflow        // `OverflowError` from `chr`, which `ifunc` does not catch
    | UndefinedInternal   // "call for undefined internal function"
    | MissingArgument     // indexing past the arguments given

  /** What a builtin gives back: a new accumulator value, if any, and its output. */
  datatype Answer = Answer(result: Option<int>, events: seq<Event>)

  /** Python 2's `/` on integers: the quotient rounded towards minus infinity. */
  function FloorDiv(a: int, b: int): (q: int)
    requires b != 0
    ensures b > 0 ==> b * q <= a < b * q + b
    ensures b < 0 ==> b * q >= a > b * q + b
  {
    if b > 0 then a / b else (-a) / (-b)
  }

  /** `int(c)` of a comparison. */
  function Flag(c: bool): (n: int)
    ensures n == 0 <==> !c
    ensures 0 <= n <= 1
  {
    if c then 1 else 0
  }

  /** The codes `chr` accepts. */
  predicate IsByte(n: int)
  {
    0 <= n < 256
  }

  /**
   * The values `chr` can read as a C `long` (64-bit); outside them it raises
   * `OverflowError` instead of `ValueError`.
   */
  predicate IsCLong(n: int)
  {
    -0x8000_0000_0000_0000 <= n <= 0x7FFF_FFFF_FFFF_FFFF
  }

  /**
   * `ifunc(name, args)`, with `args` the stacked arguments, first one deepest.
   * The machine always passes as many arguments as the builtin's arity; fewer
   * would make the Python code index past the list.
   */
  function Apply(name: Token, args: seq<int>): (r: Result<Answer, BuiltinError>)
    ensures r.Err? <==> name !in Arity
                        || |args| < Arity[name]
                        || (name == Ident("/") && args[1] == 0)
                        || (name == Ident("write") && !IsByte(args[0]))
    ensures name == Ident("write") && |args| >= 1 && !IsByte(args[0]) ==>
              r == Err(if IsCLong(args[0]) then InvalidCharacter else CharOverflow)
    ensures r.Ok? && Arity[name] == 2 ==> r.value.result.Some? && r.value.events == []
    ensures r.Ok? && Arity[name] != 2 ==> r.value.result.None? && |r.value.events| == 1
  {
    if name !in Arity then Err(UndefinedInternal)
    else if |args| < Arity[name] then Err(MissingArgument)
    else if name == Ident(">") then Ok(Answer(Some(Flag(args[0] > args[1])), []))
    else if name == Ident("<") then Ok(Answer(Some(Flag(args[0] < args[1])), []))
    else if name == Ident("=") then Ok(Answer(Some(Flag(args[0] == args[1])), []))
    else if name == Ident(">=") then Ok(Answer(Some(Flag(args[0] >= args[1])), []))
    else if name == Ident("<=") then Ok(Answer(Some(Flag(args[0] <= args[1])), []))
    else if name == Ident("+") then Ok(Answer(Some(args[0] + args[1]), []))
    else if name == Ident("-") then Ok(Answer(Some(args[0] - args[1]), []))
    else if name == Ident("*") then Ok(Answer(Some(args[0] * args[1]), []))
    else if name == Ident("/") then
      if args[1] == 0 then Err(DivisionByZero) else Ok(Answer(Some(FloorDiv(args[0], args[1])), []))
    else if name == Ident("nl") then Ok(Answer(None, [Newline]))
    else if name == Ident("print") then Ok(Answer(None, [Print(args[0])]))
    else if name == Ident("println") then Ok(Answer(None, [PrintLine(args[0])]))
    else if name == Ident("write") then
      if IsByte(args[0]) then Ok(Answer(None, [Write(args[0])]))
      else if IsCLong(args[0]) then Err(InvalidCharacter)
      else Err(CharOverflow)
    else assert false; Err(UndefinedInternal)
  }

  /** The floor quotient is the only integer with the floor property. */
  lemma {:induction false} FloorDivUnique(a: int, b: int, q: int)
    requires b != 0
    requires b > 0 ==> b * q <= a < b * q + b
    requires b < 0 ==> b * q >= a > b * q + b
    ensures q == FloorDiv(a, b)
  {
    var p := FloorDiv(a, b);
    assert b * (p + 1) == b * p + b && b * (q + 1) == b * q + b;
    if b > 0 {
      MulCancel(b, q, p + 1);
      MulCancel(b, p, q + 1);
    } else {
      assert (-b) * q == -(b * q) && (-b) * p == -(b * p);
      assert (-b) * (p + 1) == -(b * (p + 1)) && (-b) * (q + 1) == -(b * (q + 1));
      MulCancel(-b, q, p + 1);
      MulCancel(-b, p, q + 1);
    }
  }

  /** Multiplying by a positive number keeps a strict order. */
  lemma {:induction false} MulCancel(c: int, x: int, y: int)
    requires c > 0 && c * x < c * y
    ensures x < y
  {
    if x >= y {
      MulMono(c, y, x);
    }
  }

  lemma {:induction false} MulMono(c: nat, x: int, y: int)
    requires x <= y
    ensures c * x <= c * y
  {
  }
}
