/**
 * The six registers of the 3code machine. `x`, `y`, `z` are global and
 * live in slots 0..2; `i`, `j`, `k` are frame-local and live in slots
 * 3..5 (the Python interpreter finds a slot with `'xyzijk'.index(name)`).
 */
module Registers {
  import opened Wrappers

  datatype Reg = X | Y | Z | I | J | K

  /** The storage order of the register file. */
  const Order: string := "xyzijk"

  /** The one-letter name a program uses for a register. */
  function Name(r: Reg): string
  {
    match r
    case X => "x"
    case Y => "y"
    case Z => "z"
    case I => "i"
    case J => "j"
    case K => "k"
  }

  /** The slot of a register: the position of its name in `xyzijk`. */
  function Index(r: Reg): (n: nat)
    ensures n < |Order| && [Order[n]] == Name(r)
    ensures n < 3 <==> IsGlobal(r)
  {
    match r
    case X => 0
    case Y => 1
    case Z => 2
    case I => 3
    case J => 4
    case K => 5
  }

  /** `x`, `y` and `z` are shared by every frame; `i`, `j`, `k` are per call. */
  predicate IsGlobal(r: Reg)
  {
    r == X || r == Y || r == Z
  }

  /** Recognises a register name; every other string is not a register. */
  function FromName(s: string): (r: Option<Reg>)
    ensures r.Some? ==> Name(r.value) == s
    ensures r.None? ==> forall g: Reg :: Name(g) != s
  {
    if s == "x" then Some(X)
    else if s == "y" then Some(Y)
    else if s == "z" then Some(Z)
    else if s == "i" then Some(I)
    else if s == "j" then Some(J)
    else if s == "k" then Some(K)
    else None
  }

  predicate IsRegName(s: string)
  {
    FromName(s).Some?
  }

  /** Different registers never share a slot, so the slot determines the register. */
  lemma {:induction false} IndexInjective(a: Reg, b: Reg)
    ensures Index(a) == Index(b) <==> a == b
  {
  }

  /** Reading back the name of a register gives the register. */
  lemma {:induction false} NameRoundTrip(r: Reg)
    ensures FromName(Name(r)) == Some(r)
  {
  }

  /**
   * `isVariable` of the C++ interpreter: true for exactly the six one-letter
   * register names.
   */
  function IsVariable(tag: string): (b: bool)
    ensures b <==> exists g: Reg :: Name(g) == tag
    ensures b <==> IsRegName(tag)
  {
    assert Name(X) == "x" && Name(Y) == "y" && Name(Z) == "z";
    assert Name(I) == "i" && Name(J) == "j" && Name(K) == "k";
    tag == "x" || tag == "y" || tag == "z" || tag == "i" || tag == "j" || tag == "k"
  }
}
