/**
 * The parser of the Python implementation (`Compiler.parseline` and
 * `Compiler.parse`). A line of tokens is read left to right while one
 * "pending" atom is remembered: a register name or integer is emitted at
 * once, `[` turns the pending atom into the name of a call, `=` must be
 * followed by a register, and `then ... else ... ?` is a conditional.
 */
module Parser {
  import opened Wrappers
  import opened Registers
  import opened Lexer

  /** A statement, as the parser builds it. */
  datatype Node =
    | Lit(value: nat)
    | Read(reg: Reg)
    | Assign(target: Reg)
    | Call(name: Token, args: seq<Node>)
    | Cond(thenBlock: seq<Node>, elseBlock: seq<Node>)
    | Def(fname: string, arity: nat, body: seq<Node>)

  datatype SyntaxKind =
    | IncompleteCall         // "incomplete function call"
    | IncompleteAssignment   // "incomplete assignment"
    | IncompleteConditional  // "incomplete conditional block"
    | DanglingName           // "function should be followed by arguments"
    | IncompleteStatement    // "incomplete statement"
    | InvalidDefinition      // "invalid function definition"
    | ArityOutOfRange        // "a number of arguments should be 0..3"

  /** A syntax error with the (1-based) line it was found on. */
  datatype SyntaxError = SyntaxError(line: nat, kind: SyntaxKind)

  /** The pending atom at the start of a line and after each finished statement (`''`). */
  const NoAtom: Token := Ident("")
  const Open: Token := Ident("[")
  const Close: Token := Ident("]")
  const Equals: Token := Ident("=")
  const Then: Token := Ident("then")
  const Else: Token := Ident("else")
  const Question: Token := Ident("?")

  /**
   * A pending atom that may stand alone: nothing, a register name or an
   * `int` (`prev in special or type(prev) is int`). A `long` is neither, so
   * it is pending like a function name.
   */
  predicate Settled(prev: Token)
  {
    prev.Num? || (prev.Ident? && (prev.s == "" || IsRegName(prev.s)))
  }

  /** True when no `Def` occurs anywhere inside the statement. */
  predicate DefFree(n: Node)
  {
    match n
    case Def(_, _, _) => false
    case Call(_, args) => BlockDefFree(args)
    case Cond(b1, b2) => BlockDefFree(b1) && BlockDefFree(b2)
    case _ => true
  }

  predicate BlockDefFree(ns: seq<Node>)
  {
    forall k :: 0 <= k < |ns| ==> DefFree(ns[k])
  }

  // ---------------------------------------------------------------------
  // Scanning for the end of a call or of a conditional block.

  /** How a token changes the bracket nesting depth. */
  function Delta(t: Token): int
  {
    if t == Open then 1 else if t == Close then -1 else 0
  }

  /** The nesting depth reached by the tokens `code[a..b]`. */
  function Depth(code: seq<Token>, a: nat, b: nat): int
    requires a <= b <= |code|
    decreases b - a
  {
    if a == b then 0 else Depth(code, a, b - 1) + Delta(code[b - 1])
  }

  /** The bracket loop `while depth: i += 1 ...` from position `j` on. */
  function ScanClose(code: seq<Token>, j: nat, depth: int): Option<nat>
    requires j <= |code| && depth > 0
    decreases |code| - j
  {
    if j == |code| then None
    else
      var d := depth + Delta(code[j]);
      if d == 0 then Some(j) else ScanClose(code, j + 1, d)
  }

  lemma {:induction false} ScanCloseSpec(code: seq<Token>, begin: nat, j: nat, d: int)
    requires begin < j <= |code| && d == Depth(code, begin, j) && d > 0
    ensures var r := ScanClose(code, j, d);
      && (r.Some? ==> j <= r.value < |code| && Depth(code, begin, r.value + 1) == 0
                      && forall k :: j <= k <= r.value ==> Depth(code, begin, k) > 0)
      && (r.None? ==> forall k :: j <= k <= |code| ==> Depth(code, begin, k) > 0)
    decreases |code| - j
  {
    if j < |code| {
      var d' := d + Delta(code[j]);
      assert Depth(code, begin, j + 1) == d';
      if d' != 0 {
        ScanCloseSpec(code, begin, j + 1, d');
      }
    }
  }

  /**
   * The `]` that closes the `[` at position `i`: the first position at which
   * the nesting depth, counted from that `[`, returns to zero.
   */
  function MatchBracket(code: seq<Token>, i: nat): (r: Option<nat>)
    requires i < |code| && code[i] == Open
    ensures r.Some? ==> i < r.value < |code| && code[r.value] == Close
    ensures r.Some? ==> Depth(code, i, r.value + 1) == 0
    ensures r.Some? ==> forall k :: i < k <= r.value ==> Depth(code, i, k) > 0
    ensures r.None? ==> forall k :: i < k <= |code| ==> Depth(code, i, k) > 0
  {
    assert Depth(code, i, i + 1) == 1;
    ScanCloseSpec(code, i, i + 1, 1);
    var r := ScanClose(code, i + 1, 1);
    assert r.Some? ==> Depth(code, i, r.value + 1) == Depth(code, i, r.value) + Delta(code[r.value]);
    r
  }

  /** The first position at or after `j` holding one of `stops`. */
  function FindTok(code: seq<Token>, j: nat, stops: set<Token>): (r: Option<nat>)
    requires j <= |code|
    ensures r.Some? ==> j <= r.value < |code| && code[r.value] in stops
    ensures r.Some? ==> forall m :: j <= m < r.value ==> code[m] !in stops
    ensures r.None? ==> forall m :: j <= m < |code| ==> code[m] !in stops
    decreases |code| - j
  {
    if j == |code| then None
    else if code[j] in stops then Some(j)
    else FindTok(code, j + 1, stops)
  }

  // ---------------------------------------------------------------------
  // parseline

  /** `parseline(code)`. */
  function ParseLine(code: seq<Token>): (r: Result<seq<Node>, SyntaxKind>)
    ensures r.Err? ==> r.error != InvalidDefinition && r.error != ArityOutOfRange
    decreases |code|, |code| + 1
  {
    ParseFrom(code, 0, NoAtom, [])
  }

  /**
   * The `while i < len(code)` loop of `parseline` from position `i` on, with
   * the pending atom `prev` and the statements `acc` emitted so far.
   */
  function ParseFrom(code: seq<Token>, i: nat, prev: Token, acc: seq<Node>): (r: Result<seq<Node>, SyntaxKind>)
    requires i <= |code|
    ensures r.Err? ==> r.error != InvalidDefinition && r.error != ArityOutOfRange
    decreases |code|, |code| - i
  {
    if i == |code| then
      if Settled(prev) then Ok(acc) else Err(IncompleteStatement)
    else
      var t := code[i];
      if t == Open then
        match MatchBracket(code, i)
        case None => Err(IncompleteCall)
        case Some(j) =>
          match ParseLine(code[i + 1..j])
          case Err(e) => Err(e)
          case Ok(args) =>
            ParseFrom(code, j + 1, NoAtom, acc + [Call(prev, args)])
      else if prev == Equals then
        if t.Ident? && IsRegName(t.s) then
          ParseFrom(code, i + 1, NoAtom, acc + [Assign(FromName(t.s).value)])
        else Err(IncompleteAssignment)
      else if t == Then then
        match FindTok(code, i + 1, {Question, Else})
        case None => Err(IncompleteConditional)
        case Some(j) =>
          match ParseLine(code[i + 1..j])
          case Err(e) => Err(e)
          case Ok(b1) =>
            if code[j] == Else then
              match FindTok(code, j + 1, {Question})
              case None => Err(IncompleteConditional)
              case Some(k) =>
                match ParseLine(code[j + 1..k])
                case Err(e) => Err(e)
                case Ok(b2) =>
                  ParseFrom(code, k + 1, NoAtom, acc + [Cond(b1, b2)])
            else
              ParseFrom(code, j + 1, NoAtom, acc + [Cond(b1, [])])
      else if !Settled(prev) then Err(DanglingName)
      else
        var emitted :=
          if t.Num? then [Lit(t.n)]
          else if t.Ident? && IsRegName(t.s) then [Read(FromName(t.s).value)]
          else [];
        ParseFrom(code, i + 1, t, acc + emitted)
  }

  /**
   * The loop only ever appends to the statements emitted so far, and nothing
   * it appends is a definition or holds one.
   */
  lemma {:induction false} ParseFromExtends(code: seq<Token>, i: nat, prev: Token, acc: seq<Node>)
    requires i <= |code|
    ensures var r := ParseFrom(code, i, prev, acc);
            r.Ok? ==> |acc| <= |r.value| && r.value[..|acc|] == acc && (BlockDefFree(acc) ==> BlockDefFree(r.value))
    decreases |code|, |code| - i, 1
  {
    if i < |code| {
      var t := code[i];
      if t == Open {
        ExtendsOverCall(code, i, prev, acc);
      } else if prev == Equals {
        if t.Ident? && IsRegName(t.s) {
          ParseFromAppend(code, i + 1, NoAtom, acc, [Assign(FromName(t.s).value)]);
        }
      } else if t == Then {
        ExtendsOverCond(code, i, prev, acc);
      } else if Settled(prev) {
        var emitted :=
          if t.Num? then [Lit(t.n)]
          else if t.Ident? && IsRegName(t.s) then [Read(FromName(t.s).value)]
          else [];
        ParseFromAppend(code, i + 1, t, acc, emitted);
      }
    }
  }

  /** The call branch of `ParseFromExtends`. */
  lemma {:induction false} ExtendsOverCall(code: seq<Token>, i: nat, prev: Token, acc: seq<Node>)
    requires i < |code| && code[i] == Open
    ensures var r := ParseFrom(code, i, prev, acc);
            r.Ok? ==> |acc| <= |r.value| && r.value[..|acc|] == acc && (BlockDefFree(acc) ==> BlockDefFree(r.value))
    decreases |code|, |code| - i, 0
  {
    match MatchBracket(code, i)
    case None =>
    case Some(j) =>
      ParseLineDefFree(code[i + 1..j]);
      match ParseLine(code[i + 1..j])
      case Err(_) =>
      case Ok(args) => ParseFromAppend(code, j + 1, NoAtom, acc, [Call(prev, args)]);
  }

  /** The conditional branch of `ParseFromExtends`. */
  lemma {:induction false} ExtendsOverCond(code: seq<Token>, i: nat, prev: Token, acc: seq<Node>)
    requires i < |code| && code[i] == Then && prev != Equals
    ensures var r := ParseFrom(code, i, prev, acc);
            r.Ok? ==> |acc| <= |r.value| && r.value[..|acc|] == acc && (BlockDefFree(acc) ==> BlockDefFree(r.value))
    decreases |code|, |code| - i, 0
  {
    match FindTok(code, i + 1, {Question, Else})
    case None =>
    case Some(j) =>
      ParseLineDefFree(code[i + 1..j]);
      match ParseLine(code[i + 1..j])
      case Err(_) =>
      case Ok(b1) =>
        if code[j] == Else {
          match FindTok(code, j + 1, {Question})
          case None =>
          case Some(k) =>
            ParseLineDefFree(code[j + 1..k]);
            match ParseLine(code[j + 1..k])
            case Err(_) =>
            case Ok(b2) => ParseFromAppend(code, k + 1, NoAtom, acc, [Cond(b1, b2)]);
        } else {
          ParseFromAppend(code, j + 1, NoAtom, acc, [Cond(b1, [])]);
        }
  }

  /** One step of `ParseFromExtends`: the loop goes on after appending `more`. */
  lemma {:induction false} ParseFromAppend(code: seq<Token>, i: nat, prev: Token, acc: seq<Node>, more: seq<Node>)
    requires i <= |code| && BlockDefFree(more)
    ensures var r := ParseFrom(code, i, prev, acc + more);
            r.Ok? ==> |acc| <= |r.value| && r.value[..|acc|] == acc && (BlockDefFree(acc) ==> BlockDefFree(r.value))
    decreases |code|, |code| - i, 2
  {
    ParseFromExtends(code, i, prev, acc + more);
    var r := ParseFrom(code, i, prev, acc + more);
    if r.Ok? {
      assert r.value[..|acc|] == r.value[..|acc + more|][..|acc|];
    }
  }

  /** No statement `parseline` returns is, or holds, a definition. */
  lemma {:induction false} ParseLineDefFree(code: seq<Token>)
    ensures ParseLine(code).Ok? ==> BlockDefFree(ParseLine(code).value)
    decreases |code|, |code| + 1
  {
    ParseFromExtends(code, 0, NoAtom, []);
  }

  // ---------------------------------------------------------------------
  // parse

  /**
   * Python 2's `str.splitlines`: lines end at `\n`, `\r` or `\r\n`; a final
   * line break does not start an empty last line.
   */
  function SplitLines(text: string): (lines: seq<string>)
    ensures forall l, k :: l in lines && 0 <= k < |l| ==> l[k] != '\n' && l[k] != '\r'
  {
    LinesFrom(text, [])
  }

  function LinesFrom(s: string, cur: string): (lines: seq<string>)
    requires forall k :: 0 <= k < |cur| ==> cur[k] != '\n' && cur[k] != '\r'
    ensures forall l, k :: l in lines && 0 <= k < |l| ==> l[k] != '\n' && l[k] != '\r'
    decreases |s|
  {
    if s == [] then (if cur == [] then [] else [cur])
    else if s[0] == '\n' then [cur] + LinesFrom(s[1..], [])
    else if s[0] == '\r' then
      if |s| > 1 && s[1] == '\n' then [cur] + LinesFrom(s[2..], [])
      else [cur] + LinesFrom(s[1..], [])
    else LinesFrom(s[1..], cur + [s[0]])
  }

  /**
   * One non-empty line of tokens, numbered `lineno`. A line starting with `F`
   * defines a function: it needs an identifier name and an integer arity in
   * 0..3, and the rest of the line is its body.
   */
  function ParseTokens(code: seq<Token>, lineno: nat): (r: Result<seq<Node>, SyntaxError>)
    requires code != []
    ensures r.Err? ==> r.error.line == lineno
    ensures r.Ok? ==> TopLevelOnly(r.value)
    ensures (code[0] == Ident("F") && (|code| < 3 || !code[1].Ident? || !code[2].Num?))
              ==> r == Err(SyntaxError(lineno, InvalidDefinition))
    ensures (code[0] == Ident("F") && |code| >= 3 && code[1].Ident? && code[2].Num? && code[2].n > 3)
              ==> r == Err(SyntaxError(lineno, ArityOutOfRange))
    ensures code[0] == Ident("F") && r.Ok? ==>
              && |code| >= 3 && code[1].Ident? && code[2].Num? && code[2].n <= 3
              && ParseLine(code[3..]).Ok? && |r.value| == 1
              && r.value[0] == Def(code[1].s, code[2].n, ParseLine(code[3..]).value)
    ensures code[0] != Ident("F") ==> (r.Ok? <==> ParseLine(code).Ok?)
    ensures code[0] != Ident("F") && r.Ok? ==> r.value == ParseLine(code).value && BlockDefFree(r.value)
  {
    if code[0] == Ident("F") then
      if |code| < 3 || !code[1].Ident? || !code[2].Num? then Err(SyntaxError(lineno, InvalidDefinition))
      else if code[2].n > 3 then Err(SyntaxError(lineno, ArityOutOfRange))
      else
        ParseLineDefFree(code[3..]);
        match ParseLine(code[3..])
        case Err(e) => Err(SyntaxError(lineno, e))
        case Ok(body) => Ok([Def(code[1].s, code[2].n, body)])
    else
      ParseLineDefFree(code);
      match ParseLine(code)
      case Err(e) => Err(SyntaxError(lineno, e))
      case Ok(ns) =>
        assert forall k :: 0 <= k < |ns| ==> DefFree(ns[k]) && !ns[k].Def?;
        Ok(ns)
  }

  /** Definitions occur only at the top level, never inside a block or an argument. */
  predicate TopLevelOnly(ns: seq<Node>)
  {
    forall k :: 0 <= k < |ns| ==> (ns[k].Def? ==> BlockDefFree(ns[k].body)) && (!ns[k].Def? ==> DefFree(ns[k]))
  }

  /** `parse(string)`: the statements of every line, in order; the first error stops it. */
  function Parse(text: string): (r: Result<seq<Node>, SyntaxError>)
    ensures r.Ok? ==> TopLevelOnly(r.value)
    ensures r.Err? ==> 1 <= r.error.line <= |SplitLines(text)|
  {
    ParseLines(SplitLines(text), 0, [])
  }

  /** The `for line in string.splitlines()` loop from line index `n` on. */
  function ParseLines(lines: seq<string>, n: nat, acc: seq<Node>): (r: Result<seq<Node>, SyntaxError>)
    requires n <= |lines|
    requires TopLevelOnly(acc)
    ensures r.Ok? ==> TopLevelOnly(r.value) && |acc| <= |r.value| && r.value[..|acc|] == acc
    ensures r.Err? ==> n + 1 <= r.error.line <= |lines|
    decreases |lines| - n
  {
    if n == |lines| then Ok(acc)
    else
      var code := Tokenize(lines[n]);
      if code == [] then ParseLines(lines, n + 1, acc)
      else
        match ParseTokens(code, n + 1)
        case Err(e) => Err(e)
        case Ok(ns) =>
          assert TopLevelOnly(acc + ns);
          ParseLines(lines, n + 1, acc + ns)
  }
}
