/**
 * Properties of `parseline`: a printer for statements that the parser reads
 * back unchanged, and the error each malformed line ends in, whatever
 * well-formed statements precede the fault.
 */
module ParserFacts {
  import opened Wrappers
  import opened Registers
  import opened Lexer
  import opened Parser

  /** A call name that the parser reads back as a name. */
  predicate GoodName(t: Token)
  {
    && t.Ident?
    && t.s != "" && t.s != "[" && t.s != "]" && t.s != "?" && t.s != "then" && t.s != "else"
    && !IsRegName(t.s)
  }

  /**
   * Statements that print to tokens `parseline` reads back. Inside a
   * conditional block no further conditional may occur, because the block
   * ends at the first `?` or `else`, however deeply nested.
   */
  predicate Printable(n: Node, inBlock: bool)
  {
    match n
    case Lit(_) => true
    case Read(_) => true
    case Assign(_) => true
    case Call(name, args) => GoodName(name) && PrintableSeq(args, inBlock)
    case Cond(b1, b2) => !inBlock && PrintableSeq(b1, true) && PrintableSeq(b2, true)
    case Def(_, _, _) => false
  }

  predicate PrintableSeq(ns: seq<Node>, inBlock: bool)
  {
    forall k :: 0 <= k < |ns| ==> Printable(ns[k], inBlock)
  }

  /** The tokens of a statement. */
  function Unparse(n: Node): seq<Token>
  {
    match n
    case Lit(v) => [Num(v)]
    case Read(r) => [Ident(Name(r))]
    case Assign(r) => [Equals, Ident(Name(r))]
    case Call(name, args) => [name, Open] + UnparseSeq(args) + [Close]
    case Cond(b1, b2) =>
      [Then] + UnparseSeq(b1) + (if b2 == [] then [] else [Else] + UnparseSeq(b2)) + [Question]
    case Def(f, a, body) => [Ident("F"), Ident(f), Num(a)] + UnparseSeq(body)
  }

  function UnparseSeq(ns: seq<Node>): seq<Token>
  {
    if ns == [] then [] else Unparse(ns[0]) + UnparseSeq(ns[1..])
  }

  /** The pending atom the parser holds after reading a statement. */
  function AtomAfter(n: Node): Token
  {
    match n
    case Lit(v) => Num(v)
    case Read(r) => Ident(Name(r))
    case _ => NoAtom
  }

  function AtomAfterSeq(ns: seq<Node>, prev: Token): Token
  {
    if ns == [] then prev else AtomAfter(ns[|ns| - 1])
  }

  /** `s` occurs in `code` starting at position `i`. */
  predicate IsAt(code: seq<Token>, i: nat, s: seq<Token>)
  {
    i + |s| <= |code| && forall k :: 0 <= k < |s| ==> code[i + k] == s[k]
  }

  lemma {:induction false} IsAtSplit(code: seq<Token>, i: nat, a: seq<Token>, b: seq<Token>)
    requires IsAt(code, i, a + b)
    ensures IsAt(code, i, a) && IsAt(code, i + |a|, b)
  {
    forall k | 0 <= k < |a|
      ensures code[i + k] == a[k]
    {
      assert (a + b)[k] == a[k];
    }
    forall k | 0 <= k < |b|
      ensures code[i + |a| + k] == b[k]
    {
      assert (a + b)[|a| + k] == b[k];
    }
  }

  lemma {:induction false} IsAtElem(code: seq<Token>, i: nat, s: seq<Token>, k: nat)
    requires IsAt(code, i, s) && k < |s|
    ensures code[i + k] == s[k]
  {
  }

  lemma {:induction false} IsAtSlice(code: seq<Token>, i: nat, s: seq<Token>)
    requires IsAt(code, i, s)
    ensures code[i..i + |s|] == s
  {
  }

  lemma {:induction false} UnparseSeqCons(ns: seq<Node>)
    requires ns != []
    ensures UnparseSeq(ns) == Unparse(ns[0]) + UnparseSeq(ns[1..])
  {
  }

  // ---------------------------------------------------------------------
  // Scanning past printed statements.

  lemma {:induction false} ScanSkipToken(code: seq<Token>, j: nat, d: int)
    requires j < |code| && d > 0 && Delta(code[j]) == 0
    ensures ScanClose(code, j, d) == ScanClose(code, j + 1, d)
  {
  }

  lemma {:induction false} RegisterNotBracket(r: Reg)
    ensures Delta(Ident(Name(r))) == 0
    ensures Ident(Name(r)) != Then && Ident(Name(r)) != Equals
  {
  }

  lemma {:induction false} ScanSkipCall(n: Node, inBlock: bool, code: seq<Token>, j: nat, d: int)
    requires n.Call? && Printable(n, inBlock) && d > 0
    requires IsAt(code, j, Unparse(n))
    ensures ScanClose(code, j, d) == ScanClose(code, j + |Unparse(n)|, d)
    decreases n, 1
  {
    var name, args := n.name, n.args;
    var ua := UnparseSeq(args);
    assert Unparse(n) == [name, Open] + ua + [Close];
    IsAtSplit(code, j, [name, Open] + ua, [Close]);
    IsAtSplit(code, j, [name, Open], ua);
    IsAtElem(code, j, [name, Open], 0);
    IsAtElem(code, j, [name, Open], 1);
    IsAtElem(code, j + 2 + |ua|, [Close], 0);
    ScanSkipToken(code, j, d);
    ScanSkipSeq(args, inBlock, code, j + 2, d + 1);
  }

  lemma {:induction false} ScanSkipCond(n: Node, inBlock: bool, code: seq<Token>, j: nat, d: int)
    requires n.Cond? && Printable(n, inBlock) && d > 0
    requires IsAt(code, j, Unparse(n))
    ensures ScanClose(code, j, d) == ScanClose(code, j + |Unparse(n)|, d)
    decreases n, 1
  {
    var b1, b2 := n.thenBlock, n.elseBlock;
    var e := j + 1 + |UnparseSeq(b1)|;
    CondLayout(n, code, j);
    ScanSkipToken(code, j, d);
    ScanSkipSeq(b1, true, code, j + 1, d);
    if b2 == [] {
      ScanSkipToken(code, e, d);
    } else {
      ScanSkipToken(code, e, d);
      ScanSkipSeq(b2, true, code, e + 1, d);
      ScanSkipToken(code, e + 1 + |UnparseSeq(b2)|, d);
    }
  }

  lemma {:induction false} ScanSkipNode(n: Node, inBlock: bool, code: seq<Token>, j: nat, d: int)
    requires Printable(n, inBlock) && IsAt(code, j, Unparse(n)) && d > 0
    ensures ScanClose(code, j, d) == ScanClose(code, j + |Unparse(n)|, d)
    decreases n, 2
  {
    match n
    case Lit(_) =>
      IsAtElem(code, j, Unparse(n), 0);
      ScanSkipToken(code, j, d);
    case Read(r) =>
      IsAtElem(code, j, Unparse(n), 0);
      RegisterNotBracket(r);
      ScanSkipToken(code, j, d);
    case Assign(r) =>
      IsAtElem(code, j, Unparse(n), 0);
      IsAtElem(code, j, Unparse(n), 1);
      RegisterNotBracket(r);
      ScanSkipToken(code, j, d);
      ScanSkipToken(code, j + 1, d);
    case Call(_, _) =>
      ScanSkipCall(n, inBlock, code, j, d);
    case Cond(_, _) =>
      ScanSkipCond(n, inBlock, code, j, d);
    case Def(_, _, _) =>
  }

  lemma {:induction false} ScanSkipSeq(ns: seq<Node>, inBlock: bool, code: seq<Token>, j: nat, d: int)
    requires PrintableSeq(ns, inBlock) && IsAt(code, j, UnparseSeq(ns)) && d > 0
    ensures ScanClose(code, j, d) == ScanClose(code, j + |UnparseSeq(ns)|, d)
    decreases ns, 0
  {
    if ns != [] {
      UnparseSeqCons(ns);
      IsAtSplit(code, j, Unparse(ns[0]), UnparseSeq(ns[1..]));
      ScanSkipNode(ns[0], inBlock, code, j, d);
      ScanSkipSeq(ns[1..], inBlock, code, j + |Unparse(ns[0])|, d);
    }
  }

  /** No token of a conditional-free block ends a conditional block. */
  predicate NoStops(s: seq<Token>)
  {
    forall k :: 0 <= k < |s| ==> s[k] != Question && s[k] != Else
  }

  lemma {:induction false} NoStopsNode(n: Node)
    requires Printable(n, true)
    ensures NoStops(Unparse(n))
    decreases n, 0
  {
    match n
    case Lit(_) =>
    case Read(_) =>
    case Assign(_) =>
    case Call(name, args) =>
      NoStopsSeq(args);
      assert Unparse(n) == [name, Open] + UnparseSeq(args) + [Close];
    case Cond(_, _) =>
    case Def(_, _, _) =>
  }

  lemma {:induction false} NoStopsSeq(ns: seq<Node>)
    requires PrintableSeq(ns, true)
    ensures NoStops(UnparseSeq(ns))
    decreases ns, 0
  {
    if ns != [] {
      NoStopsNode(ns[0]);
      NoStopsSeq(ns[1..]);
      UnparseSeqCons(ns);
    }
  }

  /** The scan for a terminator stops at the first one. */
  lemma {:induction false} FindFirst(code: seq<Token>, j: nat, m: nat, stops: set<Token>)
    requires j + m < |code| && code[j + m] in stops
    requires forall k :: j <= k < j + m ==> code[k] !in stops
    ensures FindTok(code, j, stops) == Some(j + m)
  {
  }

  /** A printed conditional-free block holds no terminator of a conditional block. */
  lemma {:induction false} BlockHasNoStops(code: seq<Token>, j: nat, b: seq<Node>, stops: set<Token>)
    requires PrintableSeq(b, true) && IsAt(code, j, UnparseSeq(b))
    requires stops <= {Question, Else}
    ensures forall k :: j <= k < j + |UnparseSeq(b)| ==> code[k] !in stops
  {
    NoStopsSeq(b);
    forall k | j <= k < j + |UnparseSeq(b)|
      ensures code[k] !in stops
    {
      IsAtElem(code, j, UnparseSeq(b), k - j);
    }
  }

  // ---------------------------------------------------------------------
  // One iteration of the parse loop, branch by branch.

  lemma {:induction false} ParseStepAtom(code: seq<Token>, i: nat, prev: Token, acc: seq<Node>)
    requires i < |code| && Settled(prev)
    requires code[i] != Open && code[i] != Then && code[i] != Equals
    requires !code[i].Ident? || !IsRegName(code[i].s)
    ensures ParseFrom(code, i, prev, acc)
         == ParseFrom(code, i + 1, code[i], acc + (if code[i].Num? then [Lit(code[i].n)] else []))
  {
    assert prev != Equals;
  }

  lemma {:induction false} ParseStepRead(code: seq<Token>, i: nat, prev: Token, acc: seq<Node>, r: Reg)
    requires i < |code| && Settled(prev) && code[i] == Ident(Name(r))
    ensures ParseFrom(code, i, prev, acc) == ParseFrom(code, i + 1, code[i], acc + [Read(r)])
  {
    NameRoundTrip(r);
    RegisterNotBracket(r);
    assert prev != Equals;
  }

  lemma {:induction false} ParseStepEquals(code: seq<Token>, i: nat, prev: Token, acc: seq<Node>)
    requires i < |code| && Settled(prev) && code[i] == Equals
    ensures ParseFrom(code, i, prev, acc) == ParseFrom(code, i + 1, Equals, acc)
  {
    assert prev != Equals;
    assert !IsRegName("=");
    assert acc + [] == acc;
  }

  lemma {:induction false} ParseStepAssign(code: seq<Token>, i: nat, acc: seq<Node>, r: Reg)
    requires i < |code| && code[i] == Ident(Name(r))
    ensures ParseFrom(code, i, Equals, acc) == ParseFrom(code, i + 1, NoAtom, acc + [Assign(r)])
  {
    NameRoundTrip(r);
    RegisterNotBracket(r);
  }

  lemma {:induction false} ParseStepCall(code: seq<Token>, i: nat, prev: Token, acc: seq<Node>, j: nat, args: seq<Node>)
    requires i < |code| && code[i] == Open
    requires MatchBracket(code, i) == Some(j) && ParseLine(code[i + 1..j]) == Ok(args)
    ensures ParseFrom(code, i, prev, acc) == ParseFrom(code, j + 1, NoAtom, acc + [Call(prev, args)])
  {
  }

  lemma {:induction false} ParseStepIf(code: seq<Token>, i: nat, prev: Token, acc: seq<Node>, j: nat, b1: seq<Node>)
    requires i < |code| && code[i] == Then && prev != Equals
    requires FindTok(code, i + 1, {Question, Else}) == Some(j) && code[j] == Question
    requires ParseLine(code[i + 1..j]) == Ok(b1)
    ensures ParseFrom(code, i, prev, acc) == ParseFrom(code, j + 1, NoAtom, acc + [Cond(b1, [])])
  {
  }

  lemma {:induction false} ParseStepIfElse(code: seq<Token>, i: nat, prev: Token, acc: seq<Node>, j: nat, k: nat, b1: seq<Node>, b2: seq<Node>)
    requires i < |code| && code[i] == Then && prev != Equals
    requires FindTok(code, i + 1, {Question, Else}) == Some(j) && code[j] == Else
    requires ParseLine(code[i + 1..j]) == Ok(b1)
    requires FindTok(code, j + 1, {Question}) == Some(k) && ParseLine(code[j + 1..k]) == Ok(b2)
    ensures ParseFrom(code, i, prev, acc) == ParseFrom(code, k + 1, NoAtom, acc + [Cond(b1, b2)])
  {
  }

  // ---------------------------------------------------------------------
  // Reading printed statements back.

  lemma {:induction false} SettledAfter(n: Node)
    ensures Settled(AtomAfter(n))
  {
    match n
    case Read(r) => NameRoundTrip(r);
    case _ =>
  }

  lemma {:induction false} ParseOverCall(n: Node, inBlock: bool, code: seq<Token>, i: nat, prev: Token, acc: seq<Node>)
    requires n.Call? && Printable(n, inBlock) && Settled(prev)
    requires IsAt(code, i, Unparse(n))
    ensures ParseFrom(code, i, prev, acc) == ParseFrom(code, i + |Unparse(n)|, NoAtom, acc + [n])
    decreases n, 2
  {
    var name, args := n.name, n.args;
    var j := i + 2 + |UnparseSeq(args)|;
    ArgsFound(n, inBlock, code, i);
    if name == Equals {
      ParseStepEquals(code, i, prev, acc);
    } else {
      ParseStepAtom(code, i, prev, acc);
      assert acc + [] == acc;
    }
    ParseStepCall(code, i + 1, name, acc, j, args);
  }

  /** The tokens of a call: its name, then `[`, whose matching `]` closes the arguments, which parse back. */
  lemma {:induction false} ArgsFound(n: Node, inBlock: bool, code: seq<Token>, i: nat)
    requires n.Call? && Printable(n, inBlock) && IsAt(code, i, Unparse(n))
    ensures var j := i + 2 + |UnparseSeq(n.args)|;
            && j < |code| && |Unparse(n)| == j + 1 - i
            && code[i] == n.name && code[i + 1] == Open
            && MatchBracket(code, i + 1) == Some(j)
            && ParseLine(code[i + 2..j]) == Ok(n.args)
    decreases n, 1
  {
    var name, args := n.name, n.args;
    var ua := UnparseSeq(args);
    assert Unparse(n) == [name, Open] + ua + [Close];
    IsAtSplit(code, i, [name, Open] + ua, [Close]);
    IsAtSplit(code, i, [name, Open], ua);
    IsAtElem(code, i, [name, Open], 0);
    IsAtElem(code, i, [name, Open], 1);
    var j := i + 2 + |ua|;
    IsAtElem(code, j, [Close], 0);
    ScanSkipSeq(args, inBlock, code, i + 2, 1);
    assert ScanClose(code, j, 1) == Some(j);
    assert MatchBracket(code, i + 1) == Some(j);
    IsAtSlice(code, i + 2, ua);
    ParseLineRoundTrip(args, inBlock);
  }

  /** The tokens of a conditional: `then`, block 1, then `else` and block 2 if present, then `?`. */
  lemma {:induction false} CondLayout(n: Node, code: seq<Token>, i: nat)
    requires n.Cond? && IsAt(code, i, Unparse(n))
    ensures IsAt(code, i + 1, UnparseSeq(n.thenBlock))
    ensures code[i] == Then
    ensures var j := i + 1 + |UnparseSeq(n.thenBlock)|;
      && (n.elseBlock == [] ==> |Unparse(n)| == j + 1 - i && code[j] == Question)
      && (n.elseBlock != [] ==>
            && |Unparse(n)| == j + 2 + |UnparseSeq(n.elseBlock)| - i
            && code[j] == Else && IsAt(code, j + 1, UnparseSeq(n.elseBlock))
            && code[j + 1 + |UnparseSeq(n.elseBlock)|] == Question)
  {
    if n.elseBlock == [] {
      IfLayout(n, code, i);
    } else {
      IfElseLayout(n, code, i);
    }
  }

  /** `CondLayout` without `else`. */
  lemma {:induction false} IfLayout(n: Node, code: seq<Token>, i: nat)
    requires n.Cond? && n.elseBlock == [] && IsAt(code, i, Unparse(n))
    ensures code[i] == Then && IsAt(code, i + 1, UnparseSeq(n.thenBlock))
    ensures |Unparse(n)| == 2 + |UnparseSeq(n.thenBlock)|
    ensures code[i + 1 + |UnparseSeq(n.thenBlock)|] == Question
  {
    var u1 := UnparseSeq(n.thenBlock);
    assert Unparse(n) == [Then] + u1 + [] + [Question];
    WrappedLayout(code, i, u1, []);
  }

  /** `CondLayout` with `else`. */
  lemma {:induction false} IfElseLayout(n: Node, code: seq<Token>, i: nat)
    requires n.Cond? && n.elseBlock != [] && IsAt(code, i, Unparse(n))
    ensures code[i] == Then && IsAt(code, i + 1, UnparseSeq(n.thenBlock))
    ensures var j := i + 1 + |UnparseSeq(n.thenBlock)|;
      && |Unparse(n)| == j + 2 + |UnparseSeq(n.elseBlock)| - i
      && code[j] == Else && IsAt(code, j + 1, UnparseSeq(n.elseBlock))
      && code[j + 1 + |UnparseSeq(n.elseBlock)|] == Question
  {
    var u1, u2 := UnparseSeq(n.thenBlock), UnparseSeq(n.elseBlock);
    assert Unparse(n) == [Then] + u1 + ([Else] + u2) + [Question];
    WrappedLayout(code, i, u1, [Else] + u2);
    IsAtSplit(code, i + 1 + |u1|, [Else], u2);
    IsAtElem(code, i + 1 + |u1|, [Else], 0);
  }

  /** The pieces of `then`, a block, a tail and `?`, where they occur. */
  lemma {:induction false} WrappedLayout(code: seq<Token>, i: nat, u1: seq<Token>, tail: seq<Token>)
    requires IsAt(code, i, [Then] + u1 + tail + [Question])
    ensures code[i] == Then && IsAt(code, i + 1, u1) && IsAt(code, i + 1 + |u1|, tail)
    ensures code[i + 1 + |u1| + |tail|] == Question
  {
    IsAtSplit(code, i, [Then] + u1 + tail, [Question]);
    IsAtSplit(code, i, [Then] + u1, tail);
    IsAtSplit(code, i, [Then], u1);
    IsAtElem(code, i, [Then], 0);
    IsAtElem(code, i + 1 + |u1| + |tail|, [Question], 0);
  }

  lemma {:induction false} ParseOverCond(n: Node, inBlock: bool, code: seq<Token>, i: nat, prev: Token, acc: seq<Node>)
    requires n.Cond? && Printable(n, inBlock) && Settled(prev)
    requires IsAt(code, i, Unparse(n))
    ensures ParseFrom(code, i, prev, acc) == ParseFrom(code, i + |Unparse(n)|, NoAtom, acc + [n])
    decreases n, 2
  {
    if n.elseBlock == [] {
      ParseOverIf(n, code, i, prev, acc);
    } else {
      ParseOverIfElse(n, code, i, prev, acc);
    }
  }

  /** A conditional without `else`. */
  lemma {:induction false} ParseOverIf(n: Node, code: seq<Token>, i: nat, prev: Token, acc: seq<Node>)
    requires n.Cond? && n.elseBlock == [] && PrintableSeq(n.thenBlock, true) && Settled(prev)
    requires IsAt(code, i, Unparse(n))
    ensures ParseFrom(code, i, prev, acc) == ParseFrom(code, i + |Unparse(n)|, NoAtom, acc + [n])
    decreases n, 1
  {
    CondLayout(n, code, i);
    var j := i + 1 + |UnparseSeq(n.thenBlock)|;
    BlockFound(code, i + 1, n.thenBlock, {Question, Else});
    assert prev != Equals;
    ParseStepIf(code, i, prev, acc, j, n.thenBlock);
  }

  /** A conditional with `else`. */
  lemma {:induction false} ParseOverIfElse(n: Node, code: seq<Token>, i: nat, prev: Token, acc: seq<Node>)
    requires n.Cond? && n.elseBlock != [] && Settled(prev)
    requires PrintableSeq(n.thenBlock, true) && PrintableSeq(n.elseBlock, true)
    requires IsAt(code, i, Unparse(n))
    ensures ParseFrom(code, i, prev, acc) == ParseFrom(code, i + |Unparse(n)|, NoAtom, acc + [n])
    decreases n, 1
  {
    CondLayout(n, code, i);
    var j := i + 1 + |UnparseSeq(n.thenBlock)|;
    var k := j + 1 + |UnparseSeq(n.elseBlock)|;
    BlockFound(code, i + 1, n.thenBlock, {Question, Else});
    BlockFound(code, j + 1, n.elseBlock, {Question});
    assert prev != Equals;
    ParseStepIfElse(code, i, prev, acc, j, k, n.thenBlock, n.elseBlock);
  }

  /**
   * A printed conditional-free block followed by a terminator: the scan stops
   * right after the block, and the block parses back.
   */
  lemma {:induction false} BlockFound(code: seq<Token>, j: nat, b: seq<Node>, stops: set<Token>)
    requires PrintableSeq(b, true) && IsAt(code, j, UnparseSeq(b)) && stops <= {Question, Else}
    requires j + |UnparseSeq(b)| < |code| && code[j + |UnparseSeq(b)|] in stops
    ensures FindTok(code, j, stops) == Some(j + |UnparseSeq(b)|)
    ensures ParseLine(code[j..j + |UnparseSeq(b)|]) == Ok(b)
    decreases b, 2
  {
    BlockHasNoStops(code, j, b, stops);
    FindFirst(code, j, |UnparseSeq(b)|, stops);
    IsAtSlice(code, j, UnparseSeq(b));
    ParseLineRoundTrip(b, true);
  }

  lemma {:induction false} ParseOverNode(n: Node, inBlock: bool, code: seq<Token>, i: nat, prev: Token, acc: seq<Node>)
    requires Printable(n, inBlock) && IsAt(code, i, Unparse(n)) && Settled(prev)
    ensures ParseFrom(code, i, prev, acc) == ParseFrom(code, i + |Unparse(n)|, AtomAfter(n), acc + [n])
    decreases n, 3
  {
    match n
    case Lit(v) =>
      IsAtElem(code, i, Unparse(n), 0);
      ParseStepAtom(code, i, prev, acc);
    case Read(r) =>
      IsAtElem(code, i, Unparse(n), 0);
      ParseStepRead(code, i, prev, acc, r);
    case Assign(r) =>
      IsAtElem(code, i, Unparse(n), 0);
      IsAtElem(code, i, Unparse(n), 1);
      ParseStepEquals(code, i, prev, acc);
      ParseStepAssign(code, i + 1, acc, r);
    case Call(_, _) =>
      ParseOverCall(n, inBlock, code, i, prev, acc);
    case Cond(_, _) =>
      ParseOverCond(n, inBlock, code, i, prev, acc);
    case Def(_, _, _) =>
  }

  lemma {:induction false} ParseOverSeq(ns: seq<Node>, inBlock: bool, code: seq<Token>, i: nat, prev: Token, acc: seq<Node>)
    requires PrintableSeq(ns, inBlock) && IsAt(code, i, UnparseSeq(ns)) && Settled(prev)
    ensures ParseFrom(code, i, prev, acc)
         == ParseFrom(code, i + |UnparseSeq(ns)|, AtomAfterSeq(ns, prev), acc + ns)
    ensures Settled(AtomAfterSeq(ns, prev))
    decreases ns, 0
  {
    if ns == [] {
      assert acc + ns == acc;
    } else {
      UnparseSeqCons(ns);
      IsAtSplit(code, i, Unparse(ns[0]), UnparseSeq(ns[1..]));
      ParseOverNode(ns[0], inBlock, code, i, prev, acc);
      SettledAfter(ns[0]);
      ParseOverSeq(ns[1..], inBlock, code, i + |Unparse(ns[0])|, AtomAfter(ns[0]), acc + [ns[0]]);
      assert acc + [ns[0]] + ns[1..] == acc + ns;
      assert AtomAfterSeq(ns[1..], AtomAfter(ns[0])) == AtomAfterSeq(ns, prev);
    }
  }

  /** `parseline` reads every printable statement sequence back unchanged. */
  lemma {:induction false} ParseLineRoundTrip(ns: seq<Node>, inBlock: bool)
    requires PrintableSeq(ns, inBlock)
    ensures ParseLine(UnparseSeq(ns)) == Ok(ns)
    decreases ns, 1
  {
    var code := UnparseSeq(ns);
    ParseOverSeq(ns, inBlock, code, 0, NoAtom, []);
    assert [] + ns == ns;
  }

  /** Parsing a line resumes, after a printed prefix, with the pending atom that prefix leaves. */
  lemma {:induction false} ParseAfterPrefix(ns: seq<Node>, rest: seq<Token>)
    requires PrintableSeq(ns, false)
    ensures var code := UnparseSeq(ns) + rest;
      ParseLine(code) == ParseFrom(code, |UnparseSeq(ns)|, AtomAfterSeq(ns, NoAtom), ns)
    ensures Settled(AtomAfterSeq(ns, NoAtom))
  {
    var code := UnparseSeq(ns) + rest;
    ParseOverSeq(ns, false, code, 0, NoAtom, []);
    assert [] + ns == ns;
  }

  // ---------------------------------------------------------------------
  // The error each malformed line ends in.

  lemma {:induction false} IsAtSuffix(pre: seq<Token>, s: seq<Token>)
    ensures IsAt(pre + s, |pre|, s)
  {
  }

  lemma {:induction false} ParseStepName(code: seq<Token>, i: nat, prev: Token, acc: seq<Node>)
    requires i < |code| && Settled(prev)
    requires code[i] != Open && code[i] != Then && !code[i].Num? && !(code[i].Ident? && IsRegName(code[i].s))
    ensures ParseFrom(code, i, prev, acc) == ParseFrom(code, i + 1, code[i], acc)
  {
    assert prev != Equals;
    assert acc + [] == acc;
  }

  lemma {:induction false} ParseStepAssignErr(code: seq<Token>, i: nat, acc: seq<Node>)
    requires i < |code| && code[i] != Open && !(code[i].Ident? && IsRegName(code[i].s))
    ensures ParseFrom(code, i, Equals, acc) == Err(IncompleteAssignment)
  {
  }

  lemma {:induction false} ParseStepDangling(code: seq<Token>, i: nat, prev: Token, acc: seq<Node>)
    requires i < |code| && code[i] != Open && code[i] != Then && prev != Equals && !Settled(prev)
    ensures ParseFrom(code, i, prev, acc) == Err(DanglingName)
  {
  }

  lemma {:induction false} ParseStepCallErr(code: seq<Token>, i: nat, prev: Token, acc: seq<Node>)
    requires i < |code| && code[i] == Open && MatchBracket(code, i) == None
    ensures ParseFrom(code, i, prev, acc) == Err(IncompleteCall)
  {
  }

  lemma {:induction false} ParseStepThenErr(code: seq<Token>, i: nat, prev: Token, acc: seq<Node>)
    requires i < |code| && code[i] == Then && prev != Equals
    requires FindTok(code, i + 1, {Question, Else}) == None
    ensures ParseFrom(code, i, prev, acc) == Err(IncompleteConditional)
  {
  }

  lemma {:induction false} ParseStepElseErr(code: seq<Token>, i: nat, prev: Token, acc: seq<Node>, j: nat)
    requires i < |code| && code[i] == Then && prev != Equals
    requires FindTok(code, i + 1, {Question, Else}) == Some(j) && code[j] == Else
    requires ParseLine(code[i + 1..j]).Ok?
    requires FindTok(code, j + 1, {Question}) == None
    ensures ParseFrom(code, i, prev, acc) == Err(IncompleteConditional)
  {
  }

  /** `=` followed by anything but a register name (or `[`) is an incomplete assignment. */
  lemma {:induction false} AssignNeedsRegister(ns: seq<Node>, t: Token, rest: seq<Token>)
    requires PrintableSeq(ns, false)
    requires t != Open && !(t.Ident? && IsRegName(t.s))
    ensures ParseLine(UnparseSeq(ns) + [Equals, t] + rest) == Err(IncompleteAssignment)
  {
    var u := UnparseSeq(ns);
    var code := u + ([Equals, t] + rest);
    assert u + [Equals, t] + rest == code;
    ParseAfterPrefix(ns, [Equals, t] + rest);
    IsAtSuffix(u, [Equals, t] + rest);
    IsAtElem(code, |u|, [Equals, t] + rest, 0);
    IsAtElem(code, |u|, [Equals, t] + rest, 1);
    ParseStepEquals(code, |u|, AtomAfterSeq(ns, NoAtom), ns);
    ParseStepAssignErr(code, |u| + 1, ns);
  }

  /** `=[ ... ]` is a call to the builtin named `=`, not an assignment. */
  lemma {:induction false} EqualsBracketIsCall(args: seq<Node>)
    requires PrintableSeq(args, false)
    ensures ParseLine([Equals, Open] + UnparseSeq(args) + [Close]) == Ok([Call(Equals, args)])
  {
    var n := Call(Equals, args);
    assert GoodName(Equals);
    assert PrintableSeq([n], false);
    assert UnparseSeq([n]) == [Equals, Open] + UnparseSeq(args) + [Close] by {
      UnparseSeqCons([n]);
      assert [n][1..] == [];
      assert Unparse(n) + [] == Unparse(n);
    }
    ParseLineRoundTrip([n], false);
  }

  /** A bare name followed by anything but `[` (or `then`) is left dangling. */
  lemma {:induction false} NameNeedsArguments(ns: seq<Node>, f: Token, t: Token, rest: seq<Token>)
    requires PrintableSeq(ns, false)
    requires !Settled(f) && f != Open && f != Then && f != Equals
    requires t != Open && t != Then
    ensures ParseLine(UnparseSeq(ns) + [f, t] + rest) == Err(DanglingName)
  {
    var u := UnparseSeq(ns);
    var code := u + ([f, t] + rest);
    assert u + [f, t] + rest == code;
    ParseAfterPrefix(ns, [f, t] + rest);
    IsAtSuffix(u, [f, t] + rest);
    IsAtElem(code, |u|, [f, t] + rest, 0);
    IsAtElem(code, |u|, [f, t] + rest, 1);
    ParseStepName(code, |u|, AtomAfterSeq(ns, NoAtom), ns);
    ParseStepDangling(code, |u| + 1, f, ns);
  }

  /** A line may not end with a pending name (or `=`). */
  lemma {:induction false} LineEndsSettled(ns: seq<Node>, f: Token)
    requires PrintableSeq(ns, false)
    requires !Settled(f) && f != Open && f != Then
    ensures ParseLine(UnparseSeq(ns) + [f]) == Err(IncompleteStatement)
  {
    var u := UnparseSeq(ns);
    var code := u + [f];
    ParseAfterPrefix(ns, [f]);
    assert code[|u|] == f;
    ParseStepName(code, |u|, AtomAfterSeq(ns, NoAtom), ns);
  }

  /**
   * A `long` literal is not an `int`, so the parser holds it like a function
   * name: at the end of a line it is an incomplete statement, and followed by
   * anything but `[` or `then` it is a name without arguments.
   */
  lemma {:induction false} LongIsPending(ns: seq<Node>, v: nat, rest: seq<Token>)
    requires PrintableSeq(ns, false)
    ensures ParseLine(UnparseSeq(ns) + [Long(v)]) == Err(IncompleteStatement)
    ensures rest != [] && rest[0] != Open && rest[0] != Then ==>
              ParseLine(UnparseSeq(ns) + [Long(v)] + rest) == Err(DanglingName)
  {
    LineEndsSettled(ns, Long(v));
    if rest != [] && rest[0] != Open && rest[0] != Then {
      NameNeedsArguments(ns, Long(v), rest[0], rest[1..]);
      assert [Long(v), rest[0]] + rest[1..] == [Long(v)] + rest;
      assert UnparseSeq(ns) + [Long(v), rest[0]] + rest[1..] == UnparseSeq(ns) + [Long(v)] + rest;
    }
  }

  /** Depth counted from the front: the first token's step, then the rest. */
  lemma {:induction false} DepthFront(code: seq<Token>, a: nat, b: nat)
    requires a < b <= |code|
    ensures Depth(code, a, b) == Delta(code[a]) + Depth(code, a + 1, b)
    decreases b - a
  {
    if b > a + 1 {
      DepthFront(code, a, b - 1);
    }
  }

  /** Depth over a suffix of `pre + rest` is depth over `rest`. */
  lemma {:induction false} DepthShift(pre: seq<Token>, rest: seq<Token>, a: nat, b: nat)
    requires a <= b <= |rest|
    ensures Depth(pre + rest, |pre| + a, |pre| + b) == Depth(rest, a, b)
    decreases b - a
  {
    if a < b {
      DepthShift(pre, rest, a, b - 1);
      assert (pre + rest)[|pre| + b - 1] == rest[b - 1];
    }
  }

  /** After `[`, a suffix that never closes more brackets than it opens leaves the `[` unmatched. */
  lemma {:induction false} BracketNeverCloses(pre: seq<Token>, rest: seq<Token>)
    requires pre != [] && pre[|pre| - 1] == Open
    requires forall k :: 0 <= k <= |rest| ==> Depth(rest, 0, k) >= 0
    ensures MatchBracket(pre + rest, |pre| - 1) == None
  {
    var code := pre + rest;
    var p := |pre| - 1;
    forall k | p < k <= |code|
      ensures Depth(code, p, k) > 0
    {
      DepthFront(code, p, k);
      DepthShift(pre, rest, 0, k - |pre|);
    }
  }

  /** With no terminator after position `j`, the scan for one finds none. */
  lemma {:induction false} NoTerminatorAfter(pre: seq<Token>, rest: seq<Token>, stops: set<Token>)
    requires forall k :: 0 <= k < |rest| ==> rest[k] !in stops
    ensures FindTok(pre + rest, |pre|, stops) == None
  {
    var code := pre + rest;
    forall m | |pre| <= m < |code|
      ensures code[m] !in stops
    {
      assert code[m] == rest[m - |pre|];
    }
  }

  /** A `[` whose brackets never balance again is an incomplete call. */
  lemma {:induction false} UnbalancedCall(ns: seq<Node>, f: Token, rest: seq<Token>)
    requires PrintableSeq(ns, false)
    requires f != Open && f != Then && (!f.Ident? || !IsRegName(f.s))
    requires forall k :: 0 <= k <= |rest| ==> Depth(rest, 0, k) >= 0
    ensures ParseLine(UnparseSeq(ns) + [f, Open] + rest) == Err(IncompleteCall)
  {
    var u := UnparseSeq(ns);
    var pre := u + [f, Open];
    var code := pre + rest;
    assert u + ([f, Open] + rest) == code;
    ParseAfterPrefix(ns, [f, Open] + rest);
    var p := |u| + 1;
    assert code[p - 1] == f && code[p] == Open;
    BracketNeverCloses(pre, rest);
    var atom := AtomAfterSeq(ns, NoAtom);
    if f.Num? {
      ParseStepAtom(code, p - 1, atom, ns);
      ParseStepCallErr(code, p, f, ns + [Lit(f.n)]);
    } else {
      ParseStepName(code, p - 1, atom, ns);
      ParseStepCallErr(code, p, f, ns);
    }
  }

  /** A `then` with no `?` or `else` after it is an incomplete conditional. */
  lemma {:induction false} ThenNeedsTerminator(ns: seq<Node>, rest: seq<Token>)
    requires PrintableSeq(ns, false)
    requires NoStops(rest)
    ensures ParseLine(UnparseSeq(ns) + [Then] + rest) == Err(IncompleteConditional)
  {
    var u := UnparseSeq(ns);
    var code := u + [Then] + rest;
    assert code == u + ([Then] + rest);
    ParseAfterPrefix(ns, [Then] + rest);
    var p := |u|;
    assert code[p] == Then;
    NoTerminatorAfter(u + [Then], rest, {Question, Else});
    var atom := AtomAfterSeq(ns, NoAtom);
    assert atom != Equals;
    ParseStepThenErr(code, p, atom, ns);
  }

  /** An `else` with no `?` after it is an incomplete conditional. */
  lemma {:induction false} ElseNeedsQuestion(ns: seq<Node>, b1: seq<Node>, rest: seq<Token>)
    requires PrintableSeq(ns, false) && PrintableSeq(b1, true)
    requires forall k :: 0 <= k < |rest| ==> rest[k] != Question
    ensures ParseLine(UnparseSeq(ns) + [Then] + UnparseSeq(b1) + [Else] + rest) == Err(IncompleteConditional)
  {
    var u := UnparseSeq(ns);
    var u1 := UnparseSeq(b1);
    var code := u + [Then] + u1 + [Else] + rest;
    assert code == u + ([Then] + u1 + [Else] + rest);
    ParseAfterPrefix(ns, [Then] + u1 + [Else] + rest);
    NoStopsSeq(b1);
    ParseLineRoundTrip(b1, true);
    ElseWithoutQuestion(code, u, u1, rest, AtomAfterSeq(ns, NoAtom), ns);
  }

  /** `ElseNeedsQuestion` over the tokens alone. */
  lemma {:induction false} ElseWithoutQuestion(code: seq<Token>, u: seq<Token>, u1: seq<Token>, rest: seq<Token>,
                                               atom: Token, acc: seq<Node>)
    requires code == u + [Then] + u1 + [Else] + rest
    requires NoStops(u1) && ParseLine(u1).Ok? && Settled(atom)
    requires forall k :: 0 <= k < |rest| ==> rest[k] != Question
    ensures ParseFrom(code, |u|, atom, acc) == Err(IncompleteConditional)
  {
    var p := |u|;
    var j := p + 1 + |u1|;
    MiddleSlice(code, u, u1, rest);
    ElseAfterBlock(code, u, u1, rest);
    var pre := u + [Then] + u1 + [Else];
    assert code == pre + rest;
    assert forall k :: 0 <= k < |rest| ==> rest[k] !in {Question};
    NoTerminatorAfter(pre, rest, {Question});
    ParseStepElseErr(code, p, atom, acc, j);
  }

  lemma {:induction false} MiddleSlice(code: seq<Token>, u: seq<Token>, u1: seq<Token>, rest: seq<Token>)
    requires code == u + [Then] + u1 + [Else] + rest
    ensures code[|u|] == Then && code[|u| + 1 + |u1|] == Else
    ensures code[|u| + 1..|u| + 1 + |u1|] == u1
  {
    assert code == (u + [Then]) + u1 + ([Else] + rest);
    assert code[|u| + 1 + |u1|] == ([Else] + rest)[0];
  }

  /** After `then`, a block free of terminators runs up to the `else` that follows it. */
  lemma {:induction false} ElseAfterBlock(code: seq<Token>, u: seq<Token>, u1: seq<Token>, rest: seq<Token>)
    requires NoStops(u1) && code == u + [Then] + u1 + [Else] + rest
    ensures FindTok(code, |u| + 1, {Question, Else}) == Some(|u| + 1 + |u1|)
  {
    forall k | |u| + 1 <= k < |u| + 1 + |u1|
      ensures code[k] !in {Question, Else}
    {
      assert code[k] == u1[k - |u| - 1];
    }
    assert code[|u| + 1 + |u1|] == Else;
    FindFirst(code, |u| + 1, |u1|, {Question, Else});
  }

  // ---------------------------------------------------------------------
  // `parse`, line by line.

  /** No line-break character in `s`. */
  predicate NoBreaks(s: string)
  {
    forall k :: 0 <= k < |s| ==> s[k] != '\n' && s[k] != '\r'
  }

  /** Lines joined by `\n`: what `splitlines` undoes. */
  function JoinLines(ls: seq<string>): string
  {
    if ls == [] then []
    else if |ls| == 1 then ls[0]
    else ls[0] + "\n" + JoinLines(ls[1..])
  }

  /** What one line contributes, numbered `lineno`: nothing when it has no tokens. */
  function LineResult(l: string, lineno: nat): (r: Result<seq<Node>, SyntaxError>)
    ensures r.Ok? ==> TopLevelOnly(r.value)
  {
    var code := Tokenize(l);
    if code == [] then Ok([]) else ParseTokens(code, lineno)
  }

  /** A result whose error line is moved down by `k` lines. */
  function Shifted(r: Result<seq<Node>, SyntaxError>, k: nat): Result<seq<Node>, SyntaxError>
  {
    match r
    case Ok(ns) => Ok(ns)
    case Err(e) => Err(SyntaxError(e.line + k, e.kind))
  }

  /** Two results one after the other: the first error wins, otherwise the statements are joined. */
  function AndThen(r1: Result<seq<Node>, SyntaxError>, r2: Result<seq<Node>, SyntaxError>): Result<seq<Node>, SyntaxError>
  {
    if r1.Err? then r1 else if r2.Err? then r2 else Ok(r1.value + r2.value)
  }

  /** Characters without breaks extend the current line. */
  lemma {:induction false} LinesFromPlain(s: string, rest: string, cur: string)
    requires NoBreaks(s) && NoBreaks(cur)
    ensures LinesFrom(s + rest, cur) == LinesFrom(rest, cur + s)
    decreases |s|
  {
    if s == [] {
      assert s + rest == rest && cur + s == cur;
    } else {
      assert (s + rest)[0] == s[0] && (s + rest)[1..] == s[1..] + rest;
      assert NoBreaks(cur + [s[0]]);
      LinesFromPlain(s[1..], rest, cur + [s[0]]);
      assert cur + [s[0]] + s[1..] == cur + s;
    }
  }

  /** A text without line breaks is one line, or none when it is empty. */
  lemma {:induction false} SplitOneLine(l: string)
    requires NoBreaks(l)
    ensures SplitLines(l) == if l == [] then [] else [l]
  {
    LinesFromPlain(l, [], []);
    assert l + [] == l && [] + l == l;
  }

  /** A line, `\n`, then more text: that line, then the lines of the rest. */
  lemma {:induction false} SplitFirstLine(l: string, rest: string)
    requires NoBreaks(l)
    ensures SplitLines(l + "\n" + rest) == [l] + SplitLines(rest)
  {
    assert l + "\n" + rest == l + ("\n" + rest);
    LinesFromPlain(l, "\n" + rest, []);
    assert [] + l == l;
    assert ("\n" + rest)[0] == '\n' && ("\n" + rest)[1..] == rest;
  }

  /** One character of `LinesFrom` that is not `\r`: a `\n` ends the line, anything else extends it. */
  lemma {:induction false} LinesFromStep(s: string, cur: string)
    requires s != [] && s[0] != '\r' && NoBreaks(cur)
    ensures s[0] == '\n' ==> LinesFrom(s, cur) == [cur] + LinesFrom(s[1..], [])
    ensures s[0] != '\n' ==> NoBreaks(cur + [s[0]]) && LinesFrom(s, cur) == LinesFrom(s[1..], cur + [s[0]])
  {
  }

  /** `LinesFrom` loses only a final line break, when the text has no `\r`. */
  lemma {:induction false} LinesFromJoin(s: string, cur: string)
    requires NoBreaks(cur) && forall k :: 0 <= k < |s| ==> s[k] != '\r'
    ensures LinesFrom(s, cur) == [] <==> cur + s == []
    ensures cur + s == JoinLines(LinesFrom(s, cur)) || cur + s == JoinLines(LinesFrom(s, cur)) + "\n"
    decreases |s|
  {
    if s == [] {
      assert cur + s == cur;
    } else {
      LinesFromStep(s, cur);
      if s[0] == '\n' {
        LinesFromJoin(s[1..], []);
        assert [] + s[1..] == s[1..];
        SplitAtNewline(cur, s);
        JoinCons(cur, LinesFrom(s[1..], []), s[1..]);
      } else {
        LinesFromJoin(s[1..], cur + [s[0]]);
        assert cur + [s[0]] + s[1..] == cur + s;
      }
    }
  }

  /** A text that starts with `\n` after `cur` is `cur`, the `\n`, then the rest. */
  lemma SplitAtNewline(cur: string, s: string)
    requires s != [] && s[0] == '\n'
    ensures cur + s == cur + "\n" + s[1..]
  {
    assert s == "\n" + s[1..];
  }

  /** One more line in front of a text that `JoinLines` gives back up to a final line break. */
  lemma {:induction false} JoinCons(cur: string, ls: seq<string>, rest: string)
    requires ls == [] <==> rest == []
    requires rest == JoinLines(ls) || rest == JoinLines(ls) + "\n"
    ensures cur + "\n" + rest == JoinLines([cur] + ls) || cur + "\n" + rest == JoinLines([cur] + ls) + "\n"
  {
    if ls == [] {
      assert [cur] + ls == [cur];
    } else {
      assert ([cur] + ls)[0] == cur && ([cur] + ls)[1..] == ls;
      assert JoinLines([cur] + ls) == cur + "\n" + JoinLines(ls);
      assert cur + "\n" + (JoinLines(ls) + "\n") == cur + "\n" + JoinLines(ls) + "\n";
    }
  }

  /**
   * On text without `\r`, joining the lines `splitlines` returns with `\n`
   * gives the text back, up to a final line break.
   */
  lemma {:induction false} SplitLinesJoin(text: string)
    requires forall k :: 0 <= k < |text| ==> text[k] != '\r'
    ensures text == JoinLines(SplitLines(text)) || text == JoinLines(SplitLines(text)) + "\n"
  {
    LinesFromJoin(text, []);
    assert [] + text == text;
  }

  /** `ParseTokens` puts its line number into an error and nowhere else. */
  lemma {:induction false} ParseTokensLine(code: seq<Token>, a: nat, b: nat)
    requires code != []
    ensures ParseTokens(code, a + b) == Shifted(ParseTokens(code, a), b)
  {
  }

  /** One round of the line loop: the line's result, then the lines after it. */
  lemma {:induction false} ParseLinesStep(lines: seq<string>, n: nat, acc: seq<Node>)
    requires n < |lines| && TopLevelOnly(acc)
    ensures ParseLines(lines, n, acc)
         == match LineResult(lines[n], n + 1)
            case Err(e) => Err(e)
            case Ok(ns) => ParseLines(lines, n + 1, acc + ns)
  {
    if Tokenize(lines[n]) == [] {
      assert acc + [] == acc;
    }
  }

  /** Statements gathered before line `n` stay in front of the rest. */
  lemma {:induction false} ParseLinesAcc(lines: seq<string>, n: nat, acc: seq<Node>)
    requires n <= |lines| && TopLevelOnly(acc)
    ensures ParseLines(lines, n, acc) == AndThen(Ok(acc), ParseLines(lines, n, []))
    decreases |lines| - n
  {
    if n == |lines| {
      assert acc + [] == acc;
    } else {
      ParseLinesStep(lines, n, acc);
      ParseLinesStep(lines, n, []);
      match LineResult(lines[n], n + 1)
      case Err(_) =>
      case Ok(ns) =>
        assert [] + ns == ns;
        ParseLinesAcc(lines, n + 1, acc + ns);
        ParseLinesAcc(lines, n + 1, ns);
        AndThenAssoc(acc, ns, ParseLines(lines, n + 1, []));
    }
  }

  /** Joining statements in front is associative. */
  lemma AndThenAssoc(a: seq<Node>, b: seq<Node>, r: Result<seq<Node>, SyntaxError>)
    ensures AndThen(Ok(a), AndThen(Ok(b), r)) == AndThen(Ok(a + b), r)
  {
    if r.Ok? {
      assert a + b + r.value == a + (b + r.value);
    }
  }

  /** Lines after `ls1` are parsed as in `ls2` alone, their numbers moved down by `|ls1|`. */
  lemma {:induction false} ParseLinesShift(ls1: seq<string>, ls2: seq<string>, m: nat, acc: seq<Node>)
    requires m <= |ls2| && TopLevelOnly(acc)
    ensures ParseLines(ls1 + ls2, |ls1| + m, acc) == Shifted(ParseLines(ls2, m, acc), |ls1|)
    decreases |ls2| - m
  {
    if m < |ls2| {
      var l := ls2[m];
      assert (ls1 + ls2)[|ls1| + m] == l;
      ParseLinesStep(ls1 + ls2, |ls1| + m, acc);
      ParseLinesStep(ls2, m, acc);
      LineResultShift(l, m + 1, |ls1|);
      match LineResult(l, m + 1)
      case Err(_) =>
      case Ok(ns) =>
        ParseLinesShift(ls1, ls2, m + 1, acc + ns);
    }
  }

  /** A line's result numbered `a + b` is its result numbered `a`, moved down by `b`. */
  lemma {:induction false} LineResultShift(l: string, a: nat, b: nat)
    ensures LineResult(l, a + b) == Shifted(LineResult(l, a), b)
  {
    if Tokenize(l) != [] {
      ParseTokensLine(Tokenize(l), a, b);
    }
  }

  /** The lines of `ls1` are parsed first, as if alone; what follows continues from their result. */
  lemma {:induction false} ParseLinesPrefix(ls1: seq<string>, ls2: seq<string>, n: nat, acc: seq<Node>)
    requires n <= |ls1| && TopLevelOnly(acc)
    ensures ParseLines(ls1 + ls2, n, acc)
         == match ParseLines(ls1, n, acc)
            case Err(e) => Err(e)
            case Ok(a) => ParseLines(ls1 + ls2, |ls1|, a)
    decreases |ls1| - n
  {
    if n < |ls1| {
      assert (ls1 + ls2)[n] == ls1[n];
      var code := Tokenize(ls1[n]);
      if code == [] {
        ParseLinesPrefix(ls1, ls2, n + 1, acc);
      } else {
        match ParseTokens(code, n + 1)
        case Err(_) =>
        case Ok(ns) =>
          assert TopLevelOnly(acc + ns);
          ParseLinesPrefix(ls1, ls2, n + 1, acc + ns);
      }
    }
  }

  /**
   * The `for line in string.splitlines()` loop over two runs of lines: the
   * first run's statements, then the second's, and the first error wins,
   * counted in lines of the whole.
   */
  lemma {:induction false} ParseLinesAppend(ls1: seq<string>, ls2: seq<string>)
    ensures ParseLines(ls1 + ls2, 0, [])
         == AndThen(ParseLines(ls1, 0, []), Shifted(ParseLines(ls2, 0, []), |ls1|))
  {
    ParseLinesPrefix(ls1, ls2, 0, []);
    match ParseLines(ls1, 0, [])
    case Err(_) =>
    case Ok(a) =>
      ParseLinesShift(ls1, ls2, 0, a);
      ParseLinesAcc(ls2, 0, a);
  }

  /** One line: skipped when it has no tokens, otherwise `ParseTokens` numbered 1. */
  lemma {:induction false} ParseLinesOne(l: string)
    ensures ParseLines([l], 0, []) == LineResult(l, 1)
  {
    assert [l][0] == l;
    var code := Tokenize(l);
    if code != [] {
      match ParseTokens(code, 1)
      case Err(_) =>
      case Ok(ns) => assert [] + ns == ns;
    }
  }

  /** `parse` of text without line breaks is what its one line gives. */
  lemma {:induction false} ParseOneLine(l: string)
    requires NoBreaks(l)
    ensures Parse(l) == LineResult(l, 1)
  {
    SplitOneLine(l);
    if l == [] {
      assert Split(l) == [];
    } else {
      ParseLinesOne(l);
    }
  }

  /**
   * `parse` of a line, `\n`, then more text: the first line's statements, then
   * the rest's, with the rest's error lines counted one further down; an
   * error in the first line wins.
   */
  lemma {:induction false} ParseFirstLine(l: string, rest: string)
    requires NoBreaks(l)
    ensures Parse(l + "\n" + rest) == AndThen(LineResult(l, 1), Shifted(Parse(rest), 1))
  {
    SplitFirstLine(l, rest);
    ParseLinesAppend([l], SplitLines(rest));
    ParseLinesOne(l);
  }
}
