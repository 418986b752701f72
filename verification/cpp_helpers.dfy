/**
 * The pure helpers of the C++ interpreter (`source/3code.cpp`): the number
 * recogniser built on `find_first_not_of`, the token queue the evaluator
 * consumes, and the ordering `std::set` uses to keep function signatures.
 * Its tokenizer `getTokens` is `Lexer.Split` and its `isVariable` is
 * `Registers.IsVariable`.
 */
module CppHelpers {
  import opened Wrappers

  // ---------------------------------------------------------------------
  // isNumber

  /** The characters `isNumber` lets through after the sign. */
  const NumberChars: set<char> := {'.', 'e', 'E', '0', '1', '2', '3', '4', '5', '6', '7', '8', '9'}

  /**
   * `s.find_first_not_of(chars, i)`: the first position from `i` on whose
   * character is not in `chars`; `None` stands for `npos`, also when `i` is
   * past the end.
   */
  function FindFirstNotOf(s: string, chars: set<char>, i: nat): (r: Option<nat>)
    ensures r.Some? ==> i <= r.value < |s| && s[r.value] !in chars
    ensures r.Some? ==> forall k :: i <= k < r.value ==> s[k] in chars
    ensures r.None? <==> forall k :: i <= k < |s| ==> s[k] in chars
    decreases |s| - i
  {
    if i >= |s| then None
    else if s[i] !in chars then Some(i)
    else FindFirstNotOf(s, chars, i + 1)
  }

  /** `isNumber`: skip one leading sign, then nothing but digits, dots and exponent letters. */
  function IsNumber(s: string): bool
  {
    var i := if |s| > 0 && (s[0] == '-' || s[0] == '+') then 1 else 0;
    FindFirstNotOf(s, NumberChars, i).None?
  }

  /** What `isNumber` is meant to accept, written as a grammar: an optional sign, then any number characters. */
  ghost predicate NumberShape(s: string)
  {
    exists sign: string, body: string {:trigger sign + body} ::
      && s == sign + body
      && (sign == [] || sign == "+" || sign == "-")
      && (forall k :: 0 <= k < |body| ==> body[k] in NumberChars)
  }

  /** `isNumber` accepts exactly the strings of that shape, in both directions. */
  lemma IsNumberShape(s: string)
    ensures IsNumber(s) <==> NumberShape(s)
  {
    if IsNumber(s) {
      IsNumberHasShape(s);
    }
    if NumberShape(s) {
      ShapeIsNumber(s);
    }
  }

  lemma IsNumberHasShape(s: string)
    requires IsNumber(s)
    ensures NumberShape(s)
  {
    var i := if |s| > 0 && (s[0] == '-' || s[0] == '+') then 1 else 0;
    var sign, body := s[..i], s[i..];
    assert s == sign + body;
    assert sign == [] || sign == "+" || sign == "-";
    forall k | 0 <= k < |body|
      ensures body[k] in NumberChars
    {
      assert body[k] == s[i + k];
    }
  }

  lemma ShapeIsNumber(s: string)
    requires NumberShape(s)
    ensures IsNumber(s)
  {
    var i := if |s| > 0 && (s[0] == '-' || s[0] == '+') then 1 else 0;
    var sign: string, body: string :| && s == sign + body
                                       && (sign == [] || sign == "+" || sign == "-")
                                       && (forall k :: 0 <= k < |body| ==> body[k] in NumberChars);
    assert i == |sign|;
    forall k | i <= k < |s|
      ensures s[k] in NumberChars
    {
      assert s[k] == body[k - i];
    }
  }

  /**
   * The grammar lets through strings that are no number at all: the empty
   * string, a lone sign, dots and exponent letters in any order.
   */
  lemma IsNumberLoose()
    ensures IsNumber("") && IsNumber("+") && IsNumber("-") && IsNumber("e.E") && IsNumber("-1.5e3")
    ensures !IsNumber("x") && !IsNumber("+-1") && !IsNumber("1-") && !IsNumber("1 ")
  {
    assert FindFirstNotOf("+-1", NumberChars, 1) == Some(1);
    assert FindFirstNotOf("1-", NumberChars, 0) == Some(1);
    assert FindFirstNotOf("1 ", NumberChars, 0) == Some(1);
  }

  // ---------------------------------------------------------------------
  // token_sequence

  /** `token_sequence`: a queue of tokens, front first. */
  datatype TokenQueue = TokenQueue(tokens: seq<string>)

  /** `empty()`. */
  predicate Empty(q: TokenQueue)
  {
    q.tokens == []
  }

  /** `cur()`: the front token; calling it on an empty queue is undefined in C++. */
  function Cur(q: TokenQueue): string
    requires !Empty(q)
  {
    q.tokens[0]
  }

  /** `append(l)`: the tokens of `l` go to the back, in order. */
  function Append(q: TokenQueue, l: seq<string>): (r: TokenQueue)
    ensures |r.tokens| == |q.tokens| + |l|
    ensures r.tokens[..|q.tokens|] == q.tokens && r.tokens[|q.tokens|..] == l
  {
    TokenQueue(q.tokens + l)
  }

  /**
   * `next()`: drop the front token if there is one, and answer whether any
   * token is left.
   */
  function Next(q: TokenQueue): (r: (TokenQueue, bool))
    ensures Empty(q) ==> Empty(r.0)
    ensures !Empty(q) ==> [Cur(q)] + r.0.tokens == q.tokens
    ensures r.1 <==> |q.tokens| >= 2
  {
    var t := if Empty(q) then q else TokenQueue(q.tokens[1..]);
    (t, !Empty(t))
  }

  /** `isNext(t)`: there are at least two tokens and the second is `t`. */
  predicate IsNext(q: TokenQueue, t: string)
  {
    if |q.tokens| <= 1 then false else t == q.tokens[1]
  }

  /** `isNext(t)` looks one token ahead without consuming: it holds exactly when `next()` succeeds and then `cur()` is `t`. */
  lemma IsNextIsNextThenCur(q: TokenQueue, t: string)
    ensures IsNext(q, t) <==> Next(q).1 && Cur(Next(q).0) == t
  {
  }

  /** `next()` called `n` times. */
  function NextN(q: TokenQueue, n: nat): TokenQueue
    decreases n
  {
    if n == 0 then q else NextN(Next(q).0, n - 1)
  }

  /** `n` calls of `next()` drop the first `n` tokens, or all of them when there are fewer. */
  lemma {:induction false} NextNDrops(q: TokenQueue, n: nat)
    ensures NextN(q, n).tokens == q.tokens[(if n <= |q.tokens| then n else |q.tokens|)..]
    decreases n
  {
    if n > 0 {
      NextNDrops(Next(q).0, n - 1);
      if q.tokens != [] {
        assert q.tokens[1..][(if n - 1 <= |q.tokens| - 1 then n - 1 else |q.tokens| - 1)..]
            == q.tokens[(if n <= |q.tokens| then n else |q.tokens|)..];
      }
    }
  }

  // ---------------------------------------------------------------------
  // func_def::operator<

  /** A function signature as the C++ evaluator keeps it; the body plays no part in the ordering. */
  datatype FuncDef = FuncDef(args: nat, name: string, body: TokenQueue)

  /** `std::string`'s `<`: lexicographic on characters, a proper prefix first. */
  function StrLess(a: string, b: string): bool
    decreases |a|
  {
    if a == [] then b != []
    else if b == [] then false
    else if a[0] != b[0] then a[0] < b[0]
    else StrLess(a[1..], b[1..])
  }

  /** `func_def::operator<`: by name, then by number of arguments. */
  predicate SigLess(f: FuncDef, g: FuncDef)
  {
    StrLess(f.name, g.name) || (f.name == g.name && f.args < g.args)
  }

  lemma {:induction false} StrLessIrreflexive(a: string)
    ensures !StrLess(a, a)
    decreases |a|
  {
    if a != [] {
      StrLessIrreflexive(a[1..]);
    }
  }

  lemma {:induction false} StrLessTransitive(a: string, b: string, c: string)
    requires StrLess(a, b) && StrLess(b, c)
    ensures StrLess(a, c)
    decreases |a|
  {
    if a != [] && a[0] == b[0] && b[0] == c[0] {
      StrLessTransitive(a[1..], b[1..], c[1..]);
    }
  }

  /** Of two different strings exactly one is the smaller. */
  lemma {:induction false} StrLessTotal(a: string, b: string)
    ensures a != b <==> StrLess(a, b) || StrLess(b, a)
    ensures !(StrLess(a, b) && StrLess(b, a))
    decreases |a|
  {
    if a != [] && b != [] && a[0] == b[0] {
      StrLessTotal(a[1..], b[1..]);
      assert a == [a[0]] + a[1..] && b == [b[0]] + b[1..];
    }
    if a == b {
      StrLessIrreflexive(a);
    }
  }

  /** `operator<` is a strict order: irreflexive and transitive. */
  lemma SigLessStrictOrder(f: FuncDef, g: FuncDef, h: FuncDef)
    ensures !SigLess(f, f)
    ensures SigLess(f, g) && SigLess(g, h) ==> SigLess(f, h)
  {
    StrLessIrreflexive(f.name);
    if SigLess(f, g) && SigLess(g, h) {
      if StrLess(f.name, g.name) && StrLess(g.name, h.name) {
        StrLessTransitive(f.name, g.name, h.name);
      }
    }
  }

  /**
   * Two signatures are the same set entry, neither below the other, exactly
   * when they have the same name and the same number of arguments: a name
   * defined with a different arity is a different entry.
   */
  lemma SigEquivalent(f: FuncDef, g: FuncDef)
    ensures !SigLess(f, g) && !SigLess(g, f) <==> f.name == g.name && f.args == g.args
  {
    StrLessTotal(f.name, g.name);
  }
}
