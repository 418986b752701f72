/**
 * The tokenizer shared by both interpreters: `getTokens` in the C++ one and
 * the character loop of `Compiler.tokenize` in the Python one. A line is cut
 * at whitespace, and each of `= [ ] ?` is a one-character token of its own
 * even when it touches other text. The Python tokenizer then turns every
 * all-digit word into an integer token.
 */
module Lexer {

  /**
   * A Python 2 token: an `int` literal, a `long` literal (an all-digit word
   * whose value exceeds `sys.maxint`, which `int()` returns as a `long`) or
   * any other word.
   */
  datatype Token = Num(n: nat) | Long(n: nat) | Ident(s: string)

  /** `sys.maxint` of a 64-bit Python 2 build: the largest value `int()` returns as an `int`. */
  const MaxInt: nat := 0x7FFF_FFFF_FFFF_FFFF

  /** The characters `isspace` accepts in the C locale. */
  predicate IsSpace(c: char)
  {
    c == ' ' || c == '\t' || c == '\n' || c == '\r' || c == '\U{0B}' || c == '\U{0C}'
  }

  /** The four punctuation characters that always form a token alone. */
  predicate IsSpecial(c: char)
  {
    c == '=' || c == '[' || c == ']' || c == '?'
  }

  /** A character that extends the current word. */
  predicate IsPlain(c: char)
  {
    !IsSpace(c) && !IsSpecial(c)
  }

  predicate IsDigit(c: char)
  {
    '0' <= c <= '9'
  }

  /** Python's `str.isdigit` on a byte string: non-empty and all decimal digits. */
  predicate AllDigits(w: string)
  {
    |w| > 0 && forall k :: 0 <= k < |w| ==> IsDigit(w[k])
  }

  /** The shape of every token: one special character, or a non-empty run of plain ones. */
  predicate WellFormedWord(w: string)
  {
    |w| > 0 && ((|w| == 1 && IsSpecial(w[0])) || forall k :: 0 <= k < |w| ==> IsPlain(w[k]))
  }

  /** The input with every whitespace character removed. */
  function Strip(s: string): string
  {
    if s == [] then []
    else if IsSpace(s[0]) then Strip(s[1..])
    else [s[0]] + Strip(s[1..])
  }

  function Concat(ws: seq<string>): string
  {
    if ws == [] then [] else ws[0] + Concat(ws[1..])
  }

  /** Words joined by single blanks: the inverse of splitting. */
  function JoinBlank(ws: seq<string>): string
  {
    if ws == [] then []
    else if |ws| == 1 then ws[0]
    else ws[0] + " " + JoinBlank(ws[1..])
  }

  // ---------------------------------------------------------------------
  // The character loop of `tokenize` (kang-3code.py:39-46): a list of
  // finished tokens and the word being built.

  /** Appends the pending word, if any (`if token: tokens.append(token)`). */
  function Flush(word: string): seq<string>
  {
    if word == [] then [] else [word]
  }

  /** One pass of the character loop from position `i` on. */
  function ScanChars(code: string, i: nat, toks: seq<string>, word: string): seq<string>
    requires i <= |code|
    decreases |code| - i
  {
    if i == |code| then toks + Flush(word)
    else
      var c := code[i];
      if IsSpace(c) then ScanChars(code, i + 1, toks + Flush(word), [])
      else if IsSpecial(c) then ScanChars(code, i + 1, toks + Flush(word) + [[c]], [])
      else ScanChars(code, i + 1, toks, word + [c])
  }

  // ---------------------------------------------------------------------
  // An independent reference: cut off one maximal token at a time.

  /** Length of the longest prefix of plain characters. */
  function PlainRun(s: string): (n: nat)
    ensures n <= |s|
    ensures forall k :: 0 <= k < n ==> IsPlain(s[k])
    ensures n < |s| ==> !IsPlain(s[n])
  {
    if s == [] || !IsPlain(s[0]) then 0 else 1 + PlainRun(s[1..])
  }

  /** The tokens of `s`, each one cut off as a maximal run from the front. */
  function Words(s: string): seq<string>
    decreases |s|
  {
    if s == [] then []
    else if IsSpace(s[0]) then Words(s[1..])
    else if IsSpecial(s[0]) then [[s[0]]] + Words(s[1..])
    else
      var n := PlainRun(s);
      [s[..n]] + Words(s[n..])
  }

  /** What remains of the loop when `word` (plain characters) is still open before `s`. */
  function Continue(word: string, s: string): seq<string>
  {
    if word == [] then Words(s)
    else
      var n := PlainRun(s);
      [word + s[..n]] + Words(s[n..])
  }

  /** A blank or special character closes the open word. */
  lemma {:induction false} ContinueClose(word: string, s: string)
    requires s == [] || !IsPlain(s[0])
    ensures Continue(word, s) == Flush(word) + Words(s)
  {
    if word != [] {
      assert PlainRun(s) == 0;
      assert s[..0] == [] && s[0..] == s && word + [] == word;
    }
  }

  /** A plain character extends the open word. */
  lemma {:induction false} ContinueExtend(word: string, s: string)
    requires s != [] && IsPlain(s[0])
    ensures Continue(word, s) == Continue(word + [s[0]], s[1..])
  {
    var n := PlainRun(s);
    assert n == 1 + PlainRun(s[1..]);
    assert s[..n] == [s[0]] + s[1..][..n - 1];
    assert s[n..] == s[1..][n - 1..];
    if word != [] {
      assert word + s[..n] == (word + [s[0]]) + s[1..][..n - 1];
    } else {
      assert Words(s) == [s[..n]] + Words(s[n..]);
      assert word + [s[0]] == [s[0]];
      assert Continue([s[0]], s[1..]) == [[s[0]] + s[1..][..n - 1]] + Words(s[1..][n - 1..]);
    }
  }

  /** The character loop produces the words of the rest of the line, the open word first. */
  lemma {:induction false} ScanIsWords(code: string, i: nat, toks: seq<string>, word: string)
    requires i <= |code|
    requires forall k :: 0 <= k < |word| ==> IsPlain(word[k])
    ensures ScanChars(code, i, toks, word) == toks + Continue(word, code[i..])
    decreases |code| - i
  {
    if i == |code| {
      assert code[i..] == [];
      ContinueClose(word, code[i..]);
    } else if IsSpace(code[i]) {
      ScanIsWords(code, i + 1, toks + Flush(word), []);
      ScanSpace(code, i, toks, word);
    } else if IsSpecial(code[i]) {
      ScanIsWords(code, i + 1, toks + Flush(word) + [[code[i]]], []);
      ScanSpecial(code, i, toks, word);
    } else {
      assert forall k :: 0 <= k < |word + [code[i]]| ==> IsPlain((word + [code[i]])[k]);
      ScanIsWords(code, i + 1, toks, word + [code[i]]);
      assert code[i..][0] == code[i] && code[i..][1..] == code[i + 1..];
      ContinueExtend(word, code[i..]);
    }
  }

  /** A blank closes the open word and is dropped. */
  lemma {:induction false} ScanSpace(code: string, i: nat, toks: seq<string>, word: string)
    requires i < |code| && IsSpace(code[i])
    requires ScanChars(code, i + 1, toks + Flush(word), []) == toks + Flush(word) + Continue([], code[i + 1..])
    ensures ScanChars(code, i, toks, word) == toks + Continue(word, code[i..])
  {
    var s := code[i..];
    var rest := Words(code[i + 1..]);
    assert ScanChars(code, i, toks, word) == toks + Flush(word) + rest;
    assert Continue(word, s) == Flush(word) + rest by {
      assert s[0] == code[i] && s[1..] == code[i + 1..];
      ContinueClose(word, s);
    }
    assert toks + Flush(word) + rest == toks + (Flush(word) + rest);
  }

  /** A special character closes the open word and is a token of its own. */
  lemma {:induction false} ScanSpecial(code: string, i: nat, toks: seq<string>, word: string)
    requires i < |code| && IsSpecial(code[i])
    requires ScanChars(code, i + 1, toks + Flush(word) + [[code[i]]], [])
             == toks + Flush(word) + [[code[i]]] + Continue([], code[i + 1..])
    ensures ScanChars(code, i, toks, word) == toks + Continue(word, code[i..])
  {
    var s := code[i..];
    var rest := Words(s[1..]);
    assert s[0] == code[i] && s[1..] == code[i + 1..];
    ContinueClose(word, s);
    assert Words(s) == [[code[i]]] + rest;
    assert toks + Flush(word) + [[code[i]]] + rest == toks + (Flush(word) + ([[code[i]]] + rest));
  }

  /**
   * `getTokens(src)` / the word list of `tokenize(code)`. It is the same
   * list the maximal-run reference cuts out.
   */
  function Split(code: string): (r: seq<string>)
    ensures r == Words(code)
  {
    ScanIsWords(code, 0, [], []);
    assert code[0..] == code;
    ScanChars(code, 0, [], [])
  }

  lemma {:induction false} WordsShape(s: string)
    ensures forall w :: w in Words(s) ==> WellFormedWord(w)
    ensures Concat(Words(s)) == Strip(s)
    decreases |s|
  {
    if s == [] {
    } else if IsSpace(s[0]) {
      WordsShape(s[1..]);
    } else if IsSpecial(s[0]) {
      WordsShape(s[1..]);
    } else {
      var n := PlainRun(s);
      WordsShape(s[n..]);
      StripPlain(s, n);
      assert s == s[..n] + s[n..];
    }
  }

  lemma {:induction false} StripPlain(s: string, n: nat)
    requires n <= |s|
    requires forall k :: 0 <= k < n ==> IsPlain(s[k])
    ensures Strip(s) == s[..n] + Strip(s[n..])
    decreases n
  {
    if n > 0 {
      StripPlain(s[1..], n - 1);
      assert s[1..][n - 1..] == s[n..];
      assert s[..n] == [s[0]] + s[1..][..n - 1];
    }
  }

  /**
   * The tokenizer's promises: no token is empty or holds whitespace, a token
   * containing one of `= [ ] ?` is that character alone, and gluing the tokens
   * back together gives the line without its whitespace.
   */
  lemma {:induction false} SplitShape(code: string)
    ensures forall w :: w in Split(code) ==> WellFormedWord(w)
    ensures forall w, k :: w in Split(code) && 0 <= k < |w| && IsSpecial(w[k]) ==> w == [w[k]]
    ensures forall w, k :: w in Split(code) && 0 <= k < |w| ==> !IsSpace(w[k])
    ensures Concat(Split(code)) == Strip(code)
  {
    WordsShape(code);
  }

  lemma {:induction false} PlainRunOfWord(w: string, rest: string)
    requires forall k :: 0 <= k < |w| ==> IsPlain(w[k])
    requires rest == [] || !IsPlain(rest[0])
    ensures PlainRun(w + rest) == |w|
    decreases |w|
  {
    if w != [] {
      assert (w + rest)[1..] == w[1..] + rest;
      PlainRunOfWord(w[1..], rest);
    }
  }

  /** Splitting well-formed words joined by blanks gives the words back. */
  lemma {:induction false} SplitJoin(ws: seq<string>)
    requires forall k :: 0 <= k < |ws| ==> WellFormedWord(ws[k])
    ensures Split(JoinBlank(ws)) == ws
    decreases |ws|
  {
    if ws == [] {
    } else {
      var w := ws[0];
      var rest := if |ws| == 1 then [] else " " + JoinBlank(ws[1..]);
      assert JoinBlank(ws) == w + rest;
      if |ws| > 1 {
        SplitJoin(ws[1..]);
        assert Words(rest) == Words(JoinBlank(ws[1..])) by {
          assert rest[0] == ' ' && rest[1..] == JoinBlank(ws[1..]);
        }
      }
      assert Words(rest) == ws[1..];
      var s := w + rest;
      if |w| == 1 && IsSpecial(w[0]) {
        assert s[0] == w[0] && s[1..] == rest;
        assert w == [w[0]];
      } else {
        PlainRunOfWord(w, rest);
        assert s[..|w|] == w && s[|w|..] == rest;
      }
    }
  }

  /** The value of a run of decimal digits, as Python's `int()` reads it. */
  function DecimalValue(w: string): nat
    decreases |w|
  {
    if w == [] then 0
    else 10 * DecimalValue(w[..|w| - 1]) + ((w[|w| - 1] as int - '0' as int) % 10)
  }

  /**
   * `(token.isdigit() and int or str)(token)`: `int()` of an all-digit word
   * is an `int` up to `sys.maxint` and a `long` above it.
   */
  function Classify(w: string): (t: Token)
    ensures t.Ident? <==> !AllDigits(w)
    ensures t.Num? <==> AllDigits(w) && DecimalValue(w) <= MaxInt
    ensures t.Long? <==> AllDigits(w) && DecimalValue(w) > MaxInt
    ensures !t.Ident? ==> t.n == DecimalValue(w)
    ensures t.Ident? ==> t.s == w
  {
    if !AllDigits(w) then Ident(w)
    else if DecimalValue(w) <= MaxInt then Num(DecimalValue(w))
    else Long(DecimalValue(w))
  }

  /**
   * `Compiler.tokenize`: the words of the line, all-digit ones read as
   * integers, `int` or `long` by their value.
   */
  function Tokenize(code: string): (r: seq<Token>)
    ensures |r| == |Split(code)|
    ensures forall k :: 0 <= k < |r| ==> (r[k].Ident? <==> !AllDigits(Split(code)[k]))
    ensures forall k :: 0 <= k < |r| && r[k].Ident? ==> r[k].s == Split(code)[k] && WellFormedWord(r[k].s)
    ensures forall k :: 0 <= k < |r| && !r[k].Ident? ==> r[k].n == DecimalValue(Split(code)[k])
    ensures forall k :: 0 <= k < |r| ==> (r[k].Num? <==> !r[k].Ident? && r[k].n <= MaxInt)
  {
    var ws := Split(code);
    SplitShape(code);
    seq(|ws|, k requires 0 <= k < |ws| => Classify(ws[k]))
  }

  /**
   * A line holding one all-digit word: one token, an `int` when its value is
   * at most `sys.maxint` and a `long` above it.
   */
  lemma {:induction false} DigitWord(w: string)
    requires AllDigits(w)
    ensures DecimalValue(w) <= MaxInt ==> Tokenize(w) == [Num(DecimalValue(w))]
    ensures DecimalValue(w) > MaxInt ==> Tokenize(w) == [Long(DecimalValue(w))]
  {
    assert WellFormedWord(w) by {
      forall k | 0 <= k < |w|
        ensures IsPlain(w[k])
      {
        assert IsDigit(w[k]);
      }
    }
    SplitJoin([w]);
    assert JoinBlank([w]) == w;
  }
}
