/**
 * The eager lexer of src/tokens.rs and the token deque it fills.
 *
 * The whole input line is lexed up front into a sequence of tokens; the
 * parser then consumes that sequence from the front (`GetToken`) and may push
 * a token back onto the front (`PutBack`).
 *
 * Two abstractions:
 *  - Rust's `char::is_numeric` is restricted to the ASCII digits '0'..'9';
 *  - Rust's `str::parse::<f64>` is a parameter `parse` of the lexer, an
 *    uninterpreted partial function from a lexeme to a real number.
 */
module Tokens {
  import opened Wrappers
  import opened Seqs

  datatype TokenKind =
    | Plus
    | Minus
    | Times
    | Divide
    | OpenParenthesis
    | CloseParenthesis
    | Number

  /** A token; operators and parentheses carry the value 0.0. */
  datatype Token = Token(kind: TokenKind, value: real)

  /** The number parser the lexer relies on (a stand-in for `str::parse::<f64>`). */
  type NumberParser = string -> Option<real>

  /** `char::is_numeric`, restricted to ASCII digits. */
  predicate IsNumeric(c: char)
  {
    '0' <= c <= '9'
  }

  /** The token kind of a one-character token, if `c` is one. */
  function OperatorKind(c: char): (k: Option<TokenKind>)
    ensures k.Some? <==> c in "+-*/()"
    ensures k.Some? ==> k.value != Number
  {
    match c
    case '+' => Some(Plus)
    case '-' => Some(Minus)
    case '*' => Some(Times)
    case '/' => Some(Divide)
    case '(' => Some(OpenParenthesis)
    case ')' => Some(CloseParenthesis)
    case _ => None
  }

  /**
   * Whether the character at `k` extends a numeric run: a digit, '.', 'e',
   * or '-' directly after an 'e'.
   */
  predicate ContinuesNumber(input: string, k: nat)
    requires k < |input|
  {
    IsNumeric(input[k]) || input[k] == '.' || input[k] == 'e'
    || (input[k] == '-' && k > 0 && input[k - 1] == 'e')
  }

  /** One past the end of the maximal numeric run that starts at `k`. */
  function RunEnd(input: string, k: nat): (e: nat)
    requires k <= |input|
    ensures k <= e <= |input|
    ensures forall j :: k <= j < e ==> ContinuesNumber(input, j)
    ensures e == |input| || !ContinuesNumber(input, e)
    decreases |input| - k
  {
    if k < |input| && ContinuesNumber(input, k) then RunEnd(input, k + 1) else k
  }

  /**
   * The tokens lexed from position `i` on: what the loop of `parse_tokens`
   * appends from the moment its index is `i`.
   */
  function Lex(input: string, parse: NumberParser, i: nat): seq<Token>
    requires i <= |input|
    decreases |input| - i
  {
    if i == |input| then []
    else
      var c := input[i];
      if OperatorKind(c).Some? then
        [Token(OperatorKind(c).value, 0.0)] + Lex(input, parse, i + 1)
      else if IsNumeric(c) then
        var e := RunEnd(input, i);
        match parse(input[i..e])
        case Some(v) => [Token(Number, v)] + Lex(input, parse, e)
        case None => []
      else
        Lex(input, parse, i + 1)
  }

  /**
   * `handle_numeric_tokens`: scans the maximal numeric run starting at
   * `index` and parses it. Returns the index of the LAST character of the run
   * (the caller's `i += 1` then moves past it) and the parsed value.
   */
  method HandleNumericTokens(input: string, index: nat, parse: NumberParser)
    returns (lastIndex: nat, number: Option<real>)
    requires index < |input| && IsNumeric(input[index])
    ensures index <= lastIndex < |input|
    ensures forall j :: index <= j <= lastIndex ==> ContinuesNumber(input, j)
    ensures lastIndex + 1 == |input| || !ContinuesNumber(input, lastIndex + 1)
    ensures number == parse(input[index..lastIndex + 1])
  {
    ghost var e := RunEnd(input, index);
    var numberStr: string := [];
    var k := index;
    while k < |input|
      invariant index <= k <= e
      invariant numberStr == input[index..k]
      invariant RunEnd(input, k) == e
      decreases |input| - k
    {
      var chr := input[k];
      if IsNumeric(chr) || chr == '.' || chr == 'e' {
        numberStr := numberStr + [chr];
        k := k + 1;
      } else if chr == '-' && input[k - 1] == 'e' {
        // the previous character must be an 'e'
        numberStr := numberStr + [chr];
        k := k + 1;
      } else {
        break;
      }
    }
    assert k == e;
    lastIndex := k - 1;
    number := parse(numberStr);
  }

  /**
   * `parse_tokens`: walks the input once, skipping spaces and unknown
   * characters, emitting one-character tokens and numbers, and stopping at
   * the first number that does not parse.
   */
  method ParseTokens(input: string, parse: NumberParser) returns (tokens: seq<Token>)
    ensures tokens == Lex(input, parse, 0)
  {
    tokens := [];
    var i := 0;
    while i < |input|
      invariant 0 <= i <= |input|
      invariant tokens + Lex(input, parse, i) == Lex(input, parse, 0)
      decreases |input| - i
    {
      var c := input[i];
      if c == ' ' {
      } else if c == '+' {
        LexOperator(input, parse, i, tokens);
        tokens := tokens + [Token(Plus, 0.0)];
      } else if c == '-' {
        LexOperator(input, parse, i, tokens);
        tokens := tokens + [Token(Minus, 0.0)];
      } else if c == '*' {
        LexOperator(input, parse, i, tokens);
        tokens := tokens + [Token(Times, 0.0)];
      } else if c == '/' {
        LexOperator(input, parse, i, tokens);
        tokens := tokens + [Token(Divide, 0.0)];
      } else if c == '(' {
        LexOperator(input, parse, i, tokens);
        tokens := tokens + [Token(OpenParenthesis, 0.0)];
      } else if c == ')' {
        LexOperator(input, parse, i, tokens);
        tokens := tokens + [Token(CloseParenthesis, 0.0)];
      } else if IsNumeric(c) {
        var newIndex, number := HandleNumericTokens(input, i, parse);
        match number {
          case Some(d) =>
            LexNumber(input, parse, i, newIndex, d, tokens);
            i := newIndex;
            tokens := tokens + [Token(Number, d)];
          case None =>
            break;
        }
      }
      i := i + 1;
    }
  }

  /** The step of `ParseTokens` at an operator character. */
  lemma LexOperator(input: string, parse: NumberParser, i: nat, acc: seq<Token>)
    requires i < |input| && OperatorKind(input[i]).Some?
    requires acc + Lex(input, parse, i) == Lex(input, parse, 0)
    ensures (acc + [Token(OperatorKind(input[i]).value, 0.0)]) + Lex(input, parse, i + 1) == Lex(input, parse, 0)
  {
    var t := Token(OperatorKind(input[i]).value, 0.0);
    Emit(acc, [t], Lex(input, parse, i), Lex(input, parse, i + 1), Lex(input, parse, 0));
  }

  /** The step of `ParseTokens` at a numeral that parses, running from `i` to `last`. */
  lemma LexNumber(input: string, parse: NumberParser, i: nat, last: nat, d: real, acc: seq<Token>)
    requires i <= last < |input| && IsNumeric(input[i])
    requires forall j :: i <= j <= last ==> ContinuesNumber(input, j)
    requires last + 1 == |input| || !ContinuesNumber(input, last + 1)
    requires parse(input[i..last + 1]) == Some(d)
    requires acc + Lex(input, parse, i) == Lex(input, parse, 0)
    ensures (acc + [Token(Number, d)]) + Lex(input, parse, last + 1) == Lex(input, parse, 0)
  {
    RunEndAt(input, i, last + 1);
    assert OperatorKind(input[i]).None?;
    Emit(acc, [Token(Number, d)], Lex(input, parse, i), Lex(input, parse, last + 1), Lex(input, parse, 0));
  }

  /** The character that lexes to the one-character token of kind `k`. */
  function OperatorChar(k: TokenKind): (c: char)
    requires k != Number
    ensures OperatorKind(c) == Some(k)
  {
    match k
    case Plus => '+'
    case Minus => '-'
    case Times => '*'
    case Divide => '/'
    case OpenParenthesis => '('
    case CloseParenthesis => ')'
  }

  /** Each step of the lexer consumes at least one character and emits at most one token. */
  lemma {:induction false} LexLength(input: string, parse: NumberParser, i: nat)
    requires i <= |input|
    ensures |Lex(input, parse, i)| <= |input| - i
    decreases |input| - i
  {
    if i < |input| {
      var c := input[i];
      if OperatorKind(c).Some? {
        LexLength(input, parse, i + 1);
      } else if IsNumeric(c) {
        var e := RunEnd(input, i);
        if parse(input[i..e]).Some? {
          LexLength(input, parse, e);
        }
      } else {
        LexLength(input, parse, i + 1);
      }
    }
  }

  /** Only `Number` tokens carry a value; every other token carries 0.0. */
  lemma {:induction false} LexOperatorsCarryZero(input: string, parse: NumberParser, i: nat)
    requires i <= |input|
    ensures forall t :: t in Lex(input, parse, i) && t.kind != Number ==> t.value == 0.0
    decreases |input| - i
  {
    if i < |input| {
      var c := input[i];
      if OperatorKind(c).Some? {
        LexOperatorsCarryZero(input, parse, i + 1);
      } else if IsNumeric(c) {
        var e := RunEnd(input, i);
        if parse(input[i..e]).Some? {
          LexOperatorsCarryZero(input, parse, e);
        }
      } else {
        LexOperatorsCarryZero(input, parse, i + 1);
      }
    }
  }

  /**
   * A character the lexer skips when it meets it outside a number: a space
   * or any unrecognised character (including a `.` or an `e` that does not
   * follow a digit run).
   */
  predicate Ignored(c: char)
  {
    OperatorKind(c).None? && !IsNumeric(c)
  }

  /** A skipped character that also cannot extend a number standing before it. */
  predicate Skippable(c: char)
  {
    Ignored(c) && c != '.' && c != 'e'
  }

  /** A well-formed numeric lexeme: starts with a digit and is one maximal-run candidate. */
  predicate NumberText(text: string)
  {
    |text| > 0 && IsNumeric(text[0])
    && forall j :: 0 <= j < |text| ==> ContinuesNumber(text, j)
  }

  /**
   * A token as it is spelled in the input: its text, then a gap (possibly
   * empty) of skipped characters.
   */
  datatype Spelled = Spelled(token: Token, text: string, gap: string)

  /** The text spells the token, and the gap holds only skipped characters. */
  predicate WellSpelled(s: Spelled, parse: NumberParser)
  {
    (forall j :: 0 <= j < |s.gap| ==> Skippable(s.gap[j]))
    && if s.token.kind == Number then
         NumberText(s.text) && parse(s.text) == Some(s.token.value)
       else
         s.text == [OperatorChar(s.token.kind)] && s.token.value == 0.0
  }

  /**
   * A number written with no gap is not extended by the token after it: that
   * token is an operator or a parenthesis, and not a `-` after a trailing `e`.
   * So "1+2" and "(2)" need no spaces, but "1 2" and "1e -2" do.
   */
  predicate Separated(s: Spelled, next: Spelled)
  {
    s.token.kind == Number && s.gap == [] ==>
      next.token.kind != Number
      && (next.token.kind == Minus ==> !(|s.text| > 0 && s.text[|s.text| - 1] == 'e'))
  }

  /** Every element is well spelled and separated from the one after it. */
  predicate AllWellSpelled(ss: seq<Spelled>, parse: NumberParser)
    decreases |ss|
  {
    ss == []
    || (WellSpelled(ss[0], parse)
        && (|ss| > 1 ==> Separated(ss[0], ss[1]))
        && AllWellSpelled(ss[1..], parse))
  }

  function Spell(ss: seq<Spelled>): string
  {
    if ss == [] then [] else ss[0].text + ss[0].gap + Spell(ss[1..])
  }

  function TokensOf(ss: seq<Spelled>): seq<Token>
  {
    if ss == [] then [] else [ss[0].token] + TokensOf(ss[1..])
  }

  /** A run of ignored characters produces no token. */
  lemma {:induction false} LexSkipsGap(input: string, parse: NumberParser, i: nat, n: nat)
    requires i + n <= |input|
    requires forall j :: i <= j < i + n ==> Ignored(input[j])
    ensures Lex(input, parse, i) == Lex(input, parse, i + n)
    decreases n
  {
    if n > 0 {
      LexSkipsGap(input, parse, i + 1, n - 1);
    }
  }

  /** The numeric run ends exactly where the conditions of a maximal run say it does. */
  lemma {:induction false} RunEndAt(input: string, k: nat, e: nat)
    requires k <= e <= |input|
    requires forall j :: k <= j < e ==> ContinuesNumber(input, j)
    requires e == |input| || !ContinuesNumber(input, e)
    ensures RunEnd(input, k) == e
    decreases e - k
  {
    if k < e {
      RunEndAt(input, k + 1, e);
    }
  }

  /**
   * A numeral standing in the input between `i` and `m`, followed by the end
   * of the input or a character that does not extend it, lexes to one number
   * token.
   */
  lemma LexNumberAt(input: string, parse: NumberParser, i: nat, m: nat, text: string, v: real)
    requires i + |text| == m <= |input| && input[i..m] == text
    requires NumberText(text) && parse(text) == Some(v)
    requires m == |input| || !ContinuesNumber(input, m)
    ensures Lex(input, parse, i) == [Token(Number, v)] + Lex(input, parse, m)
  {
    forall j | i <= j < m
      ensures ContinuesNumber(input, j)
    {
      assert input[j] == text[j - i];
      assert ContinuesNumber(text, j - i);
      if j > i {
        assert input[j - 1] == text[j - i - 1];
      }
    }
    RunEndAt(input, i, m);
    assert input[i] == text[0];
  }

  /**
   * One correctly spelled token, followed by its gap, standing in the input
   * between `i` and `k`, lexes to that token alone; a number without a gap
   * must be followed by the end of the input or a character that does not
   * extend it.
   */
  lemma LexSpelledToken(input: string, parse: NumberParser, i: nat, k: nat, s: Spelled)
    requires WellSpelled(s, parse)
    requires k == i + |s.text| + |s.gap| && k <= |input| && input[i..k] == s.text + s.gap
    requires s.token.kind == Number && s.gap == [] && k < |input| ==> !ContinuesNumber(input, k)
    ensures Lex(input, parse, i) == [s.token] + Lex(input, parse, k)
  {
    var m := i + |s.text|;
    assert Lex(input, parse, m) == Lex(input, parse, k) by {
      forall j | m <= j < k
        ensures Skippable(input[j])
      {
        assert input[j] == (s.text + s.gap)[j - i] == s.gap[j - m];
      }
      LexSkipsGap(input, parse, m, |s.gap|);
    }
    assert Lex(input, parse, i) == [s.token] + Lex(input, parse, m) by {
      if s.token.kind == Number {
        assert input[i..m] == s.text by {
          assert input[i..m] == (s.text + s.gap)[..|s.text|];
        }
        if |s.gap| > 0 {
          assert input[m] == s.gap[0];
        }
        LexNumberAt(input, parse, i, m, s.text, s.token.value);
      } else {
        assert input[i] == OperatorChar(s.token.kind);
      }
    }
  }

  /**
   * The first element of a correctly spelled sequence standing in the input
   * between `i` and `k` lexes to its token, and the rest of the sequence
   * stands between the end `j` of that element and `k`.
   */
  lemma LexSpellHead(input: string, i: nat, j: nat, k: nat, ss: seq<Spelled>, parse: NumberParser)
    requires ss != [] && AllWellSpelled(ss, parse)
    requires j == i + |ss[0].text| + |ss[0].gap| && k == i + |Spell(ss)|
    requires k <= |input| && input[i..k] == Spell(ss)
    requires k == |input| || Skippable(input[k])
    ensures j + |Spell(ss[1..])| == k && input[j..k] == Spell(ss[1..])
    ensures Lex(input, parse, i) == [ss[0].token] + Lex(input, parse, j)
  {
    var s, rest := ss[0], ss[1..];
    assert Spell(ss) == (s.text + s.gap) + Spell(rest);
    assert input[i..j] == s.text + s.gap by {
      assert input[i..j] == Spell(ss)[..j - i];
    }
    assert input[j..k] == Spell(rest) by {
      assert input[j..k] == Spell(ss)[j - i..];
    }
    if s.token.kind == Number && s.gap == [] && j < |input| {
      if |ss| == 1 {
        assert rest == [] && j == k;
      } else {
        assert Spell(rest) == (rest[0].text + rest[0].gap) + Spell(rest[1..]);
        assert input[j] == rest[0].text[0] && input[j - 1] == s.text[|s.text| - 1] by {
          assert input[j] == input[j..k][0];
          assert input[j - 1] == input[i..j][j - 1 - i];
        }
        SeparatedStops(input, j, s, rest[0], parse);
      }
    }
    LexSpelledToken(input, parse, i, j, s);
  }

  /** A number written with no gap ends where the next token's character stands. */
  lemma SeparatedStops(input: string, j: nat, s: Spelled, next: Spelled, parse: NumberParser)
    requires 0 < j < |input| && |s.text| > 0 && |next.text| > 0
    requires input[j] == next.text[0] && input[j - 1] == s.text[|s.text| - 1]
    requires WellSpelled(next, parse) && Separated(s, next)
    requires s.token.kind == Number && s.gap == []
    ensures !ContinuesNumber(input, j)
  {
    var c := OperatorChar(next.token.kind);
    assert input[j] == c;
    assert OperatorKind(c) == Some(next.token.kind);
  }

  /**
   * Lexing a correctly spelled token sequence that stands in the input
   * between `i` and `k`, followed by the end of the input or a skipped
   * character, gives back its tokens and then goes on at `k`.
   */
  lemma {:induction false} LexSpellAt(input: string, i: nat, k: nat, ss: seq<Spelled>, parse: NumberParser)
    requires AllWellSpelled(ss, parse)
    requires k == i + |Spell(ss)| && k <= |input| && input[i..k] == Spell(ss)
    requires k == |input| || Skippable(input[k])
    ensures Lex(input, parse, i) == TokensOf(ss) + Lex(input, parse, k)
    decreases |ss|
  {
    if ss != [] {
      var j := i + |ss[0].text| + |ss[0].gap|;
      LexSpellHead(input, i, j, k, ss, parse);
      LexSpellAt(input, j, k, ss[1..], parse);
      assert TokensOf(ss) == [ss[0].token] + TokensOf(ss[1..]);
      ChainPrefix(Lex(input, parse, i), ss[0].token, Lex(input, parse, j), TokensOf(ss[1..]), Lex(input, parse, k));
    }
  }

  /** A correctly spelled token sequence lexes to exactly its tokens. */
  lemma LexSpell(ss: seq<Spelled>, parse: NumberParser)
    requires AllWellSpelled(ss, parse)
    ensures Lex(Spell(ss), parse, 0) == TokensOf(ss)
  {
    var input := Spell(ss);
    assert input[0..|input|] == input;
    LexSpellAt(input, 0, |input|, ss, parse);
    assert TokensOf(ss) + [] == TokensOf(ss);
  }

  /**
   * The numeric run of `pre + t` at a position inside `t` is the run of `t`
   * there, unless it would start with a '-' that looks back into `pre`.
   */
  lemma {:induction false} RunEndShift(pre: string, t: string, k: nat)
    requires k <= |t|
    requires k < |t| && k == 0 ==> t[0] != '-'
    ensures RunEnd(pre + t, |pre| + k) == |pre| + RunEnd(t, k)
    decreases |t| - k
  {
    var input := pre + t;
    if k < |t| {
      assert input[|pre| + k] == t[k];
      if k > 0 {
        assert input[|pre| + k - 1] == t[k - 1];
      }
      assert ContinuesNumber(input, |pre| + k) == ContinuesNumber(t, k);
      if ContinuesNumber(t, k) {
        RunEndShift(pre, t, k + 1);
      }
    }
  }

  /**
   * A number that fails to parse ends the lexing: the tokens spelled before
   * it are kept, and nothing after it is lexed.
   */
  lemma LexStopsAtBadNumber(ss: seq<Spelled>, bad: string, parse: NumberParser)
    requires AllWellSpelled(ss, parse)
    requires bad != [] && IsNumeric(bad[0]) && parse(bad[..RunEnd(bad, 0)]) == None
    ensures Lex(Spell(ss) + " " + bad, parse, 0) == TokensOf(ss)
  {
    var input := Spell(ss) + " " + bad;
    var n := |Spell(ss)|;
    assert Lex(input, parse, 0) == TokensOf(ss) + Lex(input, parse, n) by {
      assert input[0..n] == Spell(ss) && input[n] == ' ';
      LexSpellAt(input, 0, n, ss, parse);
    }
    assert Lex(input, parse, n) == Lex(input, parse, n + 1) by {
      assert input[n] == ' ';
      LexSkipsGap(input, parse, n, 1);
    }
    LexBadNumber(Spell(ss) + " ", bad, parse);
    ChainEnd(Lex(input, parse, 0), TokensOf(ss), Lex(input, parse, n), Lex(input, parse, n + 1));
  }

  /** Lexing stops for good at a numeral that does not parse, whatever precedes it. */
  lemma LexBadNumber(pre: string, bad: string, parse: NumberParser)
    requires bad != [] && IsNumeric(bad[0]) && parse(bad[..RunEnd(bad, 0)]) == None
    ensures Lex(pre + bad, parse, |pre|) == []
  {
    var input := pre + bad;
    assert input[|pre|] == bad[0];
    RunEndShift(pre, bad, 0);
    assert input[|pre|..RunEnd(input, |pre|)] == bad[..RunEnd(bad, 0)];
  }

  /**
   * `Tokenizer`: the deque of lexed tokens (the `verbose` flag only drives
   * console output and is not modelled).
   */
  class Tokenizer {
    var tokens: seq<Token>

    /** `Tokenizer::new`: lexes the whole input eagerly. */
    constructor (input: string, parse: NumberParser)
      ensures tokens == Lex(input, parse, 0)
    {
      var lexed := ParseTokens(input, parse);
      tokens := lexed;
    }

    /** `get_token`: pops the front token, or `None` when the deque is empty. */
    method GetToken() returns (t: Option<Token>)
      modifies this
      ensures old(tokens) == [] ==> t == None && tokens == []
      ensures old(tokens) != [] ==> t == Some(old(tokens)[0]) && tokens == old(tokens)[1..]
    {
      if tokens == [] {
        t := None;
      } else {
        t := Some(tokens[0]);
        tokens := tokens[1..];
      }
    }

    /** `put_back`: pushes a token onto the front of the deque. */
    method PutBack(t: Token)
      modifies this
      ensures tokens == [t] + old(tokens)
    {
      tokens := [t] + tokens;
    }
  }

  /** A put-back token is the next one read, and the rest of the deque is untouched. */
  method PutBackThenGet(ts: Tokenizer, t: Token) returns (got: Option<Token>)
    modifies ts
    ensures got == Some(t) && ts.tokens == old(ts.tokens)
  {
    ts.PutBack(t);
    got := ts.GetToken();
  }
}
