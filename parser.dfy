/**
 * The recursive-descent evaluator of src/parser.rs, after Stroustrup's
 * grammar:
 *
 *   Expression := Term { ("+" | "-") Term }
 *   Term       := Primary { ("*" | "/") Primary }
 *   Primary    := Number | "(" Expression ")"
 *
 * Values are folded as soon as they are read; no syntax tree is built. The
 * three methods consume a shared `Tokenizer`; each is proved against a pure
 * function over the token sequence that gives the value (or error) and the
 * tokens left in the deque afterwards.
 */
module Parser {
  import opened Wrappers
  import opened Tokens

  /**
   * f64 addition, subtraction, multiplication and division, as exact real
   * arithmetic. They are named functions so that the solver matches sums,
   * differences, products and quotients as plain terms.
   */
  function Sum(a: real, b: real): real
  {
    a + b
  }

  function Difference(a: real, b: real): real
  {
    a - b
  }

  function Product(a: real, b: real): real
  {
    a * b
  }

  function Quotient(a: real, b: real): real
    requires b != 0.0
  {
    a / b
  }

  /** What aborts an evaluation (the source prints a message and exits or returns). */
  datatype EvalError = DivisionByZero | PrimaryExpected

  /** The outcome of one grammar level: a value or an error, and the tokens still in the deque. */
  datatype Step = Step(result: Result<real, EvalError>, rest: seq<Token>)

  /** The lookahead token `t`, put back in front of the deque `rest`. */
  function Pending(t: Option<Token>, rest: seq<Token>): seq<Token>
  {
    if t.Some? then [t.value] + rest else rest
  }

  /** `expression`: a term, then the additive loop. */
  function ExpressionSpec(toks: seq<Token>): (s: Step)
    ensures |s.rest| <= |toks|
    ensures s.result.Ok? ==> |s.rest| < |toks|
    decreases |toks|, 2
  {
    var first := TermSpec(toks);
    if first.result.Err? then first else ExpressionLoop(first.result.value, first.rest)
  }

  /**
   * The loop of `expression` with running total `left`: the front of `toks`
   * is the lookahead. `+` adds the next term, `-` subtracts it; any other
   * token is put back and ends the loop, as does the end of the deque.
   */
  function ExpressionLoop(left: real, toks: seq<Token>): (s: Step)
    ensures |s.rest| <= |toks|
    decreases |toks|, 2
  {
    if toks == [] then Step(Ok(left), [])
    else if toks[0].kind == Plus || toks[0].kind == Minus then
      var right := TermSpec(toks[1..]);
      if right.result.Err? then right
      else if toks[0].kind == Plus then ExpressionLoop(Sum(left, right.result.value), right.rest)
      else ExpressionLoop(Difference(left, right.result.value), right.rest)
    else Step(Ok(left), toks)
  }

  /** `term`: a primary, then the multiplicative loop. */
  function TermSpec(toks: seq<Token>): (s: Step)
    ensures |s.rest| <= |toks|
    ensures s.result.Ok? ==> |s.rest| < |toks|
    decreases |toks|, 1
  {
    var first := PrimarySpec(toks);
    if first.result.Err? then first else TermLoop(first.result.value, first.rest)
  }

  /**
   * The loop of `term` with running product `left`: `*` multiplies by the
   * next primary, `/` divides by it once it is known not to be zero; any other
   * token is put back and ends the loop, as does the end of the deque.
   */
  function TermLoop(left: real, toks: seq<Token>): (s: Step)
    ensures |s.rest| <= |toks|
    decreases |toks|, 1
  {
    if toks == [] then Step(Ok(left), [])
    else if toks[0].kind == Times || toks[0].kind == Divide then
      var right := PrimarySpec(toks[1..]);
      if right.result.Err? then right
      else if toks[0].kind == Times then TermLoop(Product(left, right.result.value), right.rest)
      else if right.result.value == 0.0 then Step(Err(DivisionByZero), right.rest)
      else TermLoop(Quotient(left, right.result.value), right.rest)
    else Step(Ok(left), toks)
  }

  /**
   * `primary`: a number, or a parenthesised expression. The token after the
   * inner expression is taken whether or not it is `)`, and the inner value
   * is returned either way.
   */
  function PrimarySpec(toks: seq<Token>): (s: Step)
    ensures |s.rest| <= |toks|
    ensures toks != [] ==> |s.rest| < |toks|
    decreases |toks|, 0
  {
    if toks == [] then Step(Err(PrimaryExpected), [])
    else if toks[0].kind == OpenParenthesis then
      var inner := ExpressionSpec(toks[1..]);
      if inner.result.Err? || inner.rest == [] then inner
      else Step(inner.result, inner.rest[1..])
    else if toks[0].kind == Number then Step(Ok(toks[0].value), toks[1..])
    else Step(Err(PrimaryExpected), toks[1..])
  }

  /** `get_token` followed by putting the token back restores the deque. */
  lemma PendingAfterGet(before: seq<Token>, t: Option<Token>, after: seq<Token>)
    requires before == [] ==> t == None && after == []
    requires before != [] ==> t == Some(before[0]) && after == before[1..]
    ensures Pending(t, after) == before
  {
  }

  /** One turn of the loop of `expression`, with the operator `op` just taken from the deque. */
  lemma ExpressionLoopStep(left: real, op: Token, toks: seq<Token>)
    requires op.kind == Plus || op.kind == Minus
    ensures var right := TermSpec(toks);
      if right.result.Err? then ExpressionLoop(left, [op] + toks) == right
      else if op.kind == Plus then ExpressionLoop(left, [op] + toks) == ExpressionLoop(Sum(left, right.result.value), right.rest)
      else ExpressionLoop(left, [op] + toks) == ExpressionLoop(Difference(left, right.result.value), right.rest)
  {
    assert ([op] + toks)[1..] == toks;
  }

  /** One turn of the loop of `term`, with the operator `op` just taken from the deque. */
  lemma TermLoopStep(left: real, op: Token, toks: seq<Token>)
    requires op.kind == Times || op.kind == Divide
    ensures var right := PrimarySpec(toks);
      if right.result.Err? then TermLoop(left, [op] + toks) == right
      else if op.kind == Times then TermLoop(left, [op] + toks) == TermLoop(Product(left, right.result.value), right.rest)
      else if right.result.value == 0.0 then TermLoop(left, [op] + toks) == Step(Err(DivisionByZero), right.rest)
      else TermLoop(left, [op] + toks) == TermLoop(Quotient(left, right.result.value), right.rest)
  {
    assert ([op] + toks)[1..] == toks;
  }

  /**
   * Where a primary is due, the end of the deque or a token other than a
   * number or `(` is a "primary expected" error, and the error aborts the
   * enclosing term and expression as well.
   */
  lemma MissingPrimaryFails(toks: seq<Token>)
    requires toks == [] || (toks[0].kind != Number && toks[0].kind != OpenParenthesis)
    ensures PrimarySpec(toks).result == Err(PrimaryExpected)
    ensures TermSpec(toks).result == Err(PrimaryExpected)
    ensures ExpressionSpec(toks).result == Err(PrimaryExpected)
  {
  }

  /** `expression`: deals with `+` and `-`. */
  method Expression(ts: Tokenizer) returns (r: Result<real, EvalError>)
    modifies ts
    ensures Step(r, ts.tokens) == ExpressionSpec(old(ts.tokens))
    decreases |ts.tokens|, 2
  {
    var left := Term(ts);
    if left.Err? {
      return left;
    }
    var total := left.value;
    ghost var afterFirst := ts.tokens;
    var t := ts.GetToken();
    PendingAfterGet(afterFirst, t, ts.tokens);
    while t.Some? && (t.value.kind == Plus || t.value.kind == Minus)
      invariant ExpressionLoop(total, Pending(t, ts.tokens)) == ExpressionSpec(old(ts.tokens))
      invariant t.None? ==> ts.tokens == []
      invariant |ts.tokens| < |old(ts.tokens)|
      decreases |ts.tokens|
    {
      ghost var before, previous := ts.tokens, total;
      var right := Term(ts);
      ExpressionLoopStep(previous, t.value, before);
      if right.Err? {
        return right;
      }
      if t.value.kind == Plus {
        total := Sum(total, right.value);
      } else {
        total := Difference(total, right.value);
      }
      ghost var afterRight := ts.tokens;
      t := ts.GetToken();
      PendingAfterGet(afterRight, t, ts.tokens);
    }
    if t.Some? {
      // not an additive operator: it belongs to the caller
      ts.PutBack(t.value);
    }
    r := Ok(total);
  }

  /** `term`: deals with `*` and `/`. */
  method Term(ts: Tokenizer) returns (r: Result<real, EvalError>)
    modifies ts
    ensures Step(r, ts.tokens) == TermSpec(old(ts.tokens))
    decreases |ts.tokens|, 1
  {
    var left := Primary(ts);
    if left.Err? {
      return left;
    }
    var total := left.value;
    ghost var afterFirst := ts.tokens;
    var t := ts.GetToken();
    PendingAfterGet(afterFirst, t, ts.tokens);
    while t.Some? && (t.value.kind == Times || t.value.kind == Divide)
      invariant TermLoop(total, Pending(t, ts.tokens)) == TermSpec(old(ts.tokens))
      invariant t.None? ==> ts.tokens == []
      invariant |ts.tokens| < |old(ts.tokens)|
      decreases |ts.tokens|
    {
      ghost var before, previous := ts.tokens, total;
      var right := Primary(ts);
      TermLoopStep(previous, t.value, before);
      if right.Err? {
        return right;
      }
      if t.value.kind == Times {
        total := Product(total, right.value);
      } else {
        if right.value == 0.0 {
          // "Found division by zero"
          return Err(DivisionByZero);
        }
        total := Quotient(total, right.value);
      }
      ghost var afterRight := ts.tokens;
      t := ts.GetToken();
      PendingAfterGet(afterRight, t, ts.tokens);
    }
    if t.Some? {
      // not a multiplicative operator: it belongs to the caller
      ts.PutBack(t.value);
    }
    r := Ok(total);
  }

  /** `primary`: deals with numbers and parentheses. */
  method Primary(ts: Tokenizer) returns (r: Result<real, EvalError>)
    modifies ts
    ensures Step(r, ts.tokens) == PrimarySpec(old(ts.tokens))
    decreases |ts.tokens|, 0
  {
    var t := ts.GetToken();
    if t.Some? && t.value.kind == OpenParenthesis {
      r := Expression(ts);
      if r.Ok? {
        // the closing token is taken even when it is not `)` ("')' expected")
        var close := ts.GetToken();
      }
    } else if t.Some? && t.value.kind == Number {
      r := Ok(t.value.value);
    } else {
      // "primary expected"
      r := Err(PrimaryExpected);
    }
  }
}
