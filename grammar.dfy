/**
 * The grammar of src/parser.rs as syntax trees, with the standard infix
 * reading of each tree, and the theorem that the fused parser-evaluator
 * computes exactly that reading from the tree's tokens: `*` and `/` bind
 * tighter than `+` and `-`, and each level folds left to right.
 */
module Grammar {
  import opened Wrappers
  import opened Seqs
  import opened Tokens
  import opened Parser

  /** Expression := Expression "+" Term | Expression "-" Term | Term */
  datatype ExprTree =
    | Add(left: ExprTree, right: TermTree)
    | Sub(left: ExprTree, right: TermTree)
    | OfTerm(term: TermTree)

  /** Term := Term "*" Primary | Term "/" Primary | Primary */
  datatype TermTree =
    | Mul(left: TermTree, right: PrimaryTree)
    | Div(left: TermTree, right: PrimaryTree)
    | OfPrimary(primary: PrimaryTree)

  /** Primary := Number | "(" Expression ")" */
  datatype PrimaryTree =
    | Num(value: real)
    | Group(inner: ExprTree)

  /** The value of an expression tree, or the division by zero met first from the left. */
  function EvalExpr(e: ExprTree): Result<real, EvalError>
  {
    match e
    case OfTerm(t) => EvalTerm(t)
    case Add(l, r) =>
      (match EvalExpr(l)
       case Err(x) => Err(x)
       case Ok(a) => (match EvalTerm(r) case Err(x) => Err(x) case Ok(b) => Ok(Sum(a, b))))
    case Sub(l, r) =>
      match EvalExpr(l)
      case Err(x) => Err(x)
      case Ok(a) => (match EvalTerm(r) case Err(x) => Err(x) case Ok(b) => Ok(Difference(a, b)))
  }

  function EvalTerm(t: TermTree): Result<real, EvalError>
  {
    match t
    case OfPrimary(p) => EvalPrimary(p)
    case Mul(l, r) =>
      (match EvalTerm(l)
       case Err(x) => Err(x)
       case Ok(a) => (match EvalPrimary(r) case Err(x) => Err(x) case Ok(b) => Ok(Product(a, b))))
    case Div(l, r) =>
      match EvalTerm(l)
      case Err(x) => Err(x)
      case Ok(a) =>
        (match EvalPrimary(r)
         case Err(x) => Err(x)
         case Ok(b) => if b == 0.0 then Err(DivisionByZero) else Ok(Quotient(a, b)))
  }

  function EvalPrimary(p: PrimaryTree): Result<real, EvalError>
  {
    match p
    case Num(v) => Ok(v)
    case Group(e) => EvalExpr(e)
  }

  /** The token sequence of a tree, as the lexer would produce it. */
  function ExprTokens(e: ExprTree): seq<Token>
  {
    match e
    case OfTerm(t) => TermTokens(t)
    case Add(l, r) => ExprTokens(l) + [Token(Plus, 0.0)] + TermTokens(r)
    case Sub(l, r) => ExprTokens(l) + [Token(Minus, 0.0)] + TermTokens(r)
  }

  function TermTokens(t: TermTree): seq<Token>
  {
    match t
    case OfPrimary(p) => PrimaryTokens(p)
    case Mul(l, r) => TermTokens(l) + [Token(Times, 0.0)] + PrimaryTokens(r)
    case Div(l, r) => TermTokens(l) + [Token(Divide, 0.0)] + PrimaryTokens(r)
  }

  function PrimaryTokens(p: PrimaryTree): seq<Token>
  {
    match p
    case Num(v) => [Token(Number, v)]
    case Group(e) => [Token(OpenParenthesis, 0.0)] + ExprTokens(e) + [Token(CloseParenthesis, 0.0)]
  }

  /** `toks` is empty or starts with a token whose kind is not in `kinds`. */
  predicate StartsOutside(toks: seq<Token>, kinds: set<TokenKind>)
  {
    toks == [] || toks[0].kind !in kinds
  }

  /** `primary` reads a primary tree's tokens and yields its value, leaving what follows. */
  lemma {:induction false} PrimaryCorrect(p: PrimaryTree, rest: seq<Token>)
    ensures EvalPrimary(p).Ok? ==> PrimarySpec(PrimaryTokens(p) + rest) == Step(EvalPrimary(p), rest)
    ensures EvalPrimary(p).Err? ==> PrimarySpec(PrimaryTokens(p) + rest).result == EvalPrimary(p)
    decreases p, 0
  {
    match p
    case Num(v) =>
      assert (PrimaryTokens(p) + rest)[1..] == rest;
    case Group(e) =>
      var after := [Token(CloseParenthesis, 0.0)] + rest;
      DropOpen(Token(OpenParenthesis, 0.0), ExprTokens(e), Token(CloseParenthesis, 0.0), rest);
      ExprCorrect(e, after);
      if EvalExpr(e).Ok? {
        assert ExpressionLoop(EvalExpr(e).value, after) == Step(EvalExpr(e), after);
      }
  }

  /** `term` reads a term tree's tokens, folds them, and hands the rest to its loop. */
  lemma {:induction false} TermCorrect(t: TermTree, rest: seq<Token>)
    ensures EvalTerm(t).Ok? ==> TermSpec(TermTokens(t) + rest) == TermLoop(EvalTerm(t).value, rest)
    ensures EvalTerm(t).Err? ==> TermSpec(TermTokens(t) + rest).result == EvalTerm(t)
    decreases t, 1
  {
    match t
    case OfPrimary(p) => PrimaryCorrect(p, rest);
    case Mul(l, r) => TermFoldCorrect(t, rest);
    case Div(l, r) => TermFoldCorrect(t, rest);
  }

  /** The case of `TermCorrect` where the tree ends in `*` or `/` and a primary. */
  lemma {:induction false} TermFoldCorrect(t: TermTree, rest: seq<Token>)
    requires !t.OfPrimary?
    ensures EvalTerm(t).Ok? ==> TermSpec(TermTokens(t) + rest) == TermLoop(EvalTerm(t).value, rest)
    ensures EvalTerm(t).Err? ==> TermSpec(TermTokens(t) + rest).result == EvalTerm(t)
    decreases t, 0
  {
    var op := Token(if t.Mul? then Times else Divide, 0.0);
    var after := [op] + (PrimaryTokens(t.right) + rest);
    assert TermTokens(t) + rest == TermTokens(t.left) + after by {
      assert TermTokens(t) == TermTokens(t.left) + [op] + PrimaryTokens(t.right);
      Regroup(TermTokens(t.left), op, PrimaryTokens(t.right), rest);
    }
    TermCorrect(t.left, after);
    if EvalTerm(t.left).Ok? {
      PrimaryCorrect(t.right, rest);
      TermLoopStep(EvalTerm(t.left).value, op, PrimaryTokens(t.right) + rest);
    }
  }

  /**
   * `expression` reads an expression tree's tokens, folds them, and hands the
   * rest to its loop, provided the rest cannot extend the last term.
   */
  lemma {:induction false} ExprCorrect(e: ExprTree, rest: seq<Token>)
    requires StartsOutside(rest, {Times, Divide})
    ensures EvalExpr(e).Ok? ==> ExpressionSpec(ExprTokens(e) + rest) == ExpressionLoop(EvalExpr(e).value, rest)
    ensures EvalExpr(e).Err? ==> ExpressionSpec(ExprTokens(e) + rest).result == EvalExpr(e)
    decreases e, 1
  {
    match e
    case OfTerm(t) =>
      TermCorrect(t, rest);
      if EvalTerm(t).Ok? {
        assert TermLoop(EvalTerm(t).value, rest) == Step(EvalTerm(t), rest);
      }
    case Add(l, r) => ExprFoldCorrect(e, rest);
    case Sub(l, r) => ExprFoldCorrect(e, rest);
  }

  /** The case of `ExprCorrect` where the tree ends in `+` or `-` and a term. */
  lemma {:induction false} ExprFoldCorrect(e: ExprTree, rest: seq<Token>)
    requires !e.OfTerm?
    requires StartsOutside(rest, {Times, Divide})
    ensures EvalExpr(e).Ok? ==> ExpressionSpec(ExprTokens(e) + rest) == ExpressionLoop(EvalExpr(e).value, rest)
    ensures EvalExpr(e).Err? ==> ExpressionSpec(ExprTokens(e) + rest).result == EvalExpr(e)
    decreases e, 0
  {
    var op := Token(if e.Add? then Plus else Minus, 0.0);
    var after := [op] + (TermTokens(e.right) + rest);
    assert ExprTokens(e) + rest == ExprTokens(e.left) + after by {
      assert ExprTokens(e) == ExprTokens(e.left) + [op] + TermTokens(e.right);
      Regroup(ExprTokens(e.left), op, TermTokens(e.right), rest);
    }
    ExprCorrect(e.left, after);
    if EvalExpr(e.left).Ok? {
      var a := EvalExpr(e.left).value;
      TermCorrect(e.right, rest);
      ExpressionLoopStep(a, op, TermTokens(e.right) + rest);
      if EvalTerm(e.right).Ok? {
        var b := EvalTerm(e.right).value;
        assert TermSpec(TermTokens(e.right) + rest) == Step(Ok(b), rest) by {
          assert TermLoop(b, rest) == Step(Ok(b), rest);
        }
        var v := if e.Add? then Sum(a, b) else Difference(a, b);
        assert EvalExpr(e) == Ok(v);
        assert ExpressionLoop(a, after) == ExpressionLoop(v, rest);
      }
    }
  }

  /**
   * The evaluator computes the standard infix value of every well-formed
   * expression, and consumes exactly its tokens, when what follows is not an
   * operator.
   */
  lemma EvaluatesAsInfix(e: ExprTree, rest: seq<Token>)
    requires StartsOutside(rest, {Plus, Minus, Times, Divide})
    ensures ExpressionSpec(ExprTokens(e) + rest).result == EvalExpr(e)
    ensures EvalExpr(e).Ok? ==> ExpressionSpec(ExprTokens(e) + rest).rest == rest
  {
    ExprCorrect(e, rest);
  }

  /**
   * A group whose inner expression is followed by a token other than `)`
   * still yields the inner value; that token is consumed, not put back.
   */
  lemma UnclosedGroupKeepsValue(e: ExprTree, rest: seq<Token>)
    requires StartsOutside(rest, {Plus, Minus, Times, Divide, CloseParenthesis})
    requires EvalExpr(e).Ok?
    ensures PrimarySpec([Token(OpenParenthesis, 0.0)] + ExprTokens(e) + rest)
            == Step(EvalExpr(e), if rest == [] then [] else rest[1..])
  {
    var toks := [Token(OpenParenthesis, 0.0)] + ExprTokens(e) + rest;
    DropFirst(Token(OpenParenthesis, 0.0), ExprTokens(e), rest);
    assert ExpressionSpec(toks[1..]) == Step(EvalExpr(e), rest) by {
      ExprCorrect(e, rest);
    }
  }

  /** A divisor that evaluates to zero makes the whole term an error, never a quotient. */
  lemma DivisionByZeroFails(t: TermTree, p: PrimaryTree, rest: seq<Token>)
    requires EvalTerm(t).Ok? && EvalPrimary(p) == Ok(0.0)
    ensures TermSpec(TermTokens(Div(t, p)) + rest).result == Err(DivisionByZero)
  {
    TermCorrect(Div(t, p), rest);
  }

  /** The first two tokens of "2 + 3 * 4". */
  lemma ExampleLexesHead(input: string, parse: NumberParser)
    requires input == "2 + 3 * 4" && parse("2") == Some(2.0)
    ensures Lex(input, parse, 0) == [Token(Number, 2.0), Token(Plus, 0.0)] + Lex(input, parse, 4)
  {
    assert Lex(input, parse, 0) == [Token(Number, 2.0)] + Lex(input, parse, 2) by {
      assert input[0..2] == "2 " && NumberText("2");
      LexSpelledToken(input, parse, 0, 2, Spelled(Token(Number, 2.0), "2", " "));
    }
    assert Lex(input, parse, 2) == [Token(Plus, 0.0)] + Lex(input, parse, 4) by {
      assert input[2..4] == "+ ";
      LexSpelledToken(input, parse, 2, 4, Spelled(Token(Plus, 0.0), "+", " "));
    }
  }

  /** The last three tokens of "2 + 3 * 4". */
  lemma ExampleLexesTail(input: string, parse: NumberParser)
    requires input == "2 + 3 * 4" && parse("3") == Some(3.0) && parse("4") == Some(4.0)
    ensures Lex(input, parse, 4) == [Token(Number, 3.0), Token(Times, 0.0), Token(Number, 4.0)]
  {
    assert Lex(input, parse, 4) == [Token(Number, 3.0)] + Lex(input, parse, 6) by {
      assert input[4..6] == "3 " && NumberText("3");
      LexSpelledToken(input, parse, 4, 6, Spelled(Token(Number, 3.0), "3", " "));
    }
    assert Lex(input, parse, 6) == [Token(Times, 0.0)] + Lex(input, parse, 8) by {
      assert input[6..8] == "* ";
      LexSpelledToken(input, parse, 6, 8, Spelled(Token(Times, 0.0), "*", " "));
    }
    assert Lex(input, parse, 8) == [Token(Number, 4.0)] by {
      assert input[8..9] == "4" && NumberText("4");
      LexSpelledToken(input, parse, 8, 9, Spelled(Token(Number, 4.0), "4", ""));
    }
  }

  /** Spaces are optional between a number and an operator: "1+2" lexes to three tokens. */
  lemma ExampleLexesGapless(parse: NumberParser)
    requires parse("1") == Some(1.0) && parse("2") == Some(2.0)
    ensures Lex("1+2", parse, 0) == [Token(Number, 1.0), Token(Plus, 0.0), Token(Number, 2.0)]
  {
    var ss := [Spelled(Token(Number, 1.0), "1", ""), Spelled(Token(Plus, 0.0), "+", ""),
               Spelled(Token(Number, 2.0), "2", "")];
    assert NumberText("1") && NumberText("2");
    assert Spell(ss) == "1+2";
    assert TokensOf(ss) == [Token(Number, 1.0), Token(Plus, 0.0), Token(Number, 2.0)];
    LexSpell(ss, parse);
  }

  /** "2 + 3 * 4" lexes to five tokens once its numerals parse as expected. */
  lemma ExampleLexes(input: string, parse: NumberParser)
    requires input == "2 + 3 * 4"
    requires parse("2") == Some(2.0) && parse("3") == Some(3.0) && parse("4") == Some(4.0)
    ensures Lex(input, parse, 0)
            == [Token(Number, 2.0), Token(Plus, 0.0), Token(Number, 3.0), Token(Times, 0.0), Token(Number, 4.0)]
  {
    ExampleLexesHead(input, parse);
    ExampleLexesTail(input, parse);
  }

  /** "2 + 3 * 4" evaluates to 14: the product is taken before the sum. */
  lemma ExamplePrecedence(parse: NumberParser)
    requires parse("2") == Some(2.0) && parse("3") == Some(3.0) && parse("4") == Some(4.0)
    ensures ExpressionSpec(Lex("2 + 3 * 4", parse, 0)).result == Ok(14.0)
  {
    ExampleLexes("2 + 3 * 4", parse);
    var tree := Add(OfTerm(OfPrimary(Num(2.0))), Mul(OfPrimary(Num(3.0)), Num(4.0)));
    assert ExprTokens(tree) + [] == Lex("2 + 3 * 4", parse, 0);
    assert EvalExpr(tree) == Ok(14.0) by {
      assert EvalTerm(tree.right) == Ok(Product(3.0, 4.0));
    }
    EvaluatesAsInfix(tree, []);
  }
}
