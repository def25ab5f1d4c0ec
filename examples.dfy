/**
  Concrete parses: the cases of the repository's test file, written as the
  token lists the tokenizer hands the parser, and a few more that show the
  error paths and the shapes the grammar gives.
*/
module Examples {
  import opened Wrappers
  import opened Tokens
  import opened Ast
  import opened Rules

  function Int(s: string): Token { Token(TokenType.Integer, s) }
  function Sym(s: string): Token { Token(TokenType.Symbol, s) }
  function Ref(s: string): Token { Token(TokenType.Reference, s) }

  function Val(t: Token): Expression { Leaf(ExpressionType.Value, t) }
  function Op(t: Token, l: Expression, r: Expression): Expression
  {
    Expression(ExpressionType.Operator, t, Some(l), Some(r))
  }
  function Access(base: Expression, key: Expression): Expression
  {
    Expression(ExpressionType.Access, Sym("."), Some(base), Some(key))
  }

  lemma EmptyInputFails()
    ensures TokenListRule([]) == SyntaxError
  {
  }

  lemma LiteralsParse()
    ensures TokenListRule([Int("42")]) == Matched(Val(Int("42")), 1)
    ensures TokenListRule([Token(TokenType.Float, "3.141592")])
         == Matched(Val(Token(TokenType.Float, "3.141592")), 1)
    ensures TokenListRule([Token(TokenType.String, "Hello World")])
         == Matched(Val(Token(TokenType.String, "Hello World")), 1)
    ensures TokenListRule([Token(TokenType.Identifier, "false")])
         == Matched(Val(Token(TokenType.Identifier, "false")), 1)
    ensures TokenListRule([Token(TokenType.Identifier, "true")])
         == Matched(Val(Token(TokenType.Identifier, "true")), 1)
  {
  }

  /** Any other identifier is neither a literal nor a reference. */
  lemma OtherIdentifierFails()
    ensures TokenListRule([Token(TokenType.Identifier, "maybe")]) == SyntaxError
  {
  }

  lemma SimpleProducts()
    ensures TokenListRule([Int("3"), Sym("*"), Int("7")]) == Matched(Op(Sym("*"), Val(Int("3")), Val(Int("7"))), 3)
    ensures TokenListRule([Int("4300"), Sym("*"), Int("11")])
         == Matched(Op(Sym("*"), Val(Int("4300")), Val(Int("11"))), 3)
    ensures TokenListRule([Int("2"), Sym("/"), Int("9")]) == Matched(Op(Sym("/"), Val(Int("2")), Val(Int("9"))), 3)
    ensures TokenListRule([Int("2"), Sym("%"), Int("9")]) == Matched(Op(Sym("%"), Val(Int("2")), Val(Int("9"))), 3)
  {
  }

  lemma FloatProduct()
    ensures TokenListRule([Token(TokenType.Float, "6.3"), Sym("*"), Int("5")])
         == Matched(Op(Sym("*"), Val(Token(TokenType.Float, "6.3")), Val(Int("5"))), 3)
  {
  }

  lemma MissingTermFails()
    ensures TokenListRule([Int("3"), Sym("*")]) == SyntaxError
  {
  }

  lemma ProductsGroupRight()
    ensures TokenListRule([Int("3"), Sym("*"), Int("11"), Sym("*"), Int("42")])
         == Matched(Op(Sym("*"), Val(Int("3")), Op(Sym("*"), Val(Int("11")), Val(Int("42")))), 5)
    ensures TokenListRule([Int("5"), Sym("*"), Int("11"), Sym("/"), Int("9")])
         == Matched(Op(Sym("*"), Val(Int("5")), Op(Sym("/"), Val(Int("11")), Val(Int("9")))), 5)
  {
  }

  lemma References()
    ensures TokenListRule([Ref("foo")]) == Matched(Leaf(ExpressionType.Reference, Ref("foo")), 1)
    ensures TokenListRule([Ref("foo"), Sym("."), Int("9")])
         == Matched(Access(Leaf(ExpressionType.Reference, Ref("foo")), Val(Int("9"))), 3)
    ensures TokenListRule([Ref("foo"), Sym("."), Token(TokenType.String, "bar")])
         == Matched(Access(Leaf(ExpressionType.Reference, Ref("foo")), Val(Token(TokenType.String, "bar"))), 3)
    ensures TokenListRule([Ref("foo"), Sym("."), Ref("bar")])
         == Matched(Access(Leaf(ExpressionType.Reference, Ref("foo")), Leaf(ExpressionType.Reference, Ref("bar"))), 3)
  {
  }

  /** An identifier key becomes an IDENTIFIER node, not a VALUE node. */
  lemma IdentifierKey()
    ensures TokenListRule([Ref("foo"), Sym("."), Token(TokenType.Identifier, "bar")])
         == Matched(Access(Leaf(ExpressionType.Reference, Ref("foo")),
                           Leaf(ExpressionType.Identifier, Token(TokenType.Identifier, "bar"))), 3)
  {
  }

  /** Accessors nest to the left: `$foo.9.11.4` reads as `(($foo.9).11).4`. */
  lemma AccessorsGroupLeft()
    ensures TokenListRule([Ref("foo"), Sym("."), Int("9"), Sym("."), Int("11"), Sym("."), Int("4")])
         == Matched(Access(Access(Access(Leaf(ExpressionType.Reference, Ref("foo")), Val(Int("9"))),
                                  Val(Int("11"))), Val(Int("4"))), 7)
  {
  }

  /**
    A reference used as a key becomes a childless node: the accessor after it
    applies to the whole chain, so `$foo.$bar.1` reads as `($foo.$bar).1`.
  */
  lemma ReferenceKeyTakesNoAccessors()
    ensures TokenListRule([Ref("foo"), Sym("."), Ref("bar"), Sym("."), Int("1")])
         == Matched(Access(Access(Leaf(ExpressionType.Reference, Ref("foo")), Leaf(ExpressionType.Reference, Ref("bar"))),
                           Val(Int("1"))), 5)
  {
  }

  lemma AccessorErrors()
    ensures TokenListRule([Ref("foo"), Sym(".")]) == SyntaxError
    ensures TokenListRule([Ref("foo"), Sym("."), Token(TokenType.Float, "1.5")]) == SyntaxError
    ensures TokenListRule([Ref("foo"), Sym("."), Sym("*")]) == SyntaxError
  {
  }

  lemma SimpleSums()
    ensures TokenListRule([Int("2"), Sym("+"), Int("9")]) == Matched(Op(Sym("+"), Val(Int("2")), Val(Int("9"))), 3)
    ensures TokenListRule([Int("2"), Sym("-"), Int("9")]) == Matched(Op(Sym("-"), Val(Int("2")), Val(Int("9"))), 3)
  {
  }

  lemma ReferenceMinusNumber()
    ensures TokenListRule([Ref("foo"), Sym("-"), Int("9")])
         == Matched(Op(Sym("-"), Leaf(ExpressionType.Reference, Ref("foo")), Val(Int("9"))), 3)
  {
  }

  lemma NumberMinusReference()
    ensures TokenListRule([Int("8"), Sym("-"), Ref("foo")])
         == Matched(Op(Sym("-"), Val(Int("8")), Leaf(ExpressionType.Reference, Ref("foo"))), 3)
  {
  }

  lemma Negation()
    ensures TokenListRule([Sym("-"), Int("9")])
         == Matched(Expression(ExpressionType.Operator, Sym("-"), None, Some(Val(Int("9")))), 2)
  {
  }

  /** Multiplication binds tighter than addition. */
  lemma ProductInsideSum()
    ensures TokenListRule([Int("2"), Sym("+"), Int("9"), Sym("*"), Int("4")])
         == Matched(Op(Sym("+"), Val(Int("2")), Op(Sym("*"), Val(Int("9")), Val(Int("4")))), 5)
  {
  }

  /** Sums group to the right as products do: `2 - 9 - 4` reads as `2 - (9 - 4)`. */
  lemma SumsGroupRight()
    ensures TokenListRule([Int("2"), Sym("-"), Int("9"), Sym("-"), Int("4")])
         == Matched(Op(Sym("-"), Val(Int("2")), Op(Sym("-"), Val(Int("9")), Val(Int("4")))), 5)
  {
  }

  /** A leading minus negates the whole sum: `-2 + 3` reads as `-(2 + 3)`. */
  lemma NegatedSum()
    ensures TokenListRule([Sym("-"), Int("2"), Sym("+"), Int("3")])
         == Matched(Expression(ExpressionType.Operator, Sym("-"), None,
                               Some(Op(Sym("+"), Val(Int("2")), Val(Int("3"))))), 4)
  {
  }

  lemma SumAndNegationErrors()
    ensures TokenListRule([Sym("-")]) == SyntaxError
    ensures TokenListRule([Sym("-"), Sym("-"), Int("3")]) == SyntaxError
    ensures TokenListRule([Int("2"), Sym("+")]) == SyntaxError
    ensures TokenListRule([Sym("*"), Int("3")]) == SyntaxError
  {
  }

  /**
    Unlike the multiplicative test, the additive test also asks for a symbol
    token: a string whose text is `+` ends the expression instead.
  */
  lemma StringTextIsNotAdditive()
    ensures TokenListRule([Int("2"), Token(TokenType.String, "+"), Int("9")]) == Matched(Val(Int("2")), 1)
    ensures TokenListRule([Int("2"), Token(TokenType.String, "-"), Int("9")]) == Matched(Val(Int("2")), 1)
  {
  }

  /** Parsing stops after the first expression; the tokens after it are left unread. */
  lemma TrailingTokensUnread()
    ensures TokenListRule([Int("3"), Int("4")]) == Matched(Val(Int("3")), 1)
  {
  }

  /**
    The multiplicative test looks at the token's text only, so a string
    literal whose text is `*` between two factors acts as the operator.
  */
  lemma StringTextActsAsOperator()
    ensures TokenListRule([Int("3"), Token(TokenType.String, "*"), Int("4")])
         == Matched(Op(Token(TokenType.String, "*"), Val(Int("3")), Val(Int("4"))), 3)
  {
  }
}
