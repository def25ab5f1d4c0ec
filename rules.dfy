/**
  The grammar rules of the parser as functions of the token sequence and a
  cursor position. Each rule gives one of three outcomes, kept apart as the
  source keeps them apart: a soft "no match" (the source returns null and the
  cursor is back where it was), a match (a tree and the position just past
  it), or a syntax error (the source throws a ParseException once the rule
  has committed).

  A literal is a number, a string or one of the identifiers true and false;
  a factor is a literal or a reference; a reference is a '$' token followed
  by any number of accessors, each a '.' and a key; a term is a factor,
  optionally followed by a multiplicative operator and a further term; an
  expression is an optional leading minus, a term, and then additive
  operators each followed by a further expression.
*/
module Rules {
  import opened Wrappers
  import opened Tokens
  import opened Ast

  datatype Outcome = NoMatch | Matched(tree: Expression, next: nat) | SyntaxError

  /** Integer, float and string tokens, and the identifiers `true` and `false`. */
  predicate IsLiteralToken(t: Token)
  {
    t.kind == TokenType.Integer || t.kind == TokenType.Float || t.kind == TokenType.String
    || (t.kind == TokenType.Identifier && (t.data == "true" || t.data == "false"))
  }

  /** The multiplicative operators; only the text is looked at, not the kind. */
  predicate IsMultiplicative(t: Token)
  {
    t.data == "*" || t.data == "/" || t.data == "%"
  }

  predicate IsAdditive(t: Token)
  {
    t.kind == TokenType.Symbol && (t.data == "-" || t.data == "+")
  }

  predicate IsMinus(t: Token)
  {
    t.kind == TokenType.Symbol && t.data == "-"
  }

  predicate IsDot(t: Token)
  {
    t.kind == TokenType.Symbol && t.data == "."
  }

  /** The tokens a factor can begin with. */
  predicate CanStartFactor(t: Token)
  {
    IsLiteralToken(t) || t.kind == TokenType.Reference
  }

  /** The node a list accessor key becomes, or None for a key kind that is refused. */
  function AccessorKey(t: Token): (r: Option<Expression>)
    ensures r.None? <==> t.kind.Float? || t.kind.Symbol?
    ensures t.kind.Integer? || t.kind.String? ==> r == Some(Leaf(ExpressionType.Value, t))
    ensures t.kind.Identifier? ==> r == Some(Leaf(ExpressionType.Identifier, t))
    ensures t.kind.Reference? ==> r == Some(Leaf(ExpressionType.Reference, t))
  {
    if t.kind == TokenType.Integer || t.kind == TokenType.String then Some(Leaf(ExpressionType.Value, t))
    else if t.kind == TokenType.Identifier then Some(Leaf(ExpressionType.Identifier, t))
    else if t.kind == TokenType.Reference then Some(Leaf(ExpressionType.Reference, t))
    else None
  }

  /** parseLiteral: one literal token becomes a childless Value node. */
  function LiteralRule(toks: seq<Token>, pos: nat): (r: Outcome)
    requires pos < |toks|
    ensures !r.SyntaxError?
    ensures r.Matched? <==> IsLiteralToken(toks[pos])
    ensures r.Matched? ==> r.next == pos + 1 && r.tree.token == toks[pos]
  {
    if IsLiteralToken(toks[pos]) then Matched(Leaf(ExpressionType.Value, toks[pos]), pos + 1)
    else NoMatch
  }

  /**
    attachAccessor: wraps `expr` in one Access node per `.key` that follows,
    the earlier tree always becoming the left child.
  */
  function AccessorRule(toks: seq<Token>, pos: nat, expr: Expression): (r: Outcome)
    requires pos <= |toks|
    ensures !r.NoMatch?
    ensures r.Matched? ==> pos <= r.next <= |toks|
    decreases |toks| - pos
  {
    if pos == |toks| || !IsDot(toks[pos]) then Matched(expr, pos)
    else if pos + 1 == |toks| then SyntaxError
    else match AccessorKey(toks[pos + 1])
      case None => SyntaxError
      case Some(key) =>
        AccessorRule(toks, pos + 2, Expression(ExpressionType.Access, toks[pos], Some(expr), Some(key)))
  }

  /** parseReference: a reference token, then any accessors. */
  function ReferenceRule(toks: seq<Token>, pos: nat): (r: Outcome)
    requires pos <= |toks|
    ensures r.NoMatch? <==> pos == |toks| || toks[pos].kind != TokenType.Reference
    ensures r.Matched? ==> pos < r.next <= |toks|
  {
    if pos == |toks| then NoMatch
    else if toks[pos].kind == TokenType.Reference then
      AccessorRule(toks, pos + 1, Leaf(ExpressionType.Reference, toks[pos]))
    else NoMatch
  }

  /** parseFactor: a literal, else a reference. */
  function FactorRule(toks: seq<Token>, pos: nat): (r: Outcome)
    requires pos <= |toks|
    ensures r.NoMatch? <==> pos == |toks| || !CanStartFactor(toks[pos])
    ensures r.Matched? ==> pos < r.next <= |toks|
  {
    if pos == |toks| then NoMatch
    else
      var literal := LiteralRule(toks, pos);
      if literal.Matched? then literal else ReferenceRule(toks, pos)
  }

  /** parseTerm: a factor, optionally followed by `*`, `/` or `%` and a term (right-nested). */
  function TermRule(toks: seq<Token>, pos: nat): (r: Outcome)
    requires pos <= |toks|
    ensures r.NoMatch? <==> pos == |toks| || !CanStartFactor(toks[pos])
    ensures r.Matched? ==> pos < r.next <= |toks|
    decreases |toks| - pos
  {
    match FactorRule(toks, pos)
    case NoMatch => NoMatch
    case SyntaxError => SyntaxError
    case Matched(left, p) =>
      if p < |toks| && IsMultiplicative(toks[p]) then
        match TermRule(toks, p + 1)
        case NoMatch => SyntaxError
        case SyntaxError => SyntaxError
        case Matched(right, q) => Matched(Expression(ExpressionType.Operator, toks[p], Some(left), Some(right)), q)
      else Matched(left, p)
  }

  /**
    parseExpression: an optional leading `-`, a term, then the `+`/`-`
    chaining loop; the negation wraps the whole chain.
  */
  function ExpressionRule(toks: seq<Token>, pos: nat): (r: Outcome)
    requires pos <= |toks|
    ensures r.NoMatch? <==> pos == |toks|
    ensures r.Matched? ==> pos < r.next <= |toks|
    decreases |toks| - pos
  {
    if pos == |toks| then NoMatch
    else if IsMinus(toks[pos]) && pos + 1 == |toks| then SyntaxError
    else
      var start := if IsMinus(toks[pos]) then pos + 1 else pos;
      match TermRule(toks, start)
      case NoMatch => SyntaxError
      case SyntaxError => SyntaxError
      case Matched(term, p) =>
        match ChainRule(toks, p, term)
        case Matched(e, q) =>
          if IsMinus(toks[pos]) then Matched(Expression(ExpressionType.Operator, toks[pos], None, Some(e)), q)
          else Matched(e, q)
        case other => other
  }

  /**
    The chaining loop of parseExpression: while an additive operator follows,
    parse a whole expression after it and make the tree so far its left child.
  */
  function ChainRule(toks: seq<Token>, pos: nat, expr: Expression): (r: Outcome)
    requires pos <= |toks|
    ensures !r.NoMatch?
    ensures r.Matched? ==> pos <= r.next <= |toks|
    decreases |toks| - pos
  {
    if pos < |toks| && IsAdditive(toks[pos]) then
      match ExpressionRule(toks, pos + 1)
      case NoMatch => SyntaxError
      case SyntaxError => SyntaxError
      case Matched(chain, q) =>
        ChainRule(toks, q, Expression(ExpressionType.Operator, toks[pos], Some(expr), Some(chain)))
    else Matched(expr, pos)
  }

  /** parseTokenList: the entry point; empty input is an error. */
  function TokenListRule(toks: seq<Token>): (r: Outcome)
    ensures !r.NoMatch?
    ensures r.Matched? ==> 0 < r.next <= |toks|
  {
    if |toks| == 0 then SyntaxError
    else
      var expr := ExpressionRule(toks, 0);
      if expr.NoMatch? then SyntaxError else expr
  }
}
