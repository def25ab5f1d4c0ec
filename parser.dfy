/**
  The parser as the source writes it: mutually recursive methods that share
  one mutable cursor, read tokens with Next, push them back with ReturnToken
  or SetPosition, and signal a committed failure as SyntaxError. Each method
  is proved to compute its rule in module Rules and to leave the cursor just
  past what it matched, or where it started when nothing matched.
*/
module Parser {
  import opened Wrappers
  import opened Tokens
  import opened Ast
  import opened Rules

  method ParseLiteral(list: TokenList) returns (r: Outcome)
    requires list.Valid() && list.pos < |list.tokens|
    modifies list
    ensures list.Valid()
    ensures r == LiteralRule(list.tokens, old(list.pos))
    ensures r.Matched? <==> IsLiteralToken(list.tokens[old(list.pos)])
    ensures r.Matched? ==> r.tree == Leaf(ExpressionType.Value, list.tokens[old(list.pos)]) && list.pos == r.next
    ensures r.NoMatch? ==> list.pos == old(list.pos)
  {
    var tkn := list.Next();
    var t := tkn.value;
    if t.kind == TokenType.Integer || t.kind == TokenType.Float || t.kind == TokenType.String {
      return Matched(Leaf(ExpressionType.Value, t), list.pos);
    }
    if t.kind == TokenType.Identifier {
      if t.data == "true" || t.data == "false" {
        return Matched(Leaf(ExpressionType.Value, t), list.pos);
      }
    }
    list.ReturnToken();
    return NoMatch;
  }

  method ParseTerm(list: TokenList) returns (r: Outcome)
    requires list.Valid()
    modifies list
    ensures list.Valid()
    ensures r == TermRule(list.tokens, old(list.pos))
    ensures r.Matched? ==> list.pos == r.next
    ensures r.NoMatch? ==> list.pos == old(list.pos)
    decreases |list.tokens| - list.pos
  {
    var left := ParseFactor(list);
    if !left.Matched? {
      return left;
    }
    var position := list.GetPosition();
    var tkn := list.Next();
    if tkn.Some? && IsMultiplicative(tkn.value) {
      var right := ParseTerm(list);
      if !right.Matched? {
        return SyntaxError;
      }
      var expr := Leaf(ExpressionType.Operator, tkn.value);
      expr := expr.(left := Some(left.tree));
      expr := expr.(right := Some(right.tree));
      return Matched(expr, list.pos);
    }
    list.SetPosition(position);
    return Matched(left.tree, list.pos);
  }

  method AttachAccessor(list: TokenList, expr: Expression) returns (r: Outcome)
    requires list.Valid()
    modifies list
    ensures list.Valid()
    ensures r == AccessorRule(list.tokens, old(list.pos), expr)
    ensures r.Matched? ==> list.pos == r.next
    decreases |list.tokens| - list.pos
  {
    var more := list.HasNext();
    if !more {
      return Matched(expr, list.pos);
    }
    var tkn := list.Next();
    if !IsDot(tkn.value) {
      list.ReturnToken();
      return Matched(expr, list.pos);
    }
    var a := Leaf(ExpressionType.Access, tkn.value);
    a := a.(left := Some(expr));
    var value := list.RequireNext();
    if value.None? {
      return SyntaxError;
    }
    var v := value.value;
    if v.kind == TokenType.Integer || v.kind == TokenType.String {
      a := a.(right := Some(Leaf(ExpressionType.Value, v)));
      r := AttachAccessor(list, a);
      return;
    }
    if v.kind == TokenType.Identifier {
      a := a.(right := Some(Leaf(ExpressionType.Identifier, v)));
      r := AttachAccessor(list, a);
      return;
    }
    if v.kind == TokenType.Reference {
      a := a.(right := Some(Leaf(ExpressionType.Reference, v)));
      r := AttachAccessor(list, a);
      return;
    }
    return SyntaxError;
  }

  method ParseReference(list: TokenList) returns (r: Outcome)
    requires list.Valid()
    modifies list
    ensures list.Valid()
    ensures r == ReferenceRule(list.tokens, old(list.pos))
    ensures r.Matched? ==> list.pos == r.next
    ensures r.NoMatch? ==> list.pos == old(list.pos)
  {
    var more := list.HasNext();
    if !more {
      return NoMatch;
    }
    var tkn := list.Next();
    if tkn.value.kind == TokenType.Reference {
      var expr := Leaf(ExpressionType.Reference, tkn.value);
      r := AttachAccessor(list, expr);
      return;
    }
    list.ReturnToken();
    return NoMatch;
  }

  method ParseFactor(list: TokenList) returns (r: Outcome)
    requires list.Valid()
    modifies list
    ensures list.Valid()
    ensures r == FactorRule(list.tokens, old(list.pos))
    ensures r.Matched? ==> list.pos == r.next
    ensures r.NoMatch? ==> list.pos == old(list.pos)
  {
    var more := list.HasNext();
    if !more {
      return NoMatch;
    }
    r := ParseLiteral(list);
    if r.Matched? {
      return;
    }
    r := ParseReference(list);
  }

  method ParseExpression(list: TokenList) returns (r: Outcome)
    requires list.Valid()
    modifies list
    ensures list.Valid()
    ensures r == ExpressionRule(list.tokens, old(list.pos))
    ensures r.Matched? ==> list.pos == r.next
    ensures r.NoMatch? ==> list.pos == old(list.pos)
    decreases |list.tokens| - list.pos, 1
  {
    ghost var toks, first := list.tokens, list.pos;
    var more := list.HasNext();
    if !more {
      return NoMatch;
    }
    var tkn := list.Next();
    var wrap: Option<Expression> := None;
    if IsMinus(tkn.value) {
      wrap := Some(Leaf(ExpressionType.Operator, tkn.value));
      more := list.HasNext();
      if !more {
        return SyntaxError;
      }
    } else {
      list.ReturnToken();
    }

    var term := ParseTerm(list);
    if !term.Matched? {
      return SyntaxError;
    }
    r := ParseChain(list, term.tree);
    if r.Matched? && wrap.Some? {
      r := r.(tree := wrap.value.(right := Some(r.tree)));
    }
  }

  /**
    The chaining loop of parseExpression: while the next token is `+` or `-`,
    parse the expression after it and make the tree so far its left operand.
  */
  method ParseChain(list: TokenList, term: Expression) returns (r: Outcome)
    requires list.Valid()
    modifies list
    ensures list.Valid()
    ensures r == ChainRule(list.tokens, old(list.pos), term)
    ensures r.Matched? ==> list.pos == r.next
    decreases |list.tokens| - list.pos, 0
  {
    ghost var toks := list.tokens;
    ghost var chained := ChainRule(toks, list.pos, term);
    var expr := term;
    var more := list.HasNext();
    while more
      invariant list.Valid()
      invariant more <==> list.pos < |toks|
      invariant ChainRule(toks, list.pos, expr) == chained
      decreases |toks| - list.pos
    {
      ghost var at := list.pos;
      var tkn := list.Next();
      if IsAdditive(tkn.value) {
        var chain := ParseExpression(list);
        if !chain.Matched? {
          return SyntaxError;
        }
        var tmp := Leaf(ExpressionType.Operator, tkn.value);
        tmp := tmp.(left := Some(expr));
        tmp := tmp.(right := Some(chain.tree));
        assert ChainRule(toks, at, expr) == ChainRule(toks, list.pos, tmp);
        expr := tmp;
      } else {
        list.ReturnToken();
        assert chained == Matched(expr, list.pos);
        break;
      }
      more := list.HasNext();
    }
    assert chained == Matched(expr, list.pos);
    return Matched(expr, list.pos);
  }

  method ParseTokenList(list: TokenList) returns (r: Outcome)
    requires list.Valid() && list.pos == 0
    modifies list
    ensures list.Valid()
    ensures r == TokenListRule(list.tokens)
    ensures r.Matched? ==> list.pos == r.next
  {
    var more := list.HasNext();
    if !more {
      return SyntaxError;
    }
    var expr := ParseExpression(list);
    if expr.NoMatch? {
      return SyntaxError;
    }
    return expr;
  }
}
