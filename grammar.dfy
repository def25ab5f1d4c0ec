/**
  The trees the parser can return, described by their shape, and the exact
  link between a rule and its shape: a rule matches the tokens from `pos` to
  `q` with tree `e` if and only if `e` has the rule's shape, `e` spells
  exactly those tokens (Flatten), and the token at `q`, if any, is one the
  rule would not take as a continuation.
*/
module Grammar {
  import opened Wrappers
  import opened Tokens
  import opened Ast
  import opened Rules

  // ----- Shapes -----

  /** A list accessor key: the childless node AccessorKey makes of its token. */
  predicate IsKey(e: Expression)
  {
    AccessorKey(e.token) == Some(e)
  }

  predicate IsLiteral(e: Expression)
  {
    IsLiteralToken(e.token) && e == Leaf(ExpressionType.Value, e.token)
  }

  /** A reference followed by any number of accessors, nested to the left. */
  predicate IsReferenceChain(e: Expression)
  {
    if e.kind == ExpressionType.Access then
      IsDot(e.token) && e.left.Some? && e.right.Some?
      && IsReferenceChain(e.left.value) && IsKey(e.right.value)
    else
      e.token.kind == TokenType.Reference && e == Leaf(ExpressionType.Reference, e.token)
  }

  predicate IsFactor(e: Expression)
  {
    IsLiteral(e) || IsReferenceChain(e)
  }

  /** A factor, or a multiplicative operator with a factor on the left and a term on the right. */
  predicate IsTerm(e: Expression)
  {
    if e.kind == ExpressionType.Operator then
      IsMultiplicative(e.token) && e.left.Some? && e.right.Some?
      && IsFactor(e.left.value) && IsTerm(e.right.value)
    else IsFactor(e)
  }

  /** A term, or an additive operator with a term on the left and an expression on the right. */
  predicate IsSum(e: Expression)
    decreases e, 0
  {
    if e.kind == ExpressionType.Operator && IsAdditive(e.token) && e.left.Some? then
      e.right.Some? && IsTerm(e.left.value) && IsExpression(e.right.value)
    else IsTerm(e)
  }

  /** A sum, or a unary minus (no left child) around a sum. */
  predicate IsExpression(e: Expression)
    decreases e, 1
  {
    if e.kind == ExpressionType.Operator && IsMinus(e.token) && e.left.None? then
      e.right.Some? && IsSum(e.right.value)
    else IsSum(e)
  }

  /** The rightmost operand is a reference chain, which would take a following '.'. */
  predicate EndsInReference(e: Expression)
  {
    if e.kind == ExpressionType.Operator then e.right.Some? && EndsInReference(e.right.value)
    else e.kind == ExpressionType.Reference || e.kind == ExpressionType.Access
  }

  // ----- Where a tree sits in the token sequence -----

  /** The number of tokens a tree stands for. */
  function Size(e: Expression): nat
  {
    (if e.left.Some? then Size(e.left.value) else 0) + 1 + (if e.right.Some? then Size(e.right.value) else 0)
  }

  /**
    `e` stands for exactly the tokens from `pos` up to `q`: its left child's
    tokens, then its own token, then its right child's tokens.
  */
  predicate Spans(e: Expression, toks: seq<Token>, pos: nat, q: nat)
  {
    var p := pos + (if e.left.Some? then Size(e.left.value) else 0);
    q == pos + Size(e) && q <= |toks| && toks[p] == e.token
    && (e.left.Some? ==> Spans(e.left.value, toks, pos, p))
    && (e.right.Some? ==> Spans(e.right.value, toks, p + 1, q))
  }

  /** The token at `q`, if any, cannot continue a factor `e`. */
  predicate FactorEnds(e: Expression, toks: seq<Token>, q: nat)
  {
    q < |toks| && EndsInReference(e) ==> !IsDot(toks[q])
  }

  /** ... nor a term. */
  predicate TermEnds(e: Expression, toks: seq<Token>, q: nat)
  {
    FactorEnds(e, toks, q) && (q < |toks| ==> !IsMultiplicative(toks[q]))
  }

  /** ... nor an expression. */
  predicate ExpressionEnds(e: Expression, toks: seq<Token>, q: nat)
  {
    TermEnds(e, toks, q) && (q < |toks| ==> !IsAdditive(toks[q]))
  }

  predicate ReferenceAt(e: Expression, toks: seq<Token>, pos: nat, q: nat)
  {
    IsReferenceChain(e) && Spans(e, toks, pos, q) && FactorEnds(e, toks, q)
  }

  predicate FactorAt(e: Expression, toks: seq<Token>, pos: nat, q: nat)
  {
    IsFactor(e) && Spans(e, toks, pos, q) && FactorEnds(e, toks, q)
  }

  predicate TermAt(e: Expression, toks: seq<Token>, pos: nat, q: nat)
  {
    IsTerm(e) && Spans(e, toks, pos, q) && TermEnds(e, toks, q)
  }

  predicate SumAt(e: Expression, toks: seq<Token>, pos: nat, q: nat)
  {
    IsSum(e) && Spans(e, toks, pos, q) && ExpressionEnds(e, toks, q)
  }

  predicate ExpressionAt(e: Expression, toks: seq<Token>, pos: nat, q: nat)
  {
    IsExpression(e) && Spans(e, toks, pos, q) && ExpressionEnds(e, toks, q)
  }

  // ----- Spans and Flatten -----

  /** A tree's size is the number of tokens it flattens to. */
  lemma {:induction false} SizeIsFlattenLength(e: Expression)
    ensures Size(e) == |Flatten(e)|
    decreases e
  {
    if e.left.Some? {
      SizeIsFlattenLength(e.left.value);
    }
    if e.right.Some? {
      SizeIsFlattenLength(e.right.value);
    }
  }

  /** A slice is its part before `p`, the token at `p`, and its part after `p`. */
  lemma SliceAround(toks: seq<Token>, pos: nat, p: nat, q: nat)
    requires pos <= p < q <= |toks|
    ensures toks[pos..q] == toks[pos..p] + [toks[p]] + toks[p + 1..q]
  {
  }

  /** Two three-part sequences with equally long first parts agree part by part. */
  lemma SameParts(a: seq<Token>, t: Token, b: seq<Token>, a': seq<Token>, t': Token, b': seq<Token>)
    requires a + [t] + b == a' + [t'] + b' && |a| == |a'|
    ensures a == a' && t == t' && b == b'
  {
    var s := a + [t] + b;
    assert a == s[..|a|] && a' == s[..|a|];
    assert t == s[|a|] && t' == s[|a|];
    assert b == s[|a| + 1..] && b' == s[|a| + 1..];
  }

  /** A tree spanning `pos..q` stands for exactly the tokens `toks[pos..q]`. */
  lemma {:induction false} SpansSlice(e: Expression, toks: seq<Token>, pos: nat, q: nat)
    requires Spans(e, toks, pos, q)
    ensures toks[pos..q] == Flatten(e)
    decreases e
  {
    var p := pos + if e.left.Some? then Size(e.left.value) else 0;
    var l := if e.left.Some? then Flatten(e.left.value) else [];
    var r := if e.right.Some? then Flatten(e.right.value) else [];
    if e.left.Some? {
      SpansSlice(e.left.value, toks, pos, p);
    }
    if e.right.Some? {
      SpansSlice(e.right.value, toks, p + 1, q);
    }
    SliceAround(toks, pos, p, q);
    assert toks[pos..q] == l + [e.token] + r;
  }

  /** Conversely, a tree spans any place in the token list where its flattened tokens appear. */
  lemma {:induction false} SliceSpans(e: Expression, toks: seq<Token>, pos: nat, q: nat)
    requires q == pos + |Flatten(e)| <= |toks| && toks[pos..q] == Flatten(e)
    ensures Spans(e, toks, pos, q)
    decreases e
  {
    SizeIsFlattenLength(e);
    var l := if e.left.Some? then Flatten(e.left.value) else [];
    var r := if e.right.Some? then Flatten(e.right.value) else [];
    var p := pos + |l|;
    SliceAround(toks, pos, p, q);
    SameParts(toks[pos..p], toks[p], toks[p + 1..q], l, e.token, r);
    if e.left.Some? {
      SizeIsFlattenLength(e.left.value);
      SliceSpans(e.left.value, toks, pos, p);
    }
    if e.right.Some? {
      SliceSpans(e.right.value, toks, p + 1, q);
    }
  }

  /** No token is at once a multiplicative operator, an additive operator or a dot. */
  lemma OperatorsDistinct(t: Token)
    ensures IsMultiplicative(t) ==> !IsAdditive(t) && !IsDot(t)
    ensures IsAdditive(t) ==> !IsDot(t)
  {
    if IsMultiplicative(t) || IsAdditive(t) {
      assert |t.data| == 1;
      assert t.data[0] in {'*', '/', '%', '-', '+'};
    }
  }

  /** A term starts with an operand token, never a symbol; a reference chain starts with its reference. */
  lemma {:induction false} FirstToken(e: Expression, toks: seq<Token>, pos: nat, q: nat)
    requires Spans(e, toks, pos, q)
    ensures IsReferenceChain(e) ==> toks[pos].kind == TokenType.Reference
    ensures IsTerm(e) ==> toks[pos].kind != TokenType.Symbol
    ensures IsSum(e) ==> toks[pos].kind != TokenType.Symbol
    decreases e
  {
    if e.left.Some? {
      FirstToken(e.left.value, toks, pos, pos + Size(e.left.value));
    }
  }

  // ----- Soundness: what a rule returns has the rule's shape, stands for the tokens it
  //       consumed, and is followed by a token the rule would not take -----

  lemma {:induction false} AccessorSound(toks: seq<Token>, start: nat, pos: nat, acc: Expression)
    requires pos <= |toks| && IsReferenceChain(acc) && Spans(acc, toks, start, pos)
    ensures var r := AccessorRule(toks, pos, acc);
      r.Matched? ==> ReferenceAt(r.tree, toks, start, r.next)
    decreases |toks| - pos
  {
    if pos < |toks| && IsDot(toks[pos]) && pos + 1 < |toks| && AccessorKey(toks[pos + 1]).Some? {
      var key := AccessorKey(toks[pos + 1]).value;
      var a := Expression(ExpressionType.Access, toks[pos], Some(acc), Some(key));
      assert Spans(a, toks, start, pos + 2);
      AccessorSound(toks, start, pos + 2, a);
    }
  }

  lemma ReferenceSound(toks: seq<Token>, pos: nat)
    requires pos <= |toks|
    ensures var r := ReferenceRule(toks, pos);
      r.Matched? ==> ReferenceAt(r.tree, toks, pos, r.next)
  {
    if pos < |toks| && toks[pos].kind == TokenType.Reference {
      AccessorSound(toks, pos, pos + 1, Leaf(ExpressionType.Reference, toks[pos]));
    }
  }

  lemma FactorSound(toks: seq<Token>, pos: nat)
    requires pos <= |toks|
    ensures var r := FactorRule(toks, pos);
      r.Matched? ==> FactorAt(r.tree, toks, pos, r.next)
  {
    if pos < |toks| && !LiteralRule(toks, pos).Matched? {
      ReferenceSound(toks, pos);
    }
  }

  lemma {:induction false} TermSound(toks: seq<Token>, pos: nat)
    requires pos <= |toks|
    ensures var r := TermRule(toks, pos);
      r.Matched? ==> TermAt(r.tree, toks, pos, r.next)
    decreases |toks| - pos
  {
    FactorSound(toks, pos);
    var factor := FactorRule(toks, pos);
    if factor.Matched? {
      var p := factor.next;
      if p < |toks| && IsMultiplicative(toks[p]) {
        TermSound(toks, p + 1);
        var rest := TermRule(toks, p + 1);
        if rest.Matched? {
          var e := Expression(ExpressionType.Operator, toks[p], Some(factor.tree), Some(rest.tree));
          assert IsTerm(e);
          assert Spans(e, toks, pos, rest.next);
          assert TermEnds(e, toks, rest.next);
        }
      } else {
        assert IsTerm(factor.tree);
      }
    }
  }

  lemma {:induction false} ExpressionSound(toks: seq<Token>, pos: nat)
    requires pos <= |toks|
    ensures var r := ExpressionRule(toks, pos);
      r.Matched? ==> ExpressionAt(r.tree, toks, pos, r.next)
    decreases |toks| - pos, 1
  {
    if pos < |toks| && !(IsMinus(toks[pos]) && pos + 1 == |toks|) {
      var start := if IsMinus(toks[pos]) then pos + 1 else pos;
      TermSound(toks, start);
      var term := TermRule(toks, start);
      if term.Matched? {
        ChainSound(toks, start, term.next, term.tree);
        var chain := ChainRule(toks, term.next, term.tree);
        if chain.Matched? && IsMinus(toks[pos]) {
          assert Spans(Expression(ExpressionType.Operator, toks[pos], None, Some(chain.tree)), toks, pos, chain.next);
        }
      }
    }
  }

  /** The chaining loop entered at `pos` with the term `acc`, read from `start`, yields a sum. */
  lemma {:induction false} ChainSound(toks: seq<Token>, start: nat, pos: nat, acc: Expression)
    requires pos <= |toks| && TermAt(acc, toks, start, pos)
    ensures var r := ChainRule(toks, pos, acc);
      r.Matched? ==> SumAt(r.tree, toks, start, r.next)
    decreases |toks| - pos, 0
  {
    if pos < |toks| && IsAdditive(toks[pos]) {
      ExpressionSound(toks, pos + 1);
      var rest := ExpressionRule(toks, pos + 1);
      if rest.Matched? {
        var e := Expression(ExpressionType.Operator, toks[pos], Some(acc), Some(rest.tree));
        assert Spans(e, toks, start, rest.next);
        assert IsSum(e);
      }
    } else {
      OperatorsDistinct(acc.token);
      assert IsSum(acc);
    }
  }

  // ----- Completeness: the tokens of a well-shaped tree, followed by a token that cannot
  //       continue it, parse back to that same tree -----

  /** Reading the reference of a chain and its accessors brings the accessor loop to the chain's end. */
  lemma {:induction false} ReferenceReaches(e: Expression, toks: seq<Token>, pos: nat)
    requires IsReferenceChain(e) && Spans(e, toks, pos, pos + Size(e))
    ensures ReferenceRule(toks, pos) == AccessorRule(toks, pos + Size(e), e)
    decreases e
  {
    if e.kind == ExpressionType.Access {
      var base, key := e.left.value, e.right.value;
      var p := pos + Size(base);
      ReferenceReaches(base, toks, pos);
      assert AccessorKey(toks[p + 1]) == Some(key);
      assert e == Expression(ExpressionType.Access, toks[p], Some(base), Some(key));
    }
  }

  lemma ReferenceComplete(e: Expression, toks: seq<Token>, pos: nat, q: nat)
    requires ReferenceAt(e, toks, pos, q)
    ensures ReferenceRule(toks, pos) == Matched(e, q)
  {
    ReferenceReaches(e, toks, pos);
  }

  lemma FactorComplete(e: Expression, toks: seq<Token>, pos: nat, q: nat)
    requires FactorAt(e, toks, pos, q)
    ensures FactorRule(toks, pos) == Matched(e, q)
  {
    if !IsLiteral(e) {
      FirstToken(e, toks, pos, q);
      ReferenceComplete(e, toks, pos, q);
    }
  }

  lemma {:induction false} TermComplete(e: Expression, toks: seq<Token>, pos: nat, q: nat)
    requires TermAt(e, toks, pos, q)
    ensures TermRule(toks, pos) == Matched(e, q)
    decreases e
  {
    if e.kind == ExpressionType.Operator {
      var left, right := e.left.value, e.right.value;
      var p := pos + Size(left);
      OperatorsDistinct(e.token);
      FactorComplete(left, toks, pos, p);
      TermComplete(right, toks, p + 1, q);
      assert TermRule(toks, pos) == Matched(Expression(ExpressionType.Operator, toks[p], Some(left), Some(right)), q);
    } else {
      FactorComplete(e, toks, pos, q);
    }
  }

  /** A sum is a term read from `pos` followed by a run of the chaining loop. */
  lemma {:induction false} SumComplete(e: Expression, toks: seq<Token>, pos: nat, q: nat)
    requires SumAt(e, toks, pos, q)
    ensures var term := TermRule(toks, pos);
      term.Matched? && ChainRule(toks, term.next, term.tree) == Matched(e, q)
    decreases e, 0
  {
    if e.kind == ExpressionType.Operator && IsAdditive(e.token) && e.left.Some? {
      var left, right := e.left.value, e.right.value;
      var p := pos + Size(left);
      OperatorsDistinct(e.token);
      TermComplete(left, toks, pos, p);
      ExpressionComplete(right, toks, p + 1, q);
      assert e == Expression(ExpressionType.Operator, toks[p], Some(left), Some(right));
      assert ChainRule(toks, q, e) == Matched(e, q);
      assert ChainRule(toks, p, left) == Matched(e, q);
    } else {
      TermComplete(e, toks, pos, q);
    }
  }

  lemma {:induction false} ExpressionComplete(e: Expression, toks: seq<Token>, pos: nat, q: nat)
    requires ExpressionAt(e, toks, pos, q)
    ensures ExpressionRule(toks, pos) == Matched(e, q)
    decreases e, 1
  {
    if e.kind == ExpressionType.Operator && IsMinus(e.token) && e.left.None? {
      SumComplete(e.right.value, toks, pos + 1, q);
    } else {
      FirstToken(e, toks, pos, q);
      SumComplete(e, toks, pos, q);
    }
  }
}
