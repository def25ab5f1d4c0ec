/**
  What the parser as a whole guarantees: each rule finds exactly the trees
  the grammar describes, the parse of a token list is unique, a tree's own
  tokens parse back to it, and a syntax error is reported exactly when no
  expression can be read from the start of the tokens.
*/
module Theorems {
  import opened Wrappers
  import opened Tokens
  import opened Ast
  import opened Rules
  import opened Grammar

  /** parseReference matches a reference chain exactly where the grammar finds one. */
  lemma ReferenceExact(toks: seq<Token>, pos: nat, e: Expression, q: nat)
    requires pos <= |toks|
    ensures ReferenceRule(toks, pos) == Matched(e, q) <==> ReferenceAt(e, toks, pos, q)
  {
    ReferenceSound(toks, pos);
    if ReferenceAt(e, toks, pos, q) {
      ReferenceComplete(e, toks, pos, q);
    }
  }

  /** parseFactor matches a literal or reference chain exactly where the grammar finds one. */
  lemma FactorExact(toks: seq<Token>, pos: nat, e: Expression, q: nat)
    requires pos <= |toks|
    ensures FactorRule(toks, pos) == Matched(e, q) <==> FactorAt(e, toks, pos, q)
  {
    FactorSound(toks, pos);
    if FactorAt(e, toks, pos, q) {
      FactorComplete(e, toks, pos, q);
    }
  }

  /** parseTerm matches a product exactly where the grammar finds one. */
  lemma TermExact(toks: seq<Token>, pos: nat, e: Expression, q: nat)
    requires pos <= |toks|
    ensures TermRule(toks, pos) == Matched(e, q) <==> TermAt(e, toks, pos, q)
  {
    TermSound(toks, pos);
    if TermAt(e, toks, pos, q) {
      TermComplete(e, toks, pos, q);
    }
  }

  /** parseExpression matches an expression exactly where the grammar finds one. */
  lemma ExpressionExact(toks: seq<Token>, pos: nat, e: Expression, q: nat)
    requires pos <= |toks|
    ensures ExpressionRule(toks, pos) == Matched(e, q) <==> ExpressionAt(e, toks, pos, q)
  {
    ExpressionSound(toks, pos);
    if ExpressionAt(e, toks, pos, q) {
      ExpressionComplete(e, toks, pos, q);
    }
  }

  /** parseTokenList returns exactly the expression the grammar reads from the first token. */
  lemma TokenListExact(toks: seq<Token>, e: Expression, q: nat)
    ensures TokenListRule(toks) == Matched(e, q) <==> ExpressionAt(e, toks, 0, q)
  {
    ExpressionExact(toks, 0, e, q);
  }

  /** The grammar, with the parser's stopping conditions, reads at most one expression at a place. */
  lemma Unambiguous(toks: seq<Token>, pos: nat, e1: Expression, q1: nat, e2: Expression, q2: nat)
    requires ExpressionAt(e1, toks, pos, q1) && ExpressionAt(e2, toks, pos, q2)
    ensures e1 == e2 && q1 == q2
  {
    ExpressionComplete(e1, toks, pos, q1);
    ExpressionComplete(e2, toks, pos, q2);
  }

  /** A syntax error is raised exactly when no expression starts at the first token. */
  lemma RejectsExactly(toks: seq<Token>)
    ensures TokenListRule(toks).SyntaxError? <==> forall e, q :: !ExpressionAt(e, toks, 0, q)
  {
    var r := TokenListRule(toks);
    if r.Matched? {
      TokenListExact(toks, r.tree, r.next);
    } else {
      forall e, q | ExpressionAt(e, toks, 0, q)
        ensures false
      {
        TokenListExact(toks, e, q);
      }
    }
  }

  /** A successful parse yields a well-shaped expression standing for a prefix of the tokens. */
  lemma ParseStandsForPrefix(toks: seq<Token>)
    ensures var r := TokenListRule(toks);
      r.Matched? ==> IsExpression(r.tree) && toks[..r.next] == Flatten(r.tree)
  {
    var r := TokenListRule(toks);
    if r.Matched? {
      TokenListExact(toks, r.tree, r.next);
      SpansSlice(r.tree, toks, 0, r.next);
    }
  }

  /** The tokens of a well-shaped expression parse back to that expression, consuming all of them. */
  lemma RoundTrip(e: Expression)
    requires IsExpression(e)
    ensures TokenListRule(Flatten(e)) == Matched(e, |Flatten(e)|)
  {
    var toks := Flatten(e);
    assert toks[0..|toks|] == toks;
    SliceSpans(e, toks, 0, |toks|);
    TokenListExact(toks, e, |toks|);
  }

  /**
    The chaining loop of parseExpression turns at most once: the expression it
    parses after a `+` or `-` has already taken every later `+` and `-`, so
    `a - b - c` groups as `a - (b - c)`.
  */
  lemma ChainAtMostOnce(toks: seq<Token>, pos: nat, acc: Expression)
    requires pos <= |toks|
    ensures ChainRule(toks, pos, acc)
      == if pos < |toks| && IsAdditive(toks[pos]) then
           var rest := ExpressionRule(toks, pos + 1);
           if rest.Matched?
           then Matched(Expression(ExpressionType.Operator, toks[pos], Some(acc), Some(rest.tree)), rest.next)
           else SyntaxError
         else Matched(acc, pos)
  {
    if pos < |toks| && IsAdditive(toks[pos]) {
      var rest := ExpressionRule(toks, pos + 1);
      if rest.Matched? {
        ExpressionSound(toks, pos + 1);
      }
    }
  }

  /**
    A leading minus negates the whole sum after it, not only the first term:
    `-2 + 3` reads as the negation of `2 + 3`.
  */
  lemma NegationWrapsSum(toks: seq<Token>, pos: nat)
    requires pos < |toks| && IsMinus(toks[pos])
    ensures var r := ExpressionRule(toks, pos);
      r.Matched? ==>
        && r.tree.kind == ExpressionType.Operator && r.tree.token == toks[pos]
        && r.tree.left.None? && r.tree.right.Some? && IsSum(r.tree.right.value)
  {
    ExpressionSound(toks, pos);
  }

  /** After `*`, `/` or `%` a factor must follow; otherwise the term is an error, never a partial tree. */
  lemma DanglingProductFails(toks: seq<Token>, pos: nat)
    requires pos <= |toks|
    ensures var factor := FactorRule(toks, pos);
      factor.Matched? && factor.next < |toks| && IsMultiplicative(toks[factor.next])
      && (factor.next + 1 == |toks| || !CanStartFactor(toks[factor.next + 1]))
      ==> TermRule(toks, pos) == SyntaxError
  {
  }

  /**
    After `+` or `-` an expression must follow: the chain is an error exactly
    when no expression can be read after the operator, in particular when the
    operator is the last token or is followed by a token that can start no
    expression.
  */
  lemma DanglingSumFails(toks: seq<Token>, pos: nat, acc: Expression)
    requires pos < |toks| && IsAdditive(toks[pos])
    ensures ChainRule(toks, pos, acc) == SyntaxError
        <==> forall e, q {:trigger ExpressionAt(e, toks, pos + 1, q)} :: !ExpressionAt(e, toks, pos + 1, q)
    ensures pos + 1 == |toks| || (!IsMinus(toks[pos + 1]) && !CanStartFactor(toks[pos + 1]))
        ==> ChainRule(toks, pos, acc) == SyntaxError
  {
    ChainAtMostOnce(toks, pos, acc);
    var rest := ExpressionRule(toks, pos + 1);
    if rest.Matched? {
      ExpressionExact(toks, pos + 1, rest.tree, rest.next);
    } else {
      forall e, q {:trigger ExpressionAt(e, toks, pos + 1, q)} | ExpressionAt(e, toks, pos + 1, q)
        ensures false
      {
        ExpressionExact(toks, pos + 1, e, q);
      }
    }
  }

  /** An expression must open with a minus or a factor; a minus must be followed by a factor. */
  lemma ExpressionStartFails(toks: seq<Token>, pos: nat)
    requires pos < |toks|
    requires if IsMinus(toks[pos]) then pos + 1 == |toks| || !CanStartFactor(toks[pos + 1])
             else !CanStartFactor(toks[pos])
    ensures ExpressionRule(toks, pos) == SyntaxError
  {
  }
}
