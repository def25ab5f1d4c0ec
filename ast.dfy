/** The syntax tree the parser builds. */
module Ast {
  import opened Wrappers
  import Tokens

  /**
    The node kinds the parser actually builds. The source declares more
    (function, boolean, list, if, for, ...) that no rule produces.
  */
  datatype ExpressionType = Value | Operator | Identifier | Reference | Access

  /**
    A node: its kind, the token it was built from, and two optional
    children. A unary minus has only a right child.
  */
  datatype Expression = Expression(kind: ExpressionType, token: Tokens.Token,
                                   left: Option<Expression>, right: Option<Expression>)

  /** A fresh childless node, as the source's constructor makes it. */
  function Leaf(kind: ExpressionType, token: Tokens.Token): (r: Expression)
    ensures r.kind == kind && r.token == token
    ensures r.left.None? && r.right.None?
  {
    Expression(kind, token, None, None)
  }

  /** The tokens a tree stands for, in source order: left child, own token, right child. */
  function Flatten(e: Expression): (r: seq<Tokens.Token>)
    ensures |r| >= 1
  {
    (if e.left.Some? then Flatten(e.left.value) else [])
    + [e.token]
    + (if e.right.Some? then Flatten(e.right.value) else [])
  }
}
