/**
  Tokens and the token cursor. Both come from the external tokenizer; the
  parser only reads token kinds and texts and moves the cursor. The cursor is
  stubbed here as an index into an immutable token sequence.
*/
module Tokens {
  import opened Wrappers

  /** The token kinds the tokenizer produces. */
  datatype TokenType = Integer | Float | String | Identifier | Symbol | Reference

  /** A token: its kind and its raw text (source positions are left out). */
  datatype Token = Token(kind: TokenType, data: string)

  /** The shared cursor every grammar rule advances and rewinds. */
  class TokenList {
    const tokens: seq<Token>
    var pos: nat

    predicate Valid()
      reads this
    {
      pos <= |tokens|
    }

    constructor (tokens: seq<Token>)
      ensures this.tokens == tokens && pos == 0 && Valid()
    {
      this.tokens := tokens;
      pos := 0;
    }

    /** True while some token is left to read. */
    method HasNext() returns (b: bool)
      ensures b <==> pos < |tokens|
    {
      b := pos < |tokens|;
    }

    /** Reads the next token and advances past it; gives None (the source's null) at the end. */
    method Next() returns (t: Option<Token>)
      requires Valid()
      modifies this
      ensures Valid()
      ensures old(pos) < |tokens| ==> t == Some(tokens[old(pos)]) && pos == old(pos) + 1
      ensures old(pos) == |tokens| ==> t == None && pos == old(pos)
    {
      if pos < |tokens| {
        t := Some(tokens[pos]);
        pos := pos + 1;
      } else {
        t := None;
      }
    }

    /** Pushes back the token just read. */
    method ReturnToken()
      requires Valid() && 0 < pos
      modifies this
      ensures Valid() && pos == old(pos) - 1
    {
      pos := pos - 1;
    }

    /** Saves the cursor position. */
    method GetPosition() returns (p: nat)
      requires Valid()
      ensures p == pos && p <= |tokens|
    {
      p := pos;
    }

    /** Restores a previously saved position. */
    method SetPosition(p: nat)
      requires p <= |tokens|
      modifies this
      ensures Valid() && pos == p
    {
      pos := p;
    }

    /** Like Next, but the end of input is an error (None stands for the raised ParseException). */
    method RequireNext() returns (t: Option<Token>)
      requires Valid()
      modifies this
      ensures Valid()
      ensures old(pos) < |tokens| ==> t == Some(tokens[old(pos)]) && pos == old(pos) + 1
      ensures old(pos) == |tokens| ==> t == None
    {
      t := Next();
    }
  }
}
