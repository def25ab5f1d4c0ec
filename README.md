# heluna-parser in Dafny

A model of the recursive-descent parser of the Heluna expression language
(`src/index.js` of heluna-parser). The parser turns a list of tokens into an
expression tree. The grammar covers literals (numbers, strings, `true` and
`false`), references (`$foo`) with `.key` accessor chains, the
multiplicative operators `*`, `/` and `%`, the additive operators `+` and `-`,
and a leading unary minus.

The model has two layers:

- **Rules** (`rules.dfy`) gives each grammar rule as a pure function of the
  token sequence and a cursor position. A rule returns `NoMatch` (the
  source's `null`, with the cursor back where it was), `Matched(tree, next)`,
  or `SyntaxError` (a `ParseException` thrown once a rule has committed).
- **Parser** (`parser.dfy`) follows the source method by method. Each method
  works on one shared mutable cursor, `Tokens.TokenList`. It reads with
  `Next`, pushes back with `ReturnToken` or `SetPosition`, and builds nodes
  by setting `left` and `right` one at a time. Each method is proved to
  return what its rule returns. It is also proved to leave the cursor just
  past the match, or where it started when nothing matched.

`Grammar` (`grammar.dfy`) describes the trees each rule can produce: their
shapes, the tokens a tree stands for (`Spans`, `Flatten`), and the token
after a match that the rule would not take (the stop conditions).
`Theorems` (`theorems.dfy`) proves each rule exact against that
description. It also proves that a parse is unique, that a tree's own
tokens parse back to it, and that a syntax error is reported exactly when
no expression can be read from the first token. `Examples`
(`examples.dfy`) gives the cases of the repository's test file, written as
the token lists the tokenizer would produce.

Where the grammar comment at the top of `src/index.js` and the code
differ, the model follows the code:

- The comment lets an accessor key be a full `<Reference>`, which could
  carry accessors of its own. The code makes a reference key a childless
  REFERENCE node, so `$foo.$bar.1` reads as `($foo.$bar).1`
  (`Examples.ReferenceKeyTakesNoAccessors`).
- The comment writes the additive part of an expression as a repetition
  `(...)*`. The loop in `parseExpression` does turn at most once, though,
  because the expression it parses after `+` or `-` has already taken
  every later `+` and `-` (`Theorems.ChainAtMostOnce`). Sums therefore
  group to the right.
- The comment's `Reference = '$' (<Integer> | <Identifier>)` describes
  the tokenizer's REFERENCE token. The parser takes that token whole.

## Model

| member | source | states |
|---|---|---|
| Tokens.TokenList.HasNext | src/index.js:90 | true exactly while a token is left to read |
| Tokens.TokenList.Next | src/index.js:49 | returns the token at the cursor and advances, or gives null at the end without moving |
| Tokens.TokenList.ReturnToken | src/index.js:56 | moves the cursor back by exactly one token |
| Tokens.TokenList.GetPosition | src/index.js:66 | returns the cursor position |
| Tokens.TokenList.SetPosition | src/index.js:80 | puts the cursor at a saved position |
| Tokens.TokenList.RequireNext | src/index.js:99 | like Next, but the end of input is an error |
| Ast.Leaf | src/index.js:38-43 | a new node has the given type and token and no left or right child |
| Rules.AccessorKey | src/index.js:100-112 | an integer or string key becomes a childless VALUE node, an identifier key a childless IDENTIFIER node, a reference key a childless REFERENCE node; a float or symbol key is refused |
| Rules.LiteralRule | src/index.js:48-58 | never an error; matches exactly the integer, float and string tokens and the identifiers true and false, and consumes exactly that token |
| Rules.AccessorRule | src/index.js:89-113 | never a no-match (an absent accessor returns the tree unchanged); a match ends within the tokens |
| Rules.ReferenceRule | src/index.js:116-125 | no match exactly at the end or on a token that is not a reference; a match consumes at least the reference |
| Rules.FactorRule | src/index.js:128-139 | no match exactly at the end or on a token that can start neither a literal nor a reference; a match consumes at least one token |
| Rules.TermRule | src/index.js:61-82 | no match exactly when no factor starts here; a match consumes at least one token and stays within the tokens |
| Rules.ExpressionRule | src/index.js:142-180 | no match exactly at the end of the tokens, so the null check in parseTokenList is never reached on non-empty input |
| Rules.ChainRule | src/index.js:159-173 | the additive loop never gives a no-match; it either fails or matches within the tokens |
| Rules.TokenListRule | src/index.js:183-190 | never a no-match; empty input is an error; a match consumes at least one token |
| Parser.ParseLiteral | src/index.js:48-58 | computes LiteralRule; a literal token becomes a childless VALUE node and is consumed, any other token is pushed back |
| Parser.ParseTerm | src/index.js:61-82 | computes TermRule; on a match the cursor is just past the term, on no match it is unmoved, and without a following operator the position saved after the factor is restored |
| Parser.AttachAccessor | src/index.js:89-113 | computes AccessorRule, leaving the cursor just past the last accessor |
| Parser.ParseReference | src/index.js:116-125 | computes ReferenceRule; on no match the cursor is unmoved |
| Parser.ParseFactor | src/index.js:128-139 | computes FactorRule; on no match the cursor is unmoved |
| Parser.ParseExpression | src/index.js:142-180 | computes ExpressionRule, with the negation wrapped around the result of the chaining loop |
| Parser.ParseChain | src/index.js:159-173 | the while loop of parseExpression computes ChainRule, leaving the cursor after the last operand or before the token that stopped it |
| Parser.ParseTokenList | src/index.js:183-190 | computes TokenListRule, leaving the cursor just past the expression |
| Grammar.SpansSlice | src/index.js:37-44 | a tree spanning a stretch of tokens has exactly those tokens, in order, as its flattened tokens |
| Grammar.SliceSpans | src/index.js:37-44 | conversely, a tree spans any stretch of tokens equal to its flattened tokens |
| Grammar.FirstToken | src/index.js:128-139 | a reference chain starts with its reference token; a term or sum never starts with a symbol |
| Grammar.AccessorSound | src/index.js:89-113 | the accessor loop extends a reference chain to a longer reference chain that stops before any further dot |
| Grammar.ReferenceSound | src/index.js:116-125 | a matched reference is a reference chain spanning the tokens read, not followed by a dot |
| Grammar.FactorSound | src/index.js:128-139 | a matched factor is a literal or reference chain spanning the tokens read, not followed by a `.` when it ends in a reference |
| Grammar.TermSound | src/index.js:61-82 | a matched term is a right-nested product of factors spanning the tokens read, not followed by `*`, `/` or `%`, nor by a `.` when it ends in a reference |
| Grammar.ExpressionSound | src/index.js:142-180 | a matched expression is a sum, or a minus around a sum, spanning the tokens read and followed by no token that would continue it (no `.` after a trailing reference, no `*`, `/` or `%`, no symbol `+` or `-`) |
| Grammar.ChainSound | src/index.js:159-173 | the chaining loop, started after a term, yields a sum spanning the term and what follows |
| Grammar.ReferenceReaches | src/index.js:97-111 | reading a reference chain's tokens brings the accessor loop to the end of the chain with that chain built |
| Grammar.ReferenceComplete | src/index.js:116-125 | the tokens of a reference chain that stops before any dot parse back to that chain |
| Grammar.FactorComplete | src/index.js:128-139 | a literal or reference chain whose tokens stand at the cursor parse back to it as a factor, provided the next token is one the rule would not take (no `.` after a chain ending in a reference) |
| Grammar.TermComplete | src/index.js:61-82 | a right-nested product whose tokens stand at the cursor parses back to it as a term, provided the next token is one the rule would not take (no `.` after a trailing reference, no `*`, `/` or `%`) |
| Grammar.SumComplete | src/index.js:159-173 | a sum is the term at its start followed by one run of the chaining loop |
| Grammar.ExpressionComplete | src/index.js:142-180 | a well-shaped expression whose tokens stand at the cursor parses back to it, provided the next token is one the rule would not take (no `.` after a trailing reference, no `*`, `/` or `%`, no symbol `+` or `-`) |
| Theorems.ReferenceExact | src/index.js:116-125 | parseReference matches a tree exactly when the grammar places a reference chain there |
| Theorems.FactorExact | src/index.js:128-139 | parseFactor matches a tree exactly when the grammar places a factor there |
| Theorems.TermExact | src/index.js:61-82 | parseTerm matches a tree exactly when the grammar places a term there |
| Theorems.ExpressionExact | src/index.js:142-180 | parseExpression matches a tree exactly when the grammar places an expression there |
| Theorems.TokenListExact | src/index.js:183-190 | parseTokenList returns a tree exactly when the grammar reads that expression from the first token |
| Theorems.Unambiguous | src/index.js:7-13 | at any place at most one expression can be read |
| Theorems.RejectsExactly | src/index.js:183-190 | parseTokenList throws exactly when no expression can be read from the first token |
| Theorems.ParseStandsForPrefix | src/index.js:183-190 | a parse result is a well-shaped expression whose tokens are the prefix consumed |
| Theorems.RoundTrip | src/index.js:183-190 | the tokens of any well-shaped expression parse back to that same expression, consuming all of them |
| Theorems.ChainAtMostOnce | src/index.js:159-173 | the chaining loop turns at most once, so sums nest to the right |
| Theorems.NegationWrapsSum | src/index.js:176-179 | a leading minus becomes an operator with no left operand and the whole sum as its right operand |
| Theorems.DanglingProductFails | src/index.js:69-72 | `*`, `/` or `%` not followed by a factor is an error, never a partial tree |
| Theorems.DanglingSumFails | src/index.js:162-164 | after `+` or `-` the chain is an error exactly when no expression can be read from the next token; in particular when the operator is the last token or the next token is neither a minus nor the start of a factor |
| Theorems.ExpressionStartFails | src/index.js:145-156 | an expression that opens with neither a factor nor a minus followed by a factor is an error |
| Examples.EmptyInputFails | src/index.test.js:32-35 | the empty token list is an error |
| Examples.LiteralsParse | src/index.test.js:37-75 | integer, float, string, false and true each parse to a single VALUE node |
| Examples.OtherIdentifierFails | src/index.js:53-57 | an identifier other than true or false starts no expression |
| Examples.SimpleProducts | src/index.test.js:77-110 | `3*7`, `4300*11`, `2/9` and `2%9` parse to one operator over two values |
| Examples.FloatProduct | src/index.test.js:91-96 | `6.3*5` parses to a product of a float and an integer |
| Examples.MissingTermFails | src/index.test.js:112-115 | `3*` is an error |
| Examples.ProductsGroupRight | src/index.test.js:117-129 | `3*11*42` is `3*(11*42)` and `5*11/9` is `5*(11/9)` |
| Examples.References | src/index.test.js:131-157 | `$foo`, `$foo.9`, `$foo."bar"` and `$foo.$bar` |
| Examples.IdentifierKey | src/index.js:104-107 | `$foo.bar` gives an ACCESS node whose key is an IDENTIFIER node |
| Examples.AccessorsGroupLeft | src/index.test.js:159-164 | `$foo.9.11.4` is `(($foo.9).11).4` |
| Examples.ReferenceKeyTakesNoAccessors | src/index.js:108-110 | `$foo.$bar.1` is `($foo.$bar).1` |
| Examples.AccessorErrors | src/index.js:99-112 | a dot at the end, or a float or symbol key, is an error |
| Examples.SimpleSums | src/index.test.js:166-178 | `2+9` and `2-9` |
| Examples.ReferenceMinusNumber | src/index.test.js:180-185 | `$foo-9` |
| Examples.NumberMinusReference | src/index.test.js:187-192 | `8-$foo` |
| Examples.Negation | src/index.test.js:195-200 | `-9` is a minus with no left operand |
| Examples.ProductInsideSum | src/index.test.js:202-207 | `2+9*4` is `2+(9*4)` |
| Examples.SumsGroupRight | src/index.js:159-173 | `2-9-4` is `2-(9-4)` |
| Examples.NegatedSum | src/index.js:176-179 | `-2+3` is `-(2+3)` |
| Examples.SumAndNegationErrors | src/index.js:149-164 | a lone minus, `--3`, `2+` and `*3` are errors |
| Examples.StringTextIsNotAdditive | src/index.js:162 | a string token whose text is `+` or `-` is not an additive operator, so the expression ends before it |
| Examples.TrailingTokensUnread | src/index.js:183-190 | `3 4` yields the value 3 and leaves the 4 unread |
| Examples.StringTextActsAsOperator | src/index.js:69 | a string token whose text is `*` acts as a multiplication operator, since only the text is tested |

## Left out

- Tokenization (`tokenizeString`, the token kinds and `ParseException` come from the heluna-tokenizer package): the token list is taken as given, and the cursor is modelled by `Tokens.TokenList` from how the parser uses it. How text such as `$foo.9.11` splits into tokens is the tokenizer's business.
- `parseString` (src/index.js:192-195) only chains the tokenizer and `parseTokenList`; the unclosed-string test is a tokenizer failure.
- Error payloads: a `ParseException`'s message, the token it carries (passed in a different argument order at src/index.js:112 than elsewhere) and source positions are not modelled; every committed failure is the one outcome `SyntaxError`.
- Token source positions are left out of `Tokens.Token`.
- Node kinds FUNCTION, BOOLEAN, LIST, EVALUATE, LABEL, FUNCTION_DEFINITION, IF, FOR, WITH and NOTHING (src/index.js:19-35) are never built and are not in `Ast.ExpressionType`.
- Numeric conversion and evaluation: the parser only compares token texts; numbers stay opaque text.
- The Jest harness and its `compareNodes` helper (src/index.test.js:3-30): the expected trees of the tests appear as example lemmas instead.
- Expression nodes are built once and never shared, so they are modelled as datatype values; setting `left` and `right` on a new node is a datatype update, and aliasing between nodes is not modelled.
- Parser.ParseLiteral: requires a token to be left at the cursor, as its only caller `parseFactor` ensures; at the end of input the source would read a field of `null`.
- Parser.ParseTokenList: requires the cursor to be at the first token, as it is at its only caller `parseString` (src/index.js:193-194), which passes a fresh token list.
- Parser.ParseChain: the while loop of `parseExpression` is its own method here, called where the loop stands in the source; the loop body and its exits are the source's.
