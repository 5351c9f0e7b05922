# A verified model of the ACL configuration reader

`src/acl.c` reads a configuration text made of named blocks, like this:

```
server "main" { int port = 8080; host = "example"; tls { enabled = true; } }
```

A block has a name, an optional string label, and a body in braces. The body
holds fields and child blocks. A field is `name = literal;`, optionally
preceded by a type keyword (`int`, `float`, `bool`, `string`). A literal is an
integer, `true`/`false`, a double-quoted string or a single-quoted character.

This project models the two stages of that reader:

- **The lexer.** `skip_spaces_and_comments`, `peekc`, `getc_src`,
  `parse_escape_char` and `next_token` move a cursor over the text.
- **The recursive-descent parser.** `advance`, `accept`, `expect`,
  `parse_literal_expr`, `parse_field`, `make_block`, `parse_block_recursive`
  (with its two-token lookahead) and `parse_all` keep one cached token and
  build the block tree.

Both stages are imperative in the source, so both are classes here.

- **`Lexing.Lexer`** holds the text and the cursor.
- **`Parsing.Parser`** holds the lexer, the cached token and the flag that
  says whether one is cached.

Every method is proved against a pure specification:

- `LexerSpec` gives the position each lexer step reaches and the token it
  returns. `LexerSpec.Tokenize` is the whole token stream.
- `Grammar` gives the tree or error that parsing a token sequence yields, and
  the tokens it leaves. `Grammar.ParseSource` is the whole front end.

Each `exit(1)` of the source is an `Err` with the matching `Ast.ParseError`.

On top of the specifications, the project proves these properties:

- **The lexer round trip** (`LexerProps.TokenizeText`). Spell a list of tokens,
  one space after each. Lexing that text gives the list back, then end of
  input. Integers are spelt as `%ld` prints them. Characters are spelt as
  `print_value` prints them. Strings are quoted with `"` and `\` escaped.
  Strings and characters must not contain NUL, because a NUL cannot be
  spelt so that it lexes back (see Left out).
- **The parser round trip** (`TreeProps.DocRoundTrip`). The token sequence of a
  well-formed tree parses back to that tree.
- **The whole front end** (`TreeProps.SourceRoundTrip`). The spelt tokens of a
  tree parse back to the tree.
- **Well-formedness** (`TreeProps.ParsedDocWf`). Every tree the parser returns
  is well formed:
  - each child records its parent's position, and each top-level block has no
    parent;
  - labels and string values contain no NUL, because the source copies them
    with `strdup`.

The spelling of a token (`LexerProps.Lexeme`, `LexerProps.Text`) is the
model's own. The source's printer (`print_blocks`) is not part of this model;
only its rendering of characters and integers is reused.

Modules, in dependency order:

| module | file | contents |
|---|---|---|
| `Chars` | chars.dfy | character classes of the C locale |
| `Tokens` | tokens.dfy | tokens and keyword classification |
| `Ast` | ast.dfy | values, fields, blocks and parse errors |
| `LexerSpec` | lexer_spec.dfy | the lexer as functions of the text and a position |
| `Lexing` | lexer.dfy | the lexer as a class with a cursor |
| `Grammar` | grammar.dfy | the parser as functions of a token sequence |
| `Parsing` | parser.dfy | the parser as a class with a cached token |
| `LexerProps` | lexer_props.dfy | spelling of tokens; the lexer round trip |
| `TreeProps` | tree_props.dfy | tokens of a tree; parser round trip; well-formedness |
| `Findings` | findings.dfy | the unterminated-comment discrepancy |

## Model

| member | source | states |
|---|---|---|
| Lexing.Lexer.constructor | src/acl.c:544-547 | the cursor starts at 0 over the whole text, and the tokens still to come are the text's whole token stream |
| Lexing.Lexer.SkipSpacesAndComments | src/acl.c:42-59 | the cursor moves to `SkipTo`: past white space, line comments and block comments |
| LexerSpec.SkipTo | src/acl.c:42-59 | the skip stops at the end of input or at a character that is neither white space nor the start of a comment, and never moves backwards |
| Lexing.Lexer.SkipLineComment | src/acl.c:46-50 | the cursor moves to the first newline at or after it, or to the end of input |
| LexerSpec.LineEnd | src/acl.c:48 | the first newline at or after i, or the end of input; no newline lies in between |
| Lexing.Lexer.SkipBlockComment | src/acl.c:51-55 | the cursor moves past the first `*/`, or to the end of input when there is none (corrected; see Findings) |
| LexerSpec.CloseScan | src/acl.c:53 | the scan stops at the first `*/`, or where fewer than two characters remain; no `*/` starts before that point |
| LexerSpec.BlockCommentEnd | src/acl.c:51-55 | the comment ends just after the first `*/` in its body, or at the end of input when there is none (corrected; see Findings) |
| Lexing.Lexer.PeekC | src/acl.c:61-64 | the character at the cursor, or NUL at the end of input; the cursor does not move |
| Lexing.Lexer.GetC | src/acl.c:66-69 | the character at the cursor, or NUL at the end; the cursor moves one step unless it is at the end |
| Lexing.Lexer.ParseEscapeChar | src/acl.c:80-93 | at the end of input, a backslash and no move; otherwise the escape table's translation of the next character, and one step |
| LexerSpec.EscapeAt | src/acl.c:80-93 | at the end of input a backslash with the position unchanged; otherwise the escape table's translation, one position on |
| LexerSpec.EscapeOf | src/acl.c:83-92 | `n`, `t`, `r` and `0` become newline, tab, carriage return and NUL; every other character, the backslash and both quotes included, stands for itself |
| LexerSpec.StringBody | src/acl.c:106-125 | the body ends at the end of input or just after a closing quote, and the decoded text is no longer than the characters read |
| LexerSpec.StringUnterminated | src/acl.c:111-120 | a string with no double quote after its opening quote runs to the end of input |
| LexerSpec.CharBody | src/acl.c:127-140 | a character literal reads at most three characters, and at least one unless it is at the end of input |
| LexerSpec.CharClosingQuoteOptional | src/acl.c:127-140 | an unescaped character is taken as it is, an escaped one is decoded by `parse_escape_char`, and in both cases the closing quote is skipped only when it is there; at the end of input the character is NUL |
| Lexing.Lexer.ScanString | src/acl.c:106-125 | the decoded string body up to the first unescaped quote or the end of input, and the cursor after it, as `StringBody` defines |
| Lexing.Lexer.ScanChar | src/acl.c:127-140 | one character, possibly escaped, then an optional closing quote, as `CharBody` defines |
| Lexing.Lexer.ScanWord | src/acl.c:142-156 | the cursor moves to the end of the run of identifier characters, and the token is the classification of the word read |
| LexerSpec.WordEnd | src/acl.c:145 | every character before the end is an identifier character, and the one at the end is not |
| Tokens.Classify | src/acl.c:147-155 | the keyword table: `int`, `float`, `bool` and `string` are the four type keywords, `true` and `false` are the booleans with those values, and every other word is an identifier that keeps the word |
| Lexing.Lexer.ScanNumber | src/acl.c:158-167 | the cursor moves past an optional minus and the digit run after it, and the token is `strtol` of that text |
| LexerSpec.DigitsEnd | src/acl.c:161 | every character before the end is a digit, and the one at the end is not |
| LexerSpec.Saturate | src/acl.c:164 | an out-of-range value becomes the nearest bound of `long`; a value in range is unchanged |
| LexerSpec.DecimalValue | src/acl.c:164 | a digit string has value zero exactly when every digit is `0` |
| LexerSpec.StrToL | src/acl.c:164 | the result is in the range of `long`, has the sign written, is exact when the value fits, and is zero exactly when every digit is `0` |
| Lexing.Lexer.ScanToken | src/acl.c:95-172 | the token and the new cursor are `NextTok` of the old cursor |
| Lexing.Lexer.NextToken | src/acl.c:95-172 | the token is the first of those still to come, and it is removed from them unless it is the end-of-input token, which repeats |
| LexerSpec.NextTokFrom | src/acl.c:98-172 | the token is end of input exactly at the end of the text; any other token consumes at least one character; identifiers are valid names and integers are in the range of `long` |
| LexerSpec.NextTokFromFallback | src/acl.c:158-171 | the token is unknown exactly when the character starts no punctuation, quote, word or number, and a minus counts as a number only before a digit; an unknown token takes exactly one character |
| LexerSpec.NextTok | src/acl.c:95-172 | the token is end of input exactly when only white space and comments remain; otherwise the cursor moves forward |
| LexerSpec.TokensFrom | src/acl.c:95-172 | the stream of repeated `next_token` calls ends with exactly one end-of-input token and is no longer than the text plus one |
| LexerSpec.Tokenize | src/acl.c:95-172 | the token stream of a text is non-empty, ends with its only end-of-input token, and is just that token exactly when the text holds only white space and comments |
| Grammar.CString | src/acl.c:257 | the copy that `strdup` makes: the longest prefix without NUL, which stops at the first NUL |
| Parsing.Parser.constructor | src/acl.c:544-547 | no token is cached, and the tokens still to come are the text's whole token stream |
| Parsing.Parser.Advance | src/acl.c:215-222 | a token is cached; the previous cached token, if any, is dropped from the stream unless it was end of input |
| Parsing.Parser.Accept | src/acl.c:224-227 | true exactly when the next token has the given kind; the stream is unchanged |
| Parsing.Parser.Expect | src/acl.c:229-234 | no error when the next token has the given kind; otherwise the error names the kind wanted and the kind found |
| Parsing.Parser.Consume | src/acl.c:292-293 | `expect` then `advance`: on success exactly one token is consumed; on failure the error names both kinds and nothing is consumed |
| Grammar.ParseLiteral | src/acl.c:240-269 | succeeds exactly on an integer, boolean, string or character token, giving its value and dropping one token; any other token gives the literal error with its kind |
| Parsing.Parser.ParseLiteralExpr | src/acl.c:240-269 | the result and the stream left are those of `ParseLiteral` |
| Parsing.Parser.ParseField | src/acl.c:273-307 | the result and the stream left are those of `ParseFieldSpec` |
| Parsing.Parser.ParseFieldName | src/acl.c:284-290 | the result and the stream left are those of `ParseNamedField` |
| Parsing.Parser.ParseFieldEq | src/acl.c:292-293 | the result and the stream left are those of `Grammar.ParseFieldEq` |
| Parsing.Parser.ParseFieldRest | src/acl.c:295-306 | the result and the stream left are those of `ParseFieldValue` |
| Grammar.ParseFieldSpec | src/acl.c:273-307 | an untyped field is read without a type, a typed one must start with a type keyword or fails with the bad-type error; a parsed field has a type exactly when it was typed, and consumes at least one token |
| Grammar.ParseNamedField | src/acl.c:284-307 | a token other than an identifier is the missing-field-name error; a parsed field takes its name from that identifier and keeps the type given, and consumes at least one token |
| Grammar.ParseFieldEq | src/acl.c:292-307 | a token other than `=` is the error that names `=` and the kind found; a parsed field keeps the name and type given, and consumes at least one token |
| Grammar.ParseFieldValue | src/acl.c:295-307 | a token that is no literal is the literal error naming its kind; a parsed field keeps the name and type given, and consumes at least one token |
| Grammar.FieldValueEnd | src/acl.c:295-298 | after a literal, the field ends with `;` or fails with the `;` error that names the kind found |
| Parsing.Parser.LooksLikeChildBlock | src/acl.c:371-400 | true exactly when an identifier is followed by `{`, or by a string and `{`; the cursor, the cached token and the stream are restored |
| Parsing.Parser.ParseBlockRecursive | src/acl.c:324-421 | the result and the stream left are those of `ParseBlockSpec` |
| Parsing.Parser.ParseBlockAfterName | src/acl.c:333-344 | the result and the stream left are those of `ParseBlockTail` |
| Parsing.Parser.ParseOpenBlockBody | src/acl.c:341-344 | the result and the stream left are those of `ParseOpenBody` |
| Parsing.Parser.ParseBlockBody | src/acl.c:347-420 | the result and the stream left are those of `ParseBody` |
| Grammar.ParseBlockSpec | src/acl.c:324-421 | a token other than an identifier is the missing-block-name error; a parsed block is named after that identifier, has the parent given, and consumes at least one token |
| Grammar.ParseBlockTail | src/acl.c:333-421 | a parsed block keeps the name and parent given; its label is the `strdup` copy of a string token right after the name, and there is none otherwise; it consumes at least one token |
| Grammar.ParseOpenBody | src/acl.c:341-421 | a token other than `{` is the error that names `{` and the kind found; a parsed block keeps the name, label and parent, and consumes at least one token |
| Grammar.ParseBody | src/acl.c:350-418 | `}` ends the body with the block as it stands and drops the brace; end of input is the end-of-input-in-block error; a parsed body keeps the name, label and parent and consumes at least its closing brace |
| Grammar.ParseBodyItem | src/acl.c:361-417 | a token that is neither a type keyword nor an identifier is the unexpected-token error naming its kind; a parsed field or child block keeps the name, label and parent and consumes at least one token |
| Grammar.BodyField | src/acl.c:361-368 | a typed field, or an identifier that does not start a child block, is appended to the fields, and the body goes on after it |
| Grammar.BodyChild | src/acl.c:402-406 | a child block is appended to the children with the parent's position as its parent, and the body goes on after it |
| Grammar.BodyExtends | src/acl.c:350-418 | the body loop only appends: the fields and children it starts with are prefixes of those it ends with, and the head is unchanged |
| Grammar.ItemExtends | src/acl.c:361-413 | one body item appends exactly one field or one child and changes nothing else |
| Grammar.StartsChildBlockShape | src/acl.c:380-391 | the lookahead holds exactly when the next tokens are an identifier and `{`, or an identifier, a string and `{` |
| Grammar.MakeBlock | src/acl.c:311-321 | a new block has the name, label and parent given, and no fields or children |
| Grammar.ValueOf | src/acl.c:245-264 | integers, booleans and characters keep their payload; a string value is the prefix of the token text before its first NUL, and holds no NUL |
| Grammar.ParseDocSpec | src/acl.c:424-439 | end of input finishes with the blocks read so far; a token other than an identifier at the top level is the top-level error; a result extends the blocks read so far, and each block it adds has no parent |
| Grammar.ParseSource | src/acl.c:544-549 | a text of only white space and comments is the empty tree; every top-level block of a result has no parent |
| Parsing.Parser.ParseAll | src/acl.c:424-439 | the result is `ParseDocSpec` of the whole stream still to come |
| Parsing.Parse | src/acl.c:544-549 | parsing a text gives `ParseSource` of it: the tree, or the first error |
| LexerProps.Digits | src/acl.c:445 | the spelling of a non-negative integer is a non-empty run of decimal digits |
| LexerProps.DigitsValue | src/acl.c:164 | the digits of n read back as n |
| LexerProps.StrToLDigits | src/acl.c:164 | `strtol` reads the spelling of any value in the range of `long` back as that value |
| LexerProps.DigitsEndAt | src/acl.c:161 | the digit scan stops at the first non-digit |
| LexerProps.ScanDigits | src/acl.c:161 | the digits of m followed by a non-digit are read whole |
| LexerProps.IntBranch | src/acl.c:158-167 | a digit, or a minus before a digit, yields `strtol` of the digit run and the position after it |
| LexerProps.ScanInt | src/acl.c:158-167 | an integer's spelling followed by a space is scanned as that integer, and the cursor ends just after the spelling |
| LexerProps.ScanNatural | src/acl.c:158-167 | the same for a non-negative integer |
| LexerProps.ScanUnsigned | src/acl.c:158-167 | digits not preceded by a minus are read as their value |
| LexerProps.ScanNegative | src/acl.c:158-167 | the same for a negative integer |
| LexerProps.ScanMinus | src/acl.c:158-167 | a minus directly before the digits of -n is read as n |
| LexerProps.ScanQuoted | src/acl.c:106-125 | the string branch decodes a quoted body back to the original text, and stops just after the closing quote |
| LexerProps.ScanStr | src/acl.c:106-125 | a quoted string is scanned as that string |
| LexerProps.ScanRenderedChar | src/acl.c:127-140 | a character rendered as `print_value` prints it (src/acl.c:448-454) is scanned as that character |
| LexerProps.ScanSymbol | src/acl.c:101-104 | `{`, `}`, `=` and `;` are scanned as themselves |
| LexerProps.ScanWord | src/acl.c:142-156 | a word followed by a non-word character is scanned whole and classified |
| LexerProps.ScanKeyword | src/acl.c:147-152 | a type keyword or a boolean is scanned as itself |
| LexerProps.ScanIdent | src/acl.c:142-156 | an identifier that is a valid name is scanned as itself |
| LexerProps.ScanFrom | src/acl.c:98-172 | every lexable token's spelling is scanned as that token, and the cursor ends just after the spelling |
| LexerProps.ScanLexeme | src/acl.c:95-172 | at a spelling, no skipping happens and `next_token` returns the token |
| LexerProps.LexemeHead | src/acl.c:42-59 | a spelling starts neither with white space nor with `/`, so the skip leaves it alone |
| LexerProps.TokensAfterSpelt | src/acl.c:95-172 | a spelt token, a space and then text that lexes to `rest` lex to the token followed by `rest` |
| LexerProps.TokensOfText | src/acl.c:95-172 | from where the spelt tokens begin, lexing gives them back and then the end of input |
| LexerProps.TokenizeText | src/acl.c:95-172 | tokenizing the spelling of any list of lexable tokens (valid names, integers in range, strings and characters without NUL) gives the list back, then the end of input |
| TreeProps.CStringNulFree | src/acl.c:257 | `strdup` keeps a string without NUL whole |
| TreeProps.MakeBlockWf | src/acl.c:311-321 | a new block whose label holds no NUL is well formed wherever it is placed |
| TreeProps.ValueRoundTrip | src/acl.c:240-269 | the token of a value parses back to that value and leaves the tail |
| TreeProps.FieldRoundTrip | src/acl.c:273-307 | the tokens of a field, typed or inferred, parse back to that field and leave the tail |
| TreeProps.NamedFieldRoundTrip | src/acl.c:284-307 | name, `=`, value and `;` parse back to the field |
| TreeProps.BodyFieldStep | src/acl.c:361-368 | a field's tokens in a block body append that field and the body goes on |
| TreeProps.BodyFields | src/acl.c:350-418 | the tokens of a list of fields in a body append those fields in order |
| TreeProps.BlockHead | src/acl.c:324-344 | a name, an optional label and `{` start a block with that name, label and parent |
| TreeProps.BlockRoundTrip | src/acl.c:324-421 | the tokens of a well-formed block parse back to that block and leave the tail |
| TreeProps.ChildrenRoundTrip | src/acl.c:350-418 | the children's tokens and the closing brace rebuild the block from its first k children |
| TreeProps.ChildStep | src/acl.c:402-406 | the tokens of the k-th child in a body parse back to that child, which is appended as the body goes on |
| TreeProps.ChildrenDone | src/acl.c:352-355 | once every child is read, the closing brace ends the body with the whole block |
| TreeProps.DocFrom | src/acl.c:424-439 | parsing the tokens of the remaining top-level blocks completes the list |
| TreeProps.DocRoundTrip | src/acl.c:424-439 | the tokens of a well-formed list of blocks, then end of input, parse back to that list |
| TreeProps.ParsedFieldNulFree | src/acl.c:257 | a parsed field's string value has no NUL |
| TreeProps.ParsedBlockWf | src/acl.c:311-421 | a parsed block is well formed: its parent is the one given, and each child records this block's position as its parent |
| TreeProps.ParsedBodyWf | src/acl.c:350-418 | the body loop keeps the block well formed |
| TreeProps.ParsedItemWf | src/acl.c:361-413 | one field or child block keeps the block well formed |
| TreeProps.AppendField | src/acl.c:365 | appending a field without NUL keeps a block well formed |
| TreeProps.AppendChild | src/acl.c:403-405 | appending a child whose parent is this block keeps it well formed |
| TreeProps.ParsedDocFrom | src/acl.c:424-439 | the top-level loop keeps every block well formed, with no parent |
| TreeProps.ParsedDocWf | src/acl.c:424-439 | every tree the front end returns is well formed |
| TreeProps.LexableConcat | src/acl.c:95-172 | joining two lists of lexable tokens gives a lexable list |
| TreeProps.FieldsLexable | src/acl.c:95-172 | the tokens of fields with valid names and in-range integers are lexable |
| TreeProps.BlockLexable | src/acl.c:95-172 | the tokens of a spellable block are lexable |
| TreeProps.ChildrenLexable | src/acl.c:95-172 | the tokens of spellable children are lexable |
| TreeProps.DocLexable | src/acl.c:95-172 | the tokens of spellable blocks are lexable |
| TreeProps.SourceRoundTrip | src/acl.c:544-549 | the spelt tokens of a well-formed, spellable tree (valid names, integers in range, no NUL in labels or values) parse back to that tree through the whole front end |
| Findings.BlockCommentEndAsWritten | src/acl.c:51-55 | as written, a block comment without a closer ends where the scan stopped |
| Findings.SkipToAsWritten | src/acl.c:42-59 | the skip as written stops at the end or at a character that starts no space or comment |
| Findings.CloseScanInside | src/acl.c:53 | a closer scan that starts inside the text stops inside it |
| Findings.UnclosedCommentAsWritten | src/acl.c:51-55 | as written, an unterminated comment with a body ends on the last character, and the skip stops there unless that character is white space |
| Findings.UnclosedCommentLeaksLastByte | src/acl.c:51-55 | as written, the text slash, star, x skips to position 2, and `next_token` returns the identifier `x` |
| Findings.UnclosedCommentRunsToEnd | src/acl.c:51-55 | corrected, nothing after an unterminated comment is a token: the skip reaches the end and the next token is end of input |
| Findings.UnclosedCommentIsSkipped | src/acl.c:51-55 | corrected, the text slash, star, x is skipped whole and lexes to end of input |

## Left out

- Input and output: reading the file or standard input (src/acl.c:490-502, 527-542) and printing the tree (src/acl.c:443-486) are not modelled. The text is a parameter. Only the char and integer renderings of `print_value` are used, as the spelling in `LexerProps`.
- Memory: `malloc`, `realloc`, `free`, `tk_free` and `free_blocks` are not modelled. A failed allocation's `exit(1)` is not modelled either. Strings and lists are values.
- Error output: each `exit(1)` becomes an `Err` naming the error site and the token kinds involved. The message text is not modelled.
- Input bytes: each input byte is one `char`, and the character classes are those of the C locale (ASCII). The source's text ends at its first NUL byte (`strlen`, src/acl.c:546). The model's text stands for the bytes before that NUL. A NUL that an escape such as `\0` puts into a string is kept in the token and cut off by `strdup` (`Grammar.CString`).
- `long` is 64 bits wide, and `strtol` saturates at its bounds (`LexerSpec.Saturate`).
- The `int` that holds a character value is not modelled with C's signedness: a character is a `char` throughout.
- `Parsing.Parser.LooksLikeChildBlock` restores the whole cached token and cursor. The source restores only the kind, the text and the cursor. The cached token there is always an identifier, so nothing else in it is read afterwards.
- The `if (!P.have_cur) advance();` guards are kept as in the source, except at src/acl.c:335, 382 and 387. Each of those follows an `advance`, so a token is always cached there and the guard never fires.
- The source keeps a block's fields and its children as two separate linked lists. The model does the same with two sequences, so the order of fields relative to children is lost in both.
- Float values: `float` is only a type keyword, and there is no float literal in the lexer. A `float` field holds whatever literal follows it, as in the source.
- `Lexing.Lexer.SkipBlockComment` and `LexerSpec.BlockCommentEnd`: these follow the corrected behaviour for an unterminated comment, not the source as written. See Findings. Everything built on them inherits the correction: `LexerSpec.SkipTo`, `LexerSpec.NextTok`, `LexerSpec.TokensFrom`, `LexerSpec.Tokenize`, `Lexing.Lexer.SkipSpacesAndComments`, `Lexing.Lexer.ScanToken`, `Lexing.Lexer.NextToken`, `Grammar.ParseSource`, `Parsing.Parse` and `Parsing.Parser.ParseAll`. The as-written skip is `Findings.SkipToAsWritten`.
- NUL in the lexer round trip: a string or character holding NUL is not lexable in `LexerProps`, and a tree holding one is not spellable in `TreeProps`. The escape `\0` does lex to NUL, but the model's spelling writes NUL raw, and a raw NUL ends the source's text (`strlen`). So `LexerProps.TokenizeText` and `TreeProps.SourceRoundTrip` say nothing about such tokens.

## Findings

| source | as written | input that shows it | evidently intended | confidence | as-written member | corrected member |
|---|---|---|---|---|---|---|
| src/acl.c:51-55 | when a block comment with a body is never closed, the scan stops on the last character of the input and `srcpos += 2` is skipped, so that character is lexed as a token unless it is white space | the text slash, star, x (`/*x`): the skip stops at 2 and `next_token` returns the identifier `x` | a comment that is never closed runs to the end of the input, and the next token is end of input | not executed | Findings.UnclosedCommentLeaksLastByte | Findings.UnclosedCommentRunsToEnd |
