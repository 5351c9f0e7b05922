/** The lexer of src/acl.c as functions of the source text `src` and a cursor
    position: where skipping stops, which token starts there and where it ends.
    The imperative lexer (module Lexing) is proved to compute exactly these. */
module LexerSpec {
  import opened Chars
  import opened Tokens

  /** peekc: the byte under the cursor, or NUL past the end */
  function CharAt(src: seq<char>, i: nat): char {
    if i < |src| then src[i] else '\0'
  }

  predicate LineCommentAt(src: seq<char>, p: nat) {
    p + 1 < |src| && src[p] == '/' && src[p + 1] == '/'
  }

  predicate BlockCommentAt(src: seq<char>, p: nat) {
    p + 1 < |src| && src[p] == '/' && src[p + 1] == '*'
  }

  /** A comment closer "*" "/" starts at k */
  predicate CloseAt(src: seq<char>, k: nat) {
    k + 1 < |src| && src[k] == '*' && src[k + 1] == '/'
  }

  /** Where a line comment's scan stops: the first newline at or after i, or the end */
  function LineEnd(src: seq<char>, i: nat): (j: nat)
    requires i <= |src|
    ensures i <= j <= |src|
    ensures j == |src| || src[j] == '\n'
    ensures forall k :: i <= k < j ==> src[k] != '\n'
    decreases |src| - i
  {
    if i == |src| || src[i] == '\n' then i else LineEnd(src, i + 1)
  }

  /** Where a block comment's inner scan stops: the first closer at or after i,
      or the last byte of the input when there is none */
  function CloseScan(src: seq<char>, i: nat): (k: nat)
    requires i <= |src|
    ensures i <= k <= |src|
    ensures CloseAt(src, k) || k + 1 >= |src|
    ensures forall m :: i <= m < k ==> !CloseAt(src, m)
    decreases |src| - i
  {
    if i + 1 >= |src| || CloseAt(src, i) then i else CloseScan(src, i + 1)
  }

  /** Position after a block comment whose body starts at i: past the closer,
      or the end of the input when the comment is not closed */
  function BlockCommentEnd(src: seq<char>, i: nat): (j: nat)
    requires i <= |src|
    ensures i <= j <= |src|
    ensures j == |src| || (i + 2 <= j && CloseAt(src, j - 2))
    ensures forall m :: i <= m && m + 2 < j ==> !CloseAt(src, m)
    ensures (forall m :: i <= m < |src| ==> !CloseAt(src, m)) ==> j == |src|
  {
    var k := CloseScan(src, i);
    if CloseAt(src, k) then k + 2 else |src|
  }

  /** skip_spaces_and_comments: the position the cursor rests at */
  function SkipTo(src: seq<char>, p: nat): (q: nat)
    requires p <= |src|
    ensures p <= q <= |src|
    ensures q == |src| || (!IsSpace(src[q]) && !LineCommentAt(src, q) && !BlockCommentAt(src, q))
    decreases |src| - p
  {
    if p == |src| then p
    else if IsSpace(src[p]) then SkipTo(src, p + 1)
    else if LineCommentAt(src, p) then SkipTo(src, LineEnd(src, p + 2))
    else if BlockCommentAt(src, p) then SkipTo(src, BlockCommentEnd(src, p + 2))
    else p
  }

  /** The escape table of parse_escape_char */
  function EscapeOf(e: char): (r: char)
    ensures e == 'n' ==> r == '\n'
    ensures e == 't' ==> r == '\t'
    ensures e == 'r' ==> r == '\r'
    ensures e == '0' ==> r == '\0'
    ensures r != e <==> (e == 'n' || e == 't' || e == 'r' || e == '0')
  {
    match e
    case 'n' => '\n'
    case 't' => '\t'
    case 'r' => '\r'
    case '\\' => '\\'
    case '\'' => '\''
    case '"' => '"'
    case '0' => '\0'
    case _ => e
  }

  /** parse_escape_char with the cursor at i (just after a backslash): the decoded
      character and the new cursor; at the end of the input, a backslash */
  function EscapeAt(src: seq<char>, i: nat): (r: (char, nat))
    requires i <= |src|
    ensures r.1 <= |src|
    ensures i < |src| ==> r == (EscapeOf(src[i]), i + 1)
    ensures i == |src| ==> r == ('\\', i)
  {
    if i == |src| then ('\\', i) else (EscapeOf(src[i]), i + 1)
  }

  /** The string branch of next_token, with the cursor at i (after the opening
      quote): the decoded text up to the first unescaped quote, or up to the end */
  function StringBody(src: seq<char>, i: nat): (r: (string, nat))
    requires i <= |src|
    ensures i <= r.1 <= |src|
    ensures r.1 == |src| || (i < r.1 && src[r.1 - 1] == '"')
    ensures |r.0| <= r.1 - i
    decreases |src| - i
  {
    if i == |src| then ([], i)
    else if src[i] == '"' then ([], i + 1)
    else
      var (c, k) := if src[i] == '\\' then EscapeAt(src, i + 1) else (src[i], i + 1);
      var (t, j) := StringBody(src, k);
      ([c] + t, j)
  }

  /** The character branch of next_token, with the cursor at i (after the opening
      quote): one possibly escaped character, then an optional closing quote */
  function CharBody(src: seq<char>, i: nat): (r: (char, nat))
    requires i <= |src|
    ensures i <= r.1 <= |src| && r.1 <= i + 3
    ensures i < |src| ==> i < r.1
  {
    var (c, k) :=
      if CharAt(src, i) == '\\' then EscapeAt(src, i + 1)
      else if i < |src| then (src[i], i + 1)
      else ('\0', i);
    (c, if CharAt(src, k) == '\'' then k + 1 else k)
  }

  /** A string literal that no quote closes takes the rest of the input */
  lemma {:induction false} StringUnterminated(src: seq<char>, i: nat)
    requires i <= |src|
    requires forall k :: i <= k < |src| ==> src[k] != '"'
    ensures StringBody(src, i).1 == |src|
    decreases |src| - i
  {
    if i < |src| {
      var k := if src[i] == '\\' then EscapeAt(src, i + 1).1 else i + 1;
      StringUnterminated(src, k);
    }
  }

  /** A character literal's closing quote is optional: an unescaped character
      is taken, then a quote only if one follows; at the end of the input the
      character is NUL */
  lemma CharClosingQuoteOptional(src: seq<char>, i: nat)
    requires i <= |src|
    ensures i < |src| && src[i] != '\\' ==>
      CharBody(src, i) == (src[i], if i + 1 < |src| && src[i + 1] == '\'' then i + 2 else i + 1)
    ensures i == |src| ==> CharBody(src, i) == ('\0', i)
    ensures i < |src| && src[i] == '\\' ==>
      var (c, k) := EscapeAt(src, i + 1);
      CharBody(src, i) == (c, if k < |src| && src[k] == '\'' then k + 1 else k)
  {
  }

  /** End of the run of identifier characters starting at i */
  function WordEnd(src: seq<char>, i: nat): (j: nat)
    requires i <= |src|
    ensures i <= j <= |src|
    ensures j == |src| || !IsIdentChar(src[j])
    ensures forall k :: i <= k < j ==> IsIdentChar(src[k])
    decreases |src| - i
  {
    if i == |src| || !IsIdentChar(src[i]) then i else WordEnd(src, i + 1)
  }

  /** End of the run of decimal digits starting at i */
  function DigitsEnd(src: seq<char>, i: nat): (j: nat)
    requires i <= |src|
    ensures i <= j <= |src|
    ensures j == |src| || !IsDigit(src[j])
    ensures forall k :: i <= k < j ==> IsDigit(src[k])
    decreases |src| - i
  {
    if i == |src| || !IsDigit(src[i]) then i else DigitsEnd(src, i + 1)
  }

  predicate AllDigits(ds: seq<char>) {
    forall k :: 0 <= k < |ds| ==> IsDigit(ds[k])
  }

  /** The value of a decimal digit string, most significant digit first */
  function DecimalValue(ds: seq<char>): (v: nat)
    requires AllDigits(ds)
    ensures v == 0 <==> forall k :: 0 <= k < |ds| ==> ds[k] == '0'
  {
    if ds == [] then 0 else DecimalValue(ds[..|ds| - 1]) * 10 + DigitValue(ds[|ds| - 1])
  }

  /** strtol's overflow behaviour: a value out of range of `long` becomes its nearest bound */
  function Saturate(n: int): (r: int)
    ensures InLongRange(r)
    ensures InLongRange(n) ==> r == n
    ensures n > LongMax ==> r == LongMax
    ensures n < LongMin ==> r == LongMin
  {
    if n > LongMax then LongMax else if n < LongMin then LongMin else n
  }

  /** strtol(s, NULL, 10) on an optional minus sign followed by the digits ds */
  function StrToL(negative: bool, ds: seq<char>): (r: int)
    requires AllDigits(ds)
    ensures InLongRange(r)
    ensures negative ==> r <= 0
    ensures !negative ==> r >= 0
    ensures !negative && DecimalValue(ds) <= LongMax ==> r == DecimalValue(ds)
    ensures negative && DecimalValue(ds) <= -LongMin ==> r == -(DecimalValue(ds) as int)
    ensures r == 0 <==> forall k :: 0 <= k < |ds| ==> ds[k] == '0'
  {
    Saturate(if negative then -(DecimalValue(ds) as int) else DecimalValue(ds))
  }

  /** next_token once skipping is done, with the cursor at s: the token and the
      position just after it */
  function NextTokFrom(src: seq<char>, s: nat): (r: (Token, nat))
    requires s <= |src|
    ensures r.0.EOF? <==> s == |src|
    ensures r.0.EOF? ==> r.1 == s
    ensures !r.0.EOF? ==> s < r.1 <= |src|
    ensures r.0.Ident? ==> ValidName(r.0.text)
    ensures r.0.Int? ==> InLongRange(r.0.ival)
  {
    if s == |src| then (EOF, s)
    else
      var c := src[s];
      if c == '{' then (LBrace, s + 1)
      else if c == '}' then (RBrace, s + 1)
      else if c == '=' then (Eq, s + 1)
      else if c == ';' then (Semi, s + 1)
      else if c == '"' then
        var (text, e) := StringBody(src, s + 1);
        (Str(text), e)
      else if c == '\'' then
        var (ch, e) := CharBody(src, s + 1);
        (Char(ch), e)
      else if IsIdentStart(c) then
        var e := WordEnd(src, s + 1);
        assert IsWord(src[s..e]);
        (Classify(src[s..e]), e)
      else if IsDigit(c) || (c == '-' && s + 1 < |src| && IsDigit(src[s + 1])) then
        var d := if c == '-' then s + 1 else s;
        var e := DigitsEnd(src, d);
        assert AllDigits(src[d..e]);
        (Int(StrToL(c == '-', src[d..e])), e)
      else (Unknown, s + 1)
  }

  /** The fallback of next_token: a character that starts no token, a minus
      among them unless a digit follows it, is an unknown token of one character */
  lemma NextTokFromFallback(src: seq<char>, s: nat)
    requires s <= |src|
    ensures NextTokFrom(src, s).0.Unknown? <==>
      (s < |src| && src[s] !in "{}=;\"'" && !IsIdentStart(src[s]) && !IsDigit(src[s])
       && !(src[s] == '-' && s + 1 < |src| && IsDigit(src[s + 1])))
    ensures NextTokFrom(src, s).0.Unknown? ==> NextTokFrom(src, s).1 == s + 1
    ensures s < |src| && src[s] == '-' && !(s + 1 < |src| && IsDigit(src[s + 1])) ==>
      NextTokFrom(src, s) == (Unknown, s + 1)
  {
  }

  /** next_token: skip spaces and comments, then scan one token */
  function NextTok(src: seq<char>, p: nat): (r: (Token, nat))
    requires p <= |src|
    ensures r.0.EOF? <==> SkipTo(src, p) == |src|
    ensures r.0.EOF? ==> r.1 == |src|
    ensures !r.0.EOF? ==> p < r.1 <= |src|
  {
    NextTokFrom(src, SkipTo(src, p))
  }

  /** The tokens next_token returns from position p on, up to and including the
      first end-of-input token; every call before that one moves the cursor, so
      the sequence is finite */
  function TokensFrom(src: seq<char>, p: nat): (ts: seq<Token>)
    requires p <= |src|
    ensures 1 <= |ts| <= |src| - p + 1
    ensures ts[|ts| - 1] == EOF
    ensures forall k :: 0 <= k < |ts| - 1 ==> !ts[k].EOF?
    decreases |src| - p
  {
    var (t, q) := NextTok(src, p);
    if t.EOF? then [EOF] else [t] + TokensFrom(src, q)
  }

  /** The whole token stream of a source text */
  function Tokenize(src: seq<char>): (ts: seq<Token>)
    ensures 1 <= |ts| <= |src| + 1
    ensures ts[|ts| - 1] == EOF
    ensures forall k :: 0 <= k < |ts| - 1 ==> !ts[k].EOF?
    ensures SkipTo(src, 0) == |src| <==> ts == [EOF]
  {
    TokensFrom(src, 0)
  }
}
