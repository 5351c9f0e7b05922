/** The imperative lexer of src/acl.c: the globals `src`, `srclen` and `srcpos`
    become an object whose cursor `pos` the methods advance, and every method is
    proved to move the cursor exactly as the functions of LexerSpec say. */
module Lexing {
  import opened Chars
  import opened Tokens
  import opened LexerSpec

  class Lexer {
    /** src[0..srclen) */
    const src: seq<char>
    /** srcpos */
    var pos: nat
    /** The tokens next_token returns from the cursor on, up to the end-of-input token */
    ghost var rest: seq<Token>

    /** The cursor is inside the text and `rest` is what TokensFrom says; the
        link is only unfolded where a proof names TokensFrom at that position */
    ghost predicate Valid()
      reads this
    {
      && pos <= |src|
      && rest != [] && rest[|rest| - 1] == EOF
      && (forall p {:trigger TokensFrom(src, p)} :: p == pos ==> rest == TokensFrom(src, p))
    }

    /** The state main sets up before parsing: the cursor at the start of the text */
    constructor (text: seq<char>)
      ensures Valid() && src == text && pos == 0 && rest == Tokenize(text)
    {
      src := text;
      pos := 0;
      rest := Tokenize(text);
    }

    /** skip_spaces_and_comments */
    method SkipSpacesAndComments()
      requires pos <= |src|
      modifies this`pos
      ensures pos == SkipTo(src, old(pos))
    {
      while pos < |src|
        invariant pos <= |src|
        invariant SkipTo(src, pos) == SkipTo(src, old(pos))
        decreases |src| - pos
      {
        var c := src[pos];
        if IsSpace(c) {
          pos := pos + 1;
          continue;
        }
        if c == '/' && pos + 1 < |src| && src[pos + 1] == '/' {
          pos := pos + 2;
          SkipLineComment();
          continue;
        }
        if c == '/' && pos + 1 < |src| && src[pos + 1] == '*' {
          pos := pos + 2;
          SkipBlockComment();
          continue;
        }
        break;
      }
    }

    /** The body of a line comment: up to the newline, which is left in place */
    method SkipLineComment()
      requires pos <= |src|
      modifies this`pos
      ensures pos == LineEnd(src, old(pos))
    {
      while pos < |src| && src[pos] != '\n'
        invariant old(pos) <= pos <= |src|
        invariant LineEnd(src, pos) == LineEnd(src, old(pos))
        decreases |src| - pos
      {
        pos := pos + 1;
      }
    }

    /** The body of a block comment: up to and past the closer */
    method SkipBlockComment()
      requires pos <= |src|
      modifies this`pos
      ensures pos == BlockCommentEnd(src, old(pos))
    {
      while pos + 1 < |src| && !(src[pos] == '*' && src[pos + 1] == '/')
        invariant old(pos) <= pos <= |src|
        invariant CloseScan(src, pos) == CloseScan(src, old(pos))
        decreases |src| - pos
      {
        pos := pos + 1;
      }
      if pos + 1 < |src| {
        pos := pos + 2;
      } else {
        // an unterminated comment runs to the end of the input
        pos := |src|;
      }
    }

    /** peekc */
    method PeekC() returns (c: char)
      requires pos <= |src|
      ensures c == CharAt(src, pos)
    {
      if pos >= |src| {
        return '\0';
      }
      return src[pos];
    }

    /** getc_src */
    method GetC() returns (c: char)
      requires pos <= |src|
      modifies this`pos
      ensures pos <= |src| && c == CharAt(src, old(pos))
      ensures pos == if old(pos) < |src| then old(pos) + 1 else old(pos)
    {
      if pos >= |src| {
        return '\0';
      }
      c := src[pos];
      pos := pos + 1;
    }

    /** parse_escape_char, called with the cursor just after a backslash */
    method ParseEscapeChar() returns (c: char)
      requires pos <= |src|
      modifies this`pos
      ensures pos <= |src| && (c, pos) == EscapeAt(src, old(pos))
    {
      if pos >= |src| {
        return '\\';
      }
      var esc := GetC();
      c := EscapeOf(esc);
    }

    /** The string branch of next_token, entered just after the opening quote:
        the decoded text and the cursor after the closing quote (or at the end) */
    method ScanString() returns (buf: string)
      requires pos <= |src|
      modifies this`pos
      ensures pos <= |src| && (buf, pos) == StringBody(src, old(pos))
    {
      buf := [];
      assert buf + StringBody(src, pos).0 == StringBody(src, pos).0;
      while pos < |src|
        invariant pos <= |src| && old(pos) <= pos
        invariant StringBody(src, old(pos)) == (buf + StringBody(src, pos).0, StringBody(src, pos).1)
        decreases |src| - pos
      {
        ghost var at := pos;
        var ch := GetC();
        if ch == '"' {
          assert StringBody(src, at) == ([], pos) && buf + [] == buf;
          break;
        }
        if ch == '\\' {
          ch := ParseEscapeChar();
        }
        assert StringBody(src, at).0 == [ch] + StringBody(src, pos).0;
        assert buf + ([ch] + StringBody(src, pos).0) == (buf + [ch]) + StringBody(src, pos).0;
        buf := buf + [ch];
      }
      assert buf + [] == buf;
    }

    /** The character branch of next_token, entered just after the opening quote */
    method ScanChar() returns (ch: char)
      requires pos <= |src|
      modifies this`pos
      ensures pos <= |src| && (ch, pos) == CharBody(src, old(pos))
    {
      var next := PeekC();
      if next == '\\' {
        pos := pos + 1;
        ch := ParseEscapeChar();
      } else {
        ch := GetC();
      }
      next := PeekC();
      if next == '\'' {
        pos := pos + 1;
      }
    }

    /** The word branch of next_token: scan [A-Za-z0-9_]* and classify the word */
    method ScanWord() returns (t: Token)
      requires pos <= |src| && pos < |src| && IsIdentStart(src[pos])
      modifies this`pos
      ensures pos <= |src| && pos == WordEnd(src, old(pos) + 1)
      ensures t == Classify(src[old(pos)..pos])
    {
      var a := pos;
      pos := pos + 1;
      while pos < |src| && IsIdentChar(src[pos])
        invariant a < pos <= |src|
        invariant WordEnd(src, pos) == WordEnd(src, a + 1)
        decreases |src| - pos
      {
        pos := pos + 1;
      }
      return Classify(src[a..pos]);
    }

    /** The number branch of next_token: an optional minus sign, a run of digits,
        and strtol of the text */
    method ScanNumber() returns (t: Token)
      requires pos <= |src| && pos < |src|
      requires IsDigit(src[pos]) || (src[pos] == '-' && pos + 1 < |src| && IsDigit(src[pos + 1]))
      modifies this`pos
      ensures pos <= |src|
      ensures var d := if src[old(pos)] == '-' then old(pos) + 1 else old(pos);
        pos == DigitsEnd(src, d) && AllDigits(src[d..pos]) &&
        t == Int(StrToL(src[old(pos)] == '-', src[d..pos]))
    {
      var negative := src[pos] == '-';
      if negative {
        pos := pos + 1;
      }
      var d := pos;
      while pos < |src| && IsDigit(src[pos])
        invariant d <= pos <= |src|
        invariant DigitsEnd(src, pos) == DigitsEnd(src, d)
        decreases |src| - pos
      {
        pos := pos + 1;
      }
      assert AllDigits(src[d..pos]);
      return Int(StrToL(negative, src[d..pos]));
    }

    /** next_token, as a step along the token stream: the token is the first of
        `rest`, and `rest` loses it unless it is the end-of-input token */
    method NextToken() returns (t: Token)
      requires Valid()
      modifies this
      ensures Valid() && (t, pos) == NextTok(src, old(pos))
      ensures t == old(rest)[0]
      ensures t.EOF? ==> rest == old(rest) == [EOF] && pos == |src|
      ensures !t.EOF? ==> rest == old(rest)[1..]
    {
      ghost var p0, r0 := pos, rest;
      assert r0 == TokensFrom(src, p0);
      t := ScanToken();
      assert TokensFrom(src, p0) == if t.EOF? then [EOF] else [t] + TokensFrom(src, pos);
      rest := if t.EOF? then r0 else r0[1..];
      assert rest == TokensFrom(src, pos);
    }

    /** next_token: skip spaces and comments, then scan one token */
    method ScanToken() returns (t: Token)
      requires pos <= |src|
      modifies this`pos
      ensures pos <= |src| && (t, pos) == NextTok(src, old(pos))
    {
      SkipSpacesAndComments();
      if pos >= |src| {
        return EOF;
      }
      var c := PeekC();

      if c == '{' { pos := pos + 1; return LBrace; }
      if c == '}' { pos := pos + 1; return RBrace; }
      if c == '=' { pos := pos + 1; return Eq; }
      if c == ';' { pos := pos + 1; return Semi; }

      if c == '"' {
        pos := pos + 1;
        var text := ScanString();
        return Str(text);
      }
      if c == '\'' {
        pos := pos + 1;
        var ch := ScanChar();
        return Char(ch);
      }
      if IsIdentStart(c) {
        t := ScanWord();
        return;
      }
      if IsDigit(c) || (c == '-' && pos + 1 < |src| && IsDigit(src[pos + 1])) {
        t := ScanNumber();
        return;
      }

      pos := pos + 1;
      return Unknown;
    }
  }
}
