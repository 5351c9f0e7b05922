/** What the lexer of src/acl.c promises, stated against the functions of
    LexerSpec: every well-formed token has a spelling that the lexer reads back
    as exactly that token, so rendering a token list and lexing the text gives
    the list back. */
module LexerProps {
  import opened Chars
  import opened Tokens
  import opened LexerSpec

  /** The decimal digits of n, most significant first: what "%ld" prints for a
      non-negative value */
  function Digits(n: nat): (ds: seq<char>)
    ensures |ds| > 0 && AllDigits(ds)
    decreases n
  {
    if n < 10 then [DigitChar(n)] else Digits(n / 10) + [DigitChar(n % 10)]
  }

  /** strtol reads the digits of n back as n */
  lemma {:induction false} DigitsValue(n: nat)
    ensures DecimalValue(Digits(n)) == n
    decreases n
  {
    if n >= 10 {
      var ds := Digits(n);
      assert ds[..|ds| - 1] == Digits(n / 10);
      DigitsValue(n / 10);
    }
  }

  /** A string literal's body with '"' and the backslash escaped, so that the
      string branch of next_token decodes it to s */
  function Quote(s: string): (q: string)
    ensures |q| >= |s|
  {
    if s == [] then []
    else (if s[0] == '"' || s[0] == '\\' then ['\\', s[0]] else [s[0]]) + Quote(s[1..])
  }

  /** print_value's rendering of a character value (VAL_CHAR) */
  function RenderChar(c: char): (r: string)
    ensures 3 <= |r| <= 4 && r[0] == '\'' && r[|r| - 1] == '\''
  {
    if c == '\n' then "'\\n'"
    else if c == '\t' then "'\\t'"
    else if c == '\r' then "'\\r'"
    else if c == '\\' then "'\\\\'"
    else if c == '\'' then "'\\''"
    else ['\'', c, '\'']
  }

  /** A token next_token can return and whose spelling the program reads
      whole: an identifier that is a word and no keyword, an integer in the
      range of `long`, strings and characters without NUL (the text ends at
      its first NUL byte) */
  predicate Lexable(t: Token) {
    match t
    case EOF => false
    case Ident(w) => ValidName(w)
    case Int(n) => InLongRange(n)
    case Str(s) => '\0' !in s
    case Char(c) => c != '\0'
    case _ => true
  }

  /** The spelling of a token */
  function Lexeme(t: Token): string {
    match t
    case EOF => []
    case Ident(w) => w
    case Int(n) => if n < 0 then ['-'] + Digits(-n) else Digits(n)
    case Str(s) => ['"'] + Quote(s) + ['"']
    case Char(c) => RenderChar(c)
    case Bool(b) => if b then "true" else "false"
    case LBrace => "{"
    case RBrace => "}"
    case Eq => "="
    case Semi => ";"
    case TypeInt => "int"
    case TypeFloat => "float"
    case TypeBool => "bool"
    case TypeString => "string"
    case Unknown => "#"
  }

  /** Every token of ts is lexable, element by element */
  predicate AllLexable(ts: seq<Token>) {
    ts == [] || (Lexable(ts[0]) && AllLexable(ts[1..]))
  }

  lemma {:induction false} AllLexableEach(ts: seq<Token>)
    requires forall i :: 0 <= i < |ts| ==> Lexable(ts[i])
    ensures AllLexable(ts)
  {
    if ts != [] {
      AllLexableEach(ts[1..]);
    }
  }

  /** The tokens spelt one after the other, each followed by a space */
  function Text(ts: seq<Token>): string {
    if ts == [] then [] else Lexeme(ts[0]) + " " + Text(ts[1..])
  }

  /** A spelling neither starts with a space nor with '/', so nothing is skipped
      before it */
  lemma LexemeHead(t: Token)
    requires Lexable(t)
    ensures |Lexeme(t)| > 0
    ensures !IsSpace(Lexeme(t)[0]) && Lexeme(t)[0] != '/'
  {
    match t
    case Int(n) =>
    case Ident(w) =>
    case _ =>
  }

  /** A part of a slice is a slice of the same sequence */
  lemma SliceOfSlice(src: seq<char>, p: nat, l: string, a: nat, b: nat)
    requires p + |l| <= |src| && src[p..p + |l|] == l && a <= b <= |l|
    ensures src[p + a..p + b] == l[a..b]
  {
    forall k | 0 <= k < b - a
      ensures src[p + a..p + b][k] == l[a..b][k]
    {
      assert src[p + a + k] == src[p..p + |l|][a + k];
    }
  }

  /** The spelling of t sits at p in src, followed by a space */
  predicate SpeltAt(src: seq<char>, p: nat, t: Token) {
    SpeltAs(src, p, Lexeme(t))
  }

  /** The text l sits at p in src, followed by a space */
  predicate SpeltAs(src: seq<char>, p: nat, l: string) {
    p + |l| < |src| && src[p..p + |l|] == l && src[p + |l|] == ' '
  }

  /** NextTokFrom(src, p) == (t, q), stated so that the prover unfolds
      NextTokFrom only where a proof names it */
  predicate Scans(src: seq<char>, p: nat, t: Token, q: nat) {
    p <= |src| && forall k: nat {:trigger NextTokFrom(src, k)} :: k == p ==> NextTokFrom(src, k) == (t, q)
  }

  /** A word followed by a non-word character is scanned whole and classified */
  lemma ScanWord(src: seq<char>, p: nat, w: string)
    requires IsWord(w)
    requires p + |w| < |src| && src[p..p + |w|] == w && !IsIdentChar(src[p + |w|])
    ensures Scans(src, p, Classify(w), p + |w|)
  {
    var c := src[p];
    assert c == w[0];
    assert c != '{' && c != '}' && c != '=' && c != ';' && c != '"' && c != '\'';
    assert WordEnd(src, p + 1) == p + |w|;
  }

  /** The digits of m, followed by a non-digit, are read as the value m */
  lemma ScanDigits(src: seq<char>, d: nat, m: nat)
    requires d + |Digits(m)| < |src| && src[d..d + |Digits(m)|] == Digits(m)
    requires !IsDigit(src[d + |Digits(m)|])
    ensures DigitsEnd(src, d) == d + |Digits(m)|
    ensures src[d..DigitsEnd(src, d)] == Digits(m)
  {
    var ds := Digits(m);
    var e := d + |ds|;
    forall k | d <= k < e
      ensures IsDigit(src[k])
    {
      assert src[k] == ds[k - d];
    }
    DigitsEndAt(src, d, e);
  }

  /** The digit scan stops at the first non-digit */
  lemma {:induction false} DigitsEndAt(src: seq<char>, i: nat, e: nat)
    requires i <= e < |src| && !IsDigit(src[e])
    requires forall k :: i <= k < e ==> IsDigit(src[k])
    ensures DigitsEnd(src, i) == e
    decreases e - i
  {
    if i < e {
      DigitsEndAt(src, i + 1, e);
    }
  }

  /** The integer branch of next_token */
  lemma IntBranch(src: seq<char>, s: nat)
    requires s < |src| && (IsDigit(src[s]) || (src[s] == '-' && s + 1 < |src| && IsDigit(src[s + 1])))
    ensures var d := if src[s] == '-' then s + 1 else s;
      var e := DigitsEnd(src, d);
      NextTokFrom(src, s) == (Int(StrToL(src[s] == '-', src[d..e])), e)
  {
    var c := src[s];
    assert c != '{' && c != '}' && c != '=' && c != ';' && c != '"' && c != '\'' && !IsIdentStart(c);
  }

  /** An integer's spelling is read back as that integer */
  lemma ScanInt(src: seq<char>, p: nat, t: Token)
    requires t.Int? && InLongRange(t.ival) && SpeltAt(src, p, t)
    ensures Scans(src, p, t, p + |Lexeme(t)|)
  {
    if t.ival < 0 {
      ScanNegative(src, p, t);
    } else {
      ScanNatural(src, p, t);
    }
  }

  lemma ScanNatural(src: seq<char>, p: nat, t: Token)
    requires t.Int? && 0 <= t.ival && InLongRange(t.ival) && SpeltAt(src, p, t)
    ensures Scans(src, p, t, p + |Lexeme(t)|)
  {
    SpeltNatural(src, p, t);
    ScanUnsigned(src, p, t);
  }

  lemma SpeltNatural(src: seq<char>, p: nat, t: Token)
    requires t.Int? && 0 <= t.ival && SpeltAt(src, p, t)
    ensures SpeltAs(src, p, Digits(t.ival))
  {
  }

  /** The digits of a non-negative value, not preceded by a minus sign, are
      read as that value */
  lemma ScanUnsigned(src: seq<char>, p: nat, t: Token)
    requires t.Int? && 0 <= t.ival && InLongRange(t.ival) && SpeltAs(src, p, Digits(t.ival))
    ensures Scans(src, p, t, p + |Lexeme(t)|)
  {
    var m: nat := t.ival;
    ScanDigits(src, p, m);
    assert src[p] == Digits(m)[0];
    assert src[p] != '-';
    IntBranch(src, p);
    StrToLDigits(m);
    assert Lexeme(t) == Digits(m);
  }

  lemma ScanNegative(src: seq<char>, p: nat, t: Token)
    requires t.Int? && t.ival < 0 && InLongRange(t.ival) && SpeltAt(src, p, t)
    ensures Scans(src, p, t, p + |Lexeme(t)|)
  {
    SpeltNegative(src, p, t);
    ScanMinus(src, p, t);
  }

  lemma SpeltNegative(src: seq<char>, p: nat, t: Token)
    requires t.Int? && t.ival < 0 && SpeltAt(src, p, t)
    ensures p + 1 + |Digits(-t.ival)| < |src| && src[p] == '-'
    ensures src[p + 1..p + 1 + |Digits(-t.ival)|] == Digits(-t.ival)
    ensures !IsDigit(src[p + 1 + |Digits(-t.ival)|])
  {
    var n := t.ival;
    var l := Lexeme(t);
    assert l == "-" + Digits(-n);
    assert l[1..] == Digits(-n);
    SliceOfSlice(src, p, l, 1, |l|);
    assert src[p] == l[0];
  }

  /** A minus sign directly followed by the digits of -n is read as n */
  lemma ScanMinus(src: seq<char>, p: nat, t: Token)
    requires t.Int? && t.ival < 0 && InLongRange(t.ival)
    requires p + 1 + |Digits(-t.ival)| < |src| && src[p] == '-'
    requires src[p + 1..p + 1 + |Digits(-t.ival)|] == Digits(-t.ival)
    requires !IsDigit(src[p + 1 + |Digits(-t.ival)|])
    ensures Scans(src, p, t, p + |Lexeme(t)|)
  {
    var m: nat := -t.ival;
    ScanDigits(src, p + 1, m);
    assert src[p + 1] == Digits(m)[0];
    IntBranch(src, p);
    StrToLDigits(t.ival);
    assert |Lexeme(t)| == 1 + |Digits(m)|;
  }

  /** strtol reads the spelling of a value in the range of `long` back exactly */
  lemma StrToLDigits(n: int)
    requires InLongRange(n)
    ensures StrToL(n < 0, Digits(if n < 0 then -n else n)) == n
  {
    DigitsValue(if n < 0 then -n else n);
  }

  /** The string branch decodes a quoted body back to the original text */
  lemma {:induction false} ScanQuoted(src: seq<char>, i: nat, s: string)
    requires i + |Quote(s)| < |src| && src[i..i + |Quote(s)|] == Quote(s) && src[i + |Quote(s)|] == '"'
    ensures StringBody(src, i) == (s, i + |Quote(s)| + 1)
    decreases |s|
  {
    if s == [] {
    } else {
      var head := if s[0] == '"' || s[0] == '\\' then ['\\', s[0]] else [s[0]];
      var q := Quote(s);
      assert q == head + Quote(s[1..]);
      var k := i + |head|;
      assert q[|head|..] == Quote(s[1..]);
      SliceOfSlice(src, i, q, |head|, |q|);
      ScanQuoted(src, k, s[1..]);
      assert src[i] == q[0] == head[0];
      if |head| == 2 {
        assert src[i + 1] == q[1] == s[0];
        assert EscapeAt(src, i + 1) == (s[0], k);
      }
      assert [s[0]] + s[1..] == s;
    }
  }

  /** The character branch reads print_value's rendering back as the character */
  lemma ScanRenderedChar(src: seq<char>, p: nat, t: Token)
    requires t.Char? && SpeltAt(src, p, t)
    ensures Scans(src, p, t, p + |Lexeme(t)|)
  {
    var r := RenderChar(t.cval);
    assert r == Lexeme(t);
    assert src[p] == r[0] && src[p + 1] == r[1] && src[p + 2] == r[2];
    if |r| == 4 {
      assert src[p + 3] == r[3];
    }
  }

  /** Nothing is skipped before a character that is neither a space nor '/' */
  lemma NoSkip(src: seq<char>, p: nat)
    requires p < |src| && !IsSpace(src[p]) && src[p] != '/'
    ensures SkipTo(src, p) == p
  {
  }

  /** A one-character token: a brace, '=', ';', or the unknown character */
  lemma ScanSymbol(src: seq<char>, p: nat, t: Token)
    requires t.LBrace? || t.RBrace? || t.Eq? || t.Semi? || t.Unknown?
    requires SpeltAt(src, p, t)
    ensures Scans(src, p, t, p + |Lexeme(t)|)
  {
    assert src[p] == Lexeme(t)[0];
    var c := src[p];
    if t.Unknown? {
      assert c == '#';
      assert c != '{' && c != '}' && c != '=' && c != ';' && c != '"' && c != '\'';
      assert !IsIdentStart(c) && !IsDigit(c) && c != '-';
    }
  }

  /** A keyword: a type name, or a boolean literal */
  lemma ScanKeyword(src: seq<char>, p: nat, t: Token)
    requires t.Bool? || IsTypeKeyword(t)
    requires SpeltAt(src, p, t)
    ensures Scans(src, p, t, p + |Lexeme(t)|)
  {
    var w := Lexeme(t);
    assert IsWord(w) && Classify(w) == t;
    ScanWord(src, p, w);
  }

  /** An identifier */
  lemma ScanIdent(src: seq<char>, p: nat, t: Token)
    requires t.Ident? && ValidName(t.text) && SpeltAt(src, p, t)
    ensures Scans(src, p, t, p + |Lexeme(t)|)
  {
    ScanWord(src, p, t.text);
  }

  /** A string literal */
  lemma ScanStr(src: seq<char>, p: nat, t: Token)
    requires t.Str? && SpeltAt(src, p, t)
    ensures Scans(src, p, t, p + |Lexeme(t)|)
  {
    var s := t.text;
    var l := Lexeme(t);
    assert l[1..1 + |Quote(s)|] == Quote(s);
    SliceOfSlice(src, p, l, 1, 1 + |Quote(s)|);
    assert src[p + 1 + |Quote(s)|] == l[|l| - 1];
    assert src[p] == l[0];
    ScanQuoted(src, p + 1, s);
  }

  /** The scan of a spelt token, once skipping is done */
  lemma ScanFrom(src: seq<char>, p: nat, t: Token)
    requires Lexable(t) && SpeltAt(src, p, t)
    ensures Scans(src, p, t, p + |Lexeme(t)|)
  {
    if t.Ident? {
      ScanIdent(src, p, t);
    } else if t.Int? {
      ScanInt(src, p, t);
    } else if t.Str? {
      ScanStr(src, p, t);
    } else if t.Char? {
      ScanRenderedChar(src, p, t);
    } else if t.Bool? || IsTypeKeyword(t) {
      ScanKeyword(src, p, t);
    } else {
      ScanSymbol(src, p, t);
    }
  }

  /** next_token reads a spelt token back, with nothing skipped before it */
  lemma ScanLexeme(src: seq<char>, p: nat, t: Token)
    requires Lexable(t) && SpeltAt(src, p, t)
    ensures SkipTo(src, p) == p
    ensures NextTok(src, p) == (t, p + |Lexeme(t)|)
  {
    LexemeHead(t);
    assert src[p] == Lexeme(t)[0];
    NoSkip(src, p);
    ScanFrom(src, p, t);
  }

  /** A space before the cursor changes nothing about the tokens that follow */
  lemma SpaceSkipped(src: seq<char>, q: nat)
    requires q < |src| && IsSpace(src[q])
    ensures TokensFrom(src, q) == TokensFrom(src, q + 1)
  {
    assert SkipTo(src, q) == SkipTo(src, q + 1);
  }

  /** One step of the token stream: a token other than the end of input, then
      the tokens after it */
  lemma TokensStep(src: seq<char>, p: nat, t: Token, q: nat)
    requires p <= |src| && NextTok(src, p) == (t, q) && !t.EOF?
    ensures TokensFrom(src, p) == [t] + TokensFrom(src, q)
  {
  }

  lemma ConsSnoc<T>(s: seq<T>, x: T)
    requires s != []
    ensures s + [x] == [s[0]] + (s[1..] + [x])
  {
  }

  /** TokensFrom(src, p) == ts, stated so that the prover unfolds TokensFrom
      only where a proof names it */
  predicate LexesTo(src: seq<char>, p: nat, ts: seq<Token>) {
    p <= |src| && forall k: nat {:trigger TokensFrom(src, k)} :: k == p ==> TokensFrom(src, k) == ts
  }

  /** At the end of the text only the end-of-input token is left */
  lemma TokensAtEnd(src: seq<char>)
    ensures LexesTo(src, |src|, [EOF])
  {
    assert TokensFrom(src, |src|) == [EOF];
  }

  /** A spelt token and its trailing space, then the tokens after them */
  lemma TokensAfterSpelt(src: seq<char>, p: nat, t: Token, rest: seq<Token>)
    requires Lexable(t) && SpeltAt(src, p, t) && LexesTo(src, p + |Lexeme(t)| + 1, rest)
    ensures LexesTo(src, p, [t] + rest)
  {
    var q := p + |Lexeme(t)|;
    ScanLexeme(src, p, t);
    TokensStep(src, p, t, q);
    SpaceSkipped(src, q);
    assert TokensFrom(src, q + 1) == rest;
  }

  /** The spelling of a non-empty token list starts with the first token's,
      then a space, then the spelling of the others */
  lemma TextHead(src: seq<char>, p: nat, ts: seq<Token>)
    requires TextAt(src, p, ts) && ts != []
    ensures SpeltAt(src, p, ts[0]) && TextAt(src, p + |Lexeme(ts[0])| + 1, ts[1..])
  {
    assert src[p..] == Text(ts);
    TextSplit(src, p, Lexeme(ts[0]), ts[1..]);
  }

  /** A spelling, a space and the spelling of a token list */
  lemma TextSplit(src: seq<char>, p: nat, l: string, ts: seq<Token>)
    requires p <= |src| && src[p..] == l + " " + Text(ts)
    ensures SpeltAs(src, p, l) && TextAt(src, p + |l| + 1, ts)
  {
    HeadSplit(src, p, l, Text(ts));
  }

  /** src[p..] == Text(ts), stated so that the prover unfolds Text only where
      a proof names the suffix of src at p */
  predicate TextAt(src: seq<char>, p: nat, ts: seq<Token>) {
    p <= |src| && forall k: nat {:trigger src[k..]} :: k == p ==> src[k..] == Text(ts)
  }

  lemma HeadSplit(src: seq<char>, p: nat, l: string, rest: string)
    requires p <= |src| && src[p..] == l + " " + rest
    ensures SpeltAs(src, p, l) && src[p + |l| + 1..] == rest
  {
    var q := p + |l|;
    assert src[p..][..|l|] == l;
    assert src[p..q] == src[p..][..|l|];
    assert src[q] == src[p..][|l|];
    assert src[q + 1..] == src[p..][|l| + 1..];
  }

  /** The tokens ts are spelt one after the other from p to the end of src,
      each followed by a space */
  predicate SpeltFrom(src: seq<char>, p: nat, ts: seq<Token>)
    decreases |ts|
  {
    if ts == [] then p == |src|
    else SpeltAt(src, p, ts[0]) && SpeltFrom(src, p + |Lexeme(ts[0])| + 1, ts[1..])
  }

  lemma {:induction false} TextSpelt(src: seq<char>, p: nat, ts: seq<Token>)
    requires TextAt(src, p, ts)
    ensures SpeltFrom(src, p, ts)
    decreases |ts|
  {
    if ts == [] {
      assert src[p..] == Text(ts);
      assert |src[p..]| == 0;
    } else {
      TextHead(src, p, ts);
      TextSpelt(src, p + |Lexeme(ts[0])| + 1, ts[1..]);
      SpeltFromStep(src, p, ts);
    }
  }

  lemma SpeltFromStep(src: seq<char>, p: nat, ts: seq<Token>)
    requires ts != [] && SpeltAt(src, p, ts[0]) && SpeltFrom(src, p + |Lexeme(ts[0])| + 1, ts[1..])
    ensures SpeltFrom(src, p, ts)
  {
  }

  lemma TextSpeltAtStart(ts: seq<Token>)
    ensures SpeltAtStart(Text(ts), 0, ts)
  {
    assert Text(ts)[0..] == Text(ts);
    TextSpelt(Text(ts), 0, ts);
  }

  /** SpeltFrom(src, p, ts), stated so that the prover unfolds it only where a
      proof names it: the character-level facts it implies would otherwise be
      weighed against every unfolding of TokensFrom */
  predicate SpeltAtStart(src: seq<char>, p: nat, ts: seq<Token>) {
    forall k {:trigger SpeltFrom(src, k, ts)} :: k == p ==> SpeltFrom(src, k, ts)
  }

  /** The first spelt token, and the spelling of the others after it */
  lemma SpeltNext(src: seq<char>, p: nat, ts: seq<Token>)
    requires SpeltAtStart(src, p, ts) && ts != []
    ensures SpeltAt(src, p, ts[0]) && SpeltAtStart(src, p + |Lexeme(ts[0])| + 1, ts[1..])
    ensures p + |Lexeme(ts[0])| + 1 <= |src|
  {
    assert SpeltFrom(src, p, ts);
  }

  /** Lexing from p, where the spelt tokens begin, gives them back, then the
      end of input */
  lemma {:induction false} TokensOfText(src: seq<char>, p: nat, ts: seq<Token>)
    requires p <= |src| && AllLexable(ts) && SpeltAtStart(src, p, ts)
    ensures LexesTo(src, p, ts + [EOF])
    decreases |ts|
  {
    if ts == [] {
      assert SpeltFrom(src, p, ts);
      TokensAtEnd(src);
    } else {
      var q := p + |Lexeme(ts[0])| + 1;
      SpeltNext(src, p, ts);
      TokensOfText(src, q, ts[1..]);
      TokensAfterSpelt(src, p, ts[0], ts[1..] + [EOF]);
      ConsSnoc(ts, EOF);
    }
  }

  /** The lexer round trip: tokenizing the spelling of a token list gives the
      list back, followed by the end-of-input token */
  lemma TokenizeText(ts: seq<Token>)
    requires forall i :: 0 <= i < |ts| ==> Lexable(ts[i])
    ensures Tokenize(Text(ts)) == ts + [EOF]
  {
    AllLexableEach(ts);
    TextSpeltAtStart(ts);
    TokensOfText(Text(ts), 0, ts);
  }
}
