/** Tokens produced by the lexer: the `TokenKind` enumeration and the payloads
    (`text`, `ival`, `bval`, `cval`) of the source's `Token` record, as one datatype. */
module Tokens {
  import opened Chars

  datatype Token =
    | EOF
    | Ident(text: string)
    | Int(ival: int)
    | Str(text: string)
    | Char(cval: char)
    | Bool(bval: bool)
    | LBrace
    | RBrace
    | Eq
    | Semi
    | TypeInt
    | TypeFloat
    | TypeBool
    | TypeString
    | Unknown

  /** The kind of a token without its payload, as the diagnostics report it */
  datatype Kind =
    | KEof | KIdent | KInt | KString | KChar | KBool
    | KLBrace | KRBrace | KEq | KSemi
    | KTypeInt | KTypeFloat | KTypeBool | KTypeString
    | KUnknown

  function KindOf(t: Token): Kind {
    match t
    case EOF => KEof
    case Ident(_) => KIdent
    case Int(_) => KInt
    case Str(_) => KString
    case Char(_) => KChar
    case Bool(_) => KBool
    case LBrace => KLBrace
    case RBrace => KRBrace
    case Eq => KEq
    case Semi => KSemi
    case TypeInt => KTypeInt
    case TypeFloat => KTypeFloat
    case TypeBool => KTypeBool
    case TypeString => KTypeString
    case Unknown => KUnknown
  }

  /** The words the lexer does not return as identifiers */
  predicate IsKeyword(w: string) {
    w == "int" || w == "float" || w == "bool" || w == "string" || w == "true" || w == "false"
  }

  /** A word of the shape [A-Za-z_][A-Za-z0-9_]* */
  predicate IsWord(w: string) {
    |w| > 0 && IsIdentStart(w[0]) && forall i :: 0 <= i < |w| ==> IsIdentChar(w[i])
  }

  /** A word the lexer returns as an identifier token */
  predicate ValidName(w: string) {
    IsWord(w) && !IsKeyword(w)
  }

  predicate IsTypeKeyword(t: Token) {
    t.TypeInt? || t.TypeFloat? || t.TypeBool? || t.TypeString?
  }

  /** Classification of a scanned word: the four type keywords, the two
      boolean literals, and every other word an identifier carrying exactly
      the scanned text. */
  function Classify(w: string): (t: Token)
    ensures t.Ident? <==> !IsKeyword(w)
    ensures t.Ident? ==> t.text == w
    ensures t.Bool? ==> (t.bval <==> w == "true")
    ensures IsKeyword(w) ==> IsTypeKeyword(t) || t.Bool?
    ensures w == "int" ==> t == TypeInt
    ensures w == "float" ==> t == TypeFloat
    ensures w == "bool" ==> t == TypeBool
    ensures w == "string" ==> t == TypeString
    ensures w == "true" ==> t == Bool(true)
    ensures w == "false" ==> t == Bool(false)
  {
    if w == "int" then TypeInt
    else if w == "float" then TypeFloat
    else if w == "bool" then TypeBool
    else if w == "string" then TypeString
    else if w == "true" then Bool(true)
    else if w == "false" then Bool(false)
    else Ident(w)
  }

  /** Range of the C `long` the source stores integers in (64 bits) */
  const LongMin: int := -0x8000_0000_0000_0000
  const LongMax: int := 0x7FFF_FFFF_FFFF_FFFF

  predicate InLongRange(n: int) {
    LongMin <= n <= LongMax
  }
}
