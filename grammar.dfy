/** The recursive-descent parser of src/acl.c as functions of the token stream
    still to come. Each function returns what it built and the rest of the
    stream, or the error at which the source calls exit(1). The imperative
    parser (module Parsing) is proved to compute exactly these. */
module Grammar {
  import opened Tokens
  import opened Ast
  import opened LexerSpec

  /** The i-th token ahead; a stream always ends in EOF, so EOF past its end */
  function At(ts: seq<Token>, i: nat): Token {
    if i < |ts| then ts[i] else EOF
  }

  /** The current token */
  function Peek(ts: seq<Token>): Token {
    At(ts, 0)
  }

  /** strdup of a token's text: the C string stops at the first NUL */
  function CString(s: string): (r: string)
    ensures |r| <= |s| && r == s[..|r|]
    ensures forall i :: 0 <= i < |r| ==> r[i] != '\0'
    ensures |r| < |s| ==> s[|r|] == '\0'
  {
    if s == [] || s[0] == '\0' then [] else [s[0]] + CString(s[1..])
  }

  function TypeTagOf(t: Token): TypeTag
    requires IsTypeKeyword(t)
  {
    match t
    case TypeInt => TInt
    case TypeFloat => TFloat
    case TypeBool => TBool
    case TypeString => TString
  }

  /** The value a literal token denotes */
  function ValueOf(t: Token): (v: Value)
    requires t.Int? || t.Bool? || t.Str? || t.Char?
    ensures t.Int? ==> v == VInt(t.ival)
    ensures t.Bool? ==> v == VBool(t.bval)
    ensures t.Char? ==> v == VChar(t.cval)
    ensures t.Str? ==> v.VString? && v.s <= t.text && '\0' !in v.s
    ensures t.Str? && |v.s| < |t.text| ==> t.text[|v.s|] == '\0'
  {
    match t
    case Int(n) => VInt(n)
    case Bool(b) => VBool(b)
    case Str(s) => VString(CString(s))
    case Char(c) => VChar(c)
  }

  /** parse_literal_expr */
  function ParseLiteral(ts: seq<Token>): (r: Result<(Value, seq<Token>)>)
    ensures r.Ok? <==> (Peek(ts).Int? || Peek(ts).Bool? || Peek(ts).Str? || Peek(ts).Char?)
    ensures r.Ok? ==> r.value == (ValueOf(ts[0]), ts[1..])
    ensures r.Err? ==> r.error == ExpectedLiteral(KindOf(Peek(ts)))
  {
    var t := Peek(ts);
    if t.Int? || t.Bool? || t.Str? || t.Char? then Ok((ValueOf(t), ts[1..]))
    else Err(ExpectedLiteral(KindOf(t)))
  }

  /** parse_field: when typed, the type keyword first; then the rest of the field */
  function ParseFieldSpec(ts: seq<Token>, typed: bool): (r: Result<(Field, seq<Token>)>)
    ensures r.Ok? ==> |r.value.1| < |ts|
    ensures typed && !IsTypeKeyword(Peek(ts)) ==> r == Err(BadTypeToken)
    ensures r.Ok? ==> (r.value.0.ftype.Some? <==> typed)
  {
    if !typed then ParseNamedField(ts, None)
    else if IsTypeKeyword(Peek(ts)) then
      ParseNamedField(ts[1..], Some(TypeTagOf(ts[0])))
    else Err(BadTypeToken)
  }

  /** The part of parse_field after the type: a name, then '=' and the value */
  function ParseNamedField(ts: seq<Token>, ftype: Option<TypeTag>): (r: Result<(Field, seq<Token>)>)
    ensures r.Ok? ==> |r.value.1| < |ts|
    ensures !Peek(ts).Ident? ==> r == Err(ExpectedFieldName)
    ensures r.Ok? ==> ts[0].Ident? && r.value.0.name == ts[0].text && r.value.0.ftype == ftype
  {
    if !Peek(ts).Ident? then Err(ExpectedFieldName)
    else ParseFieldEq(ts[1..], ftype, ts[0].text)
  }

  /** '=' and the value; any other token is the error expect(TK_EQ) reports */
  function ParseFieldEq(ts: seq<Token>, ftype: Option<TypeTag>, name: string): (r: Result<(Field, seq<Token>)>)
    ensures r.Ok? ==> |r.value.1| < |ts|
    ensures !Peek(ts).Eq? ==> r == Err(ExpectedToken(KEq, KindOf(Peek(ts))))
    ensures r.Ok? ==> r.value.0.name == name && r.value.0.ftype == ftype
  {
    if !Peek(ts).Eq? then Err(ExpectedToken(KEq, KindOf(Peek(ts))))
    else ParseFieldValue(ts[1..], ftype, name)
  }

  /** The end of parse_field: the literal, then ';' */
  function ParseFieldValue(ts: seq<Token>, ftype: Option<TypeTag>, name: string): (r: Result<(Field, seq<Token>)>)
    ensures r.Ok? ==> |r.value.1| < |ts|
    ensures r.Ok? ==> r.value.0.name == name && r.value.0.ftype == ftype
    ensures !(Peek(ts).Int? || Peek(ts).Bool? || Peek(ts).Str? || Peek(ts).Char?) ==>
      r == Err(ExpectedLiteral(KindOf(Peek(ts))))
  {
    var lit :- ParseLiteral(ts);
    var (v, rest) := lit;
    if !Peek(rest).Semi? then Err(ExpectedToken(KSemi, KindOf(Peek(rest))))
    else Ok((Field(ftype, name, v), rest[1..]))
  }

  /** How a field's value ends, once its literal is read: ';' completes the
      field, anything else is the error expect(TK_SEMI) reports */
  lemma FieldValueEnd(ts: seq<Token>, ftype: Option<TypeTag>, name: string, v: Value, rest: seq<Token>)
    requires ParseLiteral(ts) == Ok((v, rest))
    ensures ParseFieldValue(ts, ftype, name) ==
      if Peek(rest).Semi? then Ok((Field(ftype, name, v), rest[1..]))
      else Err(ExpectedToken(KSemi, KindOf(Peek(rest))))
  {
  }

  /** make_block: a block with no fields or children yet */
  function MakeBlock(name: string, blockLabel: Option<string>, parent: Option<Path>): (b: Block)
    ensures b.name == name && b.blockLabel == blockLabel && b.parent == parent
    ensures b.fields == [] && b.children == []
  {
    Block(name, blockLabel, [], [], parent)
  }

  /** b has a's name, label and parent */
  predicate SameHead(a: Block, b: Block) {
    b.name == a.name && b.blockLabel == a.blockLabel && b.parent == a.parent
  }

  /** b is a built on: the same head, with a's fields and children as
      prefixes of its own */
  predicate Extends(a: Block, b: Block) {
    SameHead(a, b) && a.fields <= b.fields && a.children <= b.children
  }

  /** The lookahead of parse_block_recursive: an identifier followed by '{', or
      by a string and '{', starts a child block */
  predicate StartsChildBlock(ts: seq<Token>) {
    At(ts, 0).Ident? && (At(ts, 1).LBrace? || (At(ts, 1).Str? && At(ts, 2).LBrace?))
  }

  /** The lookahead never reads past the end: it holds exactly when the stream
      has room for the name and the brace */
  lemma StartsChildBlockShape(ts: seq<Token>)
    ensures StartsChildBlock(ts) <==>
      (2 <= |ts| && ts[0].Ident?
       && (ts[1].LBrace? || (3 <= |ts| && ts[1].Str? && ts[2].LBrace?)))
  {
  }

  /** parse_block_recursive: a name, then the rest of the block.
      `parent` is the enclosing block's path, `at` the path the new block gets. */
  function ParseBlockSpec(ts: seq<Token>, parent: Option<Path>, at: Path): (r: Result<(Block, seq<Token>)>)
    ensures r.Ok? ==> |r.value.1| < |ts|
    ensures !Peek(ts).Ident? ==> r == Err(ExpectedBlockName)
    ensures r.Ok? ==> ts[0].Ident? && r.value.0.name == ts[0].text && r.value.0.parent == parent
    decreases |ts|, 2
  {
    if !Peek(ts).Ident? then Err(ExpectedBlockName)
    else
      ParseBlockTail(ts[1..], ts[0].text, parent, at)
  }

  /** The block after its name: an optional label string, then the body in braces */
  function ParseBlockTail(ts: seq<Token>, name: string, parent: Option<Path>, at: Path): (r: Result<(Block, seq<Token>)>)
    ensures r.Ok? ==> |r.value.1| < |ts|
    ensures r.Ok? ==> r.value.0.name == name && r.value.0.parent == parent
    ensures r.Ok? ==> r.value.0.blockLabel == if Peek(ts).Str? then Some(CString(ts[0].text)) else None
    decreases |ts|, 1
  {
    if Peek(ts).Str? then
      ParseOpenBody(ts[1..], MakeBlock(name, Some(CString(ts[0].text)), parent), at)
    else
      ParseOpenBody(ts, MakeBlock(name, None, parent), at)
  }

  /** '{' and the body; any other token is the error expect(TK_LBRACE) reports */
  function ParseOpenBody(ts: seq<Token>, blk: Block, at: Path): (r: Result<(Block, seq<Token>)>)
    ensures r.Ok? ==> |r.value.1| < |ts|
    ensures !Peek(ts).LBrace? ==> r == Err(ExpectedToken(KLBrace, KindOf(Peek(ts))))
    ensures r.Ok? ==> SameHead(blk, r.value.0)
    decreases |ts|, 0
  {
    if !Peek(ts).LBrace? then Err(ExpectedToken(KLBrace, KindOf(Peek(ts))))
    else ParseBody(ts[1..], blk, at)
  }

  /** The `while (1)` loop of parse_block_recursive: items are appended to `blk`
      in source order until the closing '}' */
  function ParseBody(ts: seq<Token>, blk: Block, at: Path): (r: Result<(Block, seq<Token>)>)
    ensures r.Ok? ==> |r.value.1| < |ts|
    ensures Peek(ts).RBrace? ==> r == Ok((blk, ts[1..]))
    ensures Peek(ts).EOF? ==> r == Err(EofInBlock)
    ensures r.Ok? ==> SameHead(blk, r.value.0)
    decreases |ts|, 4
  {
    var t := Peek(ts);
    if t.RBrace? then Ok((blk, ts[1..]))
    else if t.EOF? then Err(EofInBlock)
    else
      var item :- ParseBodyItem(ts, blk, at);
      ParseBody(item.1, item.0, at)
  }

  /** One pass of the loop: a typed field, an inferred field or a child block,
      appended to `blk`; any other token is an error */
  function ParseBodyItem(ts: seq<Token>, blk: Block, at: Path): (r: Result<(Block, seq<Token>)>)
    ensures r.Ok? ==> |r.value.1| < |ts|
    ensures !IsTypeKeyword(Peek(ts)) && !Peek(ts).Ident? ==> r == Err(UnexpectedInBlock(KindOf(Peek(ts))))
    ensures r.Ok? ==> SameHead(blk, r.value.0)
    decreases |ts|, 3
  {
    var t := Peek(ts);
    if IsTypeKeyword(t) || (t.Ident? && !StartsChildBlock(ts)) then
      var f :- ParseFieldSpec(ts, IsTypeKeyword(t));
      Ok((blk.(fields := blk.fields + [f.0]), f.1))
    else if t.Ident? then
      var c :- ParseBlockSpec(ts, Some(at), at + [|blk.children|]);
      Ok((blk.(children := blk.children + [c.0]), c.1))
    else Err(UnexpectedInBlock(KindOf(t)))
  }

  /** The body loop only appends: the fields and children a block had stay in
      front, in order */
  lemma {:induction false} BodyExtends(ts: seq<Token>, blk: Block, at: Path)
    requires ParseBody(ts, blk, at).Ok?
    ensures Extends(blk, ParseBody(ts, blk, at).value.0)
    decreases |ts|
  {
    var t := Peek(ts);
    if !t.RBrace? {
      var item := ParseBodyItem(ts, blk, at).value;
      ItemExtends(ts, blk, at);
      BodyExtends(item.1, item.0, at);
    }
  }

  /** One pass of the loop appends exactly one field or one child */
  lemma ItemExtends(ts: seq<Token>, blk: Block, at: Path)
    requires ParseBodyItem(ts, blk, at).Ok?
    ensures var b := ParseBodyItem(ts, blk, at).value.0;
      Extends(blk, b) && |b.fields| + |b.children| == |blk.fields| + |blk.children| + 1
  {
  }

  /** One field in a block body: the body goes on after it with the field appended */
  lemma BodyField(ts: seq<Token>, blk: Block, at: Path)
    requires IsTypeKeyword(Peek(ts)) || (Peek(ts).Ident? && !StartsChildBlock(ts))
    ensures var f := ParseFieldSpec(ts, IsTypeKeyword(Peek(ts)));
      ParseBody(ts, blk, at) ==
        if f.Err? then Err(f.error)
        else ParseBody(f.value.1, blk.(fields := blk.fields + [f.value.0]), at)
  {
  }

  /** One child block in a block body: the body goes on after it with the child
      appended, the child's path extending the parent's */
  lemma BodyChild(ts: seq<Token>, blk: Block, at: Path)
    requires StartsChildBlock(ts)
    ensures var c := ParseBlockSpec(ts, Some(at), at + [|blk.children|]);
      ParseBody(ts, blk, at) ==
        if c.Err? then Err(c.error)
        else ParseBody(c.value.1, blk.(children := blk.children + [c.value.0]), at)
  {
  }

  /** parse_all: top-level blocks until the end of input */
  function ParseDocSpec(ts: seq<Token>, blocks: seq<Block>): (r: Result<seq<Block>>)
    ensures Peek(ts).EOF? ==> r == Ok(blocks)
    ensures !Peek(ts).EOF? && !Peek(ts).Ident? ==> r == Err(ExpectedTopLevelBlock)
    ensures r.Ok? ==> blocks <= r.value
    ensures r.Ok? ==> forall i :: |blocks| <= i < |r.value| ==> r.value[i].parent == None
    decreases |ts|
  {
    var t := Peek(ts);
    if t.EOF? then Ok(blocks)
    else if t.Ident? then
      var b :- ParseBlockSpec(ts, None, [|blocks|]);
      ParseDocSpec(b.1, blocks + [b.0])
    else Err(ExpectedTopLevelBlock)
  }

  /** The whole front end: tokenize the text, then parse every top-level block */
  function ParseSource(src: seq<char>): (r: Result<seq<Block>>)
    ensures SkipTo(src, 0) == |src| ==> r == Ok([])
    ensures r.Ok? ==> forall i :: 0 <= i < |r.value| ==> r.value[i].parent == None
  {
    ParseDocSpec(Tokenize(src), [])
  }
}
