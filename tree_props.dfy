/** What the parser of src/acl.c promises about the trees it builds: every
    block tree whose parent links are linked and whose strings hold no NUL
    is the parse of its own token spelling, and every tree the parser returns
    is such a tree. With the lexer's round trip this gives: printing a
    document as source text and parsing that text gives the document back. */
module TreeProps {
  import opened Tokens
  import opened Ast
  import opened LexerSpec
  import opened Grammar
  import opened LexerProps

  /** The keyword token that declares a field's type */
  function TypeToken(tag: TypeTag): (t: Token)
    ensures IsTypeKeyword(t) && TypeTagOf(t) == tag
  {
    match tag
    case TInt => TypeInt
    case TFloat => TypeFloat
    case TBool => TypeBool
    case TString => TypeString
  }

  /** The literal token that denotes a value */
  function ValueToken(v: Value): (t: Token)
    ensures t.Int? || t.Bool? || t.Str? || t.Char?
  {
    match v
    case VInt(i) => Int(i)
    case VBool(b) => Bool(b)
    case VString(s) => Str(s)
    case VChar(c) => Char(c)
  }

  /** A field as source tokens: `[type] name = literal ;` */
  function FieldTokens(f: Field): seq<Token> {
    (if f.ftype.Some? then [TypeToken(f.ftype.value)] else []) + [Ident(f.name), Eq, ValueToken(f.val), Semi]
  }

  function FieldsTokens(fs: seq<Field>): seq<Token> {
    if fs == [] then [] else FieldTokens(fs[0]) + FieldsTokens(fs[1..])
  }

  function LabelTokens(blockLabel: Option<string>): seq<Token> {
    if blockLabel.Some? then [Str(blockLabel.value)] else []
  }

  /** A block as source tokens: name, optional label, '{', its fields, its
      children, '}'. A block keeps its fields and its children in two lists,
      so fields come first here. */
  function BlockTokens(b: Block): seq<Token>
    decreases b, 1, 0
  {
    [Ident(b.name)] + LabelTokens(b.blockLabel) + [LBrace] + FieldsTokens(b.fields) + ChildrenTokens(b, 0) + [RBrace]
  }

  /** The tokens of the children of b from the k-th on */
  function ChildrenTokens(b: Block, k: nat): seq<Token>
    requires k <= |b.children|
    decreases b, 0, |b.children| - k
  {
    if k == |b.children| then [] else BlockTokens(b.children[k]) + ChildrenTokens(b, k + 1)
  }

  /** A document as source tokens: its top-level blocks one after the other */
  function DocTokens(bs: seq<Block>): seq<Token> {
    if bs == [] then [] else BlockTokens(bs[0]) + DocTokens(bs[1..])
  }

  predicate NulFree(s: string) {
    forall i :: 0 <= i < |s| ==> s[i] != '\0'
  }

  /** strdup keeps a string without NUL whole */
  lemma CStringNulFree(s: string)
    requires NulFree(s)
    ensures CString(s) == s
  {
  }

  predicate NulFreeValue(v: Value) {
    v.VString? ==> NulFree(v.s)
  }

  predicate NulFreeFields(fs: seq<Field>) {
    forall i :: 0 <= i < |fs| ==> NulFreeValue(fs[i].val)
  }

  /** A tree the parser can build at path `at` below `parent`: its parent
      link is `parent`, each child's points to this block and sits at the
      child's index, and no label or string value holds a NUL (strdup would
      cut it there) */
  predicate WfBlock(b: Block, parent: Option<Path>, at: Path)
    decreases b
  {
    && b.parent == parent
    && (b.blockLabel.Some? ==> NulFree(b.blockLabel.value))
    && NulFreeFields(b.fields)
    && forall i :: 0 <= i < |b.children| ==> WfBlock(b.children[i], Some(at), at + [i])
  }

  /** A freshly made block (as make_block leaves it) is well formed wherever
      it is placed, as long as its label holds no NUL */
  lemma MakeBlockWf(name: string, blockLabel: Option<string>, parent: Option<Path>, at: Path)
    requires blockLabel.Some? ==> NulFree(blockLabel.value)
    ensures WfBlock(MakeBlock(name, blockLabel, parent), parent, at)
  {
  }

  /** The top-level blocks of a document, the i-th at path [i] with no parent */
  predicate WfDoc(bs: seq<Block>) {
    forall i :: 0 <= i < |bs| ==> WfBlock(bs[i], None, [i])
  }

  /** A literal token is parsed back as the value it spells */
  lemma ValueRoundTrip(v: Value, tail: seq<Token>)
    requires NulFreeValue(v)
    ensures ParseLiteral([ValueToken(v)] + tail) == Ok((v, tail))
  {
    if v.VString? {
      CStringNulFree(v.s);
    }
    assert ([ValueToken(v)] + tail)[1..] == tail;
  }

  /** The field's tokens are parsed back as the field, whatever follows */
  lemma FieldRoundTrip(f: Field, tail: seq<Token>)
    requires NulFreeValue(f.val)
    ensures ParseFieldSpec(FieldTokens(f) + tail, f.ftype.Some?) == Ok((f, tail))
  {
    var rest := [Ident(f.name), Eq, ValueToken(f.val), Semi] + tail;
    NamedFieldRoundTrip(f, tail);
    if f.ftype.Some? {
      assert FieldTokens(f) + tail == [TypeToken(f.ftype.value)] + rest;
    } else {
      assert FieldTokens(f) + tail == rest;
    }
  }

  /** A field after its type: name, '=', the literal and ';' */
  lemma NamedFieldRoundTrip(f: Field, tail: seq<Token>)
    requires NulFreeValue(f.val)
    ensures ParseNamedField([Ident(f.name), Eq, ValueToken(f.val), Semi] + tail, f.ftype) == Ok((f, tail))
  {
    ValueRoundTrip(f.val, [Semi] + tail);
    assert [ValueToken(f.val), Semi] + tail == [ValueToken(f.val)] + ([Semi] + tail);
    assert ParseFieldEq([Eq, ValueToken(f.val), Semi] + tail, f.ftype, f.name) == Ok((f, tail));
  }

  /** A field at the head of a block body is appended to the block */
  lemma BodyFieldStep(f: Field, tail: seq<Token>, blk: Block, at: Path)
    requires NulFreeValue(f.val)
    ensures ParseBody(FieldTokens(f) + tail, blk, at) == ParseBody(tail, blk.(fields := blk.fields + [f]), at)
  {
    var ts := FieldTokens(f) + tail;
    if f.ftype.None? {
      assert ts[1] == Eq;
    }
    FieldRoundTrip(f, tail);
    BodyField(ts, blk, at);
  }

  /** The fields' tokens at the head of a block body append the fields to the
      block, in order */
  lemma {:induction false} BodyFields(fs: seq<Field>, tail: seq<Token>, blk: Block, at: Path)
    requires NulFreeFields(fs)
    ensures ParseBody(FieldsTokens(fs) + tail, blk, at) == ParseBody(tail, blk.(fields := blk.fields + fs), at)
  {
    if fs == [] {
      assert FieldsTokens(fs) + tail == tail;
      assert blk.(fields := blk.fields + fs) == blk;
    } else {
      assert NulFreeValue(fs[0].val);
      var next := blk.(fields := blk.fields + [fs[0]]);
      FieldsSplit(fs, tail, blk);
      BodyFieldStep(fs[0], FieldsTokens(fs[1..]) + tail, blk, at);
      BodyFields(fs[1..], tail, next, at);
    }
  }

  /** The first field's tokens, then the others' */
  lemma FieldsSplit(fs: seq<Field>, tail: seq<Token>, blk: Block)
    requires fs != []
    ensures FieldsTokens(fs) + tail == FieldTokens(fs[0]) + (FieldsTokens(fs[1..]) + tail)
    ensures blk.(fields := blk.fields + [fs[0]]).(fields := blk.fields + [fs[0]] + fs[1..]) == blk.(fields := blk.fields + fs)
  {
    assert blk.fields + [fs[0]] + fs[1..] == blk.fields + fs;
  }

  /** The grammar round trip of one block: its tokens, whatever follows them,
      parse back to the block, leaving what follows */
  lemma {:induction false} BlockRoundTrip(b: Block, parent: Option<Path>, at: Path, tail: seq<Token>)
    requires WfBlock(b, parent, at)
    ensures ParseBlockSpec(BlockTokens(b) + tail, parent, at) == Ok((b, tail))
    decreases b, 1, 0, 0
  {
    var body := FieldsTokens(b.fields) + (ChildrenTokens(b, 0) + ([RBrace] + tail));
    var blk := MakeBlock(b.name, b.blockLabel, parent);
    BlockSplit(b, tail);
    BlockHead(b.name, b.blockLabel, parent, at, body);
    BodyFields(b.fields, ChildrenTokens(b, 0) + ([RBrace] + tail), blk, at);
    assert blk.(fields := [] + b.fields) == b.(children := b.children[..0]);
    ChildrenRoundTrip(b, 0, at, tail);
  }

  lemma BlockSplit(b: Block, tail: seq<Token>)
    ensures BlockTokens(b) + tail ==
      [Ident(b.name)] + (LabelTokens(b.blockLabel) + ([LBrace] + (FieldsTokens(b.fields) + (ChildrenTokens(b, 0) + ([RBrace] + tail)))))
  {
  }

  /** A block's name, label and '{' start its body with a new empty block */
  lemma BlockHead(name: string, blockLabel: Option<string>, parent: Option<Path>, at: Path, body: seq<Token>)
    requires blockLabel.Some? ==> NulFree(blockLabel.value)
    ensures ParseBlockSpec([Ident(name)] + (LabelTokens(blockLabel) + ([LBrace] + body)), parent, at) ==
      ParseBody(body, MakeBlock(name, blockLabel, parent), at)
  {
    var ts := [Ident(name)] + (LabelTokens(blockLabel) + ([LBrace] + body));
    var blk := MakeBlock(name, blockLabel, parent);
    if blockLabel.Some? {
      CStringNulFree(blockLabel.value);
      assert ts[1..] == [Str(blockLabel.value)] + ([LBrace] + body);
    } else {
      assert ts[1..] == [LBrace] + body;
    }
    assert ParseBlockTail(ts[1..], name, parent, at) == ParseOpenBody([LBrace] + body, blk, at);
    assert ([LBrace] + body)[1..] == body;
  }

  /** The children of b from the k-th on, then '}', end the body of b */
  lemma {:induction false} ChildrenRoundTrip(b: Block, k: nat, at: Path, tail: seq<Token>)
    requires k <= |b.children|
    requires forall i :: 0 <= i < |b.children| ==> WfBlock(b.children[i], Some(at), at + [i])
    ensures ParseBody(ChildrenTokens(b, k) + ([RBrace] + tail), b.(children := b.children[..k]), at) == Ok((b, tail))
    decreases b, 0, |b.children| - k, 1
  {
    if k == |b.children| {
      ChildrenDone(b, at, tail);
    } else {
      ChildStep(b, k, at, tail);
      ChildrenRoundTrip(b, k + 1, at, tail);
    }
  }

  /** After the last child, '}' closes the body of b */
  lemma ChildrenDone(b: Block, at: Path, tail: seq<Token>)
    ensures var k := |b.children|;
      ParseBody(ChildrenTokens(b, k) + ([RBrace] + tail), b.(children := b.children[..k]), at) == Ok((b, tail))
  {
    var k := |b.children|;
    assert b.children[..k] == b.children;
    assert b.(children := b.children[..k]) == b;
    assert ChildrenTokens(b, k) + ([RBrace] + tail) == [RBrace] + tail;
    assert ([RBrace] + tail)[1..] == tail;
  }

  /** The k-th child's tokens in the body of b append that child */
  lemma {:induction false} ChildStep(b: Block, k: nat, at: Path, tail: seq<Token>)
    requires k < |b.children|
    requires WfBlock(b.children[k], Some(at), at + [k])
    ensures ParseBody(ChildrenTokens(b, k) + ([RBrace] + tail), b.(children := b.children[..k]), at) ==
      ParseBody(ChildrenTokens(b, k + 1) + ([RBrace] + tail), b.(children := b.children[..k + 1]), at)
    decreases b, 0, |b.children| - k, 0
  {
    var blk := b.(children := b.children[..k]);
    var c := b.children[k];
    var rest := ChildrenTokens(b, k + 1) + ([RBrace] + tail);
    var ts := BlockTokens(c) + rest;
    BlockRoundTrip(c, Some(at), at + [k], rest);
    assert ChildrenTokens(b, k) + ([RBrace] + tail) == ts;
    assert ts[0] == Ident(c.name);
    if c.blockLabel.Some? {
      assert ts[1] == Str(c.blockLabel.value) && ts[2] == LBrace;
    } else {
      assert ts[1] == LBrace;
    }
    BodyChild(ts, blk, at);
    assert blk.children + [c] == b.children[..k + 1];
  }

  /** The top-level blocks from the k-th on, then the end of input, complete a
      document whose first k blocks are already parsed */
  lemma {:induction false} DocFrom(bs: seq<Block>, k: nat)
    requires WfDoc(bs) && k <= |bs|
    ensures ParseDocSpec(DocTokens(bs[k..]) + [EOF], bs[..k]) == Ok(bs)
    decreases |bs| - k
  {
    if k == |bs| {
      assert bs[k..] == [] && bs[..k] == bs;
    } else {
      var rest := DocTokens(bs[k + 1..]) + [EOF];
      assert bs[k..][1..] == bs[k + 1..];
      assert DocTokens(bs[k..]) + [EOF] == BlockTokens(bs[k]) + rest;
      BlockRoundTrip(bs[k], None, [k], rest);
      assert bs[..k] + [bs[k]] == bs[..k + 1];
      DocFrom(bs, k + 1);
    }
  }

  /** The grammar round trip of a document */
  lemma DocRoundTrip(bs: seq<Block>)
    requires WfDoc(bs)
    ensures ParseDocSpec(DocTokens(bs) + [EOF], []) == Ok(bs)
  {
    DocFrom(bs, 0);
    assert bs[0..] == bs;
  }

  /** A field the parser returns holds no NUL in a string value */
  lemma ParsedFieldNulFree(ts: seq<Token>, typed: bool)
    requires ParseFieldSpec(ts, typed).Ok?
    ensures NulFreeValue(ParseFieldSpec(ts, typed).value.0.val)
  {
    var named := if typed then ts[1..] else ts;
    var afterEq := named[1..][1..];
    assert ParseLiteral(afterEq).Ok?;
    var v := ValueOf(afterEq[0]);
    assert NulFreeValue(v);
  }

  /** Every block the parser returns is well formed at the place it was parsed */
  lemma {:induction false} ParsedBlockWf(ts: seq<Token>, parent: Option<Path>, at: Path)
    requires ParseBlockSpec(ts, parent, at).Ok?
    ensures WfBlock(ParseBlockSpec(ts, parent, at).value.0, parent, at)
    decreases |ts|, 2
  {
    var rest := ts[1..];
    var name := ts[0].text;
    assert ParseBlockSpec(ts, parent, at) == ParseBlockTail(rest, name, parent, at);
    if Peek(rest).Str? {
      var blk := MakeBlock(name, Some(CString(rest[0].text)), parent);
      assert ParseBlockTail(rest, name, parent, at) == ParseOpenBody(rest[1..], blk, at);
      assert ParseOpenBody(rest[1..], blk, at) == ParseBody(rest[1..][1..], blk, at);
      assert WfBlock(blk, parent, at);
      ParsedBodyWf(rest[1..][1..], blk, parent, at);
    } else {
      var blk := MakeBlock(name, None, parent);
      assert ParseBlockTail(rest, name, parent, at) == ParseOpenBody(rest, blk, at);
      assert ParseOpenBody(rest, blk, at) == ParseBody(rest[1..], blk, at);
      assert WfBlock(blk, parent, at);
      ParsedBodyWf(rest[1..], blk, parent, at);
    }
  }

  /** The loop of parse_block_recursive keeps the block it builds well formed */
  lemma {:induction false} ParsedBodyWf(ts: seq<Token>, blk: Block, parent: Option<Path>, at: Path)
    requires ParseBody(ts, blk, at).Ok? && WfBlock(blk, parent, at)
    ensures WfBlock(ParseBody(ts, blk, at).value.0, parent, at)
    decreases |ts|, 4
  {
    var t := Peek(ts);
    if !t.RBrace? {
      var item := ParseBodyItem(ts, blk, at);
      ParsedItemWf(ts, blk, parent, at);
      ParsedBodyWf(item.value.1, item.value.0, parent, at);
    }
  }

  /** One field or child appended to a well-formed block leaves it well formed */
  lemma {:induction false} ParsedItemWf(ts: seq<Token>, blk: Block, parent: Option<Path>, at: Path)
    requires ParseBodyItem(ts, blk, at).Ok? && WfBlock(blk, parent, at)
    ensures WfBlock(ParseBodyItem(ts, blk, at).value.0, parent, at)
    decreases |ts|, 3
  {
    var t := Peek(ts);
    if IsTypeKeyword(t) || (t.Ident? && !StartsChildBlock(ts)) {
      var f := ParseFieldSpec(ts, IsTypeKeyword(t)).value.0;
      ParsedFieldNulFree(ts, IsTypeKeyword(t));
      AppendField(blk, f, parent, at);
    } else {
      var k := |blk.children|;
      ParsedBlockWf(ts, Some(at), at + [k]);
      AppendChild(blk, ParseBlockSpec(ts, Some(at), at + [k]).value.0, parent, at);
    }
  }

  lemma AppendField(blk: Block, f: Field, parent: Option<Path>, at: Path)
    requires WfBlock(blk, parent, at) && NulFreeValue(f.val)
    ensures WfBlock(blk.(fields := blk.fields + [f]), parent, at)
  {
    var fs := blk.fields + [f];
    assert forall i :: 0 <= i < |fs| ==> fs[i] == if i < |blk.fields| then blk.fields[i] else f;
  }

  lemma AppendChild(blk: Block, c: Block, parent: Option<Path>, at: Path)
    requires WfBlock(blk, parent, at) && WfBlock(c, Some(at), at + [|blk.children|])
    ensures WfBlock(blk.(children := blk.children + [c]), parent, at)
  {
    var cs := blk.children + [c];
    assert forall i :: 0 <= i < |cs| ==> cs[i] == if i < |blk.children| then blk.children[i] else c;
  }

  /** parse_all keeps the list of top-level blocks well formed */
  lemma {:induction false} ParsedDocFrom(ts: seq<Token>, blocks: seq<Block>)
    requires ParseDocSpec(ts, blocks).Ok? && WfDoc(blocks)
    ensures WfDoc(ParseDocSpec(ts, blocks).value)
    decreases |ts|
  {
    if !Peek(ts).EOF? {
      var b := ParseBlockSpec(ts, None, [|blocks|]).value;
      ParsedBlockWf(ts, None, [|blocks|]);
      var bs := blocks + [b.0];
      assert forall i :: 0 <= i < |bs| ==> bs[i] == if i < |blocks| then blocks[i] else b.0;
      ParsedDocFrom(b.1, bs);
    }
  }

  /** Every document the parser returns is well formed: each top-level block
      sits at its index with no parent, and each child's parent link is
      the block that holds it */
  lemma ParsedDocWf(src: seq<char>)
    requires ParseSource(src).Ok?
    ensures WfDoc(ParseSource(src).value)
  {
    ParsedDocFrom(Tokenize(src), []);
  }

  /** A value whose token the lexer can spell: an integer that fits in a
      `long`, a string or character without NUL */
  predicate SpellableValue(v: Value) {
    match v
    case VInt(i) => InLongRange(i)
    case VBool(_) => true
    case VString(s) => '\0' !in s
    case VChar(c) => c != '\0'
  }

  /** A block every token of which the lexer can spell: names are identifiers
      and no keyword, the label holds no NUL, and every value is spellable */
  predicate Spellable(b: Block)
    decreases b
  {
    && ValidName(b.name)
    && (b.blockLabel.Some? ==> '\0' !in b.blockLabel.value)
    && (forall i :: 0 <= i < |b.fields| ==> ValidName(b.fields[i].name))
    && (forall i :: 0 <= i < |b.fields| ==> SpellableValue(b.fields[i].val))
    && forall i :: 0 <= i < |b.children| ==> Spellable(b.children[i])
  }

  predicate LexableAll(ts: seq<Token>) {
    forall i :: 0 <= i < |ts| ==> Lexable(ts[i])
  }

  lemma LexableConcat(a: seq<Token>, b: seq<Token>)
    requires LexableAll(a) && LexableAll(b)
    ensures LexableAll(a + b)
  {
    forall i | 0 <= i < |a + b|
      ensures Lexable((a + b)[i])
    {
      if i >= |a| {
        assert (a + b)[i] == b[i - |a|];
      }
    }
  }

  lemma {:induction false} FieldsLexable(fs: seq<Field>)
    requires forall i :: 0 <= i < |fs| ==> ValidName(fs[i].name)
    requires forall i :: 0 <= i < |fs| ==> SpellableValue(fs[i].val)
    ensures LexableAll(FieldsTokens(fs))
  {
    if fs != [] {
      var f := fs[0];
      assert ValidName(f.name) && SpellableValue(f.val);
      assert LexableAll([Ident(f.name), Eq, ValueToken(f.val), Semi]);
      assert LexableAll(if f.ftype.Some? then [TypeToken(f.ftype.value)] else []);
      LexableConcat(if f.ftype.Some? then [TypeToken(f.ftype.value)] else [], [Ident(f.name), Eq, ValueToken(f.val), Semi]);
      FieldsLexable(fs[1..]);
      LexableConcat(FieldTokens(f), FieldsTokens(fs[1..]));
    }
  }

  lemma {:induction false} BlockLexable(b: Block)
    requires Spellable(b)
    ensures LexableAll(BlockTokens(b))
    decreases b, 1, 0
  {
    FieldsLexable(b.fields);
    ChildrenLexable(b, 0);
    var head := [Ident(b.name)] + LabelTokens(b.blockLabel) + [LBrace];
    assert LexableAll(LabelTokens(b.blockLabel));
    LexableConcat([Ident(b.name)], LabelTokens(b.blockLabel));
    LexableConcat([Ident(b.name)] + LabelTokens(b.blockLabel), [LBrace]);
    LexableConcat(head, FieldsTokens(b.fields));
    LexableConcat(head + FieldsTokens(b.fields), ChildrenTokens(b, 0));
    LexableConcat(head + FieldsTokens(b.fields) + ChildrenTokens(b, 0), [RBrace]);
  }

  lemma {:induction false} ChildrenLexable(b: Block, k: nat)
    requires k <= |b.children| && forall i :: 0 <= i < |b.children| ==> Spellable(b.children[i])
    ensures LexableAll(ChildrenTokens(b, k))
    decreases b, 0, |b.children| - k
  {
    if k < |b.children| {
      BlockLexable(b.children[k]);
      ChildrenLexable(b, k + 1);
      LexableConcat(BlockTokens(b.children[k]), ChildrenTokens(b, k + 1));
    }
  }

  lemma {:induction false} DocLexable(bs: seq<Block>)
    requires forall i :: 0 <= i < |bs| ==> Spellable(bs[i])
    ensures LexableAll(DocTokens(bs))
  {
    if bs != [] {
      BlockLexable(bs[0]);
      DocLexable(bs[1..]);
      LexableConcat(BlockTokens(bs[0]), DocTokens(bs[1..]));
    }
  }

  /** The round trip through source text: a well-formed document whose names
      and integers the lexer can spell, written out token by token and parsed
      again, is the same document */
  lemma SourceRoundTrip(bs: seq<Block>)
    requires WfDoc(bs) && forall i :: 0 <= i < |bs| ==> Spellable(bs[i])
    ensures ParseSource(Text(DocTokens(bs))) == Ok(bs)
  {
    DocLexable(bs);
    TokenizeText(DocTokens(bs));
    DocRoundTrip(bs);
  }
}
